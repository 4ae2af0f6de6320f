/** The step runner carries out the transition system of durable runs: what the handles and their store hold shows the
    state of all openings of a run, through every step and every reopening. */
module DurableSteps {
  import opened Wrappers
  import opened Bytes
  import opened Cbor
  import opened Fields
  import opened Checkpoints
  import opened DurableRuns
  import opened Reopenings

  ghost predicate Sound(steps: seq<Step>) {
    |steps| < LIMIT && DistinctSteps(steps)
  }

  /** Opening the run now would show this log. */
  ghost predicate Persisted(store: DictStore, runId: Blob, log: map<nat, Value>)
    reads store
  {
    if runId in store.runs && store.runs[runId] != [] then
      var read := DecodeCheckpoint(store.runs[runId]);
      read.Some? && Sound(read.value.1) && Shows(read.value.1, log)
    else Shows([], log)
  }

  /** The handle is at the workflow's position and holds its steps. */
  ghost predicate Holds(cp: Checkpoint, h: Run)
    reads cp
  {
    cp.position == h.base + h.started && Sound(cp.steps) && Shows(cp.steps, h.log)
  }

  /** The handles opened so far are those of the system, over a store that holds its log. */
  ghost predicate Represents(cps: seq<Checkpoint>, store: DictStore, runId: Blob, s: System)
    reads cps, store
  {
    && |cps| == |s.handles| && Persisted(store, runId, s.log)
    && (forall i, j | 0 <= i < j < |cps| :: cps[i] != cps[j])
    && (forall i | 0 <= i < |cps| :: cps[i].store == store && cps[i].runId == runId && Holds(cps[i], s.handles[i]))
  }

  /** The next step of a batch begins: it gets the next position, and replays exactly what its handle holds. */
  method BeginStep(
    cp: Checkpoint, ghost cps: seq<Checkpoint>, ghost i: nat, store: DictStore, runId: Blob, ghost prog: Program,
    ghost s: System)
    returns (p: nat, replay: Option<Result<Value, DecodeError>>)
    requires Represents(cps, store, runId, s) && After(prog, s, Do(i, Begin)).Some? && cps[i] == cp
    requires |PositionKey(cp.position)| < LIMIT
    modifies cp`position
    ensures Represents(cps, store, runId, After(prog, s, Do(i, Begin)).value)
    ensures p == s.handles[i].base + s.handles[i].started
    ensures replay == if p in s.handles[i].log then Some(Ok(s.handles[i].log[p])) else None
    ensures Called(s, Do(i, Begin)) == if replay.None? then Some(p) else None
  {
    hide Find, PositionKey, Recall, Persisted;
    p := cp.position;
    var key;
    key, replay := cp.Begin(None);
  }

  /** A step's function returned. Its handle records it and saves all it holds; a result that cannot be stored counts as
      raised. */
  method FinishStep(
    cp: Checkpoint, ghost cps: seq<Checkpoint>, ghost i: nat, store: DictStore, runId: Blob, p: nat, v: Value,
    ghost prog: Program, ghost s: System)
    returns (ok: bool)
    requires Represents(cps, store, runId, s) && i < |cps| && cps[i] == cp && p in s.handles[i].running
    requires Wire(v) && |PositionKey(p)| < LIMIT
    modifies cp`steps, store
    ensures Represents(cps, store, runId, After(prog, s, Do(i, if ok then Finish(p, v) else Raise(p))).value)
    ensures ok <==> |Enc(v)| < LIMIT && |old(cp.steps)| + 1 < LIMIT
  {
    hide Find, PositionKey, Recall, Stored, Put, DecodeCheckpoint, EncodeCheckpoint, Enc, Shows, WellFormed;
    ghost var steps := cp.steps;
    ok := cp.Finish(PositionKey(p), v);
    if ok {
      StoredFits(v);
      FinishShows(steps, s.handles[i].log, p, v);
      DecodeUndoesEncodeCheckpoint(runId, cp.steps);
    }
  }

  lemma StoredFits(v: Value)
    requires Encodable(v) && |Enc(v)| < LIMIT
    ensures |Stored(v)| < LIMIT
  {
  }

  /** The run is opened once more, at whatever time: the new handle starts over on what is persisted. */
  method ReopenRun(ghost cps: seq<Checkpoint>, store: DictStore, runId: Blob, ghost s: System)
    returns (cp: Option<Checkpoint>)
    requires Represents(cps, store, runId, s)
    ensures cp.Some? && fresh(cp.value) && Represents(cps + [cp.value], store, runId, Reopened(s))
  {
    hide Find, PositionKey, Recall, DecodeCheckpoint, Shows;
    cp := Checkpoint.Open(store, runId);
  }

  /** A batch that completes, an exception and a crash change neither the steps of any handle nor the store. */
  lemma OtherActsChangeNothing(
    cps: seq<Checkpoint>, store: DictStore, runId: Blob, prog: Program, s: System, a: Act)
    requires Represents(cps, store, runId, s) && After(prog, s, a).Some?
    requires a.Crash? || (a.Do? && (a.e.Advance? || a.e.Raise?))
    ensures Represents(cps, store, runId, After(prog, s, a).value)
  {
    hide Persisted, Shows, Sound;
  }

  lemma UnsavedIsEmpty(store: DictStore, runId: Blob)
    requires runId !in store.runs
    ensures Persisted(store, runId, map[])
  {
  }

  /** A run that was never saved is opened for the first time, on the empty log. */
  method StartRun(store: DictStore, runId: Blob) returns (cp: Option<Checkpoint>)
    requires runId !in store.runs
    ensures cp.Some? && fresh(cp.value) && Represents([cp.value], store, runId, Reopened(START))
  {
    UnsavedIsEmpty(store, runId);
    cp := ReopenRun([], store, runId, START);
    assert [] + [cp.value] == [cp.value];
  }
}
