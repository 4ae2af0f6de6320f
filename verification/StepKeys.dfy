/** When the two implementations propose the same next key: the core by the number of recorded steps, the SDK by its
    position counter. */
module StepKeys {
  import opened Wrappers
  import opened Bytes
  import opened Cbor
  import opened Collections
  import opened Fields
  import opened Checkpoints

  /** On the same steps the two next keys are equal exactly when as many steps are recorded as positions were taken. */
  lemma NextKeysAgreeIff(record: RunRecord, cp: Checkpoint)
    requires record.steps == cp.steps
    ensures record.NextKey() == PositionKey(cp.position) <==> |cp.steps| == cp.position
  {
    PositionKeyInjective(|cp.steps|, cp.position);
  }

  // ----- Runs of steps one after the other -----

  /** A step with its explicit key, if it has one, and the result it has if its function is called. */
  datatype Call = Call(key: Option<Label>, result: Blob)

  /** What a handle holds, and its position counter. */
  datatype Cursor = Cursor(steps: seq<Step>, position: nat)

  lemma {:induction false} DecimalLength(n: nat)
    ensures |Decimal(n)| <= n + 1
  {
    if n >= 10 {
      DecimalLength(n / 10);
    }
  }

  function KeyAt(position: nat): Label
    requires position + 2 < LIMIT
  {
    DecimalLength(position);
    PositionKey(position)
  }

  /** One step from beginning to end: replayed when its key is recorded, and recorded otherwise. */
  function Stepped(c: Cursor, call: Call): Cursor
    requires c.position + 2 < LIMIT
  {
    var key := if call.key.Some? then call.key.value else KeyAt(c.position);
    Cursor(
      if Find(c.steps, key).Some? then c.steps else Put(c.steps, key, call.result),
      if call.key.Some? then c.position else c.position + 1)
  }

  function RunCalls(c: Cursor, calls: seq<Call>): Cursor
    requires c.position + |calls| + 2 < LIMIT
    decreases |calls|
  {
    if calls == [] then c else RunCalls(Stepped(c, calls[0]), calls[1..])
  }

  predicate IsTaken(key: Label, position: nat) {
    exists m: nat | m < position :: key == PositionKey(m)
  }

  /** The keys are distinct, and every position taken so far is recorded. */
  ghost predicate AtRest(c: Cursor) {
    DistinctSteps(c.steps) && forall m: nat | m < c.position :: RecordedAt(c.steps, m)
  }

  ghost predicate RecordedAt(steps: seq<Step>, m: nat) {
    exists e | e in steps :: e.key == PositionKey(m)
  }

  lemma SteppedIsAtRest(c: Cursor, call: Call)
    requires AtRest(c) && c.position + 2 < LIMIT
    ensures AtRest(Stepped(c, call))
  {
    hide PositionKey, Put;
    var key := if call.key.Some? then call.key.value else KeyAt(c.position);
    var next := Stepped(c, call);
    PutKeepsDistinct(c.steps, key, call.result);
    if Find(c.steps, key).None? {
      PutFresh(c.steps, key, call.result);
      assert next.steps == c.steps + [Step(key, call.result)];
      assert next.steps[|c.steps|].key == key;
    }
    forall m: nat | m < next.position ensures RecordedAt(next.steps, m) {
      if m < c.position {
        assert RecordedAt(c.steps, m);
        var e :| e in c.steps && e.key == PositionKey(m);
        assert e in next.steps;
      }
    }
  }

  lemma {:induction false} RunIsAtRest(c: Cursor, calls: seq<Call>)
    requires AtRest(c) && c.position + |calls| + 2 < LIMIT
    ensures AtRest(RunCalls(c, calls))
    decreases |calls|
  {
    hide AtRest, Stepped;
    if calls != [] {
      SteppedIsAtRest(c, calls[0]);
      assert Stepped(c, calls[0]).position <= c.position + 1 by { PositionMoves(c, calls[0]); }
      RunIsAtRest(Stepped(c, calls[0]), calls[1..]);
    }
  }

  lemma PositionMoves(c: Cursor, call: Call)
    requires c.position + 2 < LIMIT
    ensures Stepped(c, call).position <= c.position + 1
  {
  }

  function KeysOf(steps: seq<Step>): set<Utf8Text> {
    set e | e in steps :: e.key
  }

  function TakenKeys(position: nat): set<Utf8Text> {
    set m: nat | m < position :: PositionKey(m)
  }

  lemma {:induction false} KeysCount(steps: seq<Step>)
    requires DistinctSteps(steps)
    ensures |KeysOf(steps)| == |steps|
  {
    if steps != [] {
      var n := |steps| - 1;
      KeysCount(steps[..n]);
      assert KeysOf(steps) == KeysOf(steps[..n]) + {steps[n].key};
    }
  }

  lemma {:induction false} TakenKeysCount(position: nat)
    ensures |TakenKeys(position)| == position
  {
    hide PositionKey;
    if position > 0 {
      TakenKeysCount(position - 1);
      assert TakenKeys(position) == TakenKeys(position - 1) + {PositionKey(position - 1)};
      forall m: nat | m < position - 1 ensures PositionKey(m) != PositionKey(position - 1) {
        PositionKeyInjective(m, position - 1);
      }
    }
  }

  /** At rest, the counts are equal exactly when nothing is recorded but positions that were taken. */
  lemma CountsAgreeIff(c: Cursor)
    requires AtRest(c)
    ensures |c.steps| == c.position <==> forall e | e in c.steps :: IsTaken(e.key, c.position)
  {
    hide PositionKey;
    var keys, taken := KeysOf(c.steps), TakenKeys(c.position);
    KeysCount(c.steps);
    TakenKeysCount(c.position);
    forall m: nat | m < c.position ensures PositionKey(m) in keys {
      assert RecordedAt(c.steps, m);
    }
    if |c.steps| == c.position {
      SameSizeSubset(taken, keys);
      forall e | e in c.steps ensures IsTaken(e.key, c.position) {
        assert e.key in taken;
      }
    }
    if forall e | e in c.steps :: IsTaken(e.key, c.position) {
      assert keys == taken;
    }
  }

  /** A run opened on whatever was recorded, after any steps one after the other, with positional or explicit keys: the
      two implementations propose the same next key exactly when everything recorded is a position taken since the
      opening. */
  lemma NextKeysAgreeInRunIff(recorded: seq<Step>, calls: seq<Call>)
    requires DistinctSteps(recorded) && |calls| + 2 < LIMIT
    ensures
      var c := RunCalls(Cursor(recorded, 0), calls);
      PositionKey(|c.steps|) == PositionKey(c.position) <==> forall e | e in c.steps :: IsTaken(e.key, c.position)
  {
    hide PositionKey, AtRest;
    var start := Cursor(recorded, 0);
    assert AtRest(start) by { OpeningIsAtRest(recorded); }
    RunIsAtRest(start, calls);
    var c := RunCalls(start, calls);
    CountsAgreeIff(c);
    PositionKeyInjective(|c.steps|, c.position);
  }

  lemma OpeningIsAtRest(recorded: seq<Step>)
    requires DistinctSteps(recorded)
    ensures AtRest(Cursor(recorded, 0))
  {
  }

  /** A sequential run that is opened again: the stored blob gives one step back, the SDK starts over at `#0`, and the
      core proposes `#1`. */
  lemma ReopenedRunDisagrees(runId: Blob, result: Blob)
    ensures
      var steps := [Step(KeyAt(0), result)];
      && Sequential(steps) && DecodeCheckpoint(EncodeCheckpoint(runId, steps)) == Some((runId, steps))
      && PositionKey(|steps|) != PositionKey(0)
  {
    hide PositionKey, DecodeCheckpoint, EncodeCheckpoint;
    DecodeUndoesEncodeCheckpoint(runId, [Step(KeyAt(0), result)]);
    PositionKeyInjective(1, 0);
  }

  /** So does a run after one step with an explicit key. */
  lemma ExplicitKeyDisagrees(key: Label, result: Blob)
    ensures
      var c := RunCalls(Cursor([], 0), [Call(Some(key), result)]);
      PositionKey(|c.steps|) != PositionKey(c.position)
  {
    hide PositionKey;
    var calls := [Call(Some(key), result)];
    assert calls[1..] == [];
    var c := Stepped(Cursor([], 0), calls[0]);
    assert RunCalls(Cursor([], 0), calls) == RunCalls(c, []) == c;
    PositionKeyInjective(1, 0);
  }
}
