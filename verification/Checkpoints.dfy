/** The checkpoint: a run's recorded steps, their encoding, and the step runner over a local store. */
module Checkpoints {
  import opened Wrappers
  import opened Bytes
  import opened Cbor
  import opened CborTheory
  import opened Signing
  import opened Fields

  datatype Step = Step(key: Label, value: Blob)

  predicate DistinctSteps(s: seq<Step>) {
    forall i, j | 0 <= i < j < |s| :: s[i].key != s[j].key
  }

  /** An ordered dictionary from step keys to result bytes. */
  type Steps = s: seq<Step> | |s| < LIMIT && DistinctSteps(s)

  function Find(s: seq<Step>, key: Label): (r: Option<Blob>)
    ensures r.Some? ==> Step(key, r.value) in s
    ensures r.None? <==> forall e | e in s :: e.key != key
  {
    if s == [] then None
    else if s[0].key == key then Some(s[0].value)
    else Find(s[1..], key)
  }

  /** `steps[key] = value`. */
  function Put(s: seq<Step>, key: Label, value: Blob): (r: seq<Step>)
    ensures |s| <= |r| <= |s| + 1
    ensures forall k :: Find(r, k) == if k == key then Some(value) else Find(s, k)
  {
    if s == [] then [Step(key, value)]
    else if s[0].key == key then [Step(key, value)] + s[1..]
    else [s[0]] + Put(s[1..], key, value)
  }

  lemma PutKeepsDistinct(s: seq<Step>, key: Label, value: Blob)
    requires DistinctSteps(s)
    ensures DistinctSteps(Put(s, key, value))
  {
    if Find(s, key).None? {
      PutFresh(s, key, value);
    } else {
      PutKeepsKeys(s, key, value);
    }
  }

  lemma {:induction false} PutKeepsKeys(s: seq<Step>, key: Label, value: Blob)
    requires Find(s, key).Some?
    ensures |Put(s, key, value)| == |s| && forall i | 0 <= i < |s| :: Put(s, key, value)[i].key == s[i].key
  {
    if s[0].key != key {
      PutKeepsKeys(s[1..], key, value);
      hide Find, Put;
      assert forall i | 0 < i < |s| :: s[i] == s[1..][i - 1];
    }
  }

  lemma {:induction false} PutFresh(s: seq<Step>, key: Label, value: Blob)
    requires forall e | e in s :: e.key != key
    ensures Put(s, key, value) == s + [Step(key, value)]
  {
    if s != [] {
      PutFresh(s[1..], key, value);
    }
  }

  // ----- Encoding -----

  const STEP_FIELDS := ["key", "value"]

  const CHECKPOINT_FIELDS := ["run_id", "steps"]

  function StepValue(s: Step): (v: Value)
    ensures Wire(v)
  {
    StructIsWire(STEP_FIELDS, [Text(s.key), Bytes(s.value)]);
    Struct(STEP_FIELDS, [Text(s.key), Bytes(s.value)])
  }

  function StepList(steps: seq<Step>): (items: seq<Value>)
    ensures |items| == |steps| && WireItems(items)
  {
    if steps == [] then [] else
    var rest := StepList(steps[1..]);
    assert WireItems([StepValue(steps[0])] + rest) by {
      var all := [StepValue(steps[0])] + rest;
      assert forall i | 0 < i < |all| :: all[i] == rest[i - 1];
    }
    [StepValue(steps[0])] + rest
  }

  function CheckpointValue(runId: Blob, steps: Steps): (v: Value)
    ensures Wire(v)
  {
    var fields := [Bytes(runId), Array(StepList(steps))];
    StructIsWire(CHECKPOINT_FIELDS, fields);
    Struct(CHECKPOINT_FIELDS, fields)
  }

  function EncodeCheckpoint(runId: Blob, steps: Steps): (b: ByteString)
    ensures b != []
  {
    Enc(CheckpointValue(runId, steps))
  }

  /** What a checkpoint encodes: the run and the list of its steps, under these names. */
  lemma CheckpointLayout(runId: Blob, steps: Steps)
    ensures CheckpointValue(runId, steps) ==
      Map([Named("run_id", Bytes(runId)), Named("steps", Array(StepList(steps)))])
  {
    hide StepList;
    StructEntries(CHECKPOINT_FIELDS, [Bytes(runId), Array(StepList(steps))],
      [Named("run_id", Bytes(runId)), Named("steps", Array(StepList(steps)))]);
  }

  /** A step is listed with its key and its value, under these names. */
  lemma StepLayout(s: Step)
    ensures StepValue(s) == Map([Named("key", Text(s.key)), Named("value", Bytes(s.value))])
  {
    StructEntries(STEP_FIELDS, [Text(s.key), Bytes(s.value)],
      [Named("key", Text(s.key)), Named("value", Bytes(s.value))]);
  }

  /** The steps are listed in the order in which they were recorded. */
  lemma {:induction false} StepsInOrder(steps: seq<Step>, i: nat)
    requires i < |steps|
    ensures StepList(steps)[i] == StepValue(steps[i])
  {
    if i > 0 {
      StepsInOrder(steps[1..], i - 1);
    }
  }

  // ----- Decoding -----

  function FindEntry(entries: seq<Entry>, key: Value): Option<Value> {
    if entries == [] then None
    else if SameKey(entries[0].key, key) then Some(entries[0].value)
    else FindEntry(entries[1..], key)
  }

  /** `v[name]`. */
  function Field(v: Value, name: string): Option<Value>
    requires IsAscii(name)
  {
    if v.Map? then FindEntry(v.entries, Text(Ascii(name))) else None
  }

  function ReadStep(v: Value): Option<Step> {
    var key, value := Field(v, "key"), Field(v, "value");
    if && key.Some? && key.value.Text? && |key.value.utf8| < LIMIT && Utf8(key.value.utf8)
       && value.Some? && value.value.Bytes? && |value.value.bytes| < LIMIT
    then Some(Step(key.value.utf8, value.value.bytes)) else None
  }

  /** The dictionary built from a list of steps; a repeated key overwrites. */
  function ReadSteps(items: seq<Value>, done: seq<Step>): Option<seq<Step>> {
    if items == [] then Some(done) else
    var step := ReadStep(items[0]);
    if step.None? then None else ReadSteps(items[1..], Put(done, step.value.key, step.value.value))
  }

  function DecodeCheckpoint(blob: ByteString): Option<(ByteString, seq<Step>)> {
    var v := Decode(blob);
    if v.Err? then None else
    var runId, steps := Field(v.value, "run_id"), Field(v.value, "steps");
    if runId.None? || !runId.value.Bytes? || steps.None? || !steps.value.Array? then None else
    var read := ReadSteps(steps.value.items, []);
    if read.None? then None else Some((runId.value.bytes, read.value))
  }

  /** The result in the last readable step with this key. */
  function LastListed(items: seq<Value>, key: Label): Option<Blob> {
    if items == [] then None else
    var later, step := LastListed(items[1..], key), ReadStep(items[0]);
    if later.Some? then later
    else if step.Some? && step.value.key == key then Some(step.value.value)
    else None
  }

  /** Every listed step must be readable, and the last one with a key gives its result. */
  lemma {:induction false} LastStepWins(items: seq<Value>, done: seq<Step>, key: Label)
    ensures ReadSteps(items, done).Some? <==> forall v | v in items :: ReadStep(v).Some?
    ensures ReadSteps(items, done).Some? ==>
      Find(ReadSteps(items, done).value, key) ==
        if LastListed(items, key).Some? then LastListed(items, key) else Find(done, key)
  {
    hide ReadStep, Find, Put;
    if items != [] && ReadStep(items[0]).Some? {
      var step := ReadStep(items[0]).value;
      LastStepWins(items[1..], Put(done, step.key, step.value), key);
      assert items == [items[0]] + items[1..];
    }
  }

  lemma TwoFields(names: seq<string>, fields: seq<Value>)
    requires |names| == |fields| == 2 && FieldNames(names)
    ensures Field(Struct(names, fields), names[0]) == Some(fields[0])
    ensures Field(Struct(names, fields), names[1]) == Some(fields[1])
  {
    AsciiInjective(names[0], names[1]);
    var entries := Struct(names, fields).entries;
    assert entries[0] == Entry(Text(Ascii(names[0])), fields[0]);
    assert entries[1..][0] == Entry(Text(Ascii(names[1])), fields[1]);
    assert FindEntry(entries, Text(Ascii(names[1]))) == FindEntry(entries[1..], Text(Ascii(names[1])));
  }

  lemma ReadStepValue(s: Step)
    ensures ReadStep(StepValue(s)) == Some(s)
  {
    TwoFields(STEP_FIELDS, [Text(s.key), Bytes(s.value)]);
  }

  lemma {:induction false} ReadStepList(done: seq<Step>, steps: seq<Step>)
    requires DistinctSteps(done + steps)
    ensures ReadSteps(StepList(steps), done) == Some(done + steps)
    decreases |steps|
  {
    if steps == [] {
      assert done + steps == done;
    } else {
      var s := steps[0];
      ReadStepValue(s);
      var all := done + steps;
      assert all[|done|] == s;
      assert forall i | 0 <= i < |done| :: all[i] == done[i];
      PutFresh(done, s.key, s.value);
      assert done + [s] + steps[1..] == all;
      ReadStepList(done + [s], steps[1..]);
      assert StepList(steps)[1..] == StepList(steps[1..]);
    }
  }

  /** A stored checkpoint reads back as the run and the steps that were saved, in order. */
  lemma DecodeUndoesEncodeCheckpoint(runId: Blob, steps: Steps)
    ensures DecodeCheckpoint(EncodeCheckpoint(runId, steps)) == Some((runId, steps))
  {
    hide Struct, Enc, Decode, Wire, StepList;
    var fields := [Bytes(runId), Array(StepList(steps))];
    DecodeUndoesEncode(CheckpointValue(runId, steps));
    TwoFields(CHECKPOINT_FIELDS, fields);
    assert [] + steps == steps;
    ReadStepList([], steps);
  }

  // ----- Step results -----

  /** The bytes recorded for a result: none for a missing value, else its encoding. */
  function Stored(v: Value): ByteString
    requires Encodable(v)
  {
    if v == Null then [] else Enc(v)
  }

  /** The result a replayed step returns. */
  function Recall(b: ByteString): Result<Value, DecodeError> {
    if b == [] then Ok(Null) else Decode(b)
  }

  /** A replayed step returns what the first run returned. Only the missing value is recorded as no bytes; any other
      is recorded as its encoding. */
  lemma RecallUndoesStored(v: Value)
    requires Wire(v)
    ensures Recall(Stored(v)) == Ok(v)
    ensures Stored(v) == if v == Null then [] else Enc(v)
  {
    DecodeUndoesEncode(v);
  }

  // ----- Positional keys -----

  function Decimal(n: nat): (r: ByteString)
    ensures r != [] && forall i | 0 <= i < |r| :: 0x30 <= r[i] <= 0x39
  {
    if n < 10 then [0x30 + n] else Decimal(n / 10) + [0x30 + n % 10]
  }

  /** The key of the step at position `n`: `#0`, `#1`, ... */
  function PositionKey(n: nat): (key: Utf8Text)
    ensures Utf8(key)
  {
    AsciiIsUtf8([0x23] + Decimal(n));
    [0x23] + Decimal(n)
  }

  lemma {:induction false} DecimalInjective(m: nat, n: nat)
    requires Decimal(m) == Decimal(n)
    ensures m == n
  {
    var a, b := Decimal(m), Decimal(n);
    assert m % 10 == a[|a| - 1] - 0x30 == n % 10;
    if m >= 10 && n >= 10 {
      assert Decimal(m / 10) == a[..|a| - 1] == Decimal(n / 10);
      DecimalInjective(m / 10, n / 10);
    }
  }

  lemma PositionKeyInjective(m: nat, n: nat)
    ensures PositionKey(m) == PositionKey(n) <==> m == n
  {
    if PositionKey(m) == PositionKey(n) {
      assert Decimal(m) == PositionKey(m)[1..] == PositionKey(n)[1..] == Decimal(n);
      DecimalInjective(m, n);
    }
  }

  // ----- What a positional key reads as -----

  /** Digits read from left to right, behind what `acc` has already read. */
  function Numeral(digits: ByteString, acc: int): int {
    if digits == [] then acc else Numeral(digits[1..], 10 * acc + digits[0] - 0x30)
  }

  lemma {:induction false} NumeralSnoc(digits: ByteString, d: Byte, acc: int)
    ensures Numeral(digits + [d], acc) == 10 * Numeral(digits, acc) + d - 0x30
    decreases |digits|
  {
    if digits == [] {
      assert ([] + [d])[1..] == [];
    } else {
      assert (digits + [d])[1..] == digits[1..] + [d];
      NumeralSnoc(digits[1..], d, 10 * acc + digits[0] - 0x30);
    }
  }

  lemma {:induction false} DecimalReads(n: nat)
    ensures Numeral(Decimal(n), 0) == n && (n > 0 ==> Decimal(n)[0] != 0x30)
  {
    if n >= 10 {
      DecimalReads(n / 10);
      NumeralSnoc(Decimal(n / 10), 0x30 + n % 10, 0);
    } else {
      assert [0x30 + n][1..] == [];
    }
  }

  /** The key of position `n` is a number sign and the decimal numeral of `n`, without leading zeros. */
  lemma PositionKeyReads(n: nat)
    ensures
      var key := PositionKey(n);
      && |key| >= 2 && key[0] == 0x23
      && (forall i | 1 <= i < |key| :: 0x30 <= key[i] <= 0x39)
      && (|key| > 2 ==> key[1] != 0x30)
      && Numeral(key[1..], 0) == n
  {
    DecimalReads(n);
    assert PositionKey(n)[1..] == Decimal(n);
  }

  // ----- The core's data primitive -----

  /** The core's checkpoint: recording is idempotent on the key. */
  class RunRecord {
    var steps: seq<Step>

    constructor ()
      ensures steps == []
    {
      steps := [];
    }

    function Replay(key: Label): (r: Option<Blob>)
      reads this
    {
      Find(steps, key)
    }

    /** The first write wins: recorded keys keep their value, and a new one is appended. */
    method Record(key: Label, value: Blob)
      modifies this
      ensures Find(steps, key) == if Find(old(steps), key).Some? then Find(old(steps), key) else Some(value)
      ensures forall k | k != key :: Find(steps, k) == Find(old(steps), k)
      ensures steps == if Find(old(steps), key).Some? then old(steps) else old(steps) + [Step(key, value)]
      ensures DistinctSteps(old(steps)) ==> DistinctSteps(steps)
    {
      if Replay(key).None? {
        PutFresh(steps, key, value);
        steps := steps + [Step(key, value)];
      }
    }

    function NextKey(): Utf8Text
      reads this
    {
      PositionKey(|steps|)
    }
  }

  /** Every step was recorded under its own position. */
  predicate Sequential(steps: seq<Step>) {
    forall i | 0 <= i < |steps| :: steps[i].key == PositionKey(i)
  }

  /** The length-based next key is unused as long as every step was recorded under its own position. */
  lemma SequentialKeysAreFresh(steps: seq<Step>, key: Label, value: Blob)
    requires Sequential(steps) && key == PositionKey(|steps|)
    ensures DistinctSteps(steps) && Find(steps, key).None? && Sequential(steps + [Step(key, value)])
  {
    hide PositionKey, Find;
    forall i, j | 0 <= i < j <= |steps| ensures PositionKey(i) != PositionKey(j) {
      PositionKeyInjective(i, j);
    }
  }

  /** Otherwise the next key may be taken: after one concurrent step finished out of order, `#1` is proposed again. */
  lemma OutOfOrderKeyIsTaken(value: Blob)
    ensures
      var key := PositionKey(1);
      |key| < LIMIT && var steps := [Step(key, value)]; Find(steps, PositionKey(|steps|)) == Some(value)
  {
    assert PositionKey(1) == [0x23, 0x31];
  }

  // ----- The step runner -----

  /** The local store: canonical checkpoint bytes by run. */
  class DictStore {
    var runs: map<Blob, ByteString>

    constructor ()
      ensures runs == map[]
    {
      runs := map[];
    }

    method Load(runId: Blob) returns (blob: Option<ByteString>)
      ensures blob == if runId in runs then Some(runs[runId]) else None
    {
      return if runId in runs then Some(runs[runId]) else None;
    }

    method Save(runId: Blob, blob: ByteString)
      modifies this
      ensures runs == old(runs)[runId := blob]
    {
      runs := runs[runId := blob];
    }
  }

  /** One opened run. `Begin` and `Finish` are the two halves of a step around the await of its function:
      neither half is interrupted. */
  class Checkpoint {
    const store: DictStore
    const runId: Blob
    var steps: seq<Step>
    var position: nat

    constructor (store: DictStore, runId: Blob, steps: seq<Step>)
      ensures this.store == store && this.runId == runId && this.steps == steps && position == 0
    {
      this.store, this.runId, this.steps, position := store, runId, steps, 0;
    }

    /** Start or resume a run. `None` stands for the exception on a blob that is not a checkpoint. */
    static method Open(store: DictStore, runId: Blob) returns (cp: Option<Checkpoint>)
      ensures cp.Some? <==>
        (runId in store.runs && store.runs[runId] != [] ==> DecodeCheckpoint(store.runs[runId]).Some?)
      ensures cp.Some? ==>
        && fresh(cp.value) && cp.value.store == store && cp.value.runId == runId && cp.value.position == 0
        && cp.value.steps ==
             if runId in store.runs && store.runs[runId] != [] then DecodeCheckpoint(store.runs[runId]).value.1 else []
    {
      var blob := store.Load(runId);
      var steps := [];
      if blob.Some? && blob.value != [] {
        var read := DecodeCheckpoint(blob.value);
        if read.None? {
          return None;
        }
        steps := read.value.1;
      }
      var handle := new Checkpoint(store, runId, steps);
      return Some(handle);
    }

    /** Up to the await: pick the key, and replay the step if it was recorded. Without a replay the caller
        goes on to run the step's function. */
    method Begin(explicitKey: Option<Utf8Text>) returns (key: Utf8Text, replay: Option<Result<Value, DecodeError>>)
      requires explicitKey.Some? ==> |explicitKey.value| < LIMIT && Utf8(explicitKey.value)
      requires explicitKey.None? ==> |PositionKey(position)| < LIMIT
      modifies this`position
      ensures key == if explicitKey.Some? then explicitKey.value else PositionKey(old(position))
      ensures explicitKey.None? ==> key != [] && key[0] == 0x23 && Numeral(key[1..], 0) == old(position)
      ensures position == if explicitKey.Some? then old(position) else old(position) + 1
      ensures |key| < LIMIT && Utf8(key)
      ensures replay == match Find(steps, key) case None => None case Some(b) => Some(Recall(b))
    {
      if explicitKey.None? {
        PositionKeyReads(position);
        key, position := PositionKey(position), position + 1;
      } else {
        key := explicitKey.value;
      }
      var recorded := Find(steps, key);
      if recorded.Some? {
        return key, Some(Recall(recorded.value));
      }
      return key, None;
    }

    /** Behind the await: record the function's result and save the run. A result that cannot be encoded, or
        sizes beyond 64 bits, raise; then nothing is recorded. */
    method Finish(key: Label, value: Value) returns (ok: bool)
      requires |steps| < LIMIT && DistinctSteps(steps)
      modifies this`steps, store
      ensures ok <==> Encodable(value) && |Enc(value)| < LIMIT && |old(steps)| + 1 < LIMIT
      ensures !ok ==> steps == old(steps) && store.runs == old(store.runs)
      ensures ok ==>
        && steps == Put(old(steps), key, Stored(value)) && |steps| < LIMIT && DistinctSteps(steps)
        && store.runs == old(store.runs)[runId := EncodeCheckpoint(runId, steps)]
    {
      var encoded := Encode(value);
      if encoded.None? || |encoded.value| >= LIMIT || |steps| + 1 >= LIMIT {
        return false;
      }
      PutKeepsDistinct(steps, key, Stored(value));
      steps := Put(steps, key, if value == Null then [] else encoded.value);
      store.Save(runId, EncodeCheckpoint(runId, steps));
      return true;
    }
  }

  // ----- Steps as a log of positions -----

  /** The recorded steps hold exactly the results of the positions in `log`. */
  ghost predicate Shows(steps: seq<Step>, log: map<nat, Value>) {
    forall n: nat | |PositionKey(n)| < LIMIT ::
      match Find(steps, PositionKey(n))
      case None => n !in log
      case Some(b) => n in log && Recall(b) == Ok(log[n])
  }

  /** Finishing a positional step adds its result to the log it shows and leaves the other positions alone. */
  lemma FinishShows(steps: seq<Step>, log: map<nat, Value>, n: nat, value: Value)
    requires Shows(steps, log) && Wire(value) && |PositionKey(n)| < LIMIT && |Stored(value)| < LIMIT
    ensures Shows(Put(steps, PositionKey(n), Stored(value)), log[n := value])
  {
    hide Stored, Recall, PositionKey, Put, Find;
    RecallUndoesStored(value);
    var key := PositionKey(n);
    var steps' := Put(steps, key, Stored(value));
    forall m: nat | |PositionKey(m)| < LIMIT
      ensures
        match Find(steps', PositionKey(m))
        case None => m !in log[n := value]
        case Some(b) => m in log[n := value] && Recall(b) == Ok(log[n := value][m])
    {
      PositionKeyInjective(m, n);
    }
  }
}
