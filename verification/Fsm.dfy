/** The replicated deduplication state machine (internal/raft/fsm.go). */
module Fsm {
  import opened Wrappers
  import opened Json
  import opened Messages

  type Table = map<string, ProcessedOrder>

  datatype UpsertResult = UpsertResult(duplicate: bool, orderId: string)

  datatype Step = Step(table: Table, answer: UpsertResult)

  /** What a log entry asks for: an upsert, or nothing the machine understands. An entry of the
      second kind is answered with the order id that was read before decoding failed. */
  datatype Request = Upsert(cmd: UpsertCommand) | Rejected(orderId: string)

  function ReadEntry(data: Json): Request {
    var env := DecodeCommand(data);
    if env.ok && env.value.kind == UPSERT_KIND then
      var u := DecodeUpsert(env.value.payload);
      if u.ok then Upsert(u.value) else Rejected(u.value.orderId)
    else Rejected("")
  }

  function ReadLog(log: seq<Json>): (r: seq<Request>)
    ensures |r| == |log| && forall i | 0 <= i < |log| :: r[i] == ReadEntry(log[i])
  {
    seq(|log|, i requires 0 <= i < |log| => ReadEntry(log[i]))
  }

  function RecordOf(u: UpsertCommand): ProcessedOrder {
    ProcessedOrder(u.orderId, u.commandEventId, u.status, u.reason, u.ts)
  }

  function ApplyEntry(t: Table, entry: Request): Step {
    match entry
    case Rejected(o) => Step(t, UpsertResult(false, o))
    case Upsert(u) =>
      if u.orderId in t then Step(t, UpsertResult(true, u.orderId))
      else Step(t[u.orderId := RecordOf(u)], UpsertResult(false, u.orderId))
  }

  /** The table after applying `log` to `t`, entry by entry. */
  function Replay(t: Table, log: seq<Request>): Table {
    if log == [] then t else ApplyEntry(Replay(t, log[..|log| - 1]), log[|log| - 1]).table
  }

  /** The answers given on the way. */
  function Answers(t: Table, log: seq<Request>): (r: seq<UpsertResult>)
    ensures |r| == |log|
  {
    if log == [] then []
    else Answers(t, log[..|log| - 1]) + [ApplyEntry(Replay(t, log[..|log| - 1]), log[|log| - 1]).answer]
  }

  // ----- a log replayed in two parts -----

  /** Stopping anywhere, keeping only the table, and going on gives the same table and answers. */
  lemma {:induction false} ReplaySplit(t: Table, a: seq<Request>, b: seq<Request>)
    ensures Replay(t, a + b) == Replay(Replay(t, a), b)
    ensures Answers(t, a + b) == Answers(t, a) + Answers(Replay(t, a), b)
  {
    if b == [] {
      assert a + b == a;
    } else {
      var b' := b[..|b| - 1];
      assert (a + b)[..|a + b| - 1] == a + b';
      ReplaySplit(t, a, b');
    }
  }

  lemma ReplayAppend(t: Table, log: seq<Request>, entry: Request)
    ensures Replay(t, log + [entry]) == ApplyEntry(Replay(t, log), entry).table
    ensures Answers(t, log + [entry]) == Answers(t, log) + [ApplyEntry(Replay(t, log), entry).answer]
  {
    assert (log + [entry])[..|log|] == log;
  }

  lemma SplitAround(t: Table, a: seq<Request>, entry: Request, b: seq<Request>)
    ensures var here := ApplyEntry(Replay(t, a), entry);
            && Replay(t, a + [entry] + b) == Replay(here.table, b)
            && Answers(t, a + [entry] + b) == Answers(t, a) + [here.answer] + Answers(here.table, b)
  {
    ReplayAppend(t, a, entry);
    ReplaySplit(t, a + [entry], b);
  }

  /** Answers depend only on the log up to their entry. */
  lemma {:induction false} AnswerAt(t: Table, log: seq<Request>, i: nat)
    requires i < |log|
    ensures Answers(t, log)[i] == ApplyEntry(Replay(t, log[..i]), log[i]).answer
  {
    if i < |log| - 1 {
      AnswerAt(t, log[..|log| - 1], i);
      assert log[..|log| - 1][..i] == log[..i];
    }
  }

  /** A longer log keeps every record: `i <= j` prefixes give contained tables. */
  lemma {:induction false} PrefixContained(t: Table, log: seq<Request>, i: nat, j: nat)
    requires i <= j <= |log|
    ensures forall o :: o in Replay(t, log[..i]) ==>
              o in Replay(t, log[..j]) && Replay(t, log[..j])[o] == Replay(t, log[..i])[o]
  {
    if i < j {
      PrefixContained(t, log, i, j - 1);
      assert log[..j][..j - 1] == log[..j - 1];
    }
  }

  // ----- first writer wins -----

  predicate Upserts(log: seq<Request>, i: nat, o: string)
    requires i < |log|
  {
    log[i].Upsert? && log[i].cmd.orderId == o
  }

  /** Entry `i` is the first upsert of its order. */
  predicate FirstAt(log: seq<Request>, i: nat)
    requires i < |log|
  {
    log[i].Upsert? && forall j: nat | j < i :: !Upserts(log, j, log[i].cmd.orderId)
  }

  /** The table holds exactly the orders some entry upserts. */
  lemma {:induction false} TableKeys(log: seq<Request>, o: string)
    ensures o in Replay(map[], log) <==> exists i: nat | i < |log| :: Upserts(log, i, o)
  {
    if log != [] {
      var front := log[..|log| - 1];
      TableKeys(front, o);
      if i: nat :| i < |front| && Upserts(front, i, o) {
        assert Upserts(log, i, o);
      } else if i: nat :| i < |log| && Upserts(log, i, o) && i < |front| {
        assert Upserts(front, i, o);
      } else if Upserts(log, |log| - 1, o) {
        assert o in Replay(map[], log);
      }
    }
  }

  /** An entry is answered "duplicate" exactly when it upserts an order an earlier entry upserted. */
  lemma DuplicateExactly(log: seq<Request>, i: nat)
    requires i < |log|
    ensures Answers(map[], log)[i].duplicate <==> log[i].Upsert? && !FirstAt(log, i)
  {
    AnswerAt(map[], log, i);
    if log[i].Upsert? {
      var o := log[i].cmd.orderId;
      TableKeys(log[..i], o);
      forall j: nat | j < i ensures Upserts(log[..i], j, o) == Upserts(log, j, o) {}
    }
  }

  /** Each order is bound to the fields of its first upsert, whatever comes later. */
  lemma FirstWriterWins(log: seq<Request>, i: nat)
    requires i < |log| && FirstAt(log, i)
    ensures var u := log[i].cmd;
            && u.orderId in Replay(map[], log)
            && var p := Replay(map[], log)[u.orderId];
               && p.orderId == u.orderId && p.commandEventId == u.commandEventId
               && p.status == u.status && p.reason == u.reason && p.firstSeenTs == u.ts
  {
    var u := log[i].cmd;
    DuplicateExactly(log, i);
    AnswerAt(map[], log, i);
    assert log[..i + 1][..i] == log[..i];
    PrefixContained(map[], log, i + 1, |log|);
    assert log[..|log|] == log;
  }

  /** An answer names the order of its entry; for an entry that asks for nothing it is "not a duplicate". */
  lemma AnswerNamesOrder(log: seq<Request>, i: nat)
    requires i < |log|
    ensures log[i].Upsert? ==> Answers(map[], log)[i].orderId == log[i].cmd.orderId
    ensures log[i].Rejected? ==> Answers(map[], log)[i] == UpsertResult(false, log[i].orderId)
  {
    AnswerAt(map[], log, i);
  }

  /** The log reduced to the first upsert of each order. */
  function Firsts(log: seq<Request>): seq<Request> {
    if log == [] then []
    else Firsts(log[..|log| - 1]) + (if FirstAt(log, |log| - 1) then [log[|log| - 1]] else [])
  }

  /** Dropping junk and repeats changes nothing: the reduced log gives the same table, never
      answers "duplicate", and has as many entries as the table has orders. */
  lemma {:induction false} FirstsSuffice(log: seq<Request>)
    ensures Replay(map[], Firsts(log)) == Replay(map[], log)
    ensures |Firsts(log)| == |Replay(map[], log)|
    ensures forall k | 0 <= k < |log| && FirstAt(log, k) :: log[k] in Firsts(log)
    ensures forall r | r in Answers(map[], Firsts(log)) :: !r.duplicate
  {
    if log != [] {
      var n := |log| - 1;
      var front := log[..n];
      FirstsSuffice(front);
      forall k | 0 <= k < n && FirstAt(log, k) ensures log[k] in Firsts(log) {
        assert forall j: nat | j < k :: Upserts(front, j, log[k].cmd.orderId) == Upserts(log, j, log[k].cmd.orderId);
        assert FirstAt(front, k) && front[k] in Firsts(front);
      }
      DuplicateExactly(log, n);
      AnswerAt(map[], log, n);
      assert Replay(map[], log) == ApplyEntry(Replay(map[], front), log[n]).table;
      if FirstAt(log, n) {
        ReplayAppend(map[], Firsts(front), log[n]);
      } else {
        assert Firsts(log) == Firsts(front);
      }
    }
  }

  /** Removing one repeat from the middle of a log changes neither the table nor any other answer. */
  lemma DropRepeat(a: seq<Request>, repeat: Request, b: seq<Request>)
    requires !FirstAt(a + [repeat] + b, |a|) && repeat.Upsert?
    ensures Answers(map[], a + [repeat] + b)
              == Answers(map[], a) + [UpsertResult(true, repeat.cmd.orderId)] + Answers(Replay(map[], a), b)
    ensures Answers(map[], a + b) == Answers(map[], a) + Answers(Replay(map[], a), b)
    ensures Replay(map[], a + b) == Replay(map[], a + [repeat] + b)
  {
    var log := a + [repeat] + b;
    DuplicateExactly(log, |a|);
    AnswerAt(map[], log, |a|);
    assert log[..|a|] == a;
    SplitAround(map[], a, repeat, b);
    ReplaySplit(map[], a, b);
  }

  // ----- reading entries -----

  /** Only an upsert is understood: an entry that does not decode or is of another kind asks for nothing and
      names no order, an upsert with a field of the wrong type names the order it has read. */
  lemma OnlyUpsertsRead(kind: string, payload: Json, orderId: string, n: int)
    ensures ReadEntry(Malformed) == ReadEntry(Other) == ReadEntry(Str(kind)) == ReadEntry(Null) == Rejected("")
    ensures kind != "UPSERT_PROCESSED_ORDER" ==> ReadEntry(EncodeCommand(kind, payload)) == Rejected("")
    ensures ReadEntry(EncodeCommand("UPSERT_PROCESSED_ORDER", Malformed)) == Rejected("")
    ensures ReadEntry(EncodeCommand("UPSERT_PROCESSED_ORDER", Obj([("order_id", Str(orderId)), ("status", Int(n))])))
         == Rejected(orderId)
  {
    EnvelopeRoundTrip(kind, payload);
    EnvelopeRoundTrip("UPSERT_PROCESSED_ORDER", Malformed);
    var fs := [("order_id", Str(orderId)), ("status", Int(n))];
    EnvelopeRoundTrip("UPSERT_PROCESSED_ORDER", Obj(fs));
    assert fs[0].0 == "order_id" && fs[1].0 == "status";
    AllFields(fs);
  }

  // ----- snapshots -----

  /** The table in a snapshot document, read entry by entry; a later entry for a key wins. */
  function DecodeEntries(fields: seq<(string, Json)>): Decoded<Table> {
    if fields == [] then Decoded(map[], true)
    else
      var front := DecodeEntries(fields[..|fields| - 1]);
      var last := DecodeProcessed(fields[|fields| - 1].1);
      Decoded(front.value[fields[|fields| - 1].0 := last.value], front.ok && last.ok)
  }

  function DecodeSnapshot(doc: Json): Option<Table> {
    match doc
    case Null => Some(map[])
    case Obj(fields) => if DecodeEntries(fields).ok then Some(DecodeEntries(fields).value) else None
    case _ => None
  }

  /** A snapshot document is refused exactly when it is neither `null` nor an object whose entries all decode. */
  lemma RefusedExactly(fields: seq<(string, Json)>)
    ensures DecodeSnapshot(Obj(fields)).None? <==> exists i | 0 <= i < |fields| :: !DecodeProcessed(fields[i].1).ok
    ensures DecodeSnapshot(Null) == Some(map[])
    ensures forall doc: Json | !doc.Null? && !doc.Obj? :: DecodeSnapshot(doc).None?
  {
    EntriesOk(fields);
  }

  lemma {:induction false} EntriesOk(fields: seq<(string, Json)>)
    ensures DecodeEntries(fields).ok <==> forall i | 0 <= i < |fields| :: DecodeProcessed(fields[i].1).ok
  {
    if fields != [] {
      EntriesOk(fields[..|fields| - 1]);
    }
  }

  /** The part of a table that has been written when `left` is still to come. */
  function Without(t: Table, left: set<string>): Table {
    map k | k in t && k !in left :: t[k]
  }

  lemma NoneWritten(t: Table)
    ensures Without(t, t.Keys) == map[]
  {
  }

  lemma AllWritten(t: Table)
    ensures Without(t, {}) == t
  {
  }

  lemma EntryWritten(t: Table, fields: seq<(string, Json)>, left: set<string>, k: string)
    requires k in t && k in left && DecodeEntries(fields) == Decoded(Without(t, left), true)
    ensures DecodeEntries(fields + [(k, EncodeProcessed(t[k]))]) == Decoded(Without(t, left - {k}), true)
  {
    var longer := fields + [(k, EncodeProcessed(t[k]))];
    assert longer[..|longer| - 1] == fields;
    ProcessedRoundTrip(t[k]);
    assert Without(t, left)[k := t[k]] == Without(t, left - {k});
  }

  function Lookup(t: Table, orderId: string): Option<ProcessedOrder> {
    if orderId in t then Some(t[orderId]) else None
  }

  // ----- the machine itself -----

  /** A Go map: a reference, so two holders of one map see each other's writes. */
  class OrderMap {
    var m: Table

    constructor ()
      ensures m == map[]
    {
      m := map[];
    }
  }

  class FSM {
    var processed: OrderMap

    constructor ()
      ensures fresh(processed) && processed.m == map[]
    {
      processed := new OrderMap();
    }

    method Apply(data: Json) returns (r: UpsertResult)
      modifies processed
      ensures processed.m == ApplyEntry(old(processed.m), ReadEntry(data)).table
      ensures r == ApplyEntry(old(processed.m), ReadEntry(data)).answer
    {
      var cmd := DecodeCommand(data);
      if !cmd.ok {
        return UpsertResult(false, "");
      }
      if cmd.value.kind == UPSERT_KIND {
        var upsert := DecodeUpsert(cmd.value.payload);
        if !upsert.ok {
          return UpsertResult(false, upsert.value.orderId);
        }
        if upsert.value.orderId in processed.m {
          return UpsertResult(true, upsert.value.orderId);
        }
        processed.m := processed.m[upsert.value.orderId :=
          ProcessedOrder(upsert.value.orderId, upsert.value.commandEventId, upsert.value.status,
            upsert.value.reason, upsert.value.ts)];
        return UpsertResult(false, upsert.value.orderId);
      }
      return UpsertResult(false, "");
    }

    /** Applies a run of committed entries, as the Raft library does, one by one. */
    method ApplyAll(log: seq<Json>) returns (answers: seq<UpsertResult>)
      modifies processed
      ensures processed.m == Replay(old(processed.m), ReadLog(log))
      ensures answers == Answers(old(processed.m), ReadLog(log))
    {
      answers := [];
      for i := 0 to |log|
        invariant processed.m == Replay(old(processed.m), ReadLog(log)[..i])
        invariant answers == Answers(old(processed.m), ReadLog(log)[..i])
      {
        assert ReadLog(log)[..i + 1][..i] == ReadLog(log)[..i];
        var r := Apply(log[i]);
        answers := answers + [r];
      }
      assert ReadLog(log)[..|log|] == ReadLog(log);
    }

    /** Copies the table, so that the snapshot shares nothing with the live machine. */
    method Snapshot() returns (s: FsmSnapshot)
      ensures fresh(s) && fresh(s.state) && s.state.m == processed.m
    {
      var copy := new OrderMap();
      var left := processed.m.Keys;
      while left != {}
        invariant left <= processed.m.Keys
        invariant processed.m == old(processed.m) && processed == old(processed)
        invariant copy.m == Without(processed.m, left)
      {
        var k :| k in left;
        copy.m := copy.m[k := processed.m[k]];
        left := left - {k};
      }
      s := new FsmSnapshot(copy);
    }

    /** Installs a snapshot document, or keeps the current table when it does not decode. */
    method Restore(doc: Json) returns (ok: bool)
      modifies this
      ensures ok <==> DecodeSnapshot(doc).Some?
      ensures ok ==> fresh(processed) && processed.m == DecodeSnapshot(doc).value
      ensures !ok ==> processed == old(processed)
    {
      match DecodeSnapshot(doc)
      case None =>
        ok := false;
      case Some(t) =>
        processed := new OrderMap();
        processed.m := t;
        ok := true;
    }

    function GetProcessedOrder(orderId: string): Option<ProcessedOrder>
      reads this, processed
    {
      Lookup(processed.m, orderId)
    }
  }

  class FsmSnapshot {
    const state: OrderMap

    constructor (state: OrderMap)
      ensures this.state == state
    {
      this.state := state;
    }

    /** Writes the table to the sink as one JSON object, its entries in any order. The document
        reads back as the table; a sink that fails yields none. */
    method Persist(sinkOk: bool) returns (doc: Option<Json>)
      ensures doc.Some? <==> sinkOk
      ensures doc.Some? ==> doc.value.Obj? && DecodeSnapshot(doc.value) == Some(state.m)
    {
      var fields: seq<(string, Json)> := [];
      var left := state.m.Keys;
      NoneWritten(state.m);
      while left != {}
        invariant left <= state.m.Keys
        invariant DecodeEntries(fields) == Decoded(Without(state.m, left), true)
      {
        var k :| k in left;
        EntryWritten(state.m, fields, left, k);
        fields, left := fields + [(k, EncodeProcessed(state.m[k]))], left - {k};
      }
      AllWritten(state.m);
      doc := if sinkOk then Some(Obj(fields)) else None;
    }
  }

  /** Snapshot, go on applying, persist only then, restore elsewhere and catch up: the restored
      machine ends with the table and the answers of the one that never stopped. */
  method SnapshotThenCatchUp(live: FSM, during: seq<Json>, after: seq<Json>)
    returns (restored: FSM, liveAnswers: seq<UpsertResult>, caughtUp: seq<UpsertResult>)
    modifies live.processed
    ensures live.processed == old(live.processed)
    ensures live.processed.m == Replay(old(live.processed.m), ReadLog(during + after))
    ensures restored.processed.m == live.processed.m
    ensures restored.processed != live.processed
    ensures caughtUp == liveAnswers == Answers(old(live.processed.m), ReadLog(during + after))
  {
    assert ReadLog(during + after) == ReadLog(during) + ReadLog(after);
    ReplaySplit(live.processed.m, ReadLog(during), ReadLog(after));
    var snapshot := live.Snapshot();
    var first := live.ApplyAll(during);
    var doc := snapshot.Persist(true);
    var second := live.ApplyAll(after);
    liveAnswers := first + second;
    restored := new FSM();
    var ok := restored.Restore(doc.value);
    caughtUp := restored.ApplyAll(during + after);
  }
}
