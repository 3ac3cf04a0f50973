/** Every run of outbox inserts and publishes: what reaches the events topic, and how often. */
module Drain {
  import opened Wrappers
  import opened Json
  import opened Outbox
  import opened Publisher
  import Starvation

  /** The outboxes of all executors, the topic they share, and `extra`: the records that reached the
      topic without their row being marked for it (a failed or uncertain produce, a failed mark, a
      crash in between, or a repeat by the producer itself). */
  datatype State = State(dbs: seq<Db>, topic: seq<Record>, extra: multiset<Record>)

  datatype Op =
    | Add(x: nat, orderId: string, commandEventId: string, ts: int64, created: int64)
    | Publish(x: nat, row: nat, now: int64, o: RowOutcome)

  function Init(executors: nat): State {
    State(seq(executors, x => EMPTY_DB), [], multiset{})
  }

  predicate Enabled(s: State, op: Op) {
    && op.x < |s.dbs|
    && match op
       case Add(x, orderId, commandEventId, _, _) => !HasEvent(s.dbs[x].outbox, "evt-" + commandEventId)
       case Publish(x, row, _, o) =>
         row < |s.dbs[x].outbox| && s.dbs[x].outbox[row].published.None? && o.Possible()
  }

  /** How many copies a publish leaves beyond the one its mark accounts for. */
  function Surplus(e: OutboxRow, o: RowOutcome): nat
    requires o.Possible()
  {
    if !Decodes(e) then 0 else if o.acked && o.markOk then o.copies - 1 else o.copies
  }

  function Next(s: State, op: Op): State
    requires Enabled(s, op)
  {
    var db := s.dbs[op.x];
    match op
    case Add(x, orderId, commandEventId, ts, created) =>
      s.(dbs := s.dbs[x := InsertEvent(db, orderId, commandEventId, ts, created).value])
    case Publish(x, row, now, o) =>
      var e := db.outbox[row];
      var p := PublishOne(db.outbox, s.topic, e, now, o);
      State(s.dbs[x := db.(outbox := p.rows)], p.topic, s.extra + multiset(Copies(RecordOf(e), Surplus(e, o))))
  }

  /** A step that is not possible in a state leaves it as it is. */
  function Do(s: State, op: Op): (r: State)
    ensures |r.dbs| == |s.dbs|
  {
    if Enabled(s, op) then Next(s, op) else s
  }

  function DoAll(s: State, ops: seq<Op>): (r: State)
    ensures |r.dbs| == |s.dbs|
  {
    if ops == [] then s else Do(DoAll(s, ops[..|ops| - 1]), ops[|ops| - 1])
  }

  // ----- counting -----

  function Sum(ns: seq<nat>): nat {
    if ns == [] then 0 else Sum(ns[..|ns| - 1]) + ns[|ns| - 1]
  }

  lemma {:induction false} SumUpdate(ns: seq<nat>, i: nat, n: nat)
    requires i < |ns|
    ensures Sum(ns[i := n]) + ns[i] == Sum(ns) + n
  {
    var last := |ns| - 1;
    if i == last {
      assert ns[i := n][..last] == ns[..last];
    } else {
      assert ns[i := n][..last] == ns[..last][i := n];
      SumUpdate(ns[..last], i, n);
    }
  }

  lemma {:induction false} SumAtLeast(ns: seq<nat>, i: nat, j: nat)
    requires i < |ns| && j < |ns|
    ensures Sum(ns) >= ns[i]
    ensures i != j ==> Sum(ns) >= ns[i] + ns[j]
  {
    SumUpdate(ns, i, 0);
    if i != j {
      SumUpdate(ns[i := 0], j, 0);
    }
  }

  lemma {:induction false} SumZero(ns: seq<nat>)
    ensures Sum(ns) == 0 <==> forall i | 0 <= i < |ns| :: ns[i] == 0
  {
    if ns != [] {
      SumZero(ns[..|ns| - 1]);
    }
  }

  function OrderIds(rows: seq<OutboxRow>): (r: seq<string>)
    ensures |r| == |rows|
  {
    seq(|rows|, i requires 0 <= i < |rows| => rows[i].orderId)
  }

  /** The record each row accounts for: its own once it is marked published, otherwise none. */
  function Marks(rows: seq<OutboxRow>): (r: seq<Option<Record>>)
    ensures |r| == |rows|
  {
    seq(|rows|, i requires 0 <= i < |rows| => if rows[i].published.Some? then Some(RecordOf(rows[i])) else None)
  }

  /** Rows for an order, in all executors. */
  function RowCount(dbs: seq<Db>, orderId: string): nat {
    Sum(seq(|dbs|, x requires 0 <= x < |dbs| => multiset(OrderIds(dbs[x].outbox))[orderId]))
  }

  /** Rows marked published whose record is `r`, in all executors. */
  function MarkCount(dbs: seq<Db>, r: Record): nat {
    Sum(seq(|dbs|, x requires 0 <= x < |dbs| => multiset(Marks(dbs[x].outbox))[Some(r)]))
  }

  lemma RowCountUpdate(dbs: seq<Db>, x: nat, db: Db, o: string)
    requires x < |dbs|
    ensures RowCount(dbs[x := db], o) + multiset(OrderIds(dbs[x].outbox))[o]
              == RowCount(dbs, o) + multiset(OrderIds(db.outbox))[o]
  {
    var ns := seq(|dbs|, i requires 0 <= i < |dbs| => multiset(OrderIds(dbs[i].outbox))[o]);
    var dbs' := dbs[x := db];
    assert seq(|dbs'|, i requires 0 <= i < |dbs'| => multiset(OrderIds(dbs'[i].outbox))[o])
        == ns[x := multiset(OrderIds(db.outbox))[o]];
    SumUpdate(ns, x, multiset(OrderIds(db.outbox))[o]);
  }

  lemma MarkCountUpdate(dbs: seq<Db>, x: nat, db: Db, r: Record)
    requires x < |dbs|
    ensures MarkCount(dbs[x := db], r) + multiset(Marks(dbs[x].outbox))[Some(r)]
              == MarkCount(dbs, r) + multiset(Marks(db.outbox))[Some(r)]
  {
    var ns := seq(|dbs|, i requires 0 <= i < |dbs| => multiset(Marks(dbs[i].outbox))[Some(r)]);
    var dbs' := dbs[x := db];
    assert seq(|dbs'|, i requires 0 <= i < |dbs'| => multiset(Marks(dbs'[i].outbox))[Some(r)])
        == ns[x := multiset(Marks(db.outbox))[Some(r)]];
    SumUpdate(ns, x, multiset(Marks(db.outbox))[Some(r)]);
  }

  lemma AppendedRow(rows: seq<OutboxRow>, row: OutboxRow)
    ensures OrderIds(rows + [row]) == OrderIds(rows) + [row.orderId]
    ensures Marks(rows + [row]) == Marks(rows) + [if row.published.Some? then Some(RecordOf(row)) else None]
  {
  }

  /** Marking one row, in a table whose event ids are unique. */
  lemma MarkedRow(rows: seq<OutboxRow>, i: nat, now: int64)
    requires i < |rows|
    requires forall a, b :: 0 <= a < b < |rows| ==> rows[a].eventId != rows[b].eventId
    ensures OrderIds(Marked(rows, rows[i].eventId, now)) == OrderIds(rows)
    ensures Marks(Marked(rows, rows[i].eventId, now)) == Marks(rows)[i := Some(RecordOf(rows[i]))]
    ensures Marked(rows, rows[i].eventId, now) == rows[i := rows[i].(published := Some(now))]
  {
  }

  lemma {:induction false} CopiesCount(r: Record, n: nat)
    ensures forall q :: multiset(Copies(r, n))[q] == if q == r then n else 0
  {
    if n > 0 {
      CopiesCount(r, n - 1);
      assert Copies(r, n) == Copies(r, n - 1) + [r];
    }
  }

  // ----- the invariant -----

  ghost predicate Inv(s: State) {
    && (forall x | 0 <= x < |s.dbs| :: Constraints(s.dbs[x]) && AllWellFormed(s.dbs[x].outbox))
    && forall r: Record :: multiset(s.topic)[r] == MarkCount(s.dbs, r) + s.extra[r]
  }

  predicate AllWellFormed(rows: seq<OutboxRow>) {
    forall i | 0 <= i < |rows| :: WellFormed(rows[i])
  }

  lemma InitInv(executors: nat)
    ensures Inv(Init(executors))
    ensures forall o: string :: RowCount(Init(executors).dbs, o) == 0
  {
    var dbs := Init(executors).dbs;
    forall r: Record ensures MarkCount(dbs, r) == 0 {
      SumZero(seq(|dbs|, x requires 0 <= x < |dbs| => multiset(Marks(dbs[x].outbox))[Some(r)]));
    }
    forall o: string ensures RowCount(dbs, o) == 0 {
      SumZero(seq(|dbs|, x requires 0 <= x < |dbs| => multiset(OrderIds(dbs[x].outbox))[o]));
    }
  }

  lemma NextInv(s: State, op: Op)
    requires Inv(s) && Enabled(s, op)
    ensures Inv(Next(s, op))
  {
    match op
    case Add(x, orderId, commandEventId, ts, created) => AddInv(s, op);
    case Publish(x, row, now, o) => PublishInv(s, op);
  }

  lemma AddInv(s: State, op: Op)
    requires Inv(s) && Enabled(s, op) && op.Add?
    ensures Inv(Next(s, op))
  {
    var db := s.dbs[op.x];
    var row := EventRow(db.nextId, op.orderId, op.commandEventId, op.ts, op.created);
    InsertKeepsConstraints(db, op.orderId, op.commandEventId, op.ts, op.created);
    EventRowWellFormed(db.nextId, op.orderId, op.commandEventId, op.ts, op.created);
    AppendedRow(db.outbox, row);
    var s' := Next(s, op);
    forall r: Record ensures multiset(s'.topic)[r] == MarkCount(s'.dbs, r) + s'.extra[r] {
      MarkCountUpdate(s.dbs, op.x, s'.dbs[op.x], r);
    }
  }

  lemma PublishInv(s: State, op: Op)
    requires Inv(s) && Enabled(s, op) && op.Publish?
    ensures Inv(Next(s, op))
  {
    var s' := Next(s, op);
    assert Constraints(s.dbs[op.x]) && AllWellFormed(s.dbs[op.x].outbox);
    PublishTable(s.dbs[op.x], s.topic, op);
    forall r: Record ensures multiset(s'.topic)[r] == MarkCount(s'.dbs, r) + s'.extra[r] {
      assert multiset(s.topic)[r] == MarkCount(s.dbs, r) + s.extra[r];
      PublishCount(s, op, r);
    }
  }

  lemma PublishTable(db: Db, topic: seq<Record>, op: Op)
    requires op.Publish? && op.row < |db.outbox| && Constraints(db) && AllWellFormed(db.outbox)
    ensures var rows := PublishOne(db.outbox, topic, db.outbox[op.row], op.now, op.o).rows;
            Constraints(db.(outbox := rows)) && AllWellFormed(rows)
  {
    MarkedRow(db.outbox, op.row, op.now);
    MarkKeepsConstraints(db, db.outbox[op.row].eventId, op.now);
    KeepsWellFormed(db.outbox, op.row, Some(op.now));
  }

  /** A publish adds as many copies of a record to the topic as it adds to the marks and the surplus. */
  lemma PublishCount(s: State, op: Op, r: Record)
    requires Enabled(s, op) && op.Publish? && Constraints(s.dbs[op.x]) && AllWellFormed(s.dbs[op.x].outbox)
    ensures var s' := Next(s, op);
            multiset(s'.topic)[r] + MarkCount(s.dbs, r) + s.extra[r]
                == multiset(s.topic)[r] + MarkCount(s'.dbs, r) + s'.extra[r]
  {
    var rows := s.dbs[op.x].outbox;
    var e := rows[op.row];
    MarkCountUpdate(s.dbs, op.x, Next(s, op).dbs[op.x], r);
    MarkedRow(rows, op.row, op.now);
    CopiesCount(RecordOf(e), op.o.copies);
    CopiesCount(RecordOf(e), Surplus(e, op.o));
    assert WellFormed(e);
  }

  lemma KeepsWellFormed(rows: seq<OutboxRow>, i: nat, published: Option<int64>)
    requires i < |rows| && AllWellFormed(rows)
    ensures AllWellFormed(rows[i := rows[i].(published := published)])
  {
  }

  lemma {:induction false} RunInv(executors: nat, ops: seq<Op>)
    ensures Inv(DoAll(Init(executors), ops))
  {
    if ops == [] {
      InitInv(executors);
    } else {
      var before := DoAll(Init(executors), ops[..|ops| - 1]);
      RunInv(executors, ops[..|ops| - 1]);
      if Enabled(before, ops[|ops| - 1]) {
        NextInv(before, ops[|ops| - 1]);
      }
    }
  }

  // ----- a publisher's batch is a run -----

  ghost function IndexOf(rows: seq<OutboxRow>, e: OutboxRow): (i: nat)
    requires e in rows
    ensures i < |rows| && rows[i] == e
  {
    var i :| 0 <= i < |rows| && rows[i] == e;
    i
  }

  ghost function BatchOps(x: nat, rows: seq<OutboxRow>, listed: seq<OutboxRow>, now: int64, oracle: Oracle)
    : (ops: seq<Op>)
    requires forall e | e in listed :: e in rows
    ensures |ops| == |listed|
  {
    seq(|listed|, k requires 0 <= k < |listed| => Publish(x, IndexOf(rows, listed[k]), now, oracle(listed[k].eventId)))
  }

  lemma DoNext(s: State, ops: seq<Op>, n: nat)
    requires n < |ops|
    ensures DoAll(s, ops[..n + 1]) == Do(DoAll(s, ops[..n]), ops[n])
  {
    assert ops[..n + 1][..n] == ops[..n];
  }

  /** The state after publishing the first `n` rows of a listing is that after working through them. */
  ghost predicate BatchDone(s: State, x: nat, listed: seq<OutboxRow>, now: int64, oracle: Oracle, n: nat)
    requires x < |s.dbs| && n <= |listed| && forall e | e in listed :: e in s.dbs[x].outbox
  {
    var rows := s.dbs[x].outbox;
    var s' := DoAll(s, BatchOps(x, rows, listed, now, oracle)[..n]);
    Outcome(s'.dbs[x].outbox, s'.topic) == PublishAll(rows, s.topic, listed[..n], now, oracle)
  }

  lemma BatchNext(s: State, x: nat, limit: nat, listed: seq<OutboxRow>, now: int64, oracle: Oracle, n: nat)
    requires x < |s.dbs| && Starvation.UniqueEvents(s.dbs[x].outbox) && n < |listed|
    requires IsListing(s.dbs[x].outbox, limit, listed)
    requires oracle(listed[n].eventId).Possible() && BatchDone(s, x, listed, now, oracle, n)
    ensures BatchDone(s, x, listed, now, oracle, n + 1)
  {
    var ops := BatchOps(x, s.dbs[x].outbox, listed, now, oracle);
    DoNext(s, ops, n);
    BatchStep(s.dbs[x].outbox, s.topic, DoAll(s, ops[..n]), x, limit, listed, now, oracle, n);
  }

  /** Working through the first `n` rows of a listing is a run of publishes, so a batch, complete or cut
      short by a crash, keeps whatever every run keeps. */
  lemma {:induction false} BatchIsRun(s: State, x: nat, limit: nat, listed: seq<OutboxRow>, now: int64,
                                      oracle: Oracle, n: nat)
    requires x < |s.dbs| && Starvation.UniqueEvents(s.dbs[x].outbox) && n <= |listed|
    requires IsListing(s.dbs[x].outbox, limit, listed)
    requires forall e | e in listed :: oracle(e.eventId).Possible()
    ensures BatchDone(s, x, listed, now, oracle, n)
  {
    if n > 0 {
      BatchIsRun(s, x, limit, listed, now, oracle, n - 1);
      assert listed[n - 1] in listed;
      BatchNext(s, x, limit, listed, now, oracle, n - 1);
    }
  }

  lemma BatchStep(rows: seq<OutboxRow>, topic: seq<Record>, s: State, x: nat, limit: nat, listed: seq<OutboxRow>,
                  now: int64, oracle: Oracle, n: nat)
    requires Starvation.UniqueEvents(rows) && IsListing(rows, limit, listed) && n < |listed| && listed[n] in rows
    requires x < |s.dbs| && oracle(listed[n].eventId).Possible()
    requires Outcome(s.dbs[x].outbox, s.topic) == PublishAll(rows, topic, listed[..n], now, oracle)
    ensures var s' := Do(s, Publish(x, IndexOf(rows, listed[n]), now, oracle(listed[n].eventId)));
            Outcome(s'.dbs[x].outbox, s'.topic) == PublishAll(rows, topic, listed[..n + 1], now, oracle)
  {
    NotYetMarked(rows, topic, limit, listed, now, oracle, n);
    DoPublish(s, Publish(x, IndexOf(rows, listed[n]), now, oracle(listed[n].eventId)));
    assert listed[..n + 1][..n] == listed[..n];
  }

  lemma DoPublish(s: State, op: Op)
    requires Enabled(s, op) && op.Publish?
    ensures Outcome(Do(s, op).dbs[op.x].outbox, Do(s, op).topic)
         == PublishOne(s.dbs[op.x].outbox, s.topic, s.dbs[op.x].outbox[op.row], op.now, op.o)
  {
  }

  lemma NotYetMarked(rows: seq<OutboxRow>, topic: seq<Record>, limit: nat, listed: seq<OutboxRow>, now: int64,
                     oracle: Oracle, n: nat)
    requires Starvation.UniqueEvents(rows) && IsListing(rows, limit, listed) && n < |listed| && listed[n] in rows
    ensures var i := IndexOf(rows, listed[n]);
            var after := PublishAll(rows, topic, listed[..n], now, oracle).rows;
            |after| == |rows| && after[i] == rows[i] && rows[i].published.None?
  {
    var i := IndexOf(rows, listed[n]);
    Starvation.BatchMarks(rows, topic, listed[..n], now, oracle);
    Starvation.ListingCovers(rows, limit, listed);
    assert listed[n] in listed;
    assert forall k | 0 <= k < n :: listed[k].eventId != listed[n].eventId;
    assert !Starvation.Hit(rows[i].eventId, listed[..n], oracle);
  }

  // ----- what the topic holds -----

  lemma MarksAtMostOnce(rows: seq<OutboxRow>, i: nat)
    requires i < |rows| && AllWellFormed(rows)
    requires forall a, b :: 0 <= a < b < |rows| ==> rows[a].eventId != rows[b].eventId
    ensures multiset(Marks(rows))[Some(RecordOf(rows[i]))] == if rows[i].published.Some? then 1 else 0
  {
    var r := RecordOf(rows[i]);
    var before, after := Marks(rows)[..i], Marks(rows)[i + 1..];
    forall k | 0 <= k < |rows| && k != i ensures Marks(rows)[k] != Some(r) {
      assert WellFormed(rows[k]) && WellFormed(rows[i]);
    }
    assert Marks(rows) == before + [Marks(rows)[i]] + after;
    assert Some(r) !in before && Some(r) !in after;
  }

  /** With one executor, after any run: an event is on the topic once if its row is marked, plus the
      copies whose produce or mark went wrong, and a row that is not marked has only those. */
  lemma Occurrences(ops: seq<Op>, i: nat)
    requires i < |DoAll(Init(1), ops).dbs[0].outbox|
    ensures var s := DoAll(Init(1), ops);
            var row := s.dbs[0].outbox[i];
            multiset(s.topic)[RecordOf(row)] == (if row.published.Some? then 1 else 0) + s.extra[RecordOf(row)]
  {
    RunInv(1, ops);
    var s := DoAll(Init(1), ops);
    var rows := s.dbs[0].outbox;
    MarksAtMostOnce(rows, i);
    MarkCountOfOne(s.dbs, RecordOf(rows[i]));
  }

  lemma MarkCountOfOne(dbs: seq<Db>, r: Record)
    requires |dbs| == 1
    ensures MarkCount(dbs, r) == multiset(Marks(dbs[0].outbox))[Some(r)]
  {
    var n: nat := multiset(Marks(dbs[0].outbox))[Some(r)];
    assert seq(|dbs|, x requires 0 <= x < |dbs| => multiset(Marks(dbs[x].outbox))[Some(r)]) == [n];
    assert Sum([n]) == n;
  }

  /** Row `i` of executor `x` and its number of occurrences are as they were. */
  ghost predicate RowKept(s: State, s': State, x: nat, i: nat)
    requires x < |s.dbs| && i < |s.dbs[x].outbox|
  {
    var row := s.dbs[x].outbox[i];
    && |s'.dbs| == |s.dbs| && i < |s'.dbs[x].outbox| && s'.dbs[x].outbox[i] == row
    && multiset(s'.topic)[RecordOf(row)] == multiset(s.topic)[RecordOf(row)]
  }

  lemma MarkedStays(s: State, op: Op, x: nat, i: nat)
    requires Inv(s) && Enabled(s, op) && op.x == x && i < |s.dbs[x].outbox| && s.dbs[x].outbox[i].published.Some?
    ensures RowKept(s, Next(s, op), x, i)
  {
    if op.Publish? {
      var rows := s.dbs[x].outbox;
      assert Constraints(s.dbs[x]) && AllWellFormed(rows);
      MarkedRow(rows, op.row, op.now);
      assert WellFormed(rows[i]) && WellFormed(rows[op.row]);
      CopiesCount(RecordOf(rows[op.row]), op.o.copies);
    }
  }

  /** Once a row is marked, its executor never produces it again: later steps there leave the row and
      its number of occurrences as they are. */
  lemma {:induction false} MarkedIsFinal(s: State, ops: seq<Op>, x: nat, i: nat)
    requires Inv(s) && x < |s.dbs| && i < |s.dbs[x].outbox| && s.dbs[x].outbox[i].published.Some?
    requires forall op | op in ops :: op.x == x
    ensures Inv(DoAll(s, ops)) && RowKept(s, DoAll(s, ops), x, i)
  {
    if ops != [] {
      var front, op := ops[..|ops| - 1], ops[|ops| - 1];
      MarkedIsFinal(s, front, x, i);
      if Enabled(DoAll(s, front), op) {
        NextInv(DoAll(s, front), op);
        MarkedStays(DoAll(s, front), op, x, i);
      }
    }
  }

  /** A publish with no failed mark and no uncertain or repeated produce: it either lands once and is
      marked, or reports that it failed and did not land. */
  predicate Clean(op: Op) {
    op.Publish? ==> if op.o.acked then op.o.copies == 1 && op.o.markOk else op.o.copies == 0
  }

  /** A step leaves no surplus exactly when it is clean and there was none before. */
  lemma ExtraStep(s: State, op: Op)
    requires Inv(s) && Enabled(s, op)
    ensures Next(s, op).extra == multiset{} <==> s.extra == multiset{} && Clean(op)
  {
    if op.Publish? {
      assert AllWellFormed(s.dbs[op.x].outbox);
      var e := s.dbs[op.x].outbox[op.row];
      assert WellFormed(e);
      var more := multiset(Copies(RecordOf(e), Surplus(e, op.o)));
      assert |more| == Surplus(e, op.o);
      assert |Next(s, op).extra| == |s.extra| + |more|;
    }
  }

  /** Every step the run took was clean. */
  predicate CleanOps(executors: nat, ops: seq<Op>) {
    forall k: nat | k < |ops| && Enabled(DoAll(Init(executors), ops[..k]), ops[k]) :: Clean(ops[k])
  }

  lemma CleanOpsSplit(executors: nat, front: seq<Op>, op: Op)
    ensures CleanOps(executors, front + [op]) <==>
              CleanOps(executors, front) && (Enabled(DoAll(Init(executors), front), op) ==> Clean(op))
  {
    var ops := front + [op];
    assert ops[..|front|] == front;
    forall k: nat | k < |front| ensures ops[..k] == front[..k] && ops[k] == front[k] {}
    if CleanOps(executors, ops) {
      forall k: nat | k < |front| && Enabled(DoAll(Init(executors), front[..k]), front[k]) ensures Clean(front[k]) {
        assert ops[..k] == front[..k] && ops[k] == front[k];
      }
    }
  }

  /** There are surplus copies exactly when some step was not clean. */
  lemma {:induction false} ExtraExactly(executors: nat, ops: seq<Op>)
    ensures DoAll(Init(executors), ops).extra == multiset{} <==> CleanOps(executors, ops)
  {
    if ops != [] {
      var front, op := ops[..|ops| - 1], ops[|ops| - 1];
      assert ops == front + [op];
      ExtraExactly(executors, front);
      CleanOpsSplit(executors, front, op);
      ExtraAfter(executors, front, op);
    }
  }

  lemma ExtraAfter(executors: nat, front: seq<Op>, op: Op)
    ensures var s := DoAll(Init(executors), front);
            Do(s, op).extra == multiset{} <==> s.extra == multiset{} && (Enabled(s, op) ==> Clean(op))
  {
    RunInv(executors, front);
    if Enabled(DoAll(Init(executors), front), op) {
      ExtraStep(DoAll(Init(executors), front), op);
    }
  }

  /** The topic holds one copy of each marked row's event, and nothing else, exactly when every step was
      clean. */
  lemma CleanRun(executors: nat, ops: seq<Op>)
    ensures var s := DoAll(Init(executors), ops);
            CleanOps(executors, ops) <==> forall r: Record :: multiset(s.topic)[r] == MarkCount(s.dbs, r)
  {
    RunInv(executors, ops);
    ExtraExactly(executors, ops);
    var s := DoAll(Init(executors), ops);
    if s.extra != multiset{} {
      var r :| r in s.extra;
      assert multiset(s.topic)[r] == MarkCount(s.dbs, r) + s.extra[r];
    }
  }

  // ----- surplus copies belong to rows -----

  ghost predicate HasRow(dbs: seq<Db>, r: Record) {
    exists x: nat, i: nat | x < |dbs| && i < |dbs[x].outbox| :: RecordOf(dbs[x].outbox[i]) == r
  }

  ghost predicate ExtraHasRows(s: State) {
    forall r | r in s.extra :: HasRow(s.dbs, r)
  }

  lemma RowsStay(s: State, op: Op, r: Record)
    requires Enabled(s, op) && HasRow(s.dbs, r)
    ensures HasRow(Next(s, op).dbs, r)
  {
    var x: nat, i: nat :| x < |s.dbs| && i < |s.dbs[x].outbox| && RecordOf(s.dbs[x].outbox[i]) == r;
    var dbs' := Next(s, op).dbs;
    assert i < |dbs'[x].outbox| && RecordOf(dbs'[x].outbox[i]) == r;
  }

  lemma ExtraHasRowsStep(s: State, op: Op)
    requires ExtraHasRows(s) && Enabled(s, op)
    ensures ExtraHasRows(Next(s, op))
  {
    forall r | r in Next(s, op).extra ensures HasRow(Next(s, op).dbs, r) {
      if r !in s.extra {
        CopiesCount(RecordOf(s.dbs[op.x].outbox[op.row]), Surplus(s.dbs[op.x].outbox[op.row], op.o));
        assert r == RecordOf(s.dbs[op.x].outbox[op.row]);
        assert HasRow(s.dbs, r);
      }
      RowsStay(s, op, r);
    }
  }
}
