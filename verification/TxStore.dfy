/** A store written only by `ProcessOrderCommand` and `MarkPublished`: what every run of calls keeps,
    and how it compares with the replicated state machine. */
module TxStore {
  import opened Wrappers
  import opened Json
  import opened Messages
  import opened Outbox
  import Fsm

  datatype Call =
    | Process(cmd: OrderCmd, now: int64, fault: TxFault)
    | Mark(eventId: string, at: int64, fails: bool)

  function DoCall(db: Db, c: Call): Db {
    match c
    case Process(cmd, now, fault) => ProcessCommand(db, cmd, now, fault).db
    case Mark(eventId, at, fails) => if fails then db else db.(outbox := Marked(db.outbox, eventId, at))
  }

  function DoCalls(db: Db, calls: seq<Call>): Db {
    if calls == [] then db else DoCall(DoCalls(db, calls[..|calls| - 1]), calls[|calls| - 1])
  }

  /** The two tables are in bijection by order id, and each row is the event of the command that was
      accepted for its order. */
  ghost predicate Paired(db: Db) {
    DistinctOrders(db.outbox) && SameOrders(db) && RowsPaired(db)
  }

  predicate DistinctOrders(rows: seq<OutboxRow>) {
    forall i, j :: 0 <= i < j < |rows| ==> rows[i].orderId != rows[j].orderId
  }

  ghost predicate SameOrders(db: Db) {
    forall o: string :: o in db.processed <==> HasOrder(db.outbox, o)
  }

  ghost predicate RowsPaired(db: Db) {
    forall i | 0 <= i < |db.outbox| :: RowPaired(db, db.outbox[i])
  }

  ghost predicate RowPaired(db: Db, r: OutboxRow) {
    && WellFormed(r) && r.orderId in db.processed
    && r.eventId == "evt-" + db.processed[r.orderId].commandEventId
  }

  /** The tables once a command has been accepted. */
  function Accepted(db: Db, cmd: OrderCmd, now: int64): Db {
    Db(db.processed[cmd.orderId := CommandRow(cmd.eventId, now, "ACCEPTED", "accepted")],
       db.outbox + [EventRow(db.nextId, cmd.orderId, cmd.eventId, now, now)], db.nextId + 1)
  }

  lemma NothingOrAccepted(db: Db, cmd: OrderCmd, now: int64, fault: TxFault)
    ensures var db' := ProcessCommand(db, cmd, now, fault).db;
            db' == db || (cmd.orderId !in db.processed && db' == Accepted(db, cmd, now))
  {
  }

  lemma AcceptedKeepsPaired(db: Db, cmd: OrderCmd, now: int64)
    requires Paired(db) && cmd.orderId !in db.processed
    ensures Paired(Accepted(db, cmd, now))
  {
    var db' := Accepted(db, cmd, now);
    var row := EventRow(db.nextId, cmd.orderId, cmd.eventId, now, now);
    assert !HasOrder(db.outbox, cmd.orderId);
    forall o: string ensures o in db'.processed <==> HasOrder(db'.outbox, o) {
      AppendedHasOrder(db.outbox, row, o);
    }
    EventRowWellFormed(db.nextId, cmd.orderId, cmd.eventId, now, now);
    AppendedRowsPaired(db, db', row);
  }

  lemma ProcessKeepsPaired(db: Db, cmd: OrderCmd, now: int64, fault: TxFault)
    requires Paired(db)
    ensures Paired(ProcessCommand(db, cmd, now, fault).db)
  {
    NothingOrAccepted(db, cmd, now, fault);
    if cmd.orderId !in db.processed {
      AcceptedKeepsPaired(db, cmd, now);
    }
  }

  lemma AppendedHasOrder(rows: seq<OutboxRow>, row: OutboxRow, o: string)
    ensures HasOrder(rows + [row], o) <==> HasOrder(rows, o) || row.orderId == o
  {
    if i :| 0 <= i < |rows| && rows[i].orderId == o {
      assert (rows + [row])[i].orderId == o;
    }
    assert (rows + [row])[|rows|] == row;
  }

  lemma AppendedRowsPaired(db: Db, db': Db, row: OutboxRow)
    requires RowsPaired(db) && db'.outbox == db.outbox + [row] && RowPaired(db', row)
    requires forall o | o in db.processed :: o in db'.processed && db'.processed[o] == db.processed[o]
    ensures RowsPaired(db')
  {
    forall i | 0 <= i < |db'.outbox| ensures RowPaired(db', db'.outbox[i]) {
      if i < |db.outbox| {
        assert RowPaired(db, db.outbox[i]);
      }
    }
  }

  lemma MarkKeepsPaired(db: Db, eventId: string, at: int64)
    requires Paired(db)
    ensures Paired(db.(outbox := Marked(db.outbox, eventId, at)))
  {
    var db' := db.(outbox := Marked(db.outbox, eventId, at));
    assert DistinctOrders(db'.outbox);
    forall o: string ensures o in db'.processed <==> HasOrder(db'.outbox, o) {
      MarkedHasOrder(db.outbox, eventId, at, o);
    }
    MarkedRowsPaired(db, eventId, at);
  }

  lemma MarkedHasOrder(rows: seq<OutboxRow>, eventId: string, at: int64, o: string)
    ensures HasOrder(Marked(rows, eventId, at), o) <==> HasOrder(rows, o)
  {
    var marked := Marked(rows, eventId, at);
    forall i | 0 <= i < |rows| ensures marked[i].orderId == rows[i].orderId {}
  }

  lemma MarkedRowsPaired(db: Db, eventId: string, at: int64)
    requires RowsPaired(db)
    ensures RowsPaired(db.(outbox := Marked(db.outbox, eventId, at)))
  {
    var db' := db.(outbox := Marked(db.outbox, eventId, at));
    forall i | 0 <= i < |db'.outbox| ensures RowPaired(db', db'.outbox[i]) {
      assert RowPaired(db, db.outbox[i]);
    }
  }

  /** Whatever calls are made and wherever they fail, the tables stay in bijection. */
  lemma {:induction false} CallsKeepPaired(calls: seq<Call>)
    ensures Paired(DoCalls(EMPTY_DB, calls))
  {
    if calls != [] {
      var front, last := calls[..|calls| - 1], calls[|calls| - 1];
      CallsKeepPaired(front);
      match last
      case Process(cmd, now, fault) => ProcessKeepsPaired(DoCalls(EMPTY_DB, front), cmd, now, fault);
      case Mark(eventId, at, fails) => MarkKeepsPaired(DoCalls(EMPTY_DB, front), eventId, at);
    }
  }

  /** A call that reports an error changes nothing; one that accepts an order leaves it with exactly
      one event. After any calls, the "no outbox event found" answer is given exactly when the lookup
      of the event itself fails: the case it is meant for never arises. */
  lemma AllOrNothing(calls: seq<Call>, cmd: OrderCmd, now: int64, fault: TxFault)
    ensures var db := DoCalls(EMPTY_DB, calls);
            var p := ProcessCommand(db, cmd, now, fault);
            && (p.result.Err? ==> p.db == db)
            && (p.result.Ok? ==> HasOrder(p.db.outbox, cmd.orderId) && cmd.orderId in p.db.processed)
            && (p.result.Ok? && !p.result.value.duplicate ==>
                  p.db.processed == db.processed[cmd.orderId := CommandRow(cmd.eventId, now, "ACCEPTED", "accepted")])
            && (p.result.Ok? && p.result.value.duplicate ==> p.db == db && HasOrder(db.outbox, cmd.orderId))
            && (p.result.Ok? && p.result.value.reason == NO_EVENT_FOUND <==>
                  cmd.orderId in db.processed && fault == OutboxSelectFails)
  {
    CallsKeepPaired(calls);
    var db := DoCalls(EMPTY_DB, calls);
    var p := ProcessCommand(db, cmd, now, fault);
    assert cmd.orderId in db.processed <==> HasOrder(db.outbox, cmd.orderId);
    assert "accepted" != NO_EVENT_FOUND && "order already processed" != NO_EVENT_FOUND by {
      assert |"accepted"| == 8 && |"order already processed"| == 23 && |NO_EVENT_FOUND| > 23;
    }
    if p.result.Ok? && !p.result.value.duplicate {
      assert p.db.outbox[|db.outbox|].orderId == cmd.orderId;
    }
  }

  // ----- agreement with the state machine -----

  /** The log the same commands make in the replicated state machine. */
  function LogOf(cmds: seq<OrderCmd>): (log: seq<Fsm.Request>)
    ensures |log| == |cmds|
  {
    seq(|cmds|, i requires 0 <= i < |cmds| =>
      Fsm.Upsert(UpsertCommand(cmds[i].orderId, cmds[i].eventId, "ACCEPTED", "accepted", cmds[i].ts)))
  }

  function CallsOf(cmds: seq<OrderCmd>): (calls: seq<Call>)
    ensures |calls| == |cmds|
  {
    seq(|cmds|, i requires 0 <= i < |cmds| => Process(cmds[i], cmds[i].ts, NoFault))
  }

  predicate FirstOf(cmds: seq<OrderCmd>, i: nat)
    requires i < |cmds|
  {
    forall j | 0 <= j < i :: cmds[j].orderId != cmds[i].orderId
  }

  /** No two orders are first seen with the same event id. A caller can see this in its commands. */
  predicate EventsSeparateOrders(cmds: seq<OrderCmd>) {
    forall i: nat, j: nat | i < j < |cmds| && FirstOf(cmds, i) && FirstOf(cmds, j) :: cmds[i].eventId != cmds[j].eventId
  }

  function StoreVerdict(cmds: seq<OrderCmd>, i: nat): Result<ProcessResult, StoreError>
    requires i < |cmds|
  {
    ProcessCommand(DoCalls(EMPTY_DB, CallsOf(cmds)[..i]), cmds[i], cmds[i].ts, NoFault).result
  }

  /** Call `i` succeeds and says "duplicate" just when the state machine does. */
  predicate SameVerdict(cmds: seq<OrderCmd>, i: nat)
    requires i < |cmds|
  {
    StoreVerdict(cmds, i).Ok? && StoreVerdict(cmds, i).value.duplicate == Fsm.Answers(map[], LogOf(cmds))[i].duplicate
  }

  predicate SameVerdicts(cmds: seq<OrderCmd>) {
    forall i: nat | i < |cmds| :: SameVerdict(cmds, i)
  }

  /** Both keep the same orders, each with the event id of the same command. */
  ghost predicate SameRecords(db: Db, t: Fsm.Table) {
    && db.processed.Keys == t.Keys
    && forall o | o in t :: db.processed[o].commandEventId == t[o].commandEventId
  }

  lemma Prefixes(cmds: seq<OrderCmd>, n: nat)
    requires n <= |cmds|
    ensures CallsOf(cmds[..n]) == CallsOf(cmds)[..n] && LogOf(cmds[..n]) == LogOf(cmds)[..n]
  {
  }

  lemma VerdictOfPrefix(cmds: seq<OrderCmd>, n: nat, i: nat)
    requires i < n <= |cmds|
    ensures StoreVerdict(cmds[..n], i) == StoreVerdict(cmds, i)
    ensures Fsm.Answers(map[], LogOf(cmds[..n]))[i] == Fsm.Answers(map[], LogOf(cmds))[i]
  {
    Prefixes(cmds, n);
    assert CallsOf(cmds)[..n][..i] == CallsOf(cmds)[..i];
    assert LogOf(cmds)[..n][..i] == LogOf(cmds)[..i];
    Fsm.AnswerAt(map[], LogOf(cmds), i);
    Fsm.AnswerAt(map[], LogOf(cmds[..n]), i);
  }

  /** Some order is first seen with event id `e`. */
  ghost predicate FirstWith(cmds: seq<OrderCmd>, e: string) {
    exists i: nat | i < |cmds| :: FirstOf(cmds, i) && cmds[i].eventId == e
  }

  /** Which event ids the store holds, after commands on which the two agreed. */
  ghost predicate EventsAreFirsts(db: Db, cmds: seq<OrderCmd>) {
    forall e: string :: HasEvent(db.outbox, "evt-" + e) <==> FirstWith(cmds, e)
  }

  ghost predicate SameState(cmds: seq<OrderCmd>) {
    && SameRecords(DoCalls(EMPTY_DB, CallsOf(cmds)), Fsm.Replay(map[], LogOf(cmds)))
    && EventsAreFirsts(DoCalls(EMPTY_DB, CallsOf(cmds)), cmds)
  }

  /** The transactional store and the state machine give the same verdicts on a command sequence,
      with no call failing, exactly when no two orders are first seen with one event id; and then they
      keep the same first command of each order. */
  lemma {:induction false} StoreAgreesWithFsm(cmds: seq<OrderCmd>)
    ensures SameVerdicts(cmds) <==> EventsSeparateOrders(cmds)
    ensures SameVerdicts(cmds) ==> SameState(cmds)
  {
    if cmds != [] {
      var front, c := cmds[..|cmds| - 1], cmds[|cmds| - 1];
      assert cmds == front + [c];
      StoreAgreesWithFsm(front);
      VerdictsGrow(front, c);
      Separation(front, c);
      if SameVerdicts(front) {
        NextVerdict(front, c);
        if !FirstWith(front, c.eventId) || c.orderId in Fsm.Replay(map[], LogOf(front)) {
          NextState(front, c);
        }
      }
    }
  }

  lemma VerdictKept(front: seq<OrderCmd>, c: OrderCmd, i: nat)
    requires i < |front|
    ensures SameVerdict(front + [c], i) == SameVerdict(front, i)
  {
    assert (front + [c])[..|front|] == front;
    VerdictOfPrefix(front + [c], |front|, i);
  }

  /** Appending a command changes no earlier verdict. */
  lemma VerdictsGrow(front: seq<OrderCmd>, c: OrderCmd)
    ensures SameVerdicts(front + [c]) <==> SameVerdicts(front) && SameVerdict(front + [c], |front|)
  {
    forall i: nat | i < |front| ensures SameVerdict(front + [c], i) == SameVerdict(front, i) {
      VerdictKept(front, c, i);
    }
  }

  lemma AppendCall(front: seq<OrderCmd>, c: OrderCmd)
    ensures CallsOf(front + [c]) == CallsOf(front) + [Process(c, c.ts, NoFault)]
    ensures LogOf(front + [c])
              == LogOf(front) + [Fsm.Upsert(UpsertCommand(c.orderId, c.eventId, "ACCEPTED", "accepted", c.ts))]
    ensures DoCalls(EMPTY_DB, CallsOf(front + [c]))
              == ProcessCommand(DoCalls(EMPTY_DB, CallsOf(front)), c, c.ts, NoFault).db
  {
    var calls := CallsOf(front + [c]);
    assert calls == CallsOf(front) + [Process(c, c.ts, NoFault)];
    assert calls[..|front|] == CallsOf(front);
  }

  /** The next command gets the same verdict from both unless it is the first of its order and its
      event id is already that of another order's first command. */
  lemma NextVerdict(front: seq<OrderCmd>, c: OrderCmd)
    requires SameState(front)
    ensures var cmds := front + [c]; var n := |front|; var t := Fsm.Replay(map[], LogOf(front));
            && Fsm.Answers(map[], LogOf(cmds))[n].duplicate == (c.orderId in t)
            && (StoreVerdict(cmds, n).Ok? <==> c.orderId in t || !FirstWith(front, c.eventId))
            && (StoreVerdict(cmds, n).Ok? ==> StoreVerdict(cmds, n).value.duplicate == (c.orderId in t))
  {
    AppendCall(front, c);
    Fsm.ReplayAppend(map[], LogOf(front), LogOf(front + [c])[|front|]);
    LastVerdict(front, c);
    assert HasEvent(DoCalls(EMPTY_DB, CallsOf(front)).outbox, "evt-" + c.eventId) <==> FirstWith(front, c.eventId);
  }

  lemma LastVerdict(front: seq<OrderCmd>, c: OrderCmd)
    ensures StoreVerdict(front + [c], |front|)
              == ProcessCommand(DoCalls(EMPTY_DB, CallsOf(front)), c, c.ts, NoFault).result
  {
    assert CallsOf(front + [c])[..|front|] == CallsOf(front);
  }

  lemma NextState(front: seq<OrderCmd>, c: OrderCmd)
    requires SameState(front)
    requires c.orderId in Fsm.Replay(map[], LogOf(front)) || !FirstWith(front, c.eventId)
    ensures SameState(front + [c])
  {
    NextRecords(front, c);
    forall e: string
      ensures HasEvent(DoCalls(EMPTY_DB, CallsOf(front + [c])).outbox, "evt-" + e) <==> FirstWith(front + [c], e)
    {
      NextEvent(front, c, e);
    }
  }

  lemma NextRecords(front: seq<OrderCmd>, c: OrderCmd)
    requires SameState(front)
    requires c.orderId in Fsm.Replay(map[], LogOf(front)) || !FirstWith(front, c.eventId)
    ensures SameRecords(DoCalls(EMPTY_DB, CallsOf(front + [c])), Fsm.Replay(map[], LogOf(front + [c])))
  {
    AppendCall(front, c);
    Fsm.ReplayAppend(map[], LogOf(front), LogOf(front + [c])[|front|]);
    assert HasEvent(DoCalls(EMPTY_DB, CallsOf(front)).outbox, "evt-" + c.eventId) <==> FirstWith(front, c.eventId);
  }

  lemma NextEvent(front: seq<OrderCmd>, c: OrderCmd, e: string)
    requires SameState(front)
    requires c.orderId in Fsm.Replay(map[], LogOf(front)) || !FirstWith(front, c.eventId)
    ensures HasEvent(DoCalls(EMPTY_DB, CallsOf(front + [c])).outbox, "evt-" + e) <==> FirstWith(front + [c], e)
  {
    AppendCall(front, c);
    OrdersSeen(front, c);
    FirstWithGrows(front, c, e);
    var db := DoCalls(EMPTY_DB, CallsOf(front));
    assert HasEvent(db.outbox, "evt-" + e) <==> FirstWith(front, e);
    assert HasEvent(db.outbox, "evt-" + c.eventId) <==> FirstWith(front, c.eventId);
    if c.orderId !in db.processed {
      HasEventGrows(db.outbox, EventRow(db.nextId, c.orderId, c.eventId, c.ts, c.ts), "evt-" + e);
      assert ("evt-" + e)[4..] == e && ("evt-" + c.eventId)[4..] == c.eventId;
    }
  }

  /** The table's keys are the orders seen. */
  lemma OrdersSeen(front: seq<OrderCmd>, c: OrderCmd)
    ensures c.orderId in Fsm.Replay(map[], LogOf(front)) <==> !FirstOf(front + [c], |front|)
  {
    var o := c.orderId;
    Fsm.TableKeys(LogOf(front), o);
    if j :| 0 <= j < |front| && (front + [c])[j].orderId == o {
      assert Fsm.Upserts(LogOf(front), j, o);
    }
    if j: nat :| j < |front| && Fsm.Upserts(LogOf(front), j, o) {
      assert (front + [c])[j].orderId == o;
    }
  }

  lemma FirstWithGrows(front: seq<OrderCmd>, c: OrderCmd, e: string)
    ensures FirstWith(front + [c], e) <==> FirstWith(front, e) || (FirstOf(front + [c], |front|) && c.eventId == e)
  {
    var cmds := front + [c];
    FirstOfPrefix(front, c);
    if i: nat :| i < |front| && FirstOf(front, i) && front[i].eventId == e {
      assert FirstOf(cmds, i) && cmds[i].eventId == e;
    }
    if i: nat :| i < |cmds| && FirstOf(cmds, i) && cmds[i].eventId == e && i < |front| {
      assert FirstOf(front, i) && front[i].eventId == e;
    }
  }

  lemma FirstOfPrefix(front: seq<OrderCmd>, c: OrderCmd)
    ensures forall i: nat | i < |front| :: FirstOf(front + [c], i) == FirstOf(front, i)
  {
    forall i: nat | i < |front| ensures FirstOf(front + [c], i) == FirstOf(front, i) {
      forall j | 0 <= j <= i ensures (front + [c])[j] == front[j] {}
    }
  }

  lemma Separation(front: seq<OrderCmd>, c: OrderCmd)
    ensures EventsSeparateOrders(front + [c]) <==>
              && EventsSeparateOrders(front)
              && (c.orderId in Fsm.Replay(map[], LogOf(front)) || !FirstWith(front, c.eventId))
  {
    var cmds, n := front + [c], |front|;
    OrdersSeen(front, c);
    FirstOfPrefix(front, c);
    if EventsSeparateOrders(cmds) {
      forall i: nat, j: nat | i < j < n && FirstOf(front, i) && FirstOf(front, j)
        ensures front[i].eventId != front[j].eventId
      {
        assert FirstOf(cmds, i) && FirstOf(cmds, j);
      }
      if i: nat :| i < n && FirstOf(front, i) && front[i].eventId == c.eventId {
        assert FirstOf(cmds, i) && cmds[i].eventId == cmds[n].eventId;
      }
    }
    if EventsSeparateOrders(front) && (!FirstOf(cmds, n) || !FirstWith(front, c.eventId)) {
      forall i: nat, j: nat | i < j <= n && FirstOf(cmds, i) && FirstOf(cmds, j)
        ensures cmds[i].eventId != cmds[j].eventId
      {
        assert FirstOf(front, i);
      }
    }
  }
}
