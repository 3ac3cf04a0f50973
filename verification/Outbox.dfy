/** The SQLite store: processed commands and the outbox (internal/idempotency/store.go). */
module Outbox {
  import opened Wrappers
  import opened Json
  import opened Messages

  datatype CommandRow = CommandRow(commandEventId: string, firstSeen: int64, status: string, reason: string)

  datatype OutboxRow = OutboxRow(
    id: nat, orderId: string, eventId: string, topic: string, key: string, payload: Json,
    created: int64, published: Option<int64>)

  /** The two tables; `processed` is keyed by its primary key. */
  datatype Db = Db(processed: map<string, CommandRow>, outbox: seq<OutboxRow>, nextId: nat)

  const EVENTS_TOPIC := "orders.events"

  const EMPTY_DB := Db(map[], [], 1)

  /** The event that answers an accepted order command. */
  function EventFor(orderId: string, commandEventId: string, ts: int64): OrderEvent {
    OrderEvent("evt-" + commandEventId, orderId, "ACCEPTED", "accepted", ts)
  }

  function EventRow(id: nat, orderId: string, commandEventId: string, ts: int64, created: int64): OutboxRow {
    OutboxRow(id, orderId, "evt-" + commandEventId, EVENTS_TOPIC, orderId,
              EncodeOrderEvent(EventFor(orderId, commandEventId, ts)), created, None)
  }

  /** A row whose payload is the event of its own order. */
  predicate WellFormed(r: OutboxRow) {
    var e := DecodeOrderEvent(r.payload);
    && r.topic == EVENTS_TOPIC && r.key == r.orderId
    && e.ok && e.value == OrderEvent(r.eventId, r.orderId, "ACCEPTED", "accepted", e.value.ts)
  }

  lemma EventRowWellFormed(id: nat, orderId: string, commandEventId: string, ts: int64, created: int64)
    ensures WellFormed(EventRow(id, orderId, commandEventId, ts, created))
  {
    OrderEventRoundTrip(EventFor(orderId, commandEventId, ts));
  }

  predicate HasEvent(rows: seq<OutboxRow>, eventId: string) {
    exists i | 0 <= i < |rows| :: rows[i].eventId == eventId
  }

  lemma HasEventGrows(rows: seq<OutboxRow>, r: OutboxRow, eventId: string)
    ensures HasEvent(rows + [r], eventId) <==> HasEvent(rows, eventId) || r.eventId == eventId
  {
    if i :| 0 <= i < |rows| && rows[i].eventId == eventId {
      assert (rows + [r])[i].eventId == eventId;
    }
    assert (rows + [r])[|rows|] == r;
  }

  predicate HasOrder(rows: seq<OutboxRow>, orderId: string) {
    exists i | 0 <= i < |rows| :: rows[i].orderId == orderId
  }

  /** Inserting an event row; the UNIQUE constraint on event_id may refuse it. */
  function InsertEvent(db: Db, orderId: string, commandEventId: string, ts: int64, created: int64): Option<Db> {
    if HasEvent(db.outbox, "evt-" + commandEventId) then None
    else Some(db.(outbox := db.outbox + [EventRow(db.nextId, orderId, commandEventId, ts, created)],
      nextId := db.nextId + 1))
  }

  /** UPDATE ... WHERE event_id = eventId. */
  function Marked(rows: seq<OutboxRow>, eventId: string, now: int64): (r: seq<OutboxRow>)
    ensures |r| == |rows|
    ensures forall i | 0 <= i < |rows| :: r[i] == if rows[i].eventId == eventId
            then rows[i].(published := Some(now)) else rows[i]
  {
    seq(|rows|, i requires 0 <= i < |rows| =>
      if rows[i].eventId == eventId then rows[i].(published := Some(now)) else rows[i])
  }

  /** What the UNIQUE constraint and the id column guarantee. */
  predicate Constraints(db: Db) {
    && (forall i, j :: 0 <= i < j < |db.outbox| ==>
         db.outbox[i].eventId != db.outbox[j].eventId && db.outbox[i].id < db.outbox[j].id)
    && (forall i | 0 <= i < |db.outbox| :: db.outbox[i].id < db.nextId)
  }

  lemma InsertKeepsConstraints(db: Db, orderId: string, commandEventId: string, ts: int64, created: int64)
    requires Constraints(db)
    ensures var d := InsertEvent(db, orderId, commandEventId, ts, created); d.Some? ==> Constraints(d.value)
  {
    var d := InsertEvent(db, orderId, commandEventId, ts, created);
    if d.Some? {
      forall i | 0 <= i < |db.outbox| ensures db.outbox[i].eventId != "evt-" + commandEventId {}
    }
  }

  lemma MarkKeepsConstraints(db: Db, eventId: string, now: int64)
    requires Constraints(db)
    ensures Constraints(db.(outbox := Marked(db.outbox, eventId, now)))
  {
  }

  /** What an insert writes, field by field down to the payload. */
  lemma InsertedRow(db: Db, orderId: string, commandEventId: string, ts: int64, created: int64)
    ensures var d := InsertEvent(db, orderId, commandEventId, ts, created);
            var taken := exists i | 0 <= i < |db.outbox| :: db.outbox[i].eventId == "evt-" + commandEventId;
            && (d.None? <==> taken)
            && (d.Some? ==>
                  && d.value.processed == db.processed && |d.value.outbox| == |db.outbox| + 1
                  && d.value.outbox[..|db.outbox|] == db.outbox
                  && IsEventOf(d.value.outbox[|db.outbox|], orderId, commandEventId, ts, created))
  {
    OrderEventRoundTrip(EventFor(orderId, commandEventId, ts));
  }

  /** An unpublished row, created then, that accepts the order for the command, at the time given. */
  predicate IsEventOf(row: OutboxRow, orderId: string, commandEventId: string, ts: int64, created: int64) {
    && row.orderId == orderId && row.eventId == "evt-" + commandEventId
    && row.topic == "orders.events" && row.key == orderId && row.created == created && row.published == None
    && DecodeOrderEvent(row.payload)
         == Decoded(OrderEvent("evt-" + commandEventId, orderId, "ACCEPTED", "accepted", ts), true)
  }

  // ----- processing a command in one transaction -----

  /** Where the database may fail during a transaction. */
  datatype TxFault =
    | NoFault | BeginFails | SelectFails | OutboxSelectFails | InsertCommandFails | InsertEventFails | CommitFails

  datatype StoreError = BeginError | CheckError | InsertCommandError | InsertEventError | CommitError

  datatype ProcessResult = ProcessResult(duplicate: bool, status: string, reason: string, event: Option<OutboxRow>)

  const NO_EVENT_FOUND := "order already processed (no outbox event found)"

  datatype Processed = Processed(db: Db, result: Result<ProcessResult, StoreError>)

  function ProcessCommand(db: Db, cmd: OrderCmd, now: int64, fault: TxFault): Processed {
    if fault == BeginFails then Processed(db, Err(BeginError))
    else if fault == SelectFails then Processed(db, Err(CheckError))
    else if cmd.orderId in db.processed then
      Processed(db, Ok(ProcessResult(true, db.processed[cmd.orderId].status,
        if fault != OutboxSelectFails && HasOrder(db.outbox, cmd.orderId) then "order already processed"
          else NO_EVENT_FOUND,
        None)))
    else if fault == InsertCommandFails then Processed(db, Err(InsertCommandError))
    else
      var db' := db.(processed := db.processed[cmd.orderId := CommandRow(cmd.eventId, now, "ACCEPTED", "accepted")]);
      var db'' := InsertEvent(db', cmd.orderId, cmd.eventId, now, now);
      if fault == InsertEventFails || db''.None? then Processed(db, Err(InsertEventError))
      else if fault == CommitFails then Processed(db, Err(CommitError))
      else Processed(db''.value,
        Ok(ProcessResult(false, "ACCEPTED", "accepted", Some(EventRow(0, cmd.orderId, cmd.eventId, now, now)))))
  }

  /** Where a command's transaction ends: with the first fault it meets on its way, or the refusal of an event
      id that is taken, or the verdict. */
  lemma EndsExactly(db: Db, cmd: OrderCmd, now: int64, fault: TxFault)
    ensures var r := ProcessCommand(db, cmd, now, fault).result;
            var isNew := cmd.orderId !in db.processed;
            var taken := exists i | 0 <= i < |db.outbox| :: db.outbox[i].eventId == "evt-" + cmd.eventId;
            && (r == Err(BeginError) <==> fault == BeginFails)
            && (r == Err(CheckError) <==> fault == SelectFails)
            && (r == Err(InsertCommandError) <==> isNew && fault == InsertCommandFails)
            && (r == Err(InsertEventError) <==>
                  isNew && (fault == InsertEventFails || (taken && fault in {NoFault, OutboxSelectFails, CommitFails})))
            && (r == Err(CommitError) <==> isNew && !taken && fault == CommitFails)
            && (r.Ok? && !r.value.duplicate <==> isNew && !taken && fault in {NoFault, OutboxSelectFails})
            && (r.Ok? && r.value.duplicate <==> !isNew && fault !in {BeginFails, SelectFails})
  {
  }

  /** What a verdict says: a isNew one carries the event written, a duplicate the status recorded first. */
  lemma VerdictSays(db: Db, cmd: OrderCmd, now: int64, fault: TxFault)
    requires ProcessCommand(db, cmd, now, fault).result.Ok?
    ensures var p := ProcessCommand(db, cmd, now, fault); var v := p.result.value;
            && (v.duplicate ==>
                  && v.status == db.processed[cmd.orderId].status && v.event == None
                  && v.reason == if fault != OutboxSelectFails && HasOrder(db.outbox, cmd.orderId)
                                 then "order already processed"
                                 else "order already processed (no outbox event found)")
            && (!v.duplicate ==>
                  && v.status == "ACCEPTED" && v.reason == "accepted" && v.event.Some?
                  && |p.db.outbox| == |db.outbox| + 1
                  && p.db.outbox[|db.outbox|] == v.event.value.(id := db.nextId)
                  && var e := v.event.value;
                     && e.orderId == cmd.orderId && e.eventId == "evt-" + cmd.eventId && e.topic == "orders.events"
                     && e.key == cmd.orderId && e.created == now && e.published == None
                     && DecodeOrderEvent(e.payload)
                          == Decoded(OrderEvent("evt-" + cmd.eventId, cmd.orderId, "ACCEPTED", "accepted", now), true))
  {
    OrderEventRoundTrip(EventFor(cmd.orderId, cmd.eventId, now));
  }

  class Store {
    var processed: map<string, CommandRow>
    var outbox: seq<OutboxRow>
    var nextId: nat

    constructor ()
      ensures Contents() == EMPTY_DB
    {
      processed, outbox, nextId := map[], [], 1;
    }

    function Contents(): Db
      reads this
    {
      Db(processed, outbox, nextId)
    }

    ghost predicate Valid()
      reads this
    {
      Constraints(Contents())
    }

    /** The writes go to a private copy that only a successful commit installs. */
    method ProcessOrderCommand(cmd: OrderCmd, now: int64, fault: TxFault) returns (r: Result<ProcessResult, StoreError>)
      requires Valid()
      modifies this
      ensures Valid()
      ensures Processed(Contents(), r) == ProcessCommand(old(Contents()), cmd, now, fault)
    {
      InsertKeepsConstraints(Contents(), cmd.orderId, cmd.eventId, now, now);
      if fault == BeginFails {
        return Err(BeginError);
      }
      var txProcessed, txOutbox, txNextId := processed, outbox, nextId;
      if fault == SelectFails {
        return Err(CheckError);
      }
      if cmd.orderId in txProcessed {
        var status := txProcessed[cmd.orderId].status;
        if fault != OutboxSelectFails && HasOrder(txOutbox, cmd.orderId) {
          return Ok(ProcessResult(true, status, "order already processed", None));
        }
        return Ok(ProcessResult(true, status, NO_EVENT_FOUND, None));
      }
      if fault == InsertCommandFails {
        return Err(InsertCommandError);
      }
      txProcessed := txProcessed[cmd.orderId := CommandRow(cmd.eventId, now, "ACCEPTED", "accepted")];
      var eventId := "evt-" + cmd.eventId;
      var payload := EncodeOrderEvent(OrderEvent(eventId, cmd.orderId, "ACCEPTED", "accepted", now));
      if fault == InsertEventFails || HasEvent(txOutbox, eventId) {
        return Err(InsertEventError);
      }
      txOutbox := txOutbox + [OutboxRow(txNextId, cmd.orderId, eventId, EVENTS_TOPIC, cmd.orderId, payload, now, None)];
      txNextId := txNextId + 1;
      if fault == CommitFails {
        return Err(CommitError);
      }
      processed, outbox, nextId := txProcessed, txOutbox, txNextId;
      r := Ok(ProcessResult(false, "ACCEPTED", "accepted",
                            Some(OutboxRow(0, cmd.orderId, eventId, EVENTS_TOPIC, cmd.orderId, payload, now, None))));
    }

    /** The executor's direct insert into the outbox (cmd/order-executor/main.go:237-258). `fault`
        makes the statement report an error; `landed` says whether the row got in all the same. */
    method InsertOutboxEvent(orderId: string, commandEventId: string, ts: int64, now: int64, fault: bool,
                             landed: bool) returns (ok: bool)
      requires Valid()
      modifies this
      ensures Valid()
      ensures var d := InsertEvent(old(Contents()), orderId, commandEventId, ts, now);
              && (ok <==> d.Some? && !fault)
              && Contents() == if d.Some? && (!fault || landed) then d.value else old(Contents())
    {
      InsertKeepsConstraints(Contents(), orderId, commandEventId, ts, now);
      var eventId := "evt-" + commandEventId;
      if HasEvent(outbox, eventId) || (fault && !landed) {
        return false;
      }
      outbox := outbox + [EventRow(nextId, orderId, commandEventId, ts, now)];
      nextId := nextId + 1;
      ok := !fault;
    }

    method MarkPublished(eventId: string, now: int64, fault: bool) returns (ok: bool)
      requires Valid()
      modifies this
      ensures Valid()
      ensures ok <==> !fault
      ensures Contents() == if fault then old(Contents())
              else old(Contents()).(outbox := Marked(old(outbox), eventId, now))
    {
      MarkKeepsConstraints(Contents(), eventId, now);
      if fault {
        return false;
      }
      outbox := Marked(outbox, eventId, now);
      ok := true;
    }

    /** The oldest unpublished rows, at most `limit`, oldest first. */
    method ListUnpublished(limit: nat, fault: bool) returns (r: Result<seq<OutboxRow>, ()>)
      requires Valid()
      ensures r.Err? <==> fault
      ensures r.Ok? ==> IsListing(outbox, limit, r.value)
      ensures r.Ok? ==> forall i, j :: 0 <= i < j < |r.value| ==> r.value[i].created <= r.value[j].created
    {
      if fault {
        return Err(());
      }
      var events: seq<OutboxRow> := [];
      var left := set e | e in outbox && e.published.None?;
      while left != {} && |events| < limit
        invariant |events| <= limit
        invariant forall e :: e in left || e in events <==> e in outbox && e.published.None?
        invariant forall e | e in events :: e !in left
        invariant forall i, j :: 0 <= i < j < |events| ==>
                    events[i] != events[j] && events[i].created <= events[j].created
        invariant forall e, f :: e in events && f in left ==> e.created <= f.created
        decreases left
      {
        OldestExists(left);
        var e :| e in left && forall f | f in left :: e.created <= f.created;
        events := events + [e];
        left := left - {e};
      }
      r := Ok(events);
    }
  }

  lemma {:induction false} OldestExists(s: set<OutboxRow>)
    requires s != {}
    ensures exists e :: e in s && forall f | f in s :: e.created <= f.created
  {
    var x :| x in s;
    if s - {x} != {} {
      OldestExists(s - {x});
      var y :| y in s - {x} && forall f | f in s - {x} :: y.created <= f.created;
      var e := if x.created <= y.created then x else y;
      assert forall f | f in s :: f == x || f in s - {x};
      assert e in s && forall f | f in s :: e.created <= f.created;
    } else {
      assert forall f | f in s && f != x :: f in s - {x};
      assert x in s && forall f | f in s :: x.created <= f.created;
    }
  }

  /** `events` answers SELECT ... WHERE published IS NULL ORDER BY created LIMIT limit; rows of equal
      age may come in any order, and any of them may be cut off. */
  ghost predicate IsListing(rows: seq<OutboxRow>, limit: nat, events: seq<OutboxRow>) {
    && |events| <= limit
    && (forall e | e in events :: e in rows && e.published.None?)
    && (forall i, j :: 0 <= i < j < |events| ==> events[i] != events[j] && events[i].created <= events[j].created)
    && (forall r | r in rows && r.published.None? && r !in events ::
          |events| == limit && forall e | e in events :: e.created <= r.created)
  }
}
