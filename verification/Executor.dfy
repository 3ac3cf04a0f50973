/** The order executor's consumer handler (cmd/order-executor/main.go:133-278) and the retry loop
    around it (internal/msg/consumer.go:151-174). */
module Executor {
  import opened Wrappers
  import opened Json
  import opened Messages
  import opened RaftServer
  import opened RaftClient
  import opened Outbox
  import Fsm
  import opened LeaderSearch
  import opened LeaderRoute

  datatype HandlerError =
    | BadJson | EmptyOrderId | BadQty | BadPrice | EmptySymbol
    | ApplyError | NotApplied(message: string) | InsertError

  /** The ways the handler can return nil. */
  datatype Path = Fresh | Duplicate | FoundAfterError | FoundAfterNotApplied

  datatype Outcome = Nil(path: Path) | Error(error: HandlerError)

  /** Why the handler falls back to a read. */
  datatype Cause = AfterError | AfterNotApplied(message: string)

  /** Where a handler is: about to make try `attempt` of its `Apply` call, reading, holding a fresh
      acknowledgement it has yet to write to the outbox, or done. */
  datatype Stage = Trying(attempt: nat) | Reading(cause: Cause) | Inserting | Finished(outcome: Outcome)

  /** What a handler can learn. */
  datatype Input = Tried(attempt: Attempt) | WasRead(reply: ReadReply) | WasInserted(ok: bool)

  const TRIES := 5

  function ParseOrder(value: Json): Result<OrderCmd, HandlerError> {
    var d := DecodeOrderCmd(value);
    if !d.ok then Err(BadJson)
    else if d.value.orderId == "" then Err(EmptyOrderId)
    else if d.value.qty <= 0 then Err(BadQty)
    else if d.value.price <= 0.0 then Err(BadPrice)
    else if d.value.symbol == "" then Err(EmptySymbol)
    else Ok(d.value)
  }

  /** An order is accepted, as decoded, exactly when it decodes and has an id, a positive quantity, a positive price
      and a symbol; otherwise the error names the first of these that fails. */
  lemma ParsedExactly(value: Json, cmd: OrderCmd)
    ensures ParseOrder(value) == Ok(cmd) <==>
              && DecodeOrderCmd(value) == Decoded(cmd, true)
              && |cmd.orderId| > 0 && 1 <= cmd.qty && 0.0 < cmd.price && |cmd.symbol| > 0
    ensures ParseOrder(value) == Err(BadJson) <==> !DecodeOrderCmd(value).ok
    ensures DecodeOrderCmd(value) == Decoded(cmd, true) ==>
              && (ParseOrder(value) == Err(EmptyOrderId) <==> |cmd.orderId| == 0)
              && (ParseOrder(value) == Err(BadQty) <==> |cmd.orderId| > 0 && cmd.qty < 1)
              && (ParseOrder(value) == Err(BadPrice) <==> |cmd.orderId| > 0 && cmd.qty >= 1 && !(0.0 < cmd.price))
              && (ParseOrder(value) == Err(EmptySymbol) <==>
                    |cmd.orderId| > 0 && cmd.qty >= 1 && 0.0 < cmd.price && |cmd.symbol| == 0)
  {
  }

  /** On the wire: a printed order is accepted exactly when it is valid. */
  lemma PrintedAcceptedExactly(cmd: OrderCmd)
    ensures ParseOrder(EncodeOrderCmd(cmd)) == Ok(cmd) <==>
              |cmd.orderId| > 0 && 1 <= cmd.qty && 0.0 < cmd.price && |cmd.symbol| > 0
  {
    OrderCmdRoundTrip(cmd);
    ParsedExactly(EncodeOrderCmd(cmd), cmd);
  }

  function UpsertFor(cmd: OrderCmd, ts: int64): UpsertCommand {
    UpsertCommand(cmd.orderId, cmd.eventId, "ACCEPTED", "accepted", ts)
  }

  /** The command sent to the Raft node; every try sends the same one. */
  function RaftCommand(commandId: string, cmd: OrderCmd, ts: int64): Command {
    Command(commandId, UPSERT_KIND, EncodeCommand(UPSERT_KIND, EncodeUpsert(UpsertFor(cmd, ts))))
  }

  /** What reaches the state machine when the command is applied to a table without the order: a record with
      the order's id, the command's event id, the fixed verdict, and the time given. */
  lemma RecordOfCommand(commandId: string, cmd: OrderCmd, ts: int64, t: Fsm.Table)
    requires cmd.orderId !in t
    ensures var c := RaftCommand(commandId, cmd, ts);
            && c.commandId == commandId && c.kind == "UPSERT_PROCESSED_ORDER"
            && var step := Fsm.ApplyEntry(t, Fsm.ReadEntry(c.payload));
               && step.table == t[cmd.orderId := ProcessedOrder(cmd.orderId, cmd.eventId, "ACCEPTED", "accepted", ts)]
               && step.answer == Fsm.UpsertResult(false, cmd.orderId)
  {
    UpsertRoundTrip(UpsertFor(cmd, ts));
  }

  function AfterApply(r: ApplyResult): Stage {
    match r
    case ApplyFailed => Reading(AfterError)
    case Acked(false, message) => Reading(AfterNotApplied(message))
    case Acked(true, message) => if message == "duplicate" then Finished(Nil(Duplicate)) else Inserting
  }

  function AfterRead(cause: Cause, r: ReadReply): Outcome {
    var found := r.ReadResp? && r.found;
    match cause
    case AfterError => if found then Nil(FoundAfterError) else Error(ApplyError)
    case AfterNotApplied(message) => if found then Nil(FoundAfterNotApplied) else Error(NotApplied(message))
  }

  function AfterInsert(ok: bool): Outcome {
    if ok then Nil(Fresh) else Error(InsertError)
  }

  function AfterTry(attempt: nat, a: Attempt): Stage {
    var again := if attempt + 1 < TRIES then Trying(attempt + 1) else AfterApply(ApplyFailed);
    match a
    case DialFailed => again
    case Replied(reply) =>
      var v := Judge(reply, attempt, TRIES);
      if v.Return? then AfterApply(v.result) else again
  }

  /** One step of the handler. */
  function Advance(stage: Stage, input: Input): Stage {
    match (stage, input)
    case (Trying(attempt), Tried(a)) => AfterTry(attempt, a)
    case (Reading(cause), WasRead(reply)) => Finished(AfterRead(cause, reply))
    case (Inserting, WasInserted(ok)) => Finished(AfterInsert(ok))
    case _ => stage
  }

  function RunStage(stage: Stage, inputs: seq<Input>): Stage {
    if inputs == [] then stage else Advance(RunStage(stage, inputs[..|inputs| - 1]), inputs[|inputs| - 1])
  }

  function Start(value: Json): Stage {
    match ParseOrder(value)
    case Err(e) => Finished(Error(e))
    case Ok(_) => Trying(0)
  }

  function Tries(trace: seq<Attempt>): (inputs: seq<Input>)
    ensures |inputs| == |trace|
  {
    seq(|trace|, i requires 0 <= i < |trace| => Tried(trace[i]))
  }

  lemma {:induction false} RunStageSplit(stage: Stage, a: seq<Input>, b: seq<Input>)
    ensures RunStage(stage, a + b) == RunStage(RunStage(stage, a), b)
  {
    if b == [] {
      assert a + b == a;
    } else {
      assert (a + b)[..|a + b| - 1] == a + b[..|b| - 1];
      RunStageSplit(stage, a, b[..|b| - 1]);
    }
  }

  lemma FirstTry(attempt: nat, a: Attempt, rest: seq<Attempt>)
    ensures RunStage(Trying(attempt), Tries([a] + rest)) == RunStage(AfterTry(attempt, a), Tries(rest))
  {
    var head := Tried(a);
    assert RunStage(Trying(attempt), [head]) == AfterTry(attempt, a);
    assert Tries([a] + rest) == [head] + Tries(rest);
    RunStageSplit(Trying(attempt), [head], Tries(rest));
  }

  /** One attempt takes the handler to its next try, or to where the call's result leads. */
  lemma TurnStage(known: seq<string>, net: Net, attempt: nat, current: string, st: Conn)
    requires attempt < TRIES
    ensures var t := TurnOf(known, net, TRIES, attempt, current, st);
            AfterTry(attempt, t.attempt) ==
              match t.move
              case Stop(result) => AfterApply(result)
              case Go(_) => if attempt + 1 < TRIES then Trying(attempt + 1) else AfterApply(ApplyFailed)
  {
  }

  /** The attempts of a client call take the handler through its tries to where the call's result
      leads. */
  lemma {:induction false} CallRunsStages(known: seq<string>, net: Net, attempt: nat, current: string, backoff: nat,
                                          st: Conn)
    requires attempt < TRIES
    ensures var call := Loop(known, net, TRIES, attempt, current, backoff, st);
            RunStage(Trying(attempt), Tries(call.trace)) == AfterApply(call.result)
    decreases TRIES - attempt
  {
    var t := TurnOf(known, net, TRIES, attempt, current, st);
    TurnStage(known, net, attempt, current, st);
    match t.move
    case Stop(result) =>
      FirstTry(attempt, t.attempt, []);
    case Go(next) =>
      FirstTry(attempt, t.attempt, Loop(known, net, TRIES, attempt + 1, next, 2 * backoff, t.state).trace);
      if attempt + 1 < TRIES {
        CallRunsStages(known, net, attempt + 1, next, 2 * backoff, t.state);
      }
  }

  /** The attempts the executor's call makes, from the client's current fields. */
  function CallTries(known: seq<string>, net: Net, st: Conn): seq<Input> {
    Tries(CallOf(known, net, TRIES, st).trace)
  }

  lemma CallThen(known: seq<string>, net: Net, st: Conn, next: Input)
    ensures var result := CallOf(known, net, TRIES, st).result;
            && RunStage(Trying(0), CallTries(known, net, st)) == AfterApply(result)
            && RunStage(Trying(0), CallTries(known, net, st) + [next]) == Advance(AfterApply(result), next)
  {
    CallRunsStages(known, net, 0, st.addr, 100, st);
    RunStageSplit(Trying(0), CallTries(known, net, st), [next]);
    assert RunStage(AfterApply(CallOf(known, net, TRIES, st).result), [next])
        == Advance(AfterApply(CallOf(known, net, TRIES, st).result), next);
  }

  /** Everything around one run of the handler: the network, the nodes' answers to reads by address,
      whether the insert reports an error and whether the row lands then, and the clock. */
  datatype Env = Env(
    net: Command -> Net, read: (string, Query) -> ReadReply, insertFails: bool, landed: bool, commandId: string,
    queryId: string, now: int64)

  predicate Inserts(env: Env, outcome: Outcome) {
    outcome == Nil(Fresh) || (outcome == Error(InsertError) && env.landed)
  }

  /** The tables after a handler: one more row exactly when the handler got as far as an insert that
      took effect. */
  function Written(db: Db, order: Result<OrderCmd, HandlerError>, env: Env, outcome: Outcome): Db {
    if order.Ok? && Inserts(env, outcome) then
      var row := InsertEvent(db, order.value.orderId, order.value.eventId, env.now, env.now);
      if row.Some? then row.value else db
    else db
  }

  /** The tables after the first `n` of several runs of the handler for one record. */
  function WrittenBy(db: Db, order: Result<OrderCmd, HandlerError>, envs: seq<Env>, outcomes: seq<Outcome>, n: nat): Db
    requires |envs| >= |outcomes| >= n
  {
    if n == 0 then db else Written(WrittenBy(db, order, envs, outcomes, n - 1), order, envs[n - 1], outcomes[n - 1])
  }

  function WrittenAll(db: Db, order: Result<OrderCmd, HandlerError>, envs: seq<Env>, outcomes: seq<Outcome>): Db
    requires |envs| >= |outcomes|
  {
    WrittenBy(db, order, envs, outcomes, |outcomes|)
  }

  lemma ReadWritesNothing(db: Db, cmd: OrderCmd, env: Env, cause: Cause, reply: ReadReply)
    ensures Written(db, Ok(cmd), env, AfterRead(cause, reply)) == db && AfterRead(cause, reply) != Nil(Fresh)
  {
  }

  lemma InsertWrites(db: Db, cmd: OrderCmd, env: Env, ok: bool)
    requires var d := InsertEvent(db, cmd.orderId, cmd.eventId, env.now, env.now); ok <==> d.Some? && !env.insertFails
    ensures var d := InsertEvent(db, cmd.orderId, cmd.eventId, env.now, env.now);
            Written(db, Ok(cmd), env, AfterInsert(ok)) == if d.Some? && (!env.insertFails || env.landed)
              then d.value else db
    ensures ok ==> WroteRow(db, Written(db, Ok(cmd), env, AfterInsert(ok)), cmd, env)
  {
    InsertedRow(db, cmd.orderId, cmd.eventId, env.now, env.now);
  }

  /** One row has been added: the event that accepts the order, at the handler's time. */
  predicate WroteRow(before: Db, after: Db, cmd: OrderCmd, env: Env) {
    && |after.outbox| == |before.outbox| + 1 && after.outbox[..|before.outbox|] == before.outbox
    && IsEventOf(after.outbox[|before.outbox|], cmd.orderId, cmd.eventId, env.now, env.now)
  }

  lemma {:induction false} WrittenBefore(db: Db, order: Result<OrderCmd, HandlerError>, envs: seq<Env>,
                                         outcomes: seq<Outcome>, outcome: Outcome, n: nat)
    requires |envs| > |outcomes| >= n
    ensures WrittenBy(db, order, envs, outcomes + [outcome], n) == WrittenBy(db, order, envs, outcomes, n)
  {
    if n > 0 {
      WrittenBefore(db, order, envs, outcomes, outcome, n - 1);
    }
  }

  lemma WrittenNext(db: Db, order: Result<OrderCmd, HandlerError>, envs: seq<Env>, outcomes: seq<Outcome>,
                    outcome: Outcome)
    requires |envs| > |outcomes|
    ensures WrittenAll(db, order, envs, outcomes + [outcome])
         == Written(WrittenAll(db, order, envs, outcomes), order, envs[|outcomes|], outcome)
  {
    WrittenBefore(db, order, envs, outcomes, outcome, |outcomes|);
  }

  /** Retries write at most one row: one exactly when some run got as far as an insert that took effect and
      the event was not there before. */
  lemma {:induction false} RetriesWriteOnce(db: Db, cmd: OrderCmd, envs: seq<Env>, outcomes: seq<Outcome>)
    requires |envs| >= |outcomes|
    ensures var r := WrittenAll(db, Ok(cmd), envs, outcomes);
            var known := HasEvent(db.outbox, "evt-" + cmd.eventId);
            var inserted := exists k | 0 <= k < |outcomes| :: Inserts(envs[k], outcomes[k]);
            && r.processed == db.processed && db.outbox <= r.outbox
            && |r.outbox| == |db.outbox| + (if !known && inserted then 1 else 0)
            && (HasEvent(r.outbox, "evt-" + cmd.eventId) <==> known || inserted)
  {
    if outcomes != [] {
      var n := |outcomes| - 1;
      RetriesWriteOnce(db, cmd, envs, outcomes[..n]);
      assert outcomes == outcomes[..n] + [outcomes[n]];
      WrittenNext(db, Ok(cmd), envs, outcomes[..n], outcomes[n]);
      var before := WrittenAll(db, Ok(cmd), envs, outcomes[..n]);
      var row := EventRow(before.nextId, cmd.orderId, cmd.eventId, envs[n].now, envs[n].now);
      HasEventGrows(before.outbox, row, "evt-" + cmd.eventId);
      SomeInsert(envs, outcomes, n);
    }
  }

  lemma SomeInsert(envs: seq<Env>, outcomes: seq<Outcome>, n: nat)
    requires |envs| >= |outcomes| == n + 1
    ensures (exists k | 0 <= k < |outcomes| :: Inserts(envs[k], outcomes[k])) <==>
              (exists k | 0 <= k < n :: Inserts(envs[k], outcomes[..n][k])) || Inserts(envs[n], outcomes[n])
  {
    if k :| 0 <= k < n && Inserts(envs[k], outcomes[..n][k]) {
      assert Inserts(envs[k], outcomes[k]);
    }
    if k :| 0 <= k < |outcomes| && Inserts(envs[k], outcomes[k]) && k < n {
      assert Inserts(envs[k], outcomes[..n][k]);
    }
  }

  function ReadFrom(env: Env, st: Conn, orderId: string): ReadReply {
    if st.open then env.read(st.addr, OrderQuery(env.queryId, orderId)) else ReadError(Canceled)
  }

  /** What a handler learns once its call is over, and where that takes it. */
  function LastInput(stage: Stage, reply: ReadReply, inserted: bool): seq<Input> {
    match stage
    case Reading(_) => [WasRead(reply)]
    case Inserting => [WasInserted(inserted)]
    case _ => []
  }

  function LastStage(stage: Stage, reply: ReadReply, inserted: bool): Stage {
    match stage
    case Reading(cause) => Finished(AfterRead(cause, reply))
    case Inserting => Finished(AfterInsert(inserted))
    case _ => stage
  }

  lemma CallThenLast(known: seq<string>, net: Net, st: Conn, reply: ReadReply, inserted: bool)
    ensures var stage := AfterApply(CallOf(known, net, TRIES, st).result);
            RunStage(Trying(0), CallTries(known, net, st) + LastInput(stage, reply, inserted))
                == LastStage(stage, reply, inserted)
  {
    CallThen(known, net, st, WasRead(reply));
    CallThen(known, net, st, WasInserted(inserted));
    assert CallTries(known, net, st) + [] == CallTries(known, net, st);
  }

  predicate InsertSucceeds(db: Db, cmd: OrderCmd, env: Env) {
    InsertEvent(db, cmd.orderId, cmd.eventId, env.now, env.now).Some? && !env.insertFails
  }

  /** The client's call for an order. */
  function OrderCall(known: seq<string>, env: Env, st: Conn, cmd: OrderCmd): Call {
    CallOf(known, env.net(RaftCommand(env.commandId, cmd, env.now)), TRIES, st)
  }

  /** What a handler must answer, given the result of its call, whether its read finds the order, and whether its
      insert succeeds. */
  predicate RightAnswer(result: ApplyResult, found: bool, inserted: bool, outcome: Outcome) {
    && (result == Acked(true, "duplicate") ==> outcome == Nil(Duplicate))
    && (result.Acked? && result.applied && result.message != "duplicate" ==>
          if inserted then outcome == Nil(Fresh) else outcome == Error(InsertError))
    && (result == ApplyFailed ==> if found then outcome == Nil(FoundAfterError) else outcome == Error(ApplyError))
    && (result.Acked? && !result.applied ==>
          if found then outcome == Nil(FoundAfterNotApplied) else outcome == Error(NotApplied(result.message)))
  }

  /** The node the client is connected to, if any, answers that it has the order. */
  predicate FoundBy(env: Env, st: Conn, orderId: string) {
    && st.open
    && var r := env.read(st.addr, Query(env.queryId, "GET_PROCESSED_ORDER", Obj([("order_id", Str(orderId))])));
       r.ReadResp? && r.found
  }

  /** All a handler learns: what the attempts of its call come to, and then, as the call's result demands,
      the answer of the node the client is connected to, or whether the insert succeeds. */
  function Learned(known: seq<string>, env: Env, st: Conn, db: Db, cmd: OrderCmd): seq<Input> {
    var call := OrderCall(known, env, st, cmd);
    CallTries(known, env.net(RaftCommand(env.commandId, cmd, env.now)), st)
    + LastInput(AfterApply(call.result), ReadFrom(env, call.state, cmd.orderId), InsertSucceeds(db, cmd, env))
  }

  /** An error that leaves no row. */
  predicate DeadEnd(outcome: Outcome) {
    outcome.Error? && !outcome.error.InsertError?
  }

  /** What a client without a connection gets from its call. */
  lemma ClosedCall(known: seq<string>, net: Net, st: Conn)
    ensures !st.open ==>
              var call := CallOf(known, net, TRIES, st);
              call.result == ApplyFailed && call.state == st && call.sends == 0 && call.sleptMs == 0
  {
    if !st.open {
      ClosedConnectionFails(known, net, TRIES, 0, 100, st);
    }
  }

  /** The pauses before a run: 100 ms before the second, 200 ms more before the third, none after that. */
  function Pauses(runs: nat): nat {
    if runs == 0 then 0 else if runs == 1 then 100 else 300
  }

  /** Several runs of the handler, all of which failed. */
  ghost predicate Retried(db: Db, order: Result<OrderCmd, HandlerError>, envs: seq<Env>, outcomes: seq<Outcome>,
                          silent: bool, sends: nat, sleptMs: nat, now: Db)
    requires |envs| >= |outcomes|
  {
    && (forall i | 0 <= i < |outcomes| :: outcomes[i].Error?)
    && sends <= 5 * |outcomes| && sleptMs <= 3100 * |outcomes|
    && now == WrittenAll(db, order, envs, outcomes)
    && (silent ==> sends == 0 && sleptMs == 0 && now == db)
  }

  lemma RetryNext(db: Db, order: Result<OrderCmd, HandlerError>, envs: seq<Env>, outcomes: seq<Outcome>, silent: bool,
                  sends: nat, sleptMs: nat, before: Db, outcome: Outcome, sent: nat, slept: nat)
    requires |envs| > |outcomes| && Retried(db, order, envs, outcomes, silent, sends, sleptMs, before)
    requires sent <= 5 && slept <= 3100
    requires silent ==>
               && outcome.Error? && sent == 0 && slept == 0
               && Written(before, order, envs[|outcomes|], outcome) == before
    ensures var now := Written(before, order, envs[|outcomes|], outcome);
            && now == WrittenAll(db, order, envs, outcomes + [outcome])
            && sends + sent <= 5 * (|outcomes| + 1) && sleptMs + slept <= 3100 * (|outcomes| + 1)
            && (outcome.Error? ==>
                  Retried(db, order, envs, outcomes + [outcome], silent, sends + sent, sleptMs + slept, now))
  {
    WrittenNext(db, order, envs, outcomes, outcome);
  }

  class OrderExecutor {
    const client: Client
    const store: Store

    constructor (client: Client, store: Store)
      ensures this.client == client && this.store == store
    {
      this.client, this.store := client, store;
    }

    ghost predicate Valid()
      reads store
    {
      store.Valid()
    }

    /** `inputs` is what the handler learned on the way: the same inputs drive the handlers of the step
        system. A row is written exactly on a fresh acknowledgement. */
    method Handle(value: Json, env: Env) returns (outcome: Outcome, sends: nat, sleptMs: nat, ghost inputs: seq<Input>)
      requires Valid()
      modifies client, store
      ensures Valid() && store.processed == old(store.processed)
      ensures RunStage(Start(value), inputs) == Finished(outcome)
      ensures match ParseOrder(value)
              case Err(e) => outcome == Error(e) && sends == 0 && sleptMs == 0
                && client.Fields() == old(client.Fields())
              case Ok(cmd) =>
                var call := OrderCall(client.knownAddrs, env, old(client.Fields()), cmd);
                && inputs == Learned(client.knownAddrs, env, old(client.Fields()), old(store.Contents()), cmd)
                && client.Fields() == call.state && sends == call.sends && sleptMs == call.sleptMs
                && RightAnswer(call.result, FoundBy(env, call.state, cmd.orderId),
                               InsertSucceeds(old(store.Contents()), cmd, env), outcome)
      ensures store.Contents() == Written(old(store.Contents()), ParseOrder(value), env, outcome)
      ensures outcome == Nil(Fresh) ==>
                ParseOrder(value).Ok? && WroteRow(old(store.Contents()), store.Contents(), ParseOrder(value).value, env)
      ensures !old(client.open) ==> DeadEnd(outcome) && sends == 0 && sleptMs == 0 && !client.open
      ensures sends <= 5 && sleptMs <= 3100
    {
      var parsed := ParseOrder(value);
      if parsed.Err? {
        return Error(parsed.error), 0, 0, [];
      }
      outcome, sends, sleptMs, inputs := HandleOrder(parsed.value, env);
    }

    /** The handler from its Raft command on. Its answer is nil exactly when the order is known to be replicated and
        needs no row from this run, or the row has been written. */
    method HandleOrder(cmd: OrderCmd, env: Env)
      returns (outcome: Outcome, sends: nat, sleptMs: nat, ghost inputs: seq<Input>)
      requires Valid()
      modifies client, store
      ensures Valid() && store.processed == old(store.processed)
      ensures RunStage(Trying(0), inputs) == Finished(outcome)
      ensures inputs == Learned(client.knownAddrs, env, old(client.Fields()), old(store.Contents()), cmd)
      ensures var call := OrderCall(client.knownAddrs, env, old(client.Fields()), cmd);
              && client.Fields() == call.state && sends == call.sends && sleptMs == call.sleptMs
              && RightAnswer(call.result, FoundBy(env, call.state, cmd.orderId),
                             InsertSucceeds(old(store.Contents()), cmd, env), outcome)
      ensures store.Contents() == Written(old(store.Contents()), Ok(cmd), env, outcome)
      ensures outcome == Nil(Fresh) ==> WroteRow(old(store.Contents()), store.Contents(), cmd, env)
      ensures !old(client.open) ==> DeadEnd(outcome) && sends == 0 && sleptMs == 0 && !client.open
      ensures sends <= 5 && sleptMs <= 3100
    {
      var upsertCmd := UpsertCommand(cmd.orderId, cmd.eventId, "ACCEPTED", "accepted", env.now);
      var raftCmd := Command(env.commandId, UPSERT_KIND, EncodeCommand(UPSERT_KIND, EncodeUpsert(upsertCmd)));
      var net := env.net(raftCmd);
      FiveTries(client.knownAddrs, net, client.Fields());
      ClosedCall(client.knownAddrs, net, client.Fields());
      ghost var before, db := client.Fields(), store.Contents();
      CallThenLast(client.knownAddrs, net, before,
                   ReadFrom(env, CallOf(client.knownAddrs, net, TRIES, before).state, cmd.orderId),
                   InsertSucceeds(db, cmd, env));
      inputs := Learned(client.knownAddrs, env, before, db, cmd);
      var ack;
      ack, sends, sleptMs := client.Apply(net, TRIES);
      if ack.ApplyFailed? || !ack.applied {
        var cause := if ack.ApplyFailed? then AfterError else AfterNotApplied(ack.message);
        var readResp := Read(env, cmd.orderId);
        ReadWritesNothing(db, cmd, env, cause, readResp);
        return AfterRead(cause, readResp), sends, sleptMs, inputs;
      }
      if ack.message == "duplicate" {
        return Nil(Duplicate), sends, sleptMs, inputs;
      }
      var ok := store.InsertOutboxEvent(cmd.orderId, cmd.eventId, env.now, env.now, env.insertFails, env.landed);
      InsertWrites(db, cmd, env, ok);
      outcome := AfterInsert(ok);
    }

    /** The fallback read, from whichever node the client is connected to. */
    method Read(env: Env, orderId: string) returns (r: ReadReply)
      ensures r == ReadFrom(env, client.Fields(), orderId)
    {
      var query := OrderQuery(env.queryId, orderId);
      r := if client.open then env.read(client.addr, query) else ReadError(Canceled);
    }

    /** The handler as the consumer's retry loop sees it. */
    method HandleRecord(value: Json, env: Env) returns (outcome: Outcome, sends: nat, sleptMs: nat)
      requires Valid()
      modifies client, store
      ensures Valid()
      ensures store.Contents() == Written(old(store.Contents()), ParseOrder(value), env, outcome)
      ensures ParseOrder(value).Err? || !old(client.open) ==>
                outcome.Error? && sends == 0 && sleptMs == 0 && store.Contents() == old(store.Contents())
      ensures !old(client.open) ==> !client.open
      ensures sends <= 5 && sleptMs <= 3100
    {
      ghost var inputs;
      outcome, sends, sleptMs, inputs := Handle(value, env);
    }

    /** The consumer's retry loop around the handler: at most three runs, the last one being the first
        that returns nil, with a pause of 100 ms after the first and of 200 ms after the second; in all at most 15
        requests and 9600 ms of sleep, `sleptMs` of it in the client and `pausedMs` here. */
    method HandleWithRetry(value: Json, envs: seq<Env>)
      returns (ok: bool, sends: nat, sleptMs: nat, pausedMs: nat, outcomes: seq<Outcome>)
      requires Valid() && |envs| >= 3
      modifies client, store
      ensures Valid()
      ensures 1 <= |outcomes| <= 3
      ensures forall i | 0 <= i < |outcomes| - 1 :: outcomes[i].Error?
      ensures ok <==> outcomes[|outcomes| - 1].Nil?
      ensures !ok ==> |outcomes| == 3
      ensures pausedMs == Pauses(|outcomes| - 1) && Pauses(0) == 0 && Pauses(1) == 100 && Pauses(2) == 300
      ensures |envs| >= |outcomes|
      ensures store.Contents() == WrittenAll(old(store.Contents()), ParseOrder(value), envs, outcomes)
      ensures ParseOrder(value).Err? || !old(client.open) ==>
                !ok && sends == 0 && sleptMs == 0 && store.Contents() == old(store.Contents())
      ensures !old(client.open) ==> !client.open
      ensures sends <= 15 && sleptMs + pausedMs <= 9600
    {
      sends, sleptMs, pausedMs, outcomes := 0, 0, 0, [];
      var backoff := 100;
      ghost var order, db := ParseOrder(value), store.Contents();
      ghost var wasOpen := client.open;
      ghost var silent := order.Err? || !wasOpen;
      for attempt := 0 to 3
        invariant Valid() && |outcomes| == attempt
        invariant attempt < 2 ==> backoff == 100 * (attempt + 1)
        invariant pausedMs == Pauses(attempt)
        invariant Retried(db, order, envs, outcomes, silent, sends, sleptMs, store.Contents())
        invariant !wasOpen ==> !client.open
      {
        ghost var before := store.Contents();
        var outcome, sent, slept := HandleRecord(value, envs[attempt]);
        RetryNext(db, order, envs, outcomes, silent, sends, sleptMs, before, outcome, sent, slept);
        sends, sleptMs, outcomes := sends + sent, sleptMs + slept, outcomes + [outcome];
        if outcome.Nil? {
          return true, sends, sleptMs, pausedMs, outcomes;
        }
        if attempt < 2 {
          pausedMs := pausedMs + backoff;
          backoff := backoff * 2;
        }
      }
      ok := false;
    }
  }
}
