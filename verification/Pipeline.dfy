/** The order path as one step system: records on orders.commands, any number of executors with any
    number of concurrent handlers, requests and acknowledgements in transit, the Raft cluster, the
    executors' outboxes and their publishers, and orders.events. Every step is atomic; every
    interleaving of steps is a run. */
module Pipeline {
  import opened Wrappers
  import opened Json
  import opened Messages
  import opened RaftServer
  import opened RaftClient
  import opened Executor
  import Drain
  import Replica
  import Fsm

  /** A record on orders.commands and how the handler reads it. */
  datatype CommandRecord = CommandRecord(value: Json, order: Result<OrderCmd, HandlerError>)

  function ToRecord(value: Json): CommandRecord {
    CommandRecord(value, ParseOrder(value))
  }

  /** A request on its way: not yet appended, committed as log entry `index`, answered by the node that
      applied it, or of no further effect. */
  datatype Phase = Requested | InLog(index: nat) | Answered(index: nat, duplicate: bool) | Closed

  datatype Rpc = Rpc(upsert: UpsertCommand, phase: Phase)

  /** One run of the handler. While it waits for a reply, `rpc` is the request. */
  datatype Run =
    | Busy(cmd: OrderCmd, ts: int64, stage: Stage, rpc: Option<nat>)
    | Done(outcome: Outcome)
    | Committed
    | Dead

  /** A goroutine for one delivered record: executor, offset, handler runs so far. */
  datatype Handler = Handler(x: nat, offset: nat, tries: nat, run: Run)

  /** `lost` collects the orders whose fresh acknowledgement never reached a handler, or whose insert
      failed or was cut off by a crash. */
  datatype State = State(
    commands: seq<CommandRecord>,
    cluster: Replica.Cluster,
    drain: Drain.State,
    rpcs: seq<Rpc>,
    handlers: seq<Handler>,
    committed: set<nat>,
    lost: multiset<string>)

  datatype Action =
    | Produce(value: Json)
    | Deliver(x: nat, offset: nat, ts: int64)
    | DialFails(h: nat)
    | Send(h: nat)
    | NoAck(h: nat, reply: ApplyReply)
    | AckArrives(h: nat)
    | ReadReturns(h: nat, n: nat, fault: Option<Code>)
    | Insert(h: nat, created: int64, fails: bool, landed: bool)
    | Crash(h: nat)
    | Retry(h: nat, ts: int64)
    | CommitOffset(h: nat)
    | Append(r: nat)
    | Drop(r: nat)
    | Answer(r: nat, n: nat)
    | LoseAck(r: nat)
    | AtCluster(event: Replica.Event)
    | Publish(op: Drain.Op)

  const MAX_TRIES := 3

  function Init(executors: nat, nodes: nat): State {
    State([], Replica.InitCluster(nodes), Drain.Init(executors), [], [], {}, multiset{})
  }

  function Table(s: State): Fsm.Table {
    Fsm.Replay(map[], s.cluster.log)
  }

  /** Entry `index` was answered "applied" rather than "duplicate". */
  predicate FreshAt(log: seq<Fsm.Request>, index: nat) {
    index < |log| && !Fsm.Answers(map[], log)[index].duplicate
  }

  /** The acknowledgement for a committed request. */
  function AckOf(duplicate: bool): ApplyReply {
    Ack(true, "", if duplicate then "duplicate" else "applied")
  }

  function Begin(rec: CommandRecord, ts: int64): Run {
    match rec.order
    case Err(e) => Done(Error(e))
    case Ok(cmd) => Busy(cmd, ts, Trying(0), None)
  }

  /** The run after its handler has moved to `stage`, no longer waiting for anything. */
  function MoveTo(run: Run, stage: Stage): Run
    requires run.Busy?
  {
    if stage.Finished? then Done(stage.outcome) else Busy(run.cmd, run.ts, stage, None)
  }

  function SetRun(s: State, h: nat, run: Run): State
    requires h < |s.handlers|
  {
    s.(handlers := s.handlers[h := s.handlers[h].(run := run)])
  }

  function SetPhase(s: State, r: nat, phase: Phase): State
    requires r < |s.rpcs|
  {
    s.(rpcs := s.rpcs[r := s.rpcs[r].(phase := phase)])
  }

  predicate IsBusy(s: State, h: nat) {
    h < |s.handlers| && s.handlers[h].run.Busy?
  }

  /** Which steps can be taken in a state. */
  predicate Enabled(s: State, a: Action) {
    match a
    case Produce(_) => true
    case Deliver(x, offset, _) => x < |s.drain.dbs| && offset < |s.commands|
    case DialFails(h) => IsBusy(s, h) && s.handlers[h].run.stage.Trying? && s.handlers[h].run.rpc.None?
    case Send(h) => IsBusy(s, h) && s.handlers[h].run.stage.Trying? && s.handlers[h].run.rpc.None?
    case NoAck(h, reply) => IsBusy(s, h) && s.handlers[h].run.stage.Trying? && !(reply.Ack? && reply.applied)
    case AckArrives(h) =>
      && IsBusy(s, h) && s.handlers[h].run.stage.Trying? && s.handlers[h].run.rpc.Some?
      && s.handlers[h].run.rpc.value < |s.rpcs| && s.rpcs[s.handlers[h].run.rpc.value].phase.Answered?
    case ReadReturns(h, n, fault) => IsBusy(s, h) && s.handlers[h].run.stage.Reading? && n < |s.cluster.nodes|
    case Insert(h, _, _, _) => IsBusy(s, h) && s.handlers[h].run.stage.Inserting? && s.handlers[h].x < |s.drain.dbs|
    case Crash(h) => h < |s.handlers|
    case Retry(h, _) =>
      && h < |s.handlers| && s.handlers[h].run.Done? && s.handlers[h].run.outcome.Error?
      && s.handlers[h].tries < MAX_TRIES && s.handlers[h].offset < |s.commands|
    case CommitOffset(h) => h < |s.handlers| && s.handlers[h].run.Done? && s.handlers[h].run.outcome.Nil?
    case Append(r) => r < |s.rpcs| && s.rpcs[r].phase.Requested?
    case Drop(r) => r < |s.rpcs| && s.rpcs[r].phase.Requested?
    case Answer(r, n) =>
      && r < |s.rpcs| && s.rpcs[r].phase.InLog? && n < |s.cluster.nodes|
      && s.rpcs[r].phase.index in s.cluster.nodes[n].answers
    case LoseAck(r) => r < |s.rpcs| && (s.rpcs[r].phase.InLog? || s.rpcs[r].phase.Answered?)
    case AtCluster(event) => !event.Commit?
    case Publish(op) => op.Publish? && Drain.Enabled(s.drain, op)
  }

  /** The order a committed request will still be freshly acknowledged for, if any. */
  function RpcToken(log: seq<Fsm.Request>, r: Rpc): Option<string> {
    match r.phase
    case InLog(index) => if FreshAt(log, index) then Some(r.upsert.orderId) else None
    case Answered(_, duplicate) => if duplicate then None else Some(r.upsert.orderId)
    case _ => None
  }

  /** The order a handler holds a fresh acknowledgement for, if any. */
  function HeldToken(h: Handler): Option<string> {
    if h.run.Busy? && h.run.stage.Inserting? then Some(h.run.cmd.orderId) else None
  }

  function AsBag(token: Option<string>): multiset<string> {
    if token.Some? then multiset{token.value} else multiset{}
  }

  function InsertOp(s: State, h: nat, created: int64): Drain.Op
    requires IsBusy(s, h)
  {
    var cmd := s.handlers[h].run.cmd;
    Drain.Add(s.handlers[h].x, cmd.orderId, cmd.eventId, created, created)
  }

  /** The state after a step; one that is not enabled changes nothing. */
  function Next(s: State, a: Action): State {
    if !Enabled(s, a) then s
    else
      match a
      case Produce(value) => s.(commands := s.commands + [ToRecord(value)])
      case Deliver(x, offset, ts) =>
        s.(handlers := s.handlers + [Handler(x, offset, 1, Begin(s.commands[offset], ts))])
      case DialFails(h) =>
        var run := s.handlers[h].run;
        SetRun(s, h, MoveTo(run, Advance(run.stage, Tried(DialFailed))))
      case Send(h) =>
        var run := s.handlers[h].run;
        SetRun(s, h, run.(rpc := Some(|s.rpcs|))).(rpcs := s.rpcs + [Rpc(UpsertFor(run.cmd, run.ts), Requested)])
      case NoAck(h, reply) =>
        var run := s.handlers[h].run;
        SetRun(s, h, MoveTo(run, Advance(run.stage, Tried(Replied(reply)))))
      case AckArrives(h) =>
        var run := s.handlers[h].run;
        var r := run.rpc.value;
        SetPhase(SetRun(s, h, MoveTo(run, Advance(run.stage, Tried(Replied(AckOf(s.rpcs[r].phase.duplicate)))))),
          r, Closed)
      case ReadReturns(h, n, fault) =>
        var run := s.handlers[h].run;
        var reply := AnswerRead(OrderQuery("query", run.cmd.orderId), fault, s.cluster.nodes[n].table);
        SetRun(s, h, MoveTo(run, Advance(run.stage, WasRead(reply))))
      case Insert(h, created, fails, landed) =>
        var run := s.handlers[h].run;
        var op := InsertOp(s, h, created);
        var ok := Drain.Enabled(s.drain, op) && !fails;
        var s' := SetRun(s, h, MoveTo(run, Advance(run.stage, WasInserted(ok))));
        if Drain.Enabled(s.drain, op) && (!fails || landed)
        then s'.(drain := Drain.Next(s.drain, op))
        else s'.(lost := s.lost + multiset{run.cmd.orderId})
      case Crash(h) =>
        SetRun(s, h, Dead).(lost := s.lost + AsBag(HeldToken(s.handlers[h])))
      case Retry(h, ts) =>
        s.(handlers := s.handlers[h := s.handlers[h].(tries := s.handlers[h].tries + 1,
          run := Begin(s.commands[s.handlers[h].offset], ts))])
      case CommitOffset(h) =>
        SetRun(s, h, Run.Committed).(committed := s.committed + {s.handlers[h].offset})
      case Append(r) =>
        var appended := Replica.ClusterStep(s.cluster, Replica.Commit(Fsm.Upsert(s.rpcs[r].upsert)));
        SetPhase(s, r, InLog(|s.cluster.log|)).(cluster := appended)
      case Drop(r) => SetPhase(s, r, Closed)
      case Answer(r, n) =>
        var index := s.rpcs[r].phase.index;
        SetPhase(s, r, Answered(index, s.cluster.nodes[n].answers[index].duplicate))
      case LoseAck(r) =>
        SetPhase(s, r, Closed).(lost := s.lost + AsBag(RpcToken(s.cluster.log, s.rpcs[r])))
      case AtCluster(event) => s.(cluster := Replica.ClusterStep(s.cluster, event))
      case Publish(op) => s.(drain := Drain.Next(s.drain, op))
  }

  function RunAll(s: State, actions: seq<Action>): State {
    if actions == [] then s else Next(RunAll(s, actions[..|actions| - 1]), actions[|actions| - 1])
  }

  /** Some step of the run is of the given kind, in the state it is taken in. */
  predicate Happens(executors: nat, nodes: nat, actions: seq<Action>, kind: (State, Action) -> bool) {
    exists k: nat | k < |actions| :: kind(RunAll(Init(executors, nodes), actions[..k]), actions[k])
  }

  lemma HappensGrows(executors: nat, nodes: nat, front: seq<Action>, a: Action, kind: (State, Action) -> bool)
    ensures Happens(executors, nodes, front + [a], kind) <==>
              Happens(executors, nodes, front, kind) || kind(RunAll(Init(executors, nodes), front), a)
  {
    var actions := front + [a];
    assert actions[..|front|] == front && actions[|front|] == a;
    forall k: nat | k < |front| ensures actions[..k] == front[..k] && actions[k] == front[k] {}
    if k: nat :| k < |front| && kind(RunAll(Init(executors, nodes), front[..k]), front[k]) {
      assert kind(RunAll(Init(executors, nodes), actions[..k]), actions[k]);
    }
    if k: nat :| k < |actions| && kind(RunAll(Init(executors, nodes), actions[..k]), actions[k]) && k < |front| {
      assert kind(RunAll(Init(executors, nodes), front[..k]), front[k]);
    }
  }

  /** The bytes a handler sends are read by the state machine as the upsert the step system appends,
      and the acknowledgement the server makes of its answer is the one that travels back. */
  lemma StepsMatchServer(commandId: string, cmd: OrderCmd, ts: int64, answer: Fsm.UpsertResult)
    requires commandId != ""
    ensures Fsm.ReadEntry(RaftCommand(commandId, cmd, ts).payload) == Fsm.Upsert(UpsertFor(cmd, ts))
    ensures AnswerApply(RaftCommand(commandId, cmd, ts), None, RaftServer.Committed(answer)) == AckOf(answer.duplicate)
  {
    UpsertRoundTrip(UpsertFor(cmd, ts));
  }
}
