/** The Raft node's gRPC service (internal/rpc/raftnode/server.go): what it answers, given what the
      node it runs on knows. */
module RaftServer {
  import opened Wrappers
  import opened Json
  import opened Messages
  import opened Fsm

  datatype Code = Unavailable | DeadlineExceeded | ResourceExhausted | Canceled | Unknown

  /** What a caller of `Apply` gets back. */
  datatype ApplyReply =
    | Ack(applied: bool, leaderHint: string, message: string)
    | RpcError(code: Code)

  datatype ReadReply =
    | ReadResp(found: bool, payload: Json)
    | ReadError(code: Code)

  datatype Command = Command(commandId: string, kind: string, payload: Json)

  datatype Query = Query(queryId: string, kind: string, payload: Json)

  /** How the node answers the Raft library's `Apply`: not the leader, an error that leaves open
      whether the entry commits, or the state machine's answer to the committed entry. */
  datatype RaftOutcome = NotLeader(leader: string) | Failed(error: string) | Committed(answer: UpsertResult)

  const GET_KIND := "GET_PROCESSED_ORDER"

  /** `fault` is an injected delay that ran out of time, or an injected drop. */
  function AnswerApply(cmd: Command, fault: Option<Code>, raft: RaftOutcome): ApplyReply {
    if cmd.commandId == "" || cmd.kind == "" then RpcError(Unknown)
    else if fault.Some? then RpcError(fault.value)
    else
      match raft
      case NotLeader(leader) => Ack(false, leader, "not leader, leader is " + leader)
      case Failed(error) => Ack(false, "", "apply failed: " + error)
      case Committed(answer) => Ack(true, "", if answer.duplicate then "duplicate" else "applied")
  }

  function ReplyFor(order: Option<ProcessedOrder>): ReadReply {
    match order
    case None => ReadResp(false, Malformed)
    case Some(o) => ReadResp(true, EncodeProcessed(o))
  }

  /** Reads are served from the node's own table, however far behind it is. */
  function AnswerRead(query: Query, fault: Option<Code>, local: Table): ReadReply {
    if query.queryId == "" then ReadError(Unknown)
    else if fault.Some? then ReadError(fault.value)
    else if query.kind != GET_KIND then ReadResp(false, Malformed)
    else
      match query.payload
      case Obj(fields) =>
        var id := StringField(fields, "order_id");
        if id.ok then ReplyFor(Lookup(local, id.value)) else ReadResp(false, Malformed)
      case Null => ReplyFor(Lookup(local, ""))
      case _ => ReadResp(false, Malformed)
  }

  /** The query the executor builds (cmd/order-executor/main.go:189-193, 209-213), for an order id
      that JSON prints unescaped. */
  function OrderQuery(queryId: string, orderId: string): Query {
    Query(queryId, GET_KIND, Obj([("order_id", Str(orderId))]))
  }

  /** A node answers `found` to the executor's query exactly when its table has the order, and then
      with that order's record. */
  lemma OrderQueryAnswer(queryId: string, orderId: string, local: Table)
    requires queryId != ""
    ensures var r := AnswerRead(OrderQuery(queryId, orderId), None, local);
            && r.ReadResp? && (r.found <==> orderId in local)
            && (r.found ==> DecodeProcessed(r.payload) == Decoded(local[orderId], true))
  {
    AllFields(OrderQuery(queryId, orderId).payload.fields);
    var fs := OrderQuery(queryId, orderId).payload.fields;
    assert fs[0].0 == "order_id";
    if orderId in local {
      ProcessedRoundTrip(local[orderId]);
    }
  }

  /** A command is acknowledged as applied exactly when it is complete, no fault was injected and the entry
      was committed, and then as a duplicate exactly when the state machine says so; a node that is not the
      leader answers so and names the leader. */
  lemma AcknowledgedExactly(cmd: Command, fault: Option<Code>, raft: RaftOutcome)
    ensures var r := AnswerApply(cmd, fault, raft);
            var sound := cmd.commandId != "" && cmd.kind != "" && fault == None;
            && (r.Ack? && r.applied <==> sound && raft.Committed?)
            && (r.Ack? && r.applied ==> r.leaderHint == "" && (r.message == "duplicate" <==> raft.answer.duplicate)
                                        && (r.message == "applied" <==> !raft.answer.duplicate))
            && (sound && raft.NotLeader? ==>
                  r.Ack? && !r.applied && r.leaderHint == raft.leader
                    && r.message == "not leader, leader is " + raft.leader)
            && (sound && raft.Failed? ==>
                  r.Ack? && !r.applied && r.leaderHint == "" && r.message == "apply failed: " + raft.error)
            && (r.RpcError? <==> !sound)
            && (cmd.commandId != "" && cmd.kind != "" && fault.Some? ==> r == RpcError(fault.value))
  {
    assert "applied"[0] != "duplicate"[0];
  }

  /** A read is answered `found` exactly when the query is complete and of the one known kind, no fault was
      injected, and the order it names is in the local table; an id or a fault that is wrong is an error. */
  lemma FoundExactly(queryId: string, kind: string, orderId: string, fault: Option<Code>, local: Table, payload: Json)
    ensures var r := AnswerRead(Query(queryId, kind, Obj([("order_id", Str(orderId))])), fault, local);
            && (r.ReadResp? && r.found <==>
                  queryId != "" && fault == None && kind == "GET_PROCESSED_ORDER" && orderId in local)
            && (r.ReadResp? && r.found ==> r.payload == EncodeProcessed(local[orderId]))
            && (r.ReadError? <==> queryId == "" || fault.Some?)
            && (queryId != "" && fault.Some? ==> r == ReadError(fault.value))
    ensures !payload.Obj? && !payload.Null? ==>
              var r := AnswerRead(Query(queryId, kind, payload), fault, local); !(r.ReadResp? && r.found)
    ensures OrderQuery(queryId, orderId) == Query(queryId, "GET_PROCESSED_ORDER", Obj([("order_id", Str(orderId))]))
  {
    var fs := [("order_id", Str(orderId))];
    AllFields(fs);
    assert fs[0].0 == "order_id";
  }

  /** The service on one node, over that node's own state machine. */
  class Server {
    const fsm: FSM

    constructor (fsm: FSM)
      ensures this.fsm == fsm
    {
      this.fsm := fsm;
    }

    /** `leader` is the node's own idea of who leads, `None` meaning itself; `error` is what the Raft library
        reports when it does not return the entry's answer. Such an entry may still commit later. */
    method Apply(cmd: Command, fault: Option<Code>, leader: Option<string>, error: Option<string>)
      returns (r: ApplyReply)
      modifies fsm.processed
      ensures var committed := cmd.commandId != "" && cmd.kind != "" && fault == None && leader == None
              && error == None;
              && (r.Ack? && r.applied <==> committed)
              && (!committed ==> fsm.processed.m == old(fsm.processed.m))
              && (committed ==> fsm.processed.m == ApplyEntry(old(fsm.processed.m), ReadEntry(cmd.payload)).table)
      ensures r == AnswerApply(cmd, fault, if leader.Some? then NotLeader(leader.value)
                                           else if error.Some? then Failed(error.value)
                                           else Committed(ApplyEntry(old(fsm.processed.m),
                                             ReadEntry(cmd.payload)).answer))
    {
      if cmd.commandId == "" {
        return RpcError(Unknown);
      }
      if cmd.kind == "" {
        return RpcError(Unknown);
      }
      if fault.Some? {
        return RpcError(fault.value);
      }
      if leader.Some? {
        return Ack(false, leader.value, "not leader, leader is " + leader.value);
      }
      if error.Some? {
        return Ack(false, "", "apply failed: " + error.value);
      }
      var result := fsm.Apply(cmd.payload);
      var message := "applied";
      if result.duplicate {
        message := "duplicate";
      }
      r := Ack(true, "", message);
    }

    method Read(query: Query, fault: Option<Code>) returns (r: ReadReply)
      ensures r == AnswerRead(query, fault, fsm.processed.m)
    {
      if query.queryId == "" {
        return ReadError(Unknown);
      }
      if fault.Some? {
        return ReadError(fault.value);
      }
      if query.kind == GET_KIND {
        var orderId := "";
        match query.payload {
          case Obj(fields) =>
            var id := StringField(fields, "order_id");
            if !id.ok {
              return ReadResp(false, Malformed);
            }
            orderId := id.value;
          case Null =>
          case _ =>
            return ReadResp(false, Malformed);
        }
        return ReplyFor(fsm.GetProcessedOrder(orderId));
      }
      r := ReadResp(false, Malformed);
    }
  }
}
