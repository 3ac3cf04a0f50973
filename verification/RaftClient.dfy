/** The leader-following, retrying client of the Raft nodes (internal/rpc/raftnode/client.go). */
module RaftClient {
  import opened Text
  import opened RaftServer

  /** What `Client.Apply` returns: the server's acknowledgement, or an error. */
  datatype ApplyResult = Acked(applied: bool, message: string) | ApplyFailed

  /** The network as one call meets it: whether dialling an address works, and what the node there
      answers, both possibly different at each attempt. */
  datatype Net = Net(dialOk: (nat, string) -> bool, answer: (nat, string) -> ApplyReply)

  /** What one attempt came to. */
  datatype Attempt = DialFailed | Replied(reply: ApplyReply)

  datatype Verdict = Return(result: ApplyResult) | SameAddr | NextAddr | Redirect(addr: string)

  function IsRetryable(code: Code): bool {
    code == Unavailable || code == DeadlineExceeded || code == ResourceExhausted
  }

  function GrpcPort(raftPort: string): string {
    if raftPort == "7000" then "50070"
    else if raftPort == "7001" then "50071"
    else if raftPort == "7002" then "50072"
    else ""
  }

  /** The gRPC address for a Raft address, or "" when there is none. */
  function FindLeaderGrpcAddr(raftAddr: string): string {
    var parts := Split(raftAddr, ":");
    if |parts| != 2 || GrpcPort(parts[1]) == "" then "" else parts[0] + ":" + GrpcPort(parts[1])
  }

  /** What the client does about a reply. */
  function Judge(reply: ApplyReply, attempt: nat, maxRetries: nat): Verdict {
    match reply
    case RpcError(code) => if IsRetryable(code) then SameAddr else Return(ApplyFailed)
    case Ack(true, _, message) => Return(Acked(true, message))
    case Ack(false, hint, message) =>
      if attempt + 1 >= maxRetries then Return(Acked(false, message))
      else if hint != "" && FindLeaderGrpcAddr(hint) != "" then Redirect(FindLeaderGrpcAddr(hint))
      else NextAddr
  }

  /** The client's fields. After a failed dial the old connection is closed but `addr` is kept. */
  datatype Conn = Conn(addr: string, idx: nat, open: bool)

  function NextIdx(known: seq<string>, idx: nat): nat {
    if known == [] then idx else (idx + 1) % |known|
  }

  function NextAddrOf(known: seq<string>, st: Conn): string {
    if known == [] then st.addr else known[NextIdx(known, st.idx)]
  }

  function Rotate(known: seq<string>, st: Conn): Conn {
    st.(idx := NextIdx(known, st.idx))
  }

  /** One call of `Apply`: its result, the fields it leaves, the attempts it made, how many requests
      went out, how many attempts were followed by a sleep, and how long it slept in all. */
  datatype Call = Call(result: ApplyResult, state: Conn, trace: seq<Attempt>, sends: nat, sleeps: nat, sleptMs: nat)

  function After(a: Attempt, sent: nat, slept: nat, rest: Call): Call {
    Call(rest.result, rest.state, [a] + rest.trace, sent + rest.sends, 1 + rest.sleeps, slept + rest.sleptMs)
  }

  datatype Move = Stop(result: ApplyResult) | Go(next: string)

  /** One attempt: what came back, whether a request went out, the fields it leaves, and whether to
      stop or which address to try next. */
  datatype Turn = Turn(attempt: Attempt, sent: nat, state: Conn, move: Move)

  function TurnOf(known: seq<string>, net: Net, maxRetries: nat, attempt: nat, current: string, st: Conn): Turn {
    if current != st.addr && !net.dialOk(attempt, current) then
      Turn(DialFailed, 0, Rotate(known, st.(open := false)), Go(NextAddrOf(known, st)))
    else
      var st' := if current != st.addr then st.(addr := current, open := true) else st;
      var reply := if st'.open then net.answer(attempt, current) else RpcError(Canceled);
      var sent := if st'.open then 1 else 0;
      match Judge(reply, attempt, maxRetries)
      case Return(result) => Turn(Replied(reply), sent, st', Stop(result))
      case SameAddr => Turn(Replied(reply), sent, st', Go(current))
      case Redirect(addr) => Turn(Replied(reply), sent, st', Go(addr))
      case NextAddr => Turn(Replied(reply), sent, Rotate(known, st'), Go(NextAddrOf(known, st')))
  }

  /** The loop from `attempt` on, about to use `current`, with the next sleep `backoff`. */
  function Loop(known: seq<string>, net: Net, maxRetries: nat, attempt: nat, current: string, backoff: nat, st: Conn)
    : Call
    decreases maxRetries - attempt
  {
    if attempt >= maxRetries then Call(ApplyFailed, st, [], 0, 0, 0)
    else
      var t := TurnOf(known, net, maxRetries, attempt, current, st);
      match t.move
      case Stop(result) => Call(result, t.state, [t.attempt], t.sent, 0, 0)
      case Go(next) =>
        After(t.attempt, t.sent, backoff, Loop(known, net, maxRetries, attempt + 1, next, 2 * backoff, t.state))
  }

  /** One call with the client's fields at `st`. */
  function CallOf(known: seq<string>, net: Net, maxRetries: nat, st: Conn): Call {
    Loop(known, net, maxRetries, 0, st.addr, 100, st)
  }

  class Client {
    var addr: string
    var open: bool
    const knownAddrs: seq<string>
    var currentIdx: nat

    /** `addrsEnv` is the RAFT_NODE_GRPC_ADDRS list, trimmed; empty when unset. */
    constructor (addr: string, addrsEnv: seq<string>)
      ensures Fields() == Conn(addr, 0, true)
      ensures knownAddrs == if addrsEnv == [] then [addr] else addrsEnv
    {
      this.addr := addr;
      this.open := true;
      this.knownAddrs := if addrsEnv == [] then [addr] else addrsEnv;
      this.currentIdx := 0;
    }

    function Fields(): Conn
      reads this
    {
      Conn(addr, currentIdx, open)
    }

    method NextAddr() returns (a: string)
      modifies this`currentIdx
      ensures Fields() == Rotate(knownAddrs, old(Fields()))
      ensures a == NextAddrOf(knownAddrs, old(Fields()))
    {
      if |knownAddrs| == 0 {
        return addr;
      }
      currentIdx := (currentIdx + 1) % |knownAddrs|;
      a := knownAddrs[currentIdx];
    }

    /** One pass through the body of `Apply`'s loop, up to its sleep. */
    method Try(net: Net, maxRetries: nat, attempt: nat, target: string) returns (move: Move, sent: nat)
      modifies this
      ensures var t := TurnOf(knownAddrs, net, maxRetries, attempt, target, old(Fields()));
              move == t.move && sent == t.sent && Fields() == t.state
    {
      sent := 0;
      if target != addr {
        open := false;
        if !net.dialOk(attempt, target) {
          var next := NextAddr();
          return Go(next), sent;
        }
        addr, open := target, true;
      }
      var reply := if open then net.answer(attempt, target) else RpcError(Canceled);
      if open {
        sent := 1;
      }
      match reply {
        case RpcError(code) =>
          return if IsRetryable(code) then Go(target) else Stop(ApplyFailed), sent;
        case Ack(applied, hint, message) =>
          if applied {
            return Stop(Acked(true, message)), sent;
          }
          if hint != "" && attempt + 1 < maxRetries {
            var leaderGrpc := FindLeaderGrpcAddr(hint);
            if leaderGrpc != "" {
              return Go(leaderGrpc), sent;
            }
          }
          if attempt + 1 < maxRetries {
            var next := NextAddr();
            return Go(next), sent;
          }
          return Stop(Acked(false, message)), sent;
      }
    }

    method Apply(net: Net, maxRetries: nat) returns (result: ApplyResult, sends: nat, sleptMs: nat)
      modifies this
      ensures var all := CallOf(knownAddrs, net, maxRetries, old(Fields()));
              result == all.result && Fields() == all.state && sends == all.sends && sleptMs == all.sleptMs
    {
      var current := addr;
      var backoffMs: nat := 100;
      sends, sleptMs := 0, 0;
      ghost var all := Loop(knownAddrs, net, maxRetries, 0, current, 100, Fields());
      for attempt := 0 to maxRetries
        invariant Remains(Loop(knownAddrs, net, maxRetries, attempt, current, backoffMs, Fields()), sends, sleptMs, all)
      {
        var move, sent := Try(net, maxRetries, attempt, current);
        sends := sends + sent;
        match move {
          case Stop(r) =>
            return r, sends, sleptMs;
          case Go(next) =>
            current := next;
            sleptMs := sleptMs + backoffMs;
            backoffMs := backoffMs * 2;
        }
      }
      result := ApplyFailed;
    }
  }

  /** What has been done so far, followed by `rest`, is `all`. */
  ghost predicate Remains(rest: Call, sends: nat, sleptMs: nat, all: Call) {
    && rest.result == all.result && rest.state == all.state
    && sends + rest.sends == all.sends && sleptMs + rest.sleptMs == all.sleptMs
  }
}
