/** The client's round robin, what its retry loop costs, and which leader hints it can use. */
module LeaderSearch {
  import opened Text
  import opened RaftServer
  import opened RaftClient

  // ----- round robin -----

  function IdxAfter(known: seq<string>, idx: nat, calls: nat): (r: nat)
    ensures idx < |known| ==> r < |known|
  {
    if calls == 0 then idx else NextIdx(known, IdxAfter(known, idx, calls - 1))
  }

  lemma ModStep(x: nat, n: nat)
    requires n > 0
    ensures (x % n + 1) % n == (x + 1) % n
  {
    var q, r := x / n, x % n;
    if r + 1 == n {
      NextMultiple(q, n);
      ModUnique(x + 1, q + 1, 0, n);
      ModUnique(n, 1, 0, n);
    } else {
      ModUnique(x + 1, q, r + 1, n);
      ModUnique(r + 1, 0, r + 1, n);
    }
  }

  lemma NextMultiple(q: nat, n: nat)
    ensures (q + 1) * n == q * n + n
  {
  }

  lemma AtLeastOne(d: nat, n: nat)
    requires d >= 1
    ensures d * n >= n
  {
    assert d * n == (d - 1) * n + n;
  }

  lemma ModUnique(x: nat, q: nat, r: nat, n: nat)
    requires n > 0 && r < n && x == q * n + r
    ensures x % n == r
  {
    if x / n > q {
      AtLeastOne(x / n - q, n);
    } else if x / n < q {
      AtLeastOne(q - x / n, n);
    }
  }

  lemma IdxStep(known: seq<string>, x: nat)
    requires known != []
    ensures NextIdx(known, x % |known|) == (x + 1) % |known|
  {
    ModStep(x, |known|);
  }

  lemma {:induction false} IdxAfterIs(known: seq<string>, idx: nat, calls: nat)
    requires idx < |known|
    ensures IdxAfter(known, idx, calls) == (idx + calls) % |known|
  {
    if calls == 0 {
      ModUnique(idx, 0, idx, |known|);
    } else {
      IdxAfterIs(known, idx, calls - 1);
      IdxStep(known, idx + calls - 1);
    }
  }

  /** How many calls of `nextAddr` it takes from `idx` to reach position `p`: between 1 and n. */
  function CallsTo(n: nat, idx: nat, p: nat): nat
    requires idx < n && p < n
  {
    if p > idx then p - idx else p + n - idx
  }

  /** Any n consecutive calls of `nextAddr` visit each of the n positions exactly once. */
  lemma VisitsEachOnce(known: seq<string>, idx: nat, p: nat)
    requires idx < |known| && p < |known|
    ensures 1 <= CallsTo(|known|, idx, p) <= |known|
    ensures forall k: nat | 1 <= k <= |known| :: IdxAfter(known, idx, k) == p <==> k == CallsTo(|known|, idx, p)
  {
    var n := |known|;
    forall k: nat | 1 <= k <= n ensures IdxAfter(known, idx, k) == p <==> k == CallsTo(n, idx, p) {
      IdxAfterIs(known, idx, k);
      if idx + k < n {
        ModUnique(idx + k, 0, idx + k, n);
      } else {
        ModUnique(idx + k, 1, idx + k - n, n);
      }
    }
  }

  // ----- cost -----

  function Pow2(k: nat): (p: nat)
    ensures p >= 1
  {
    if k == 0 then 1 else 2 * Pow2(k - 1)
  }

  /** The k-th sleep is `backoff * 2^k`, so k sleeps take `backoff * (2^k - 1)`; no call makes more
      attempts, sends or sleeps than it has retries, and one that sleeps after each of them fails. */
  lemma {:induction false} LoopCost(known: seq<string>, net: Net, maxRetries: nat, attempt: nat, current: string,
                                    backoff: nat, st: Conn)
    requires attempt <= maxRetries
    ensures Costs(Loop(known, net, maxRetries, attempt, current, backoff, st), backoff, maxRetries - attempt)
    decreases maxRetries - attempt
  {
    if attempt < maxRetries {
      var t := TurnOf(known, net, maxRetries, attempt, current, st);
      SendsAtMostOnce(known, net, maxRetries, attempt, current, st);
      if t.move.Go? {
        var rest := Loop(known, net, maxRetries, attempt + 1, t.move.next, 2 * backoff, t.state);
        LoopCost(known, net, maxRetries, attempt + 1, t.move.next, 2 * backoff, t.state);
        DoubledBackoff(backoff, Pow2(rest.sleeps));
        MoreCosts(t.attempt, t.sent, backoff, rest, maxRetries - attempt - 1);
      }
    }
  }

  predicate Costs(c: Call, backoff: nat, tries: nat) {
    && c.sleptMs == backoff * (Pow2(c.sleeps) - 1)
    && c.sleeps <= tries && c.sends <= |c.trace| <= tries
    && (c.sleeps == tries ==> c.result == ApplyFailed)
  }

  lemma SendsAtMostOnce(known: seq<string>, net: Net, maxRetries: nat, attempt: nat, current: string, st: Conn)
    ensures TurnOf(known, net, maxRetries, attempt, current, st).sent <= 1
  {
  }

  lemma MoreCosts(a: Attempt, sent: nat, backoff: nat, rest: Call, tries: nat)
    requires sent <= 1 && Costs(rest, 2 * backoff, tries)
    requires backoff + 2 * backoff * (Pow2(rest.sleeps) - 1) == backoff * (2 * Pow2(rest.sleeps) - 1)
    ensures Costs(After(a, sent, backoff, rest), backoff, tries + 1)
  {
  }

  lemma DoubledBackoff(b: nat, p: nat)
    requires p >= 1
    ensures b + 2 * b * (p - 1) == b * (2 * p - 1)
  {
  }

  lemma {:induction false} Pow2Monotone(a: nat, b: nat)
    requires a <= b
    ensures Pow2(a) <= Pow2(b)
  {
    if a < b {
      Pow2Monotone(a, b - 1);
    }
  }

  /** The executor's five tries: at most five requests and 3100 ms of sleep, whatever the network does. */
  lemma FiveTries(known: seq<string>, net: Net, st: Conn)
    ensures var c := CallOf(known, net, 5, st);
            c.sends <= 5 && c.sleptMs <= 3100 && |c.trace| <= 5
  {
    var c := CallOf(known, net, 5, st);
    LoopCost(known, net, 5, 0, st.addr, 100, st);
    Pow2Monotone(c.sleeps, 5);
    assert Pow2(5) == 32;
  }

  // ----- one reply -----

  /** What one retry does: after an `Unavailable`, `DeadlineExceeded` or `ResourceExhausted` the client sleeps 100 ms
      and asks the same node again; after any other error it gives up at once. */
  lemma RetryExactly(known: seq<string>, net: Net, st: Conn, code: Code)
    requires st.open && net.answer(0, st.addr) == RpcError(code) && net.answer(1, st.addr) == Ack(true, "", "applied")
    ensures CallOf(known, net, 2, st) ==
              if code == Unavailable || code == DeadlineExceeded || code == ResourceExhausted then
                Call(Acked(true, "applied"), st, [Replied(RpcError(code)), Replied(Ack(true, "", "applied"))], 2,
                  1, 100)
              else
                Call(ApplyFailed, st, [Replied(RpcError(code))], 1, 0, 0)
  {
    var again := Loop(known, net, 2, 1, st.addr, 200, st);
    assert again == Call(Acked(true, "applied"), st, [Replied(Ack(true, "", "applied"))], 1, 0, 0);
  }

  /** An acknowledgement a call returns is the reply to its last attempt, with that reply's message. */
  lemma {:induction false} ResultIsLastReply(known: seq<string>, net: Net, maxRetries: nat, attempt: nat,
    current: string,
                                             backoff: nat, st: Conn)
    ensures var c := Loop(known, net, maxRetries, attempt, current, backoff, st);
            c.result.Acked? ==>
              && c.trace != [] && var last := c.trace[|c.trace| - 1];
              && last.Replied? && last.reply.Ack?
              && last.reply.applied == c.result.applied && last.reply.message == c.result.message
    decreases maxRetries - attempt
  {
    if attempt < maxRetries {
      var t := TurnOf(known, net, maxRetries, attempt, current, st);
      if t.move.Go? {
        ResultIsLastReply(known, net, maxRetries, attempt + 1, t.move.next, 2 * backoff, t.state);
      }
    }
  }

  /** Without a usable hint a follower sends the client to the next known address after 100 ms; the last try's
      refusal is what the call returns. */
  lemma RefusedExactly(net: Net, st: Conn, other: string, message: string)
    requires st.open && st.idx == 0 && other != st.addr && net.dialOk(1, other)
    requires net.answer(0, st.addr) == Ack(false, "", message) && net.answer(1, other) == Ack(true, "", "applied")
    ensures CallOf([st.addr, other], net, 1, st)
         == Call(Acked(false, message), st, [Replied(Ack(false, "", message))], 1, 0, 0)
    ensures CallOf([st.addr, other], net, 2, st)
         == Call(Acked(true, "applied"), Conn(other, 1, true),
                 [Replied(Ack(false, "", message)), Replied(Ack(true, "", "applied"))], 2, 1, 100)
  {
    var known := [st.addr, other];
    var again := Loop(known, net, 2, 1, other, 200, Conn(st.addr, 1, true));
    assert again == Call(Acked(true, "applied"), Conn(other, 1, true), [Replied(Ack(true, "", "applied"))], 1, 0, 0);
  }

  // ----- leader hints -----

  /** A hint is usable exactly when it is `host:port` with one of the three Raft ports, and then names the
      gRPC port beside it on the same host. */
  lemma HintUsableExactly(hint: string)
    ensures FindLeaderGrpcAddr(hint) != "" <==>
            exists host: string, port: string :: IsHint(hint, host, port)
    ensures forall host: string | ':' !in host ::
              && FindLeaderGrpcAddr(host + ":7000") == host + ":50070"
              && FindLeaderGrpcAddr(host + ":7001") == host + ":50071"
              && FindLeaderGrpcAddr(host + ":7002") == host + ":50072"
  {
    var parts := Split(hint, ":");
    SplitIsExact(hint, ":");
    if |parts| == 2 {
      assert Join(parts[1..], ":") == parts[1];
      assert hint == parts[0] + ":" + parts[1];
      NoColon(parts[0]);
      NoColon(parts[1]);
      if GrpcPort(parts[1]) != "" {
        assert IsHint(hint, parts[0], parts[1]);
      }
    }
    forall host: string, port: string | IsHint(hint, host, port) ensures FindLeaderGrpcAddr(hint) != "" {
      SplitAtFirst(host, ':', port);
      SplitNone(port, ':');
    }
    forall host: string | ':' !in host
      ensures FindLeaderGrpcAddr(host + ":7000") == host + ":50070"
      ensures FindLeaderGrpcAddr(host + ":7001") == host + ":50071"
      ensures FindLeaderGrpcAddr(host + ":7002") == host + ":50072"
    {
      ThreePorts(host);
    }
  }

  lemma ThreePorts(host: string)
    requires ':' !in host
    ensures FindLeaderGrpcAddr(host + ":7000") == host + ":50070"
    ensures FindLeaderGrpcAddr(host + ":7001") == host + ":50071"
    ensures FindLeaderGrpcAddr(host + ":7002") == host + ":50072"
  {
    assert ":" + "7000" == ":7000" && ":" + "7001" == ":7001" && ":" + "7002" == ":7002";
    assert ":" + "50070" == ":50070" && ":" + "50071" == ":50071" && ":" + "50072" == ":50072";
    PortOf(host, "7000", "50070");
    PortOf(host, "7001", "50071");
    PortOf(host, "7002", "50072");
  }

  ghost predicate IsHint(hint: string, host: string, port: string) {
    hint == host + ":" + port && ':' !in host && (port == "7000" || port == "7001" || port == "7002")
  }

  lemma PortOf(host: string, port: string, grpcPort: string)
    requires ':' !in host && ':' !in port && GrpcPort(port) == grpcPort != ""
    ensures FindLeaderGrpcAddr(host + (":" + port)) == host + (":" + grpcPort)
  {
    assert host + (":" + port) == host + ":" + port && host + (":" + grpcPort) == host + ":" + grpcPort;
    SplitAtFirst(host, ':', port);
    SplitNone(port, ':');
  }

  lemma NoColon(p: string)
    requires !Contains(p, ":")
    ensures ':' !in p
  {
    forall i | 0 <= i < |p| ensures p[i] != ':' {
      OccursOne(p, ':', i);
      assert !OccursAt(p, ":", i);
    }
  }
}
