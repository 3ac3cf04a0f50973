/** The consumer's bounded concurrency and offset commits (internal/msg/consumer.go:76-148), for one
    partition. */
module Consumer {
  import opened Wrappers

  /** A goroutine: its handler is running, has returned (nil or an error, the offset then committed or
      the error counted), or it has exited and given its slot back. */
  datatype Phase = Running | Returned(ok: bool) | Exited(ok: bool)

  datatype Goroutine = Goroutine(offset: nat, phase: Phase)

  /** Records with offsets from `start` to polled - 1 have come in; `committed` is the position committed
      last, if any. */
  datatype State = State(
    maxInflight: nat, start: nat, tokens: nat, polled: nat, goroutines: seq<Goroutine>, skipped: set<nat>,
    committed: Option<nat>, pollCount: nat, errorCount: nat)

  /** `commitOk`: whether the commit after a success takes effect; its error is ignored. */
  datatype Event = Poll | HandlerReturns(g: nat, ok: bool, commitOk: bool) | Exit(g: nat)

  function Init(maxInflight: nat, start: nat): State {
    State(maxInflight, start, 0, start, [], {}, None, 0, 0)
  }

  /** Where a restarted consumer goes on. */
  function ResumeAt(s: State): nat {
    if s.committed.Some? then s.committed.value else s.start
  }

  function Next(s: State, e: Event): State {
    match e
    case Poll =>
      if s.tokens < s.maxInflight
      then s.(polled := s.polled + 1, tokens := s.tokens + 1,
        goroutines := s.goroutines + [Goroutine(s.polled, Running)])
      else s.(polled := s.polled + 1, skipped := s.skipped + {s.polled})
    case HandlerReturns(g, ok, commitOk) =>
      if g < |s.goroutines| && s.goroutines[g].phase.Running? then
        var s' := s.(goroutines := s.goroutines[g := Goroutine(s.goroutines[g].offset, Returned(ok))]);
        if ok then
          var committed := if commitOk then Some(s.goroutines[g].offset + 1) else s.committed;
          s'.(committed := committed, pollCount := s.pollCount + 1)
        else s'.(errorCount := s.errorCount + 1)
      else s
    case Exit(g) =>
      if g < |s.goroutines| && s.goroutines[g].phase.Returned? && s.tokens > 0
      then s.(goroutines := s.goroutines[g := Goroutine(s.goroutines[g].offset, Exited(s.goroutines[g].phase.ok))],
        tokens := s.tokens - 1)
      else s
  }

  function RunAll(s: State, es: seq<Event>): State {
    if es == [] then s else Next(RunAll(s, es[..|es| - 1]), es[|es| - 1])
  }

  /** The consumer's own fields, updated as its goroutines update them. */
  class Consumer {
    const maxInflight: nat
    const start: nat
    var semaphore: nat
    var polled: nat
    var goroutines: seq<Goroutine>
    var skipped: set<nat>
    var committed: Option<nat>
    var pollCount: nat
    var errorCount: nat

    constructor (maxInflight: nat, start: nat)
      ensures Fields() == Init(maxInflight, start)
    {
      this.maxInflight, this.start := maxInflight, start;
      semaphore, polled, goroutines, skipped, committed := 0, start, [], {}, None;
      pollCount, errorCount := 0, 0;
    }

    function Fields(): State
      reads this
    {
      State(maxInflight, start, semaphore, polled, goroutines, skipped, committed, pollCount, errorCount)
    }

    /** The body of the record loop: take a slot and start a goroutine, or skip the record. */
    method OnRecord() returns (dispatched: bool)
      modifies this
      ensures Fields() == Next(old(Fields()), Poll)
      ensures dispatched <==> |goroutines| == |old(goroutines)| + 1
    {
      var offset := polled;
      polled := polled + 1;
      if semaphore < maxInflight {
        semaphore := semaphore + 1;
        goroutines := goroutines + [Goroutine(offset, Running)];
        return true;
      }
      skipped := skipped + {offset};
      dispatched := false;
    }

    /** What a goroutine does once its handler has returned. */
    method OnHandlerReturn(g: nat, ok: bool, commitOk: bool)
      requires g < |goroutines| && goroutines[g].phase.Running?
      modifies this
      ensures Fields() == Next(old(Fields()), HandlerReturns(g, ok, commitOk))
    {
      goroutines := goroutines[g := Goroutine(goroutines[g].offset, Returned(ok))];
      if !ok {
        errorCount := errorCount + 1;
        return;
      }
      if commitOk {
        committed := Some(goroutines[g].offset + 1);
      }
      pollCount := pollCount + 1;
    }

    /** Its deferred release of the slot. */
    method OnExit(g: nat)
      requires g < |goroutines| && goroutines[g].phase.Returned? && semaphore > 0
      modifies this
      ensures Fields() == Next(old(Fields()), Exit(g))
    {
      goroutines := goroutines[g := Goroutine(goroutines[g].offset, Exited(goroutines[g].phase.ok))];
      semaphore := semaphore - 1;
    }
  }

  // ----- counting goroutines -----

  datatype Kind = HoldsSlot | InHandler | Succeeded | Failed

  predicate Is(p: Phase, k: Kind) {
    match k
    case HoldsSlot => !p.Exited?
    case InHandler => p.Running?
    case Succeeded => !p.Running? && p.ok
    case Failed => !p.Running? && !p.ok
  }

  function Count(gs: seq<Goroutine>, k: Kind): nat {
    if gs == [] then 0 else Count(gs[..|gs| - 1], k) + (if Is(gs[|gs| - 1].phase, k) then 1 else 0)
  }

  lemma {:induction false} CountUpdate(gs: seq<Goroutine>, i: nat, g: Goroutine, k: Kind)
    requires i < |gs|
    ensures Count(gs[i := g], k) + (if Is(gs[i].phase, k) then 1 else 0)
              == Count(gs, k) + (if Is(g.phase, k) then 1 else 0)
  {
    var last := |gs| - 1;
    if i == last {
      assert gs[i := g][..last] == gs[..last];
    } else {
      assert gs[i := g][..last] == gs[..last][i := g];
      CountUpdate(gs[..last], i, g, k);
    }
  }

  lemma CountAppend(gs: seq<Goroutine>, g: Goroutine, k: Kind)
    ensures Count(gs + [g], k) == Count(gs, k) + (if Is(g.phase, k) then 1 else 0)
  {
    assert (gs + [g])[..|gs|] == gs;
  }

  /** The semaphore's tokens are the goroutines that have not exited, never more than the limit; every
      record polled is in its handler, succeeded, failed or skipped; the counters count the outcomes. */
  ghost predicate Balanced(s: State) {
    && s.tokens == Count(s.goroutines, HoldsSlot) <= s.maxInflight
    && s.pollCount == Count(s.goroutines, Succeeded) && s.errorCount == Count(s.goroutines, Failed)
    && s.polled == s.start + Count(s.goroutines, InHandler) + s.pollCount + s.errorCount + |s.skipped|
    && (forall o | o in s.skipped :: s.start <= o < s.polled)
  }

  lemma TakeBalanced(s: State)
    requires Balanced(s) && s.tokens < s.maxInflight
    ensures Balanced(Next(s, Poll))
  {
    var g := Goroutine(s.polled, Running);
    CountAppend(s.goroutines, g, HoldsSlot);
    CountAppend(s.goroutines, g, InHandler);
    CountAppend(s.goroutines, g, Succeeded);
    CountAppend(s.goroutines, g, Failed);
  }

  lemma SkipBalanced(s: State)
    requires Balanced(s) && s.tokens == s.maxInflight
    ensures Balanced(Next(s, Poll))
  {
    assert |s.skipped + {s.polled}| == |s.skipped| + 1;
  }

  lemma MoveBalanced(s: State, e: Event)
    requires Balanced(s) && !e.Poll?
    ensures Balanced(Next(s, e))
  {
    if Next(s, e) != s {
      var g := Next(s, e).goroutines[e.g];
      CountUpdate(s.goroutines, e.g, g, HoldsSlot);
      CountUpdate(s.goroutines, e.g, g, InHandler);
      CountUpdate(s.goroutines, e.g, g, Succeeded);
      CountUpdate(s.goroutines, e.g, g, Failed);
    }
  }

  lemma NextBalanced(s: State, e: Event)
    requires Balanced(s)
    ensures Balanced(Next(s, e))
  {
    if !e.Poll? {
      MoveBalanced(s, e);
    } else if s.tokens < s.maxInflight {
      TakeBalanced(s);
    } else {
      SkipBalanced(s);
    }
  }

  lemma {:induction false} AlwaysBalanced(maxInflight: nat, start: nat, es: seq<Event>)
    ensures Balanced(RunAll(Init(maxInflight, start), es))
  {
    if es != [] {
      AlwaysBalanced(maxInflight, start, es[..|es| - 1]);
      NextBalanced(RunAll(Init(maxInflight, start), es[..|es| - 1]), es[|es| - 1]);
    }
  }

  /** A goroutine whose handler has returned can always exit, and exactly once: it gives back one slot,
      and asking it again changes nothing. */
  lemma SlotReleasedOnce(maxInflight: nat, start: nat, es: seq<Event>, g: nat)
    requires var s := RunAll(Init(maxInflight, start), es); g < |s.goroutines| && s.goroutines[g].phase.Returned?
    ensures var s := RunAll(Init(maxInflight, start), es);
            var s' := Next(s, Exit(g));
            && s'.tokens == s.tokens - 1 && s'.goroutines[g].phase == Exited(s.goroutines[g].phase.ok)
            && Next(s', Exit(g)) == s'
  {
    AlwaysBalanced(maxInflight, start, es);
    var s := RunAll(Init(maxInflight, start), es);
    CountUpdate(s.goroutines, g, Goroutine(0, Exited(true)), HoldsSlot);
  }

  /** The event is the return of a running handler with success, whose commit takes effect at position `c`. */
  predicate Commits(s: State, e: Event, c: nat) {
    && e.HandlerReturns? && e.ok && e.commitOk && e.g < |s.goroutines|
    && s.goroutines[e.g].phase == Running && s.goroutines[e.g].offset + 1 == c
  }

  /** The committed position is that of the last commit that took effect; no failure, skip or exit moves it. */
  lemma {:induction false} CommittedExactly(maxInflight: nat, start: nat, es: seq<Event>, c: nat)
    ensures RunAll(Init(maxInflight, start), es).committed == Some(c) <==>
              exists k: nat | k < |es| :: LastCommit(Init(maxInflight, start), es, k, c)
  {
    if es != [] {
      var init, n := Init(maxInflight, start), |es| - 1;
      var front, e := es[..n], es[n];
      var s := RunAll(init, front);
      CommittedExactly(maxInflight, start, front, c);
      assert es == front + [e] && es[..n] == front;
      forall k: nat | k < n
        ensures LastCommit(init, es, k, c) <==> LastCommit(init, front, k, c) && !CommitsSome(s, e) {
        LastCommitGrows(init, front, e, k, c);
      }
      assert LastCommit(init, es, n, c) <==> Commits(s, e, c);
    }
  }

  predicate CommitsSome(s: State, e: Event) {
    e.HandlerReturns? && e.ok && e.commitOk && e.g < |s.goroutines| && s.goroutines[e.g].phase == Running
  }

  /** Event `k` commits position `c`, and no later one commits. */
  predicate LastCommit(init: State, es: seq<Event>, k: nat, c: nat)
    requires k < |es|
  {
    && Commits(RunAll(init, es[..k]), es[k], c)
    && forall l | k < l < |es| :: !CommitsAt(init, es, l)
  }

  predicate CommitsAt(init: State, es: seq<Event>, l: nat)
    requires l < |es|
  {
    CommitsSome(RunAll(init, es[..l]), es[l])
  }

  lemma LastCommitGrows(init: State, front: seq<Event>, e: Event, k: nat, c: nat)
    requires k < |front|
    ensures LastCommit(init, front + [e], k, c) <==>
              LastCommit(init, front, k, c) && !CommitsSome(RunAll(init, front), e)
  {
    var es := front + [e];
    assert es[..|front|] == front;
    assert CommitsAt(init, es, |front|) <==> CommitsSome(RunAll(init, front), e);
    assert es[..k] == front[..k];
    forall l | k < l < |front| ensures CommitsAt(init, es, l) <==> CommitsAt(init, front, l) {
      assert es[..l] == front[..l];
    }
  }

  // ----- what a committed position means -----

  /** Each record polled went to exactly one goroutine or was skipped, and what is committed is the
      position after a record that was handled. */
  ghost predicate Accounted(s: State) {
    && s.start <= s.polled
    && (forall i, j :: 0 <= i < j < |s.goroutines| ==> s.goroutines[i].offset < s.goroutines[j].offset)
    && (forall i | 0 <= i < |s.goroutines| ::
          s.start <= s.goroutines[i].offset < s.polled && s.goroutines[i].offset !in s.skipped)
    && (forall o: nat | s.start <= o < s.polled :: o in s.skipped || Dispatched(s, o))
    && (forall o | o in s.skipped :: s.start <= o < s.polled)
    && (s.committed.Some? ==> s.committed.value > s.start && HandledAt(s, s.committed.value - 1))
  }

  predicate Dispatched(s: State, o: nat) {
    exists i | 0 <= i < |s.goroutines| :: s.goroutines[i].offset == o
  }

  /** The record at offset `o` was handled successfully. */
  predicate HandledAt(s: State, o: nat) {
    exists i | 0 <= i < |s.goroutines| :: s.goroutines[i].offset == o && Is(s.goroutines[i].phase, Succeeded)
  }

  lemma NextAccounted(s: State, e: Event)
    requires Accounted(s)
    ensures Accounted(Next(s, e))
  {
    NextOffsets(s, e);
    NextDispatched(s, e);
    NextCommitted(s, e);
  }

  /** Goroutines keep their offsets, and a success stays one. */
  lemma NextKeeps(s: State, e: Event)
    ensures |s.goroutines| <= |Next(s, e).goroutines|
    ensures forall i | 0 <= i < |s.goroutines| :: Next(s, e).goroutines[i].offset == s.goroutines[i].offset
    ensures forall i | 0 <= i < |s.goroutines| && Is(s.goroutines[i].phase, Succeeded) ::
              Is(Next(s, e).goroutines[i].phase, Succeeded)
  {
  }

  lemma NextOffsets(s: State, e: Event)
    requires Accounted(s)
    ensures var s' := Next(s, e);
            && (forall i, j :: 0 <= i < j < |s'.goroutines| ==> s'.goroutines[i].offset < s'.goroutines[j].offset)
            && (forall i | 0 <= i < |s'.goroutines| ::
                  s'.start <= s'.goroutines[i].offset < s'.polled && s'.goroutines[i].offset !in s'.skipped)
  {
    NextKeeps(s, e);
  }

  lemma NextDispatched(s: State, e: Event)
    requires Accounted(s)
    ensures var s' := Next(s, e);
            && (forall o: nat | s'.start <= o < s'.polled :: o in s'.skipped || Dispatched(s', o))
            && (forall o | o in s'.skipped :: s'.start <= o < s'.polled)
  {
    NextKeeps(s, e);
    var s' := Next(s, e);
    forall o: nat | s'.start <= o < s'.polled ensures o in s'.skipped || Dispatched(s', o) {
      if o < s.polled && o !in s.skipped {
        var i :| 0 <= i < |s.goroutines| && s.goroutines[i].offset == o;
        assert s'.goroutines[i].offset == o;
      } else if o == s.polled && |s'.goroutines| > |s.goroutines| {
        assert s'.goroutines[|s.goroutines|].offset == o;
      }
    }
  }

  lemma NextCommitted(s: State, e: Event)
    requires Accounted(s)
    ensures var s' := Next(s, e); s'.committed.Some? ==>
              s'.committed.value > s'.start && HandledAt(s', s'.committed.value - 1)
  {
    NextKeeps(s, e);
    var s' := Next(s, e);
    if s'.committed != s.committed {
      assert s'.goroutines[e.g].offset == s'.committed.value - 1 && Is(s'.goroutines[e.g].phase, Succeeded);
    } else if s.committed.Some? {
      var i :| 0 <= i < |s.goroutines| && s.goroutines[i].offset == s.committed.value - 1
        && Is(s.goroutines[i].phase, Succeeded);
      assert s'.goroutines[i].offset == s'.committed.value - 1 && Is(s'.goroutines[i].phase, Succeeded);
    }
  }

  lemma {:induction false} AlwaysAccounted(maxInflight: nat, start: nat, es: seq<Event>)
    ensures Accounted(RunAll(Init(maxInflight, start), es))
  {
    if es != [] {
      AlwaysAccounted(maxInflight, start, es[..|es| - 1]);
      NextAccounted(RunAll(Init(maxInflight, start), es[..|es| - 1]), es[|es| - 1]);
    }
  }

  /** Everything below a position has been handled exactly when no record below it was skipped for want
      of a slot, and every goroutine for one below it has succeeded. */
  lemma HandledBelowExactly(maxInflight: nat, start: nat, es: seq<Event>, position: nat)
    requires position <= RunAll(Init(maxInflight, start), es).polled
    ensures var s := RunAll(Init(maxInflight, start), es);
            (forall o: nat | start <= o < position :: HandledAt(s, o)) <==>
              && (forall o | o in s.skipped :: o >= position)
              && (forall i | 0 <= i < |s.goroutines| && s.goroutines[i].offset < position ::
                   Is(s.goroutines[i].phase, Succeeded))
  {
    AlwaysAccounted(maxInflight, start, es);
    StartStays(Init(maxInflight, start), es);
    var s := RunAll(Init(maxInflight, start), es);
    if forall o: nat | start <= o < position :: HandledAt(s, o) {
      assert forall o | o in s.skipped :: !HandledAt(s, o);
      forall i | 0 <= i < |s.goroutines| && s.goroutines[i].offset < position
        ensures Is(s.goroutines[i].phase, Succeeded)
      {
        assert HandledAt(s, s.goroutines[i].offset);
        var j :| 0 <= j < |s.goroutines| && s.goroutines[j].offset == s.goroutines[i].offset
          && Is(s.goroutines[j].phase, Succeeded);
        assert i == j;
      }
    } else {
      var o: nat :| start <= o < position && !HandledAt(s, o);
      if o !in s.skipped {
        assert Dispatched(s, o);
        var i :| 0 <= i < |s.goroutines| && s.goroutines[i].offset == o;
        assert !Is(s.goroutines[i].phase, Succeeded);
      }
    }
  }

  /** The record polled next finds every slot taken. */
  predicate Skips(s: State, e: Event, o: nat) {
    e.Poll? && s.polled == o && s.tokens == s.maxInflight
  }

  /** Some record of offset `o` was polled while all slots were taken. */
  predicate SkippedIn(start: State, es: seq<Event>, o: nat) {
    exists k: nat | k < |es| :: Skips(RunAll(start, es[..k]), es[k], o)
  }

  lemma SkippedInGrows(start: State, front: seq<Event>, e: Event, o: nat)
    ensures SkippedIn(start, front + [e], o) <==> SkippedIn(start, front, o) || Skips(RunAll(start, front), e, o)
  {
    var es := front + [e];
    assert es[..|front|] == front && es[|front|] == e;
    forall k: nat | k < |front|
      ensures Skips(RunAll(start, es[..k]), es[k], o) <==> Skips(RunAll(start, front[..k]), front[k], o)
    {
      assert es[..k] == front[..k] && es[k] == front[k];
    }
  }

  lemma SkipStep(s: State, e: Event, o: nat)
    requires s.tokens <= s.maxInflight
    ensures o in Next(s, e).skipped <==> o in s.skipped || Skips(s, e, o)
  {
  }

  /** A record was skipped exactly when it was polled while all slots were taken. */
  lemma {:induction false} SkippedExactly(maxInflight: nat, start: nat, es: seq<Event>, o: nat)
    ensures o in RunAll(Init(maxInflight, start), es).skipped <==> SkippedIn(Init(maxInflight, start), es, o)
  {
    if es != [] {
      var front, e := es[..|es| - 1], es[|es| - 1];
      assert es == front + [e];
      SkippedExactly(maxInflight, start, front, o);
      AlwaysBalanced(maxInflight, start, front);
      SkippedInGrows(Init(maxInflight, start), front, e, o);
      SkipStep(RunAll(Init(maxInflight, start), front), e, o);
    }
  }

  /** A record skipped below the committed position is passed over for good: the restarted consumer goes on
      behind it, never handles it, and commits only positions behind it. */
  lemma PassedOverForGood(maxInflight: nat, start: nat, es: seq<Event>, later: seq<Event>, o: nat)
    requires var s := RunAll(Init(maxInflight, start), es); o in s.skipped && o < ResumeAt(s)
    ensures var s := RunAll(Init(maxInflight, start), es);
            var s' := RunAll(Init(maxInflight, ResumeAt(s)), later);
            !Dispatched(s, o) && !Dispatched(s', o) && o < ResumeAt(s')
  {
    var s := RunAll(Init(maxInflight, start), es);
    AlwaysAccounted(maxInflight, start, es);
    AlwaysAccounted(maxInflight, ResumeAt(s), later);
    StartStays(Init(maxInflight, ResumeAt(s)), later);
  }

  lemma {:induction false} StartStays(s: State, es: seq<Event>)
    ensures RunAll(s, es).start == s.start
  {
    if es != [] {
      StartStays(s, es[..|es| - 1]);
    }
  }

  /** With a full semaphore a record is skipped, and a later commit passes it over: with one slot, three
      records and the second one skipped, the committed position is 3. */
  lemma SkippedIsPassedOver()
    ensures var s := RunAll(Init(1, 0),
            [Poll, Poll, HandlerReturns(0, true, true), Exit(0), Poll, HandlerReturns(1, true, true)]);
            s.committed == Some(3) && s.skipped == {1} && !HandledAt(s, 1)
  {
    var gs := [Goroutine(0, Exited(true)), Goroutine(2, Running)];
    var s5 := State(1, 0, 1, 3, gs, {1}, Some(1), 1, 0);
    FirstFive();
    assert [Poll, Poll, HandlerReturns(0, true, true), Exit(0), Poll] + [HandlerReturns(1, true, true)]
        == [Poll, Poll, HandlerReturns(0, true, true), Exit(0), Poll, HandlerReturns(1, true, true)];
    RunAppend(Init(1, 0), [Poll, Poll, HandlerReturns(0, true, true), Exit(0), Poll], HandlerReturns(1, true, true));
    var s6 := Next(s5, HandlerReturns(1, true, true));
    assert s6.goroutines == [Goroutine(0, Exited(true)), Goroutine(2, Returned(true))];
  }

  lemma FirstFive()
    ensures RunAll(Init(1, 0), [Poll, Poll, HandlerReturns(0, true, true), Exit(0), Poll])
         == State(1, 0, 1, 3, [Goroutine(0, Exited(true)), Goroutine(2, Running)], {1}, Some(1), 1, 0)
  {
    assert [] + [Poll] == [Poll] && [Poll] + [Poll] == [Poll, Poll];
    RunAppend(Init(1, 0), [], Poll);
    RunAppend(Init(1, 0), [Poll], Poll);
    assert RunAll(Init(1, 0), [Poll, Poll]) == State(1, 0, 1, 2, [Goroutine(0, Running)], {1}, None, 0, 0);
    assert [Poll, Poll] + [HandlerReturns(0, true, true)] == [Poll, Poll, HandlerReturns(0, true, true)];
    assert [Poll, Poll, HandlerReturns(0, true, true)] + [Exit(0)]
        == [Poll, Poll, HandlerReturns(0, true, true), Exit(0)];
    assert [Poll, Poll, HandlerReturns(0, true, true), Exit(0)] + [Poll]
        == [Poll, Poll, HandlerReturns(0, true, true), Exit(0), Poll];
    RunAppend(Init(1, 0), [Poll, Poll], HandlerReturns(0, true, true));
    RunAppend(Init(1, 0), [Poll, Poll, HandlerReturns(0, true, true)], Exit(0));
    assert RunAll(Init(1, 0), [Poll, Poll, HandlerReturns(0, true, true), Exit(0)])
        == State(1, 0, 0, 2, [Goroutine(0, Exited(true))], {1}, Some(1), 1, 0);
    RunAppend(Init(1, 0), [Poll, Poll, HandlerReturns(0, true, true), Exit(0)], Poll);
  }

  lemma RunAppend(s: State, es: seq<Event>, e: Event)
    ensures RunAll(s, es + [e]) == Next(RunAll(s, es), e)
  {
    assert (es + [e])[..|es|] == es;
  }
}
