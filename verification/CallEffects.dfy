/**
 * What each call on one job achieves, under any interleaving of threads: what a returned call says about the job, which
 * handlers a cancellation calls and with which exception, and which exceptions decide about the final state.
 */
module CallEffects {
  import opened Options
  import opened Causes
  import opened JobLifecycle
  import opened LateHandlers

  // ---------------------------------------------------------------- what a thread has brought about

  /** What the record of a thread says about the job. */
  predicate Honest(sh: Shared, th: Thread) {
    match th.op
    case Starter => th.pc.End? ==> !IsNew(sh)
    case Canceller(cause) =>
      && (th.pc.TellCancelling? ==> sh.root == Some(cause) && th.pc.why == cause)
      && (th.pc.End? ==> !IsNew(sh) && (IsActive(sh) ==> sh.isSealed))
    case Completer(_) => th.pc.End? ==> sh.owner.Some?
    case Registrar(onCancelling, _) => onCancelling && th.calls != [] ==> RightCall(sh, th.calls)
  }

  /** One call, with the root cause of the cancelled job or with its final cause. */
  predicate RightCall(sh: Shared, calls: seq<Option<Exn>>) {
    (sh.root.Some? && calls == [sh.root]) || (sh.st.Done? && calls == [sh.st.cause])
  }

  ghost predicate AllHonest(s: Sys) {
    forall t :: 0 <= t < |s.threads| ==> Honest(s.sh, s.threads[t])
  }

  lemma StaysHonest(sh: Shared, sh': Shared, th: Thread)
    requires Honest(sh, th) && Lasting(sh, sh')
    ensures Honest(sh', th)
  {
  }

  /** A step of thread t that stays within its own record leaves an honest record. */
  predicate OwnTurn(closing: bool, sh: Shared, t: nat, th: Thread) {
    Fine(closing, sh, t, th) && Honest(sh, th) && !th.pc.TellCancelling? && !th.pc.TellAll?
  }

  lemma StarterHonest(closing: bool, sh: Shared, t: nat, th: Thread, wait: bool)
    requires OwnTurn(closing, sh, t, th) && th.op.Starter?
    ensures Honest(Own(closing, sh, t, th, wait).0, Own(closing, sh, t, th, wait).1)
  {
  }

  lemma CancelHonest(closing: bool, sh: Shared, t: nat, th: Thread, wait: bool)
    requires OwnTurn(closing, sh, t, th) && th.op.Canceller? && (th.pc.Try? || th.pc.CancelLock? || th.pc.Begin?)
    ensures Honest(Own(closing, sh, t, th, wait).0, Own(closing, sh, t, th, wait).1)
  {
  }

  lemma CancellerHonest(closing: bool, sh: Shared, t: nat, th: Thread, wait: bool)
    requires OwnTurn(closing, sh, t, th) && th.op.Canceller?
    ensures Honest(Own(closing, sh, t, th, wait).0, Own(closing, sh, t, th, wait).1)
  {
    if th.pc.Try? || th.pc.CancelLock? || th.pc.Begin? { CancelHonest(closing, sh, t, th, wait); }
  }

  lemma CompleterHonest(closing: bool, sh: Shared, t: nat, th: Thread, wait: bool)
    requires OwnTurn(closing, sh, t, th) && th.op.Completer?
    ensures Honest(Own(closing, sh, t, th, wait).0, Own(closing, sh, t, th, wait).1)
  {
  }

  lemma RegistrarHonest(closing: bool, sh: Shared, t: nat, th: Thread, wait: bool)
    requires OwnTurn(closing, sh, t, th) && th.op.Registrar?
    ensures Honest(Own(closing, sh, t, th, wait).0, Own(closing, sh, t, th, wait).1)
  {
  }

  lemma OwnHonest(closing: bool, sh: Shared, t: nat, th: Thread, wait: bool)
    requires OwnTurn(closing, sh, t, th)
    ensures Honest(Own(closing, sh, t, th, wait).0, Own(closing, sh, t, th, wait).1)
  {
    match th.op
    case Starter => StarterHonest(closing, sh, t, th, wait);
    case Canceller(_) => CancellerHonest(closing, sh, t, th, wait);
    case Completer(_) => CompleterHonest(closing, sh, t, th, wait);
    case Registrar(_, _) => RegistrarHonest(closing, sh, t, th, wait);
  }

  lemma TellCancellingHonest(s: Sys, t: nat, wait: bool)
    requires Inv(s) && AllHonest(s) && t < |s.threads| && s.threads[t].pc.TellCancelling?
    ensures AllHonest(MoveThread(s, t, wait))
  {
    var s', th := MoveThread(s, t, wait), s.threads[t];
    assert ThreadOk(s.sh, t, th) && Honest(s.sh, th);
    if th.pc.pos < |s.sh.list| { assert NodeOk(s, th.pc.pos); }
    forall u | 0 <= u < |s'.threads| ensures Honest(s'.sh, s'.threads[u]) {
      assert Honest(s.sh, s.threads[u]) && ThreadOk(s.sh, u, s.threads[u]);
    }
  }

  lemma TellAllHonest(s: Sys, t: nat, wait: bool)
    requires Inv(s) && AllHonest(s) && t < |s.threads| && s.threads[t].pc.TellAll?
    ensures AllHonest(MoveThread(s, t, wait))
  {
    var s' := MoveThread(s, t, wait);
    TellAllOwns(s, t);
    if s.sh.told < |s.sh.list| { assert NodeOk(s, s.sh.told); }
    forall u | 0 <= u < |s'.threads| ensures Honest(s'.sh, s'.threads[u]) {
      assert Honest(s.sh, s.threads[u]) && ThreadOk(s.sh, u, s.threads[u]);
    }
  }

  lemma StepHonest(s: Sys, e: Event)
    requires Inv(s) && AllHonest(s)
    ensures AllHonest(Exec(s, e))
  {
    StepLasts(s, e);
    if e.Move? && e.thread < |s.threads| {
      var t := e.thread;
      assert ThreadOk(s.sh, t, s.threads[t]);
      if s.threads[t].pc.TellCancelling? {
        TellCancellingHonest(s, t, e.wait);
      } else if s.threads[t].pc.TellAll? {
        TellAllHonest(s, t, e.wait);
      } else {
        OwnHonest(s.closing, s.sh, t, s.threads[t], e.wait);
        OthersHonest(s, t, Exec(s, e));
      }
    }
  }

  lemma OthersHonest(s: Sys, t: nat, s': Sys)
    requires AllHonest(s) && Lasting(s.sh, s'.sh) && t < |s.threads| == |s'.threads|
    requires s'.threads == s.threads[t := s'.threads[t]] && Honest(s'.sh, s'.threads[t])
    ensures AllHonest(s')
  {
    forall u | 0 <= u < |s'.threads| ensures Honest(s'.sh, s'.threads[u]) {
      if u != t { StaysHonest(s.sh, s'.sh, s.threads[u]); }
    }
  }

  lemma {:induction false} RunHonest(s: Sys, es: seq<Event>)
    requires Inv(s) && AllHonest(s)
    ensures AllHonest(Run(s, es))
    decreases |es|
  {
    if es != [] {
      RunHonest(s, es[..|es| - 1]);
      RunKeeps(s, es[..|es| - 1]);
      StepHonest(Run(s, es[..|es| - 1]), es[|es| - 1]);
    }
  }

  // ---------------------------------------------------------------- what a returned call says

  predicate SaysStarted(th: Thread) {
    th.op.Starter? && th.pc == End(true)
  }

  /** At most one call of `start` has returned true; then the job is no longer new. */
  ghost predicate OneStart(s: Sys) {
    && (forall t :: 0 <= t < |s.threads| && SaysStarted(s.threads[t]) ==> !IsNew(s.sh))
    && (forall t, u | 0 <= t < |s.threads| && 0 <= u < |s.threads| ::
          SaysStarted(s.threads[t]) && SaysStarted(s.threads[u]) ==> t == u)
  }

  /** A step that reports a start meets a new job; every other step leaves the reports alone. */
  lemma ReportStart(s: Sys, e: Event, u: nat)
    requires Inv(s) && u < |Exec(s, e).threads|
    ensures SaysStarted(Exec(s, e).threads[u]) ==>
              || (u < |s.threads| && SaysStarted(s.threads[u]))
              || (IsNew(s.sh) && IsActive(Exec(s, e).sh) && e.Move? && e.thread == u)
  {
    if e.Move? && e.thread < |s.threads| {
      var t := e.thread;
      assert ThreadOk(s.sh, t, s.threads[t]);
      if s.threads[t].pc.TellCancelling? {
        if s.threads[t].pc.pos < |s.sh.list| { assert NodeOk(s, s.threads[t].pc.pos); }
      } else if s.threads[t].pc.TellAll? {
        TellAllOwns(s, t);
        if s.sh.told < |s.sh.list| { assert NodeOk(s, s.sh.told); }
      } else {
        OwnReportsStart(s.closing, s.sh, t, s.threads[t], e.wait);
      }
    }
  }

  lemma OwnReportsStart(closing: bool, sh: Shared, t: nat, th: Thread, wait: bool)
    requires Fine(closing, sh, t, th) && !th.pc.TellCancelling? && !th.pc.TellAll?
    ensures var (sh', th') := Own(closing, sh, t, th, wait);
            SaysStarted(th') ==> SaysStarted(th) || (IsNew(sh) && IsActive(sh'))
  {
    if !th.op.Starter? { OwnKeepsOp(closing, sh, t, th, wait); }
  }

  lemma OwnKeepsOp(closing: bool, sh: Shared, t: nat, th: Thread, wait: bool)
    ensures Own(closing, sh, t, th, wait).1.op == th.op
  {
  }

  lemma StepOneStart(s: Sys, e: Event)
    requires Inv(s) && OneStart(s)
    ensures OneStart(Exec(s, e))
  {
    var s' := Exec(s, e);
    StepLasts(s, e);
    forall u | 0 <= u < |s'.threads| && SaysStarted(s'.threads[u])
      ensures !IsNew(s'.sh)
      ensures (u < |s.threads| && SaysStarted(s.threads[u])) || (IsNew(s.sh) && e.Move? && e.thread == u)
    {
      ReportStart(s, e, u);
    }
  }

  lemma {:induction false} RunOneStart(s: Sys, es: seq<Event>)
    requires Inv(s) && OneStart(s)
    ensures OneStart(Run(s, es))
    decreases |es|
  {
    if es != [] {
      RunOneStart(s, es[..|es| - 1]);
      RunKeeps(s, es[..|es| - 1]);
      StepOneStart(Run(s, es[..|es| - 1]), es[|es| - 1]);
    }
  }

  /**
   * What a returned call says. `start`: the job is not new any more, and at most one call says to have started it.
   * `cancel`: the job is not active any more, unless it is just being finalized. `complete`: somebody took the
   * completion over; if the call says it was itself, the job is final.
   */
  lemma CallsReport(closing: bool, active: bool, es: seq<Event>, t: nat, u: nat)
    requires t < |Reached(closing, active, es).threads| && Reached(closing, active, es).threads[t].pc.End?
    ensures var s := Reached(closing, active, es); var th := s.threads[t];
            && (th.op.Starter? || th.op.Canceller? ==> !IsNew(s.sh))
            && (SaysStarted(th) && u < |s.threads| && SaysStarted(s.threads[u]) ==> t == u)
            && (th.op.Canceller? && IsActive(s.sh) ==> s.sh.isSealed)
            && (th.op.Completer? ==> s.sh.owner.Some? && (th.pc.result ==> s.sh.owner == Some(t) && s.sh.st.Done?))
  {
    var s := Reached(closing, active, es);
    ReachedOk(closing, active, es);
    RunHonest(Init(closing, active), es);
    RunOneStart(Init(closing, active), es);
    assert ThreadOk(s.sh, t, s.threads[t]) && Honest(s.sh, s.threads[t]);
  }

  predicate Waits(s: Sys, t: nat) {
    t < |s.threads| && s.threads[t].pc == Parked && s.sh.owner == Some(t)
  }

  ghost predicate NoMoveOf(es: seq<Event>, t: nat) {
    forall i :: 0 <= i < |es| ==> !(es[i].Move? && es[i].thread == t)
  }

  lemma {:induction false} RunWaits(s: Sys, es: seq<Event>, t: nat)
    requires Inv(s) && Waits(s, t) && NoMoveOf(es, t)
    ensures Waits(Run(s, es), t)
    decreases |es|
  {
    if es != [] {
      var before := es[..|es| - 1];
      RunWaits(s, before, t);
      RunKeeps(s, before);
      StepLasts(Run(s, before), es[|es| - 1]);
      CallsStay(Run(s, before), es[|es| - 1], t);
    }
  }

  /**
   * The call that takes the completion over waits exactly if it finds an incomplete child; until it is woken, the job
   * does not become final, whatever others do.
   */
  lemma CompletionWaits(closing: bool, active: bool, before: seq<Event>, t: nat, wait: bool, after: seq<Event>)
    requires var s := Reached(closing, active, before);
             t < |s.threads| && s.threads[t].pc == Lock && !s.sh.completing && NoMoveOf(after, t)
    ensures var s1 := Exec(Reached(closing, active, before), Move(t, wait));
            && (Waits(s1, t) <==> wait)
            && (wait ==> Waits(Run(s1, after), t) && Run(s1, after).sh.st.Finishing?)
  {
    var s := Reached(closing, active, before);
    ReachedOk(closing, active, before);
    StepKeeps(s, Move(t, wait));
    if wait {
      RunWaits(Exec(s, Move(t, wait)), after, t);
      RunKeeps(Exec(s, Move(t, wait)), after);
    }
  }

  // ---------------------------------------------------------------- whom a cancellation tells, and what

  /** A step of `cancel` that makes an active job cancelling starts a walk through the list. */
  lemma CancelStartsWalk(s: Sys, t: nat, wait: bool)
    requires Inv(s) && t < |s.threads| && s.threads[t].op.Canceller? && s.threads[t].pc != Lock
    requires s.sh.root.None? && MoveThread(s, t, wait).sh.root.Some?
    ensures var s' := MoveThread(s, t, wait);
            && s'.sh.root == Some(s.threads[t].op.cause) && s'.sh.list == s.sh.list && s'.sh.hasList
            && SameOps(s, s') && s'.threads[t].pc == TellCancelling(0, s.threads[t].op.cause)
  {
    assert ThreadOk(s.sh, t, s.threads[t]);
  }

  /**
   * A cancellation that makes an active job cancelling has every on-cancelling handler that is in the list at that
   * moment called, once, whether or not the job becomes final: with the exception of the cancellation or, if the
   * completing call comes first, with the final cause.
   */
  lemma CancelTells(closing: bool, active: bool, before: seq<Event>, t: nat, wait: bool, i: nat, after: seq<Event>)
    requires var s := Reached(closing, active, before);
             && t < |s.threads| && s.threads[t].op.Canceller? && s.threads[t].pc != Lock
             && s.sh.root.None? && Exec(s, Move(t, wait)).sh.root.Some? && OnCancellingNode(s, i)
    ensures var s := Reached(closing, active, before);
            var s' := Run(Exec(s, Move(t, wait)), after);
            && s.sh.list[i] < |s'.threads|
            && var calls := s'.threads[s.sh.list[i]].calls;
            && |calls| <= 1
            && (AtRest(s') ==> |calls| == 1)
            && (calls != [] ==> calls == [Some(s.threads[t].op.cause)] || (s'.sh.st.Done? && calls == [s'.sh.st.cause]))
  {
    var s := Reached(closing, active, before);
    var s1 := Exec(s, Move(t, wait));
    ReachedOk(closing, active, before);
    RunHonest(Init(closing, active), before);
    StepKeeps(s, Move(t, wait));
    StepHonest(s, Move(t, wait));
    CancelStartsWalk(s, t, wait);
    assert OnCancellingNode(s1, i) && Walks(s1, t, i);
    RunHonest(s1, after);
    WalkEnds(s1, t, i, after);
  }

  /** Whoever is still before position i in a walk gets there, unless the handler is called before. */
  lemma WalkEnds(s: Sys, t: nat, i: nat, after: seq<Event>)
    requires Inv(s) && s.sh.hasList && OnCancellingNode(s, i) && Walks(s, t, i) && s.sh.root.Some?
    requires AllHonest(Run(s, after))
    ensures var s' := Run(s, after);
            && s.sh.list[i] < |s'.threads|
            && var calls := s'.threads[s.sh.list[i]].calls;
            && |calls| <= 1 && (AtRest(s') ==> |calls| == 1)
            && (calls != [] ==> calls == [s.sh.root] || (s'.sh.st.Done? && calls == [s'.sh.st.cause]))
  {
    RunComing(s, after, i);
    RunReturned(s, after, i);
    RunKeeps(s, after);
    RunLasts(s, after);
    var s', h := Run(s, after), s.sh.list[i];
    assert ThreadOk(s'.sh, h, s'.threads[h]) && Honest(s'.sh, s'.threads[h]);
  }

  /** Nobody walks through the list, nor will before the job is final, and the handler at position i was not called. */
  predicate Untold(s: Sys, i: nat) {
    && s.sh.hasList && OnCancellingNode(s, i) && s.sh.root.Some? && NoWalker(s)
    && s.threads[s.sh.list[i]].calls == []
  }

  lemma OwnUntold(closing: bool, sh: Shared, t: nat, th: Thread, wait: bool)
    requires Fine(closing, sh, t, th) && sh.root.Some? && sh.hasList && !th.pc.TellCancelling? && !th.pc.TellAll?
    ensures var (sh', th') := Own(closing, sh, t, th, wait); !th'.pc.TellCancelling? && sh'.root.Some?
  {
  }

  lemma StepUntold(s: Sys, e: Event, i: nat)
    requires Inv(s) && Untold(s, i)
    ensures Untold(Exec(s, e), i) || Exec(s, e).sh.st.Done?
  {
    var s' := Exec(s, e);
    StepReturned(s, e);
    StillOnCancelling(s, s', i);
    if e.Move? && e.thread < |s.threads| {
      var t := e.thread;
      assert ThreadOk(s.sh, t, s.threads[t]) && NodeOk(s, i);
      if s.threads[t].pc.TellAll? {
        TellAllOwns(s, t);
        StepLasts(s, e);
      } else {
        OwnUntold(s.closing, s.sh, t, s.threads[t], e.wait);
        if t == s.sh.list[i] { OwnListKeeps(s.closing, s.sh, t, s.threads[t], e.wait); }
      }
    }
  }

  lemma {:induction false} RunUntold(s: Sys, es: seq<Event>, i: nat)
    requires Inv(s) && Untold(s, i)
    ensures Untold(Run(s, es), i) || Run(s, es).sh.st.Done?
    decreases |es|
  {
    if es != [] {
      var before, last := es[..|es| - 1], es[|es| - 1];
      RunUntold(s, before, i);
      RunKeeps(s, before);
      if Run(s, before).sh.st.Done? {
        StepLasts(Run(s, before), last);
      } else {
        StepUntold(Run(s, before), last, i);
      }
    }
  }

  /**
   * When the job becomes cancelling because a completing call proposed an exception, the handlers in the list are
   * not called before the job is final.
   */
  lemma CompletionTellsNobody(closing: bool, active: bool, before: seq<Event>, t: nat, wait: bool, i: nat,
          after: seq<Event>)
    requires var s := Reached(closing, active, before);
             && t < |s.threads| && s.threads[t].pc == Lock
             && s.sh.root.None? && Exec(s, Move(t, wait)).sh.root.Some? && OnCancellingNode(s, i)
    ensures var s := Reached(closing, active, before);
            var s' := Run(Exec(s, Move(t, wait)), after);
            s'.sh.st.Done? || (s.sh.list[i] < |s'.threads| && s'.threads[s.sh.list[i]].calls == [])
  {
    var s := Reached(closing, active, before);
    var s1 := Exec(s, Move(t, wait));
    ReachedOk(closing, active, before);
    RunHonest(Init(closing, active), before);
    StepKeeps(s, Move(t, wait));
    if s.sh.st.Done? {
      StepLasts(s, Move(t, wait));
      RunLasts(s1, after);
    } else {
      CompletionStartsNoWalk(s, t, wait, i);
      RunUntold(s1, after, i);
      RunReturned(s1, after, i);
    }
  }

  lemma CompletionStartsNoWalk(s: Sys, t: nat, wait: bool, i: nat)
    requires Inv(s) && AllHonest(s) && t < |s.threads| && s.threads[t].pc == Lock && !s.sh.st.Done?
    requires s.sh.root.None? && MoveThread(s, t, wait).sh.root.Some? && OnCancellingNode(s, i)
    ensures Untold(MoveThread(s, t, wait), i) && MoveThread(s, t, wait).sh.list == s.sh.list
  {
    var h := s.sh.list[i];
    assert ThreadOk(s.sh, t, s.threads[t]) && NodeOk(s, i) && Honest(s.sh, s.threads[h]);
    forall u | 0 <= u < |s.threads| ensures !s.threads[u].pc.TellCancelling? {
      assert ThreadOk(s.sh, u, s.threads[u]);
    }
  }

  /** An on-cancelling handler that asks to be called at once, on its way to be registered with a cancelled job. */
  predicate Prompt(s: Sys, t: nat) {
    && t < |s.threads| && s.threads[t].op == Registrar(true, true) && s.sh.root.Some?
    && s.threads[t].pc != Adding && (s.threads[t].pc.End? ==> s.threads[t].calls != [])
  }

  lemma OwnPrompt(closing: bool, sh: Shared, t: nat, th: Thread, wait: bool)
    requires Fine(closing, sh, t, th) && th.op == Registrar(true, true) && sh.root.Some?
    requires th.pc != Adding && (th.pc.End? ==> th.calls != [])
    ensures var th' := Own(closing, sh, t, th, wait).1;
            th'.op == th.op && th'.pc != Adding && (th'.pc.End? ==> th'.calls != [])
  {
  }

  lemma CallsStay(s: Sys, e: Event, t: nat)
    requires Inv(s) && t < |s.threads| && !(e.Move? && e.thread == t)
    ensures var ths := Exec(s, e).threads;
            && t < |ths| && ths[t].op == s.threads[t].op && ths[t].pc == s.threads[t].pc
            && (s.threads[t].calls != [] ==> ths[t].calls != [])
  {
    if e.Move? && e.thread < |s.threads| { assert ThreadOk(s.sh, e.thread, s.threads[e.thread]); }
  }

  lemma StepPrompt(s: Sys, e: Event, t: nat)
    requires Inv(s) && Prompt(s, t)
    ensures Prompt(Exec(s, e), t)
  {
    StepLasts(s, e);
    if e.Move? && e.thread == t {
      assert ThreadOk(s.sh, t, s.threads[t]);
      OwnPrompt(s.closing, s.sh, t, s.threads[t], e.wait);
    } else {
      CallsStay(s, e, t);
    }
  }

  lemma {:induction false} RunPrompt(s: Sys, es: seq<Event>, t: nat)
    requires Inv(s) && Prompt(s, t)
    ensures Prompt(Run(s, es), t)
    decreases |es|
  {
    if es != [] {
      RunPrompt(s, es[..|es| - 1], t);
      RunKeeps(s, es[..|es| - 1]);
      StepPrompt(Run(s, es[..|es| - 1]), es[|es| - 1], t);
    }
  }

  /**
   * An on-cancelling handler that is to be called at once and comes when the job is cancelled already has been called
   * when its registration returns, once, with the root cause or the final cause.
   */
  lemma LateHandlerCalled(closing: bool, active: bool, before: seq<Event>, t: nat, after: seq<Event>)
    requires var s := Reached(closing, active, before);
             t < |s.threads| && s.threads[t].op == Registrar(true, true) && s.sh.root.Some?
             && (s.threads[t].pc == Begin || s.threads[t].pc == CheckRoot)
    ensures var s' := Run(Reached(closing, active, before), after);
            t < |s'.threads| && (s'.threads[t].pc.End? ==> RightCall(s'.sh, s'.threads[t].calls))
  {
    var s := Reached(closing, active, before);
    ReachedOk(closing, active, before);
    RunHonest(Init(closing, active), before);
    RunPrompt(s, after, t);
    RunKeeps(s, after);
    RunHonest(s, after);
    var s' := Run(s, after);
    assert ThreadOk(s'.sh, t, s'.threads[t]) && Honest(s'.sh, s'.threads[t]);
  }

  // ---------------------------------------------------------------- which exceptions count

  /**
   * A failure that a cancellation brings to a cancelling job makes the job end with a failure exactly if the place for
   * the extra exception is free, or there is a failure anyway.
   */
  lemma FailureCounts(closing: bool, active: bool, before: seq<Event>, t: nat, wait: bool, after: seq<Event>)
    requires var s := Reached(closing, active, before);
             && t < |s.threads| && s.threads[t].pc == CancelLock && s.threads[t].op.Canceller?
             && s.threads[t].op.cause.Failure? && !s.sh.isSealed
    ensures var s := Reached(closing, active, before);
            var s' := Run(Exec(s, Move(t, wait)), after);
            s'.sh.st.Done? ==>
              (IsFailure(s'.sh.st.cause) <==>
                s.sh.extra.None? || IsFailure(s.sh.extra) || IsFailure(s.sh.root) || IsFailure(FinalProposal(s')))
  {
    var s := Reached(closing, active, before);
    var s1 := Exec(s, Move(t, wait));
    ReachedOk(closing, active, before);
    assert ThreadOk(s.sh, t, s.threads[t]);
    StepKeeps(s, Move(t, wait));
    RunKeeps(s1, after);
    RunLasts(s1, after);
    StepLasts(s, Move(t, wait));
    var sh := Run(s1, after).sh;
    if sh.st.Done? {
      WhoPrevails(sh.root, sh.extra, FinalProposal(Run(s1, after)));
    }
  }
}
