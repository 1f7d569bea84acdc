/**
 * The one flag that `make_resumed` and `make_handled` share: who sets it, and when a late resumption throws.
 */
module SharedFlag {
  import opened Options
  import opened Continuation

  /** A registration that was accepted, or a resumption that was let go after a cancellation. */
  predicate Taken(th: Thread) {
    || (th.op.Registrar? && (th.pc.OwnCall? || th.pc == End(Accepted)))
    || (th.op.Resumer? && (th.pc.OwnCall? || th.pc == End(Ignored)))
  }

  ghost predicate SomeTaken(s: Sys) {
    exists u: nat :: u < |s.threads| && Taken(s.threads[u])
  }

  /** The flag of a cancelled state is set exactly if somebody has taken it. */
  ghost predicate FlagOk(s: Sys) {
    match s.sh.st
    case Active => !SomeTaken(s)
    case Handler(h) => h < |s.threads| && forall u: nat :: u < |s.threads| ==> (Taken(s.threads[u]) <==> u == h)
    case Cancelled(handled, _) => handled <==> SomeTaken(s)
    case Exceptional(handled) => handled ==> SomeTaken(s)
    case _ => true
  }

  /** How a step of thread t from st to st' may change whether t has taken the flag. */
  predicate FlagMove(t: nat, st: State, st': State, before: bool, after: bool) {
    match st'
    case Active => st.Active? && after == before
    case Handler(h) => (st == st' && after == before) || (st.Active? && h == t && after)
    case Cancelled(handled, _) =>
      || (st == st' && after == before)
      || (st.Active? && !handled && !after)
      || (st.Handler? && handled && !before && !after)
      || (st.Cancelled? && !st.handled && handled && after)
    case Exceptional(handled) => (st == st' && after == before) || !handled || after
    case _ => true
  }

  lemma WordMove(cancellable: bool, sh: Shared, t: nat, th: Thread)
    requires Fine(cancellable, sh, t, th) && !th.pc.OwnCall? && !th.pc.Flag? && !th.pc.STry? && !th.pc.GState?
    requires th.pc.Start? ==> th.op.Suspender? || th.op.Indexer?
    ensures var (sh', th') := OnWord(sh, th);
            th'.op == th.op && sh'.st == sh.st && Taken(th') == Taken(th)
  {
  }

  lemma LoadMove(cancellable: bool, sh: Shared, t: nat, th: Thread)
    requires Fine(cancellable, sh, t, th) && th.pc.Start? && (Resuming(th.op) || th.op.Registrar?)
    ensures FlagMove(t, sh.st, sh.st, Taken(th), Taken(th.(pc := Loaded(sh, t, th))))
  {
  }

  lemma TryMove(cancellable: bool, sh: Shared, t: nat, th: Thread)
    requires Fine(cancellable, sh, t, th) && th.pc.STry?
    ensures var (sh', th') := TryState(cancellable, sh, t, th, th.pc.seen);
            th'.op == th.op && FlagMove(t, sh.st, sh'.st, Taken(th), Taken(th'))
  {
  }

  lemma FlagSetMove(cancellable: bool, sh: Shared, t: nat, th: Thread)
    requires Fine(cancellable, sh, t, th) && th.pc.Flag?
    ensures var (sh', th') := SetFlag(sh, th);
            th'.op == th.op && FlagMove(t, sh.st, sh'.st, Taken(th), Taken(th'))
  {
  }

  lemma ResultMove(cancellable: bool, sh: Shared, t: nat, th: Thread, inactive: bool)
    requires Fine(cancellable, sh, t, th) && (th.pc.GState? || (th.pc.Start? && th.op.Runner?))
    ensures var (sh', th') := TakeResult(cancellable, sh, th, inactive);
            th'.op == th.op && sh'.st == sh.st && Taken(th') == Taken(th)
  {
  }

  lemma CloseMove(cancellable: bool, sh: Shared, t: nat, th: Thread)
    requires Fine(cancellable, sh, t, th) && (th.pc.KStart? || th.pc.KTry?)
    ensures var (sh', th') := CloseResult(sh, t, th);
            th'.op == th.op && FlagMove(t, sh.st, sh'.st, Taken(th), Taken(th'))
  {
  }

  lemma OwnMove(cancellable: bool, sh: Shared, t: nat, th: Thread, inactive: bool)
    requires Fine(cancellable, sh, t, th) && Callee(th.pc).None?
    ensures var (sh', th') := Own(cancellable, sh, t, th, inactive);
            th'.op == th.op && FlagMove(t, sh.st, sh'.st, Taken(th), Taken(th'))
  {
    if th.pc.STry? { TryMove(cancellable, sh, t, th); }
    else if th.pc.Flag? { FlagSetMove(cancellable, sh, t, th); }
    else if th.pc.KStart? || th.pc.KTry? { CloseMove(cancellable, sh, t, th); }
    else if th.pc.GState? || (th.pc.Start? && th.op.Runner?) { ResultMove(cancellable, sh, t, th, inactive); }
    else if th.pc.Start? && (Resuming(th.op) || th.op.Registrar?) { LoadMove(cancellable, sh, t, th); }
    else if !th.pc.OwnCall? { WordMove(cancellable, sh, t, th); }
  }

  /** A step of thread t alone keeps the account. */
  lemma MoveKeepsFlag(s: Sys, s': Sys, t: nat)
    requires FlagOk(s) && t < |s.threads| == |s'.threads|
    requires forall u: nat :: u < |s.threads| && u != t ==> Taken(s'.threads[u]) == Taken(s.threads[u])
    requires FlagMove(t, s.sh.st, s'.sh.st, Taken(s.threads[t]), Taken(s'.threads[t]))
    ensures FlagOk(s')
  {
    if s'.sh.st.Cancelled? && s.sh.st.Handler? {
      assert Taken(s'.threads[s.sh.st.h]);
    }
  }

  lemma CallKeepsFlag(s: Sys, t: nat, inactive: bool)
    requires Inv(s) && FlagOk(s) && t < |s.threads| && Callee(s.threads[t].pc).Some?
    ensures FlagOk(MoveThread(s, t, inactive))
  {
    CalleeExists(s, t);
    CallMoves(s, t, inactive);
    assert ThreadOk(s.cancellable, s.sh, t, s.threads[t]);
    MoveKeepsFlag(s, MoveThread(s, t, inactive), t);
  }

  lemma StepKeepsFlag(s: Sys, e: Event)
    requires Inv(s) && FlagOk(s)
    ensures FlagOk(Exec(s, e))
  {
    match e
    case Spawn(op) => SpawnKeepsFlag(s, op);
    case Move(t, inactive) =>
      if t < |s.threads| {
        if Callee(s.threads[t].pc).Some? {
          CallKeepsFlag(s, t, inactive);
        } else {
          assert ThreadOk(s.cancellable, s.sh, t, s.threads[t]);
          OwnMove(s.cancellable, s.sh, t, s.threads[t], inactive);
          MoveKeepsFlag(s, MoveThread(s, t, inactive), t);
        }
      }
  }

  lemma SpawnKeepsFlag(s: Sys, op: Op)
    requires FlagOk(s)
    ensures FlagOk(Exec(s, Spawn(op)))
  {
    var s' := Exec(s, Spawn(op));
    assert s'.sh.st == s.sh.st && |s.threads| <= |s'.threads|;
    assert forall u: nat :: u < |s'.threads| ==> Taken(s'.threads[u]) == (u < |s.threads| && Taken(s.threads[u]));
  }

  lemma {:induction false} RunKeepsFlag(cancellable: bool, es: seq<Event>)
    ensures FlagOk(Reached(cancellable, es))
    decreases |es|
  {
    if es != [] {
      RunKeepsFlag(cancellable, es[..|es| - 1]);
      ReachedOk(cancellable, es[..|es| - 1]);
      StepKeepsFlag(Reached(cancellable, es[..|es| - 1]), es[|es| - 1]);
    }
  }

  /**
   * A resumption that meets a cancelled state throws exactly if, in the run so far, some registration was accepted or
   * some other resumption was let go; otherwise it is let go itself, and its callback called.
   */
  lemma ResumeAfterCancel(cancellable: bool, es: seq<Event>, t: nat, inactive: bool)
    requires t < |Reached(cancellable, es).threads|
    requires var th := Reached(cancellable, es).threads[t]; th.op.Resumer? && th.pc == Flag
    ensures var s := Reached(cancellable, es); var s' := Exec(s, Move(t, inactive));
            && s.sh.st.Cancelled? && (s.sh.st.replaced.Some? ==> s.sh.st.handled)
            && (s.sh.st.handled <==> SomeTaken(s))
            && (s'.threads[t].pc == End(Refused) <==> SomeTaken(s))
            && (!SomeTaken(s) ==> s'.threads[t].pc == if s.threads[t].op.onCancel then OwnCall else End(Ignored))
  {
    ReachedOk(cancellable, es);
    RunKeepsFlag(cancellable, es);
    var s := Reached(cancellable, es);
    assert ThreadOk(s.cancellable, s.sh, t, s.threads[t]);
  }

  // ---------------------------------------------------------------- when a registration is refused

  ghost predicate SomeRefused(s: Sys) {
    exists u: nat :: u < |s.threads| && Rejected(s.threads[u])
  }

  /** A handler in the state belongs to a registration that was accepted. */
  lemma HandlerTaken(s: Sys)
    requires Inv(s) && HandlerIn(s.sh.st).Some?
    ensures SomeTaken(s)
  {
    var h := HandlerIn(s.sh.st).value;
    assert ThreadOk(s.cancellable, s.sh, h, s.threads[h]);
    assert Taken(s.threads[h]);
  }

  lemma OwnTakenStays(cancellable: bool, sh: Shared, t: nat, th: Thread, inactive: bool)
    requires Taken(th)
    ensures Callee(th.pc).None? && Taken(Own(cancellable, sh, t, th, inactive).1)
  {
  }

  /** A thread that does not move stays where it is. */
  lemma StaysPut(s: Sys, e: Event, u: nat)
    requires Inv(s) && u < |s.threads| && !(e.Move? && e.thread == u)
    ensures var ths := Exec(s, e).threads;
            u < |ths| && ths[u].op == s.threads[u].op && ths[u].pc == s.threads[u].pc
  {
    if e.Move? && e.thread < |s.threads| && Callee(s.threads[e.thread].pc).Some? {
      CallMoves(s, e.thread, e.inactive);
    }
  }

  lemma TakenStays(s: Sys, e: Event)
    requires Inv(s) && SomeTaken(s)
    ensures SomeTaken(Exec(s, e))
  {
    var u: nat :| u < |s.threads| && Taken(s.threads[u]);
    if e.Move? && e.thread == u {
      OwnTakenStays(s.cancellable, s.sh, u, s.threads[u], e.inactive);
    } else {
      StaysPut(s, e, u);
    }
    assert Taken(Exec(s, e).threads[u]);
  }

  predicate Rejected(th: Thread) {
    th.op.Registrar? && th.pc == End(Refused)
  }

  lemma OwnRefuses(cancellable: bool, sh: Shared, t: nat, th: Thread, inactive: bool)
    requires Fine(cancellable, sh, t, th) && Callee(th.pc).None? && HandlerIn(sh.st).None?
    requires (sh.st.Cancelled? || sh.st.Exceptional?) ==> !sh.st.handled
    ensures Rejected(Own(cancellable, sh, t, th, inactive).1) ==> Rejected(th)
  {
  }

  lemma StepRefuses(s: Sys, e: Event)
    requires Inv(s) && FlagOk(s) && (SomeRefused(s) ==> SomeTaken(s))
    ensures SomeRefused(Exec(s, e)) ==> SomeTaken(Exec(s, e))
  {
    if SomeTaken(s) {
      TakenStays(s, e);
    } else if e.Move? && e.thread < |s.threads| {
      var t := e.thread;
      assert ThreadOk(s.cancellable, s.sh, t, s.threads[t]);
      if HandlerIn(s.sh.st).Some? { HandlerTaken(s); }
      if Callee(s.threads[t].pc).Some? { CallMoves(s, t, e.inactive); }
      else { OwnRefuses(s.cancellable, s.sh, t, s.threads[t], e.inactive); }
    }
  }

  lemma {:induction false} RunRefuses(cancellable: bool, es: seq<Event>)
    ensures SomeRefused(Reached(cancellable, es)) ==> SomeTaken(Reached(cancellable, es))
    decreases |es|
  {
    if es != [] {
      var before := es[..|es| - 1];
      RunRefuses(cancellable, before);
      ReachedOk(cancellable, before);
      RunKeepsFlag(cancellable, before);
      StepRefuses(Reached(cancellable, before), es[|es| - 1]);
    }
  }

  /**
   * In every run, a registration is refused only if another registration was accepted or a resumption was let go. In
   * particular the first registration is never refused before the continuation is cancelled.
   */
  lemma RefusedForReason(cancellable: bool, es: seq<Event>, t: nat)
    requires var s := Reached(cancellable, es);
             t < |s.threads| && Rejected(s.threads[t])
    ensures var s := Reached(cancellable, es);
            exists u: nat :: u < |s.threads| && u != t && Taken(s.threads[u]) &&
              (s.threads[u].op.Resumer? ==> s.sh.st.Cancelled?)
  {
    RunRefuses(cancellable, es);
    ReachedOk(cancellable, es);
    var s := Reached(cancellable, es);
    var u: nat :| u < |s.threads| && Taken(s.threads[u]);
    assert ThreadOk(s.cancellable, s.sh, u, s.threads[u]);
  }

  // ---------------------------------------------------------------- a run in which a resumption throws

  function Threads(registrar: Pc, canceller: Pc, resumer: Thread): seq<Thread> {
    [Thread(Registrar, registrar, 0), Thread(Canceller, canceller, 0), resumer]
  }

  /** A handler is registered, the continuation is cancelled over it, and a resumption arrives: it throws. */
  lemma ResumeCanThrow(cancellable: bool, onCancel: bool)
    ensures exists es: seq<Event> ::
              var s := Reached(cancellable, es);
              && |s.threads| == 3 && s.sh.st == Cancelled(true, Some(0))
              && s.threads[0].op.Registrar? && s.threads[1].op.Canceller?
              && s.threads[2] == Thread(Resumer(onCancel), End(Refused), 0)
  {
    var s0 := Init(cancellable);
    var es := HandlerRegisters(s0, cancellable, Move(0, false));
    es := CancelOverHandler(s0, cancellable, es, Move(1, false));
    es := LateResume(s0, cancellable, onCancel, es, Move(2, false));
    var resumer := Thread(Resumer(onCancel), End(Refused), 0);
    assert Reached(cancellable, es).threads == Threads(End(Accepted), CancelCall(0), resumer);
  }

  lemma HandlerRegisters(s0: Sys, cancellable: bool, m: Event) returns (es: seq<Event>)
    requires s0 == Init(cancellable) && m == Move(0, false)
    ensures Run(s0, es) == Sys(cancellable, s0.sh.(st := Handler(0)), [Thread(Registrar, End(Accepted), 0)])
  {
    es := Then(s0, [], Spawn(Registrar), s0, Sys(cancellable, s0.sh, [Thread(Registrar, Start, 0)]));
    es := Then(s0, es, m, Run(s0, es), Sys(cancellable, s0.sh, [Thread(Registrar, STry(Active), 0)]));
    es := Then(s0, es, m, Run(s0, es),
               Sys(cancellable, s0.sh.(st := Handler(0)), [Thread(Registrar, End(Accepted), 0)]));
  }

  function CancelledOver(sh: Shared): Shared {
    sh.(st := Cancelled(true, Some(0)), winner := Some(1), leaves := sh.leaves + 1, owedHandler := Some(0))
  }

  lemma CancelOverHandler(s0: Sys, cancellable: bool, before: seq<Event>, m: Event) returns (es: seq<Event>)
    requires m == Move(1, false)
    requires Run(s0, before) == Sys(cancellable, s0.sh.(st := Handler(0)), [Thread(Registrar, End(Accepted), 0)])
    ensures Run(s0, es) == Sys(cancellable, CancelledOver(s0.sh),
                               [Thread(Registrar, End(Accepted), 0), Thread(Canceller, CancelCall(0), 0)])
  {
    var held, first := s0.sh.(st := Handler(0)), Thread(Registrar, End(Accepted), 0);
    es := Then(s0, before, Spawn(Canceller), Run(s0, before),
               Sys(cancellable, held, [first, Thread(Canceller, Start, 0)]));
    es := Then(s0, es, m, Run(s0, es), Sys(cancellable, held, [first, Thread(Canceller, STry(Handler(0)), 0)]));
    es := Then(s0, es, m, Run(s0, es),
               Sys(cancellable, CancelledOver(s0.sh), [first, Thread(Canceller, CancelCall(0), 0)]));
  }

  lemma LateResume(s0: Sys, cancellable: bool, onCancel: bool, before: seq<Event>, m: Event) returns (es: seq<Event>)
    requires m == Move(2, false)
    requires Run(s0, before) == Sys(cancellable, CancelledOver(s0.sh),
                                    [Thread(Registrar, End(Accepted), 0), Thread(Canceller, CancelCall(0), 0)])
    ensures Run(s0, es) == Sys(cancellable, CancelledOver(s0.sh),
                               Threads(End(Accepted), CancelCall(0), Thread(Resumer(onCancel), End(Refused), 0)))
  {
    var sh, op := CancelledOver(s0.sh), Resumer(onCancel);
    es := Then(s0, before, Spawn(op), Run(s0, before),
               Sys(cancellable, sh, Threads(End(Accepted), CancelCall(0), Thread(op, Start, 0))));
    es := Then(s0, es, m, Run(s0, es),
               Sys(cancellable, sh, Threads(End(Accepted), CancelCall(0), Thread(op, Flag, 0))));
    es := Then(s0, es, m, Run(s0, es),
               Sys(cancellable, sh, Threads(End(Accepted), CancelCall(0), Thread(op, End(Refused), 0))));
  }
}
