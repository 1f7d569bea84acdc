/**
 * What the coroutine gets: when get_result or the dispatched task delivers the value of a resumption, when it throws
 * the value away because the job is inactive, and what the calls that could not complete the continuation report.
 */
module Delivery {
  import opened Options
  import opened Continuation

  predicate Delivers(op: Op) { op.Suspender? || op.Runner? }

  /** What get_result returned, or the dispatched task resumed the coroutine with. */
  function OutcomeOf(sh: Shared, op: Op): Option<Outcome> {
    if op.Suspender? then sh.yielded else sh.resumed
  }

  /** Thread t is about to look at the completed state. */
  predicate LooksAtResult(th: Thread) {
    (th.op.Suspender? && th.pc.GState?) || (th.op.Runner? && th.pc.Start?)
  }

  // ---------------------------------------------------------------- a result that is thrown away, or not

  /** Thread t is throwing the value of r away, or has done so. */
  predicate ThrowsAway(s: Sys, t: nat, r: nat) {
    && t < |s.threads| && Delivers(s.threads[t].op) && ValueIn(s.sh.st) == Some(r)
    && var pc := s.threads[t].pc;
       || pc.KStart? || pc.KTry? || pc.KHandler? || pc.KCallback?
       || (pc == End(Yielded) && OutcomeOf(s.sh, s.threads[t].op) == Some(Failure))
  }

  /** Thread t has delivered the value of r. */
  predicate HandsOver(s: Sys, t: nat, r: nat) {
    && t < |s.threads| && Delivers(s.threads[t].op) && s.threads[t].pc == End(Yielded)
    && OutcomeOf(s.sh, s.threads[t].op) == Some(Value(r))
  }

  /** What a step of thread t leaves alone for a deliverer of op that is not moving. */
  predicate Spared(sh: Shared, sh': Shared) {
    && (ValueIn(sh.st).Some? ==> ValueIn(sh'.st) == ValueIn(sh.st))
    && (sh.yielded.Some? ==> sh'.yielded == sh.yielded) && (sh.resumed.Some? ==> sh'.resumed == sh.resumed)
  }

  lemma OwnSpared(cancellable: bool, sh: Shared, t: nat, th: Thread, inactive: bool)
    requires Fine(cancellable, sh, t, th) && Callee(th.pc).None?
    ensures Spared(sh, Own(cancellable, sh, t, th, inactive).0) && Own(cancellable, sh, t, th, inactive).1.op == th.op
  {
  }

  lemma CallSpared(cancellable: bool, sh: Shared, t: nat, th: Thread)
    requires Fine(cancellable, sh, t, th) && Callee(th.pc).Some?
    ensures Spared(sh, Called(sh, th).0) && Called(sh, th).1.op == th.op
  {
  }

  /** A deliverer has no handler that anybody calls. */
  lemma NotCalled(s: Sys, u: nat, t: nat)
    requires Inv(s) && u < |s.threads| && t < |s.threads| && Callee(s.threads[u].pc).Some?
    requires Delivers(s.threads[t].op)
    ensures Callee(s.threads[u].pc).value < |s.threads| && Callee(s.threads[u].pc) != Some(t)
  {
    CalleeExists(s, u);
    assert ThreadOk(s.cancellable, s.sh, u, s.threads[u]) && ThreadOk(s.cancellable, s.sh, t, s.threads[t]);
  }

  lemma CallStepSpared(s: Sys, u: nat, inactive: bool, t: nat)
    requires Inv(s) && u < |s.threads| && t < |s.threads| && u != t && Callee(s.threads[u].pc).Some?
    requires Delivers(s.threads[t].op)
    ensures var s' := MoveThread(s, u, inactive);
            Spared(s.sh, s'.sh) && t < |s'.threads| && s'.threads[t] == s.threads[t]
  {
    NotCalled(s, u, t);
    CallMoves(s, u, inactive);
    assert ThreadOk(s.cancellable, s.sh, u, s.threads[u]);
    CallSpared(s.cancellable, s.sh, u, s.threads[u]);
  }

  /** No step disturbs a deliverer that does not take it. */
  lemma StepSpared(s: Sys, e: Event, t: nat)
    requires Inv(s) && t < |s.threads| && Delivers(s.threads[t].op) && !(e.Move? && e.thread == t)
    ensures Spared(s.sh, Exec(s, e).sh)
    ensures t < |Exec(s, e).threads| && Exec(s, e).threads[t] == s.threads[t]
  {
    if e.Move? && e.thread < |s.threads| {
      var u := e.thread;
      var th := s.threads[u];
      assert ThreadOk(s.cancellable, s.sh, u, th);
      if Callee(th.pc).Some? {
        CallStepSpared(s, u, e.inactive, t);
      } else {
        OwnSpared(s.cancellable, s.sh, u, th, e.inactive);
      }
    }
  }

  lemma ThrowerMoves(s: Sys, t: nat, inactive: bool, r: nat)
    requires Inv(s) && ThrowsAway(s, t, r)
    ensures ThrowsAway(MoveThread(s, t, inactive), t, r)
    ensures MoveThread(s, t, inactive).threads[t].op == s.threads[t].op
  {
    var th := s.threads[t];
    assert ThreadOk(s.cancellable, s.sh, t, th);
    if Callee(th.pc).Some? {
      NotCalled(s, t, t);
      CallMoves(s, t, inactive);
      CallSpared(s.cancellable, s.sh, t, th);
    }
  }

  lemma {:induction false} RunThrowsAway(s: Sys, es: seq<Event>, t: nat, r: nat)
    requires Inv(s) && ThrowsAway(s, t, r)
    ensures ThrowsAway(Run(s, es), t, r) && Run(s, es).threads[t].op == s.threads[t].op
    decreases |es|
  {
    if es != [] {
      var before, e := es[..|es| - 1], es[|es| - 1];
      RunThrowsAway(s, before, t, r);
      RunKeeps(s, before);
      if e.Move? && e.thread == t {
        ThrowerMoves(Run(s, before), t, e.inactive, r);
      } else {
        StepSpared(Run(s, before), e, t);
      }
    }
  }

  lemma {:induction false} RunHandsOver(s: Sys, es: seq<Event>, t: nat, r: nat)
    requires Inv(s) && HandsOver(s, t, r)
    ensures HandsOver(Run(s, es), t, r) && Run(s, es).threads[t].op == s.threads[t].op
    decreases |es|
  {
    if es != [] {
      var before, e := es[..|es| - 1], es[|es| - 1];
      RunHandsOver(s, before, t, r);
      RunKeeps(s, before);
      if !(e.Move? && e.thread == t) {
        StepSpared(Run(s, before), e, t);
      }
    }
  }

  /**
   * Whoever delivers the result looks at the job once. If the resume mode allows cancellation and the job is inactive
   * then, the coroutine gets the exception, the continuation ends cancelled, and the callback of the resumption is
   * called once; otherwise the coroutine gets the value, and the callback is never called.
   */
  lemma InactiveDecides(cancellable: bool, before: seq<Event>, t: nat, inactive: bool, after: seq<Event>)
    requires var s := Reached(cancellable, before);
             t < |s.threads| && LooksAtResult(s.threads[t]) && ValueIn(s.sh.st).Some?
    ensures var s := Reached(cancellable, before); var r := ValueIn(s.sh.st).value;
            var s' := Run(Exec(s, Move(t, inactive)), after);
            && r < |s'.threads| && t < |s'.threads|
            && (if cancellable && inactive then
                  AtRest(s') ==>
                    && OutcomeOf(s'.sh, s.threads[t].op) == Some(Failure) && EndsCancelled(s'.sh.st)
                    && (s'.threads[r].op == Resumer(true) ==> s'.threads[r].calls == 1)
                else
                  && OutcomeOf(s'.sh, s.threads[t].op) == Some(Value(r)) && !EndsCancelled(s'.sh.st)
                  && s'.threads[r].calls == 0)
  {
    var s, e := Reached(cancellable, before), Move(t, inactive);
    var r, s1 := ValueIn(s.sh.st).value, Exec(s, e);
    ReachedOk(cancellable, before);
    StepKeeps(s, e);
    RunKeeps(s1, after);
    Looks(s, t, inactive);
    if cancellable && inactive {
      RunThrowsAway(s1, after, t, r);
      ThrownAway(Run(s1, after), t, r);
    } else {
      RunHandsOver(s1, after, t, r);
      HandedOverTo(Run(s1, after), t, r);
    }
  }

  lemma Looks(s: Sys, t: nat, inactive: bool)
    requires Inv(s) && t < |s.threads| && LooksAtResult(s.threads[t]) && ValueIn(s.sh.st).Some?
    ensures var s' := MoveThread(s, t, inactive); var r := ValueIn(s.sh.st).value;
            && s'.cancellable == s.cancellable && t < |s'.threads| && s'.threads[t].op == s.threads[t].op
            && if s.cancellable && inactive then ThrowsAway(s', t, r) else HandsOver(s', t, r)
  {
    assert ThreadOk(s.cancellable, s.sh, t, s.threads[t]);
  }

  lemma ThrownAway(s: Sys, t: nat, r: nat)
    requires Inv(s) && ThrowsAway(s, t, r)
    ensures r < |s.threads|
    ensures AtRest(s) ==>
              && OutcomeOf(s.sh, s.threads[t].op) == Some(Failure) && EndsCancelled(s.sh.st)
              && (s.threads[r].op == Resumer(true) ==> s.threads[r].calls == 1)
  {
    assert ThreadOk(s.cancellable, s.sh, r, s.threads[r]);
    NobodyOwes(s);
  }

  lemma HandedOverTo(s: Sys, t: nat, r: nat)
    requires Inv(s) && HandsOver(s, t, r)
    ensures r < |s.threads| && !EndsCancelled(s.sh.st) && s.threads[r].calls == 0
  {
    assert ThreadOk(s.cancellable, s.sh, r, s.threads[r]);
  }

  // ---------------------------------------------------------------- runs in which the job stays active

  /** This event is a look of a deliverer at an inactive job. */
  predicate FindsInactive(s: Sys, e: Event) {
    e.Move? && e.inactive && e.thread < |s.threads| && Delivers(s.threads[e.thread].op)
  }

  ghost predicate NeverInactive(s: Sys, es: seq<Event>) {
    forall i :: 0 <= i < |es| ==> !FindsInactive(Run(s, es[..i]), es[i])
  }

  predicate Throwing(pc: Pc) { pc.KStart? || pc.KTry? || pc.KHandler? || pc.KCallback? }

  predicate NobodyThrows(s: Sys) {
    s.sh.closer.None? && forall t :: 0 <= t < |s.threads| ==> !Throwing(s.threads[t].pc)
  }

  lemma OwnDoesNotThrow(cancellable: bool, sh: Shared, t: nat, th: Thread, inactive: bool)
    requires Fine(cancellable, sh, t, th) && Callee(th.pc).None? && !Throwing(th.pc)
    requires Delivers(th.op) ==> !inactive
    ensures var (sh', th') := Own(cancellable, sh, t, th, inactive); sh'.closer == sh.closer && !Throwing(th'.pc)
  {
  }

  lemma StepDoesNotThrow(s: Sys, e: Event)
    requires Inv(s) && NobodyThrows(s) && !FindsInactive(s, e)
    ensures NobodyThrows(Exec(s, e))
  {
    if e.Move? && e.thread < |s.threads| {
      var t := e.thread;
      assert ThreadOk(s.cancellable, s.sh, t, s.threads[t]);
      if Callee(s.threads[t].pc).Some? {
        CallMoves(s, t, e.inactive);
      } else {
        OwnDoesNotThrow(s.cancellable, s.sh, t, s.threads[t], e.inactive);
      }
    }
  }

  lemma {:induction false} RunDoesNotThrow(s: Sys, es: seq<Event>)
    requires Inv(s) && NobodyThrows(s) && NeverInactive(s, es)
    ensures NobodyThrows(Run(s, es))
    decreases |es|
  {
    if es != [] {
      var before := es[..|es| - 1];
      forall i | 0 <= i < |before| ensures !FindsInactive(Run(s, before[..i]), before[i]) {
        assert before[..i] == es[..i];
      }
      RunDoesNotThrow(s, before);
      RunKeeps(s, before);
      StepDoesNotThrow(Run(s, before), es[|es| - 1]);
    }
  }

  /**
   * As long as no deliverer finds the job inactive, no result is thrown away: a resumption that completed the
   * continuation is delivered once the result is handed over, and its callback is not called.
   */
  lemma ActiveJobDelivers(cancellable: bool, es: seq<Event>, t: nat)
    requires NeverInactive(Init(cancellable), es)
    requires var s := Reached(cancellable, es);
             t < |s.threads| && s.threads[t].op.Resumer? && s.sh.winner == Some(t)
    ensures var s := Reached(cancellable, es);
            && s.sh.closer.None? && s.threads[t].calls == 0
            && (HandedOver(s.sh) ==> Delivered(s.sh, t))
  {
    var s := Reached(cancellable, es);
    ReachedOk(cancellable, es);
    ReachedOk(cancellable, []);
    RunDoesNotThrow(Init(cancellable), es);
    assert ThreadOk(s.cancellable, s.sh, t, s.threads[t]);
  }

  // ---------------------------------------------------------------- what returned calls report

  /**
   * Once a resumption or cancellation has returned, the continuation is completed. The one call that completed it has
   * dispatched it or left it to get_result; a cancellation that came later is ignored; a resumption that came later
   * throws, or is ignored after a cancellation.
   */
  lemma CallsReport(cancellable: bool, es: seq<Event>, t: nat)
    requires var s := Reached(cancellable, es);
             t < |s.threads| && Resuming(s.threads[t].op) && s.threads[t].pc.End?
    ensures var s := Reached(cancellable, es); var th := s.threads[t];
            && s.sh.winner.Some? && !NotCompleted(s.sh.st)
            && (s.sh.winner == Some(t) <==> th.pc == End(Direct) || th.pc == End(Dispatched))
            && (s.sh.winner != Some(t) && th.op.Canceller? ==> th.pc == End(Ignored))
            && (s.sh.winner != Some(t) && th.op.Failer? ==> th.pc == End(Refused))
            && (s.sh.winner != Some(t) && th.op.Resumer? ==>
                  th.pc == End(Refused) || (th.pc == End(Ignored) && s.sh.st.Cancelled?))
  {
    var s := Reached(cancellable, es);
    ReachedOk(cancellable, es);
    assert ThreadOk(s.cancellable, s.sh, t, s.threads[t]);
  }
}
