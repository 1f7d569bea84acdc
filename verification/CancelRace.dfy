/**
 * A cancellation that races with `start`: make_cancelling, having found the job new, goes on in the loop of
 * make_completing, which completes the job whatever has become of it in the meantime.
 */
module CancelRace {
  import opened Options
  import opened Causes
  import opened JobLifecycle

  /** Can thread t still take the completion of the job over? */
  ghost predicate MayComplete(s: Sys, t: nat) {
    exists es: seq<Event> :: Run(s, es).sh.owner == Some(t)
  }

  /** A cancellation at its loop head may still complete the job exactly if the job has not been started yet. */
  lemma CancelMayComplete(s: Sys, t: nat)
    requires Inv(s) && t < |s.threads| && s.threads[t].op.Canceller? && s.threads[t].pc == Begin
    ensures MayComplete(s, t) <==> IsNew(s.sh)
  {
    if IsNew(s.sh) {
      var es := CancelCompletesNew(s, t, Move(t, false));
      assert Run(s, es).sh.owner == Some(t);
    } else {
      assert ThreadOk(s.sh, t, s.threads[t]);
      forall es: seq<Event> ensures Run(s, es).sh.owner != Some(t) {
        StaysBarred(s, t, es);
      }
    }
  }

  /** Left alone, the cancellation of a new job takes the completion over in four steps. */
  lemma CancelCompletesNew(s: Sys, t: nat, m: Event) returns (es: seq<Event>)
    requires Inv(s) && t < |s.threads| && s.threads[t].op.Canceller? && s.threads[t].pc == Begin
    requires IsNew(s.sh) && m == Move(t, false)
    ensures Run(s, es).sh.owner == Some(t)
  {
    var th := s.threads[t];
    var begun := Swap(s.sh, Finishing).(hasList := true);
    assert s == At(s, s.sh, t, th) && Run(s, []) == s;
    assert Loaded(s.sh, th.op) == CBegin;
    es := Moves(s, t, m, [], s.sh, th, s.sh, th.(pc := CBegin));
    es := Moves(s, t, m, es, s.sh, th.(pc := CBegin), s.sh, th.(pc := CTry(s.sh.st)));
    es := Moves(s, t, m, es, s.sh, th.(pc := CTry(s.sh.st)), begun, th.(pc := Lock));
    es := Locks(s, t, m, es, begun, th.(pc := Lock));
  }

  lemma Locks(s: Sys, t: nat, m: Event, es: seq<Event>, sh: Shared, th: Thread) returns (longer: seq<Event>)
    requires t < |s.threads| && m == Move(t, false) && th.pc == Lock && !sh.completing
    requires Run(s, es) == At(s, sh, t, th)
    ensures Run(s, longer).sh.owner == Some(t)
  {
    var (sh', th') := TakeOver(sh, t, th, false);
    longer := Moves(s, t, m, es, sh, th, sh', th');
  }

  /** One step of thread t, everything else staying as it was in s. */
  lemma Moves(s: Sys, t: nat, m: Event, es: seq<Event>, sh: Shared, th: Thread, sh': Shared, th': Thread)
    returns (longer: seq<Event>)
    requires t < |s.threads| && m == Move(t, false) && !th.pc.TellCancelling? && !th.pc.TellAll?
    requires Run(s, es) == At(s, sh, t, th) && Own(s.closing, sh, t, th, false) == (sh', th')
    ensures Run(s, longer) == At(s, sh', t, th')
  {
    longer := Then(s, es, m, At(s, sh, t, th), At(s, sh', t, th'));
  }

  function At(s: Sys, sh: Shared, t: nat, th: Thread): Sys
    requires t < |s.threads|
  {
    s.(sh := sh, threads := s.threads[t := th])
  }

  /** A cancellation that came too late to complete: it is in the branches for active, finishing and final jobs. */
  predicate Barred(s: Sys, t: nat) {
    && t < |s.threads| && s.threads[t].op.Canceller? && !IsNew(s.sh) && s.sh.owner != Some(t)
    && (var pc := s.threads[t].pc; pc.Begin? || pc.Try? || pc.CancelLock? || pc.TellCancelling? || pc.End?)
  }

  lemma {:induction false} StaysBarred(s: Sys, t: nat, es: seq<Event>)
    requires Inv(s) && Barred(s, t)
    ensures Barred(Run(s, es), t)
    decreases |es|
  {
    if es != [] {
      var before := es[..|es| - 1];
      StaysBarred(s, t, before);
      RunKeeps(s, before);
      StepBarred(Run(s, before), t, es[|es| - 1]);
    }
  }

  lemma StepBarred(s: Sys, t: nat, e: Event)
    requires Inv(s) && Barred(s, t)
    ensures Barred(Exec(s, e), t)
  {
    StepLasts(s, e);
    match e
    case Spawn(_) =>
    case Move(u, wait) =>
      if u < |s.threads| {
        if s.threads[u].pc.TellCancelling? || s.threads[u].pc.TellAll? {
          TellBarred(s, t, u, wait);
        } else {
          OwnBarred(s, t, u, wait);
        }
      }
  }

  lemma OwnBarred(s: Sys, t: nat, u: nat, wait: bool)
    requires Inv(s) && Barred(s, t) && u < |s.threads| && !s.threads[u].pc.TellCancelling? && !s.threads[u].pc.TellAll?
    requires Lasting(s.sh, MoveThread(s, u, wait).sh)
    ensures Barred(MoveThread(s, u, wait), t)
  {
    assert ThreadOk(s.sh, u, s.threads[u]);
    OwnKeeps(s.closing, s.sh, u, s.threads[u], wait);
    if u == t { BarredMoves(s.closing, s.sh, t, s.threads[t], wait); }
  }

  /** Telling handlers changes no owner, and no other thread but the record of a handler. */
  lemma TellBarred(s: Sys, t: nat, u: nat, wait: bool)
    requires Inv(s) && Barred(s, t) && u < |s.threads| && (s.threads[u].pc.TellCancelling? || s.threads[u].pc.TellAll?)
    requires Lasting(s.sh, MoveThread(s, u, wait).sh)
    ensures Barred(MoveThread(s, u, wait), t)
  {
    assert ThreadOk(s.sh, u, s.threads[u]);
  }

  lemma BarredMoves(closing: bool, sh: Shared, t: nat, th: Thread, wait: bool)
    requires th.op.Canceller? && !IsNew(sh) && sh.owner != Some(t)
    requires th.pc.Begin? || th.pc.Try? || th.pc.CancelLock? || th.pc.End?
    ensures var (sh', th') := Own(closing, sh, t, th, wait);
            && sh'.owner == sh.owner && th'.op == th.op
            && (th'.pc.Begin? || th'.pc.Try? || th'.pc.CancelLock? || th'.pc.TellCancelling? || th'.pc.End?)
  {
  }

  // ---------------------------------------------------------------- a run in which cancel completes a started job

  function Pair(sh: Shared, cause: Exn, canceller: Pc, starter: Pc): Sys {
    Sys(false, sh, [Thread(Canceller(cause), canceller, 0, false, []), Thread(Starter, starter, 0, false, [])])
  }

  /**
   * The run: `cancel` reads the state of a new job, `start` makes it active and returns true, and `cancel` goes on
   * to complete it. Nobody has called `complete`; all calls have returned, and the job is final.
   */
  lemma CancelCompletesStarted(cause: Exn)
    ensures exists es: seq<Event> ::
              var s := Reached(false, false, es);
              && s.sh.st.Done? && AtRest(s) && |s.threads| == 2
              && s.threads[0].op == Canceller(cause) && s.threads[0].pc == End(true)
              && s.threads[1].op == Starter && s.threads[1].pc == End(true)
  {
    var s0 := Init(false, false);
    var es := StartWins(s0, cause, Move(0, false), Move(1, false));
    es := CancelTakesOver(s0, cause, Move(0, false), es);
    es := CancelFinishes(s0, cause, Move(0, false), es);
    var s := Reached(false, false, es);
    assert s == Pair(Ended(cause), cause, End(true), End(true));
  }

  const STARTED := Init(false, true).sh.(swaps := 1)

  function Taken(cause: Exn): Shared {
    STARTED.(st := Finishing, hasList := true, swaps := 2, completing := true, owner := Some(0),
             root := Some(cause), rootWrites := 1)
  }

  function Ended(cause: Exn): Shared {
    Taken(cause).(st := Done(FinalCause(Some(cause), None, Some(cause))), swaps := 3, isSealed := true,
                  finalizations := 1, closed := true)
  }

  lemma StartWins(s0: Sys, cause: Exn, m0: Event, m1: Event) returns (es: seq<Event>)
    requires s0 == Init(false, false) && m0 == Move(0, false) && m1 == Move(1, false)
    ensures Run(s0, es) == Pair(STARTED, cause, CBegin, End(true))
  {
    var op := Canceller(cause);
    es := Then(s0, [], Spawn(op), s0, Sys(false, s0.sh, [Thread(op, Begin, 0, false, [])]));
    es := Then(s0, es, m0, Run(s0, es), Sys(false, s0.sh, [Thread(op, CBegin, 0, false, [])]));
    es := Then(s0, es, Spawn(Starter), Run(s0, es), Pair(s0.sh, cause, CBegin, Begin));
    es := Then(s0, es, m1, Run(s0, es), Pair(s0.sh, cause, CBegin, Try(EmptyNew)));
    es := Then(s0, es, m1, Run(s0, es), Pair(STARTED, cause, CBegin, End(true)));
  }

  lemma CancelMoves(s0: Sys, cause: Exn, m0: Event, es: seq<Event>, sh: Shared, pc: Pc, sh': Shared, pc': Pc)
    returns (longer: seq<Event>)
    requires m0 == Move(0, false) && !pc.TellCancelling? && !pc.TellAll?
    requires Run(s0, es) == Pair(sh, cause, pc, End(true))
    requires var th := Thread(Canceller(cause), pc, 0, false, []); Own(false, sh, 0, th, false) == (sh', th.(pc := pc'))
    ensures Run(s0, longer) == Pair(sh', cause, pc', End(true))
  {
    longer := Then(s0, es, m0, Run(s0, es), Pair(sh', cause, pc', End(true)));
  }

  lemma CancelTakesOver(s0: Sys, cause: Exn, m0: Event, before: seq<Event>) returns (es: seq<Event>)
    requires m0 == Move(0, false) && Run(s0, before) == Pair(STARTED, cause, CBegin, End(true))
    ensures Run(s0, es) == Pair(Taken(cause), cause, Sealing, End(true))
  {
    var begun := STARTED.(st := Finishing, hasList := true, swaps := 2);
    es := CancelMoves(s0, cause, m0, before, STARTED, CBegin, STARTED, CTry(EmptyActive));
    es := CancelMoves(s0, cause, m0, es, STARTED, CTry(EmptyActive), begun, Lock);
    es := CancelMoves(s0, cause, m0, es, begun, Lock, Taken(cause), Sealing);
  }

  lemma CancelFinishes(s0: Sys, cause: Exn, m0: Event, before: seq<Event>) returns (es: seq<Event>)
    requires m0 == Move(0, false) && Run(s0, before) == Pair(Taken(cause), cause, Sealing, End(true))
    ensures Run(s0, es) == Pair(Ended(cause), cause, End(true), End(true))
  {
    var final := FinalCause(Some(cause), None, Some(cause));
    var sealedUp := Taken(cause).(isSealed := true, finalizations := 1);
    es := CancelMoves(s0, cause, m0, before, Taken(cause), Sealing, sealedUp, Committing(final));
    es := CancelCommits(s0, cause, m0, es, sealedUp, final);
    es := Then(s0, es, m0, Run(s0, es), Pair(Ended(cause), cause, End(true), End(true)));
  }

  lemma CancelCommits(s0: Sys, cause: Exn, m0: Event, before: seq<Event>, sh: Shared, final: Option<Exn>)
    returns (es: seq<Event>)
    requires m0 == Move(0, false) && sh.st == Finishing
    requires Run(s0, before) == Pair(sh, cause, Committing(final), End(true))
    ensures Run(s0, es)
         == Pair(sh.(st := Done(final), swaps := sh.swaps + 1, closed := true), cause, TellAll, End(true))
  {
    var done := sh.(st := Done(final), swaps := sh.swaps + 1);
    es := CancelMoves(s0, cause, m0, before, sh, Committing(final), done, Closing);
    es := CancelMoves(s0, cause, m0, es, done, Closing, done.(closed := true), TellAll);
  }
}
