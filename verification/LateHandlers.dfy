/**
 * Handler registrations that race with completion, on a list that goes on accepting nodes after `close`.
 */
module LateHandlers {
  import opened Options
  import opened Causes
  import opened JobLifecycle

  /** The call that completed the job has returned. */
  predicate Returned(s: Sys) {
    s.sh.owner.Some? && s.sh.owner.value < |s.threads| && s.threads[s.sh.owner.value].pc.End?
  }

  predicate SameOps(s: Sys, s': Sys) {
    |s.threads| <= |s'.threads| && forall u :: 0 <= u < |s.threads| ==> s'.threads[u].op == s.threads[u].op
  }

  /** After that no node is visited any more; before that every node in the list will be. */
  lemma StepReturned(s: Sys, e: Event)
    requires Inv(s) && s.sh.hasList
    ensures var s' := Exec(s, e);
            && s'.sh.hasList && s.sh.list <= s'.sh.list && SameOps(s, s')
            && (Returned(s) ==> Returned(s') && s'.sh.told == s.sh.told)
            && (!Returned(s) && Returned(s') ==> s'.sh.told == |s'.sh.list|)
  {
    match e
    case Spawn(_) =>
    case Move(t, wait) =>
      if t < |s.threads| {
        var th := s.threads[t];
        assert ThreadOk(s.sh, t, th);
        if th.pc.TellCancelling? {
          TellCancellingReturned(s, t, wait);
        } else if th.pc.TellAll? {
          TellAllReturned(s, t, wait);
        } else {
          OwnReturned(s, t, wait);
        }
      }
  }

  lemma TellCancellingReturned(s: Sys, t: nat, wait: bool)
    requires Inv(s) && t < |s.threads| && s.threads[t].pc.TellCancelling?
    ensures var s' := MoveThread(s, t, wait); s'.sh == s.sh && SameOps(s, s') && (Returned(s) <==> Returned(s'))
  {
    var th := s.threads[t];
    assert ThreadOk(s.sh, t, th);
    if th.pc.pos < |s.sh.list| { assert NodeOk(s, th.pc.pos); }
  }

  lemma TellAllReturned(s: Sys, t: nat, wait: bool)
    requires Inv(s) && t < |s.threads| && s.threads[t].pc.TellAll?
    ensures var s' := MoveThread(s, t, wait);
            && s'.sh == s.sh.(told := s'.sh.told) && SameOps(s, s') && !Returned(s)
            && (Returned(s') ==> s'.sh.told == |s'.sh.list|)
  {
    assert ThreadOk(s.sh, t, s.threads[t]);
    if s.sh.told < |s.sh.list| { assert NodeOk(s, s.sh.told); }
  }

  lemma OwnReturned(s: Sys, t: nat, wait: bool)
    requires Inv(s) && s.sh.hasList && t < |s.threads|
    requires !s.threads[t].pc.TellCancelling? && !s.threads[t].pc.TellAll?
    ensures var s' := MoveThread(s, t, wait);
            && s'.sh.hasList && s.sh.list <= s'.sh.list && s'.sh.told == s.sh.told && SameOps(s, s')
            && (Returned(s) <==> Returned(s'))
  {
    var th := s.threads[t];
    assert ThreadOk(s.sh, t, th);
    OwnKeeps(s.closing, s.sh, t, th, wait);
    OwnerMoves(s.closing, s.sh, t, th, wait);
  }

  lemma OwnerMoves(closing: bool, sh: Shared, t: nat, th: Thread, wait: bool)
    requires Fine(closing, sh, t, th) && sh.hasList && !th.pc.TellCancelling? && !th.pc.TellAll?
    ensures var (sh', th') := Own(closing, sh, t, th, wait);
            th'.op == th.op && (sh'.owner == Some(t) ==> (th'.pc.End? <==> th.pc.End? && sh.owner == Some(t)))
  {
  }

  lemma {:induction false} RunReturned(s: Sys, es: seq<Event>, i: nat)
    requires Inv(s) && s.sh.hasList && i < |s.sh.list|
    ensures var s' := Run(s, es);
            && s'.sh.hasList && s.sh.list <= s'.sh.list && SameOps(s, s')
            && (Returned(s) ==> Returned(s') && s'.sh.told == s.sh.told)
            && (!Returned(s) && Returned(s') ==> i < s'.sh.told)
    decreases |es|
  {
    if es != [] {
      var before, last := es[..|es| - 1], es[|es| - 1];
      RunReturned(s, before, i);
      RunKeeps(s, before);
      StepReturned(Run(s, before), last);
    }
  }

  // ---------------------------------------------------------------- walks of notify_cancelling

  /** Thread u is in notify_cancelling, and position i is still before it. */
  predicate Walks(s: Sys, u: nat, i: nat) {
    u < |s.threads| && s.threads[u].pc.TellCancelling? && s.threads[u].pc.pos <= i
  }

  predicate NoWalker(s: Sys) {
    forall u :: 0 <= u < |s.threads| ==> !s.threads[u].pc.TellCancelling?
  }

  predicate OnCancellingNode(s: Sys, i: nat) {
    && i < |s.sh.list| && s.sh.list[i] < |s.threads|
    && s.threads[s.sh.list[i]].op.Registrar? && s.threads[s.sh.list[i]].op.onCancelling
  }

  /** The handler at position i has been called, or a walk is still going to come by. */
  ghost predicate Coming(s: Sys, i: nat)
    requires OnCancellingNode(s, i)
  {
    s.threads[s.sh.list[i]].calls != [] || exists u: nat :: Walks(s, u, i)
  }

  /** Nobody is left who could call the handler at position i. */
  predicate Abandoned(s: Sys, i: nat)
    requires OnCancellingNode(s, i)
  {
    Returned(s) && NoWalker(s) && s.threads[s.sh.list[i]].calls == []
  }

  lemma StillOnCancelling(s: Sys, s': Sys, i: nat)
    requires OnCancellingNode(s, i) && s.sh.list <= s'.sh.list && SameOps(s, s')
    ensures OnCancellingNode(s', i) && s'.sh.list[i] == s.sh.list[i]
  {
  }

  lemma {:induction false} StepComing(s: Sys, e: Event, i: nat)
    requires Inv(s) && s.sh.hasList && OnCancellingNode(s, i) && Coming(s, i)
    ensures OnCancellingNode(Exec(s, e), i) && Coming(Exec(s, e), i)
  {
    var s', h := Exec(s, e), s.sh.list[i];
    StepReturned(s, e);
    StillOnCancelling(s, s', i);
    CallsGrow(s, e, i);
    if s.threads[h].calls == [] {
      var u: nat :| Walks(s, u, i);
      if e.Move? && e.thread == u {
        WalkerMoves(s, u, e.wait, i);
      } else {
        WalkerWaits(s, e, u);
        assert Walks(s', u, i);
      }
    }
  }

  /** A handler in the list is not forgotten to have been called. */
  lemma CallsGrow(s: Sys, e: Event, i: nat)
    requires Inv(s) && i < |s.sh.list|
    ensures s.sh.list[i] < |s.threads| <= |Exec(s, e).threads|
    ensures s.threads[s.sh.list[i]].calls != [] ==> Exec(s, e).threads[s.sh.list[i]].calls != []
  {
    assert NodeOk(s, i);
    var h := s.sh.list[i];
    if e.Move? && e.thread == h {
      assert ThreadOk(s.sh, h, s.threads[h]);
      OwnListKeeps(s.closing, s.sh, h, s.threads[h], e.wait);
    } else if e.Move? && e.thread < |s.threads| {
      assert ThreadOk(s.sh, e.thread, s.threads[e.thread]);
    }
  }

  lemma WalkerWaits(s: Sys, e: Event, u: nat)
    requires Inv(s) && u < |s.threads| && s.threads[u].pc.TellCancelling? && !(e.Move? && e.thread == u)
    ensures u < |Exec(s, e).threads| && Exec(s, e).threads[u] == s.threads[u]
  {
    assert ThreadOk(s.sh, u, s.threads[u]);
  }

  lemma WalkerMoves(s: Sys, u: nat, wait: bool, i: nat)
    requires Inv(s) && OnCancellingNode(s, i) && Walks(s, u, i)
    ensures var s' := MoveThread(s, u, wait);
            s'.sh == s.sh && s.sh.list[i] < |s'.threads| && (s'.threads[s.sh.list[i]].calls != [] || Walks(s', u, i))
  {
    assert ThreadOk(s.sh, u, s.threads[u]);
    var h := s.sh.list[i];
    assert NodeOk(s, i);
    if s.threads[u].pc.pos < i {
      assert NodeOk(s, s.threads[u].pc.pos);
    }
  }

  lemma {:induction false} StepAbandoned(s: Sys, e: Event, i: nat)
    requires Inv(s) && s.sh.hasList && OnCancellingNode(s, i) && Abandoned(s, i)
    ensures OnCancellingNode(Exec(s, e), i) && Abandoned(Exec(s, e), i)
  {
    StepReturned(s, e);
    StillOnCancelling(s, Exec(s, e), i);
    match e
    case Spawn(_) =>
    case Move(u, wait) =>
      if u < |s.threads| { NobodyCalls(s, u, wait, i); }
  }

  /** The owner has returned, so the job is final and sealed: no walk begins, and no node is visited. */
  lemma NobodyCalls(s: Sys, u: nat, wait: bool, i: nat)
    requires Inv(s) && s.sh.hasList && OnCancellingNode(s, i) && Abandoned(s, i) && u < |s.threads|
    ensures var s' := MoveThread(s, u, wait);
            |s'.threads| == |s.threads| && NoWalker(s') && s'.threads[s.sh.list[i]].calls == []
  {
    assert ThreadOk(s.sh, u, s.threads[u]) && NodeOk(s, i);
    if s.threads[u].pc.TellAll? {
      TellAllReturned(s, u, wait);
    } else {
      var (sh', th') := Own(s.closing, s.sh, u, s.threads[u], wait);
      NoNewWalker(s.closing, s.sh, u, s.threads[u], wait);
      if u == s.sh.list[i] { OwnListKeeps(s.closing, s.sh, u, s.threads[u], wait); }
    }
  }

  lemma NoNewWalker(closing: bool, sh: Shared, t: nat, th: Thread, wait: bool)
    requires Fine(closing, sh, t, th) && sh.st.Done? && sh.hasList && !th.pc.TellCancelling? && !th.pc.TellAll?
    ensures !Own(closing, sh, t, th, wait).1.pc.TellCancelling?
  {
  }

  lemma {:induction false} RunComing(s: Sys, es: seq<Event>, i: nat)
    requires Inv(s) && s.sh.hasList && OnCancellingNode(s, i)
    ensures OnCancellingNode(Run(s, es), i) && Run(s, es).sh.hasList
    ensures Coming(s, i) ==> Coming(Run(s, es), i)
    ensures Abandoned(s, i) ==> Abandoned(Run(s, es), i)
    decreases |es|
  {
    if es != [] {
      var before, last := es[..|es| - 1], es[|es| - 1];
      RunComing(s, before, i);
      RunKeeps(s, before);
      var mid := Run(s, before);
      StepReturned(mid, last);
      StillOnCancelling(mid, Exec(mid, last), i);
      if Coming(s, i) { StepComing(mid, last, i); }
      if Abandoned(s, i) { StepAbandoned(mid, last, i); }
    }
  }

  // ---------------------------------------------------------------- when exactly a handler is lost

  /**
   * A handler is lost exactly if its node goes into the unclosed list after the call that completed the job has
   * returned and, for an on-cancelling handler, when no notify_cancelling is on its way. Otherwise it is called, and
   * a completion handler with the final cause.
   */
  lemma LostExactlyAfterReturn(active: bool, before: seq<Event>, t: nat, after: seq<Event>)
    requires t < |Reached(false, active, before).threads|
    requires var th := Reached(false, active, before).threads[t]; th.op.Registrar? && th.pc == Adding
    ensures var s := Reached(false, active, before);
            var s' := Run(Exec(s, Move(t, false)), after);
            s'.sh.st.Done? && AtRest(s') ==>
              && t < |s'.threads| && |s'.threads[t].calls| <= 1
              && (s'.threads[t].calls == [] <==> Returned(s) && (s.threads[t].op.onCancelling ==> NoWalker(s)))
              && (!s.threads[t].op.onCancelling && !Returned(s) ==> s'.threads[t].calls == [s'.sh.st.cause])
  {
    var s := Reached(false, active, before);
    var i := |s.sh.list|;
    ReachedOk(false, active, before);
    Inserted(s, t);
    var s1 := Exec(s, Move(t, false));
    RunReturned(s1, after, i);
    RunKeeps(s1, after);
    var s' := Run(s1, after);
    assert NodeOk(s', i) && ThreadOk(s'.sh, t, s'.threads[t]);
    if s'.sh.st.Done? && AtRest(s') {
      assert s'.sh.owner.Some? && Returned(s');
      if s.threads[t].op.onCancelling {
        RunComing(s1, after, i);
        if Returned(s) && !NoWalker(s) {
          WalkerComes(s, s1, t);
        }
      }
    }
  }

  lemma Inserted(s: Sys, t: nat)
    requires Inv(s) && !s.closing && t < |s.threads| && s.threads[t].op.Registrar? && s.threads[t].pc == Adding
    ensures var s1 := Exec(s, Move(t, false));
            && Inv(s1) && s1.sh == s.sh.(list := s.sh.list + [t]) && s1.sh.hasList
            && s1.threads == s.threads[t := s.threads[t].(pc := End(true))] && s.threads[t].calls == []
            && (Returned(s1) <==> Returned(s)) && (NoWalker(s1) <==> NoWalker(s))
  {
    assert ThreadOk(s.sh, t, s.threads[t]);
    StepKeeps(s, Move(t, false));
    OwnReturned(s, t, false);
  }

  lemma WalkerComes(s: Sys, s1: Sys, t: nat)
    requires Inv(s) && !NoWalker(s) && t < |s.threads| && s.threads[t].op.Registrar? && s.threads[t].op.onCancelling
    requires s1.sh == s.sh.(list := s.sh.list + [t]) && s1.threads == s.threads[t := s.threads[t].(pc := End(true))]
    ensures OnCancellingNode(s1, |s.sh.list|) && Coming(s1, |s.sh.list|)
  {
    var u: nat :| u < |s.threads| && s.threads[u].pc.TellCancelling?;
    assert ThreadOk(s.sh, u, s.threads[u]);
    assert Walks(s1, u, |s.sh.list|);
  }

  // ---------------------------------------------------------------- a run that loses a handler

  /**
   * With a list that goes on accepting nodes, the promise is broken: a registration that has read the
   * state just before completion puts its handler into a list nobody visits again.
   */
  lemma HandlerCanBeLost(onCancelling: bool)
    ensures exists es: seq<Event> ::
              var s := Reached(false, true, es);
              && s.sh.st.Done? && AtRest(s) && |s.threads| > 0 && s.threads[0].op == Late(onCancelling)
              && Owed(s.threads[0]) && s.threads[0].calls == []
  {
    var es := LateRegistration(Late(onCancelling), Init(false, true));
    var s := Reached(false, true, es);
    assert s.sh.st.Done? && AtRest(s) && |s.threads| > 0 && Owed(s.threads[0]) && s.threads[0].calls == [];
  }

  function Late(onCancelling: bool): Op { Registrar(onCancelling, true) }

  /** The job is final, and all handlers in its list have been told. */
  function Told(list: seq<nat>): Shared {
    Shared(Done(None), true, list, true, true, None, None, true, Some(1), 0, 3, 1, 0)
  }

  function Racing(closing: bool, late: Op, sh: Shared, registrar: Pc, completer: Pc): Sys {
    Sys(closing, sh, [Thread(late, registrar, 0, false, []), Thread(Completer(None), completer, 0, false, [])])
  }

  /**
   * The losing run: the registration finds the list of an active job, the job completes and tells all
   * handlers in the list, and only then the registration inserts its own.
   */
  lemma LateRegistration(late: Op, s0: Sys) returns (es: seq<Event>)
    requires late.Registrar? && s0 == Init(false, true)
    ensures Run(s0, es) == Racing(false, late, Told([0]), End(true), End(true))
  {
    es := RegistrarReads(late, s0);
    es := CompleterBegins(late, s0, es);
    es := CompleterCloses(late, s0, es, [], Adding);
    es := CompleterReturns(late, s0, es);
    es := RegistrarAdds(late, s0, es, Told([]), End(true));
  }

  const LISTED := Init(false, true).sh.(st := NodeList, hasList := true, swaps := 1)

  lemma RegistrarReads(late: Op, s0: Sys) returns (es: seq<Event>)
    requires late.Registrar? && s0 == Init(s0.closing, true)
    ensures Run(s0, es) == Racing(s0.closing, late, LISTED, Adding, CBegin)
  {
    var go := Move(0, false);
    es := Then(s0, [], Spawn(late), s0, Sys(s0.closing, s0.sh, [Thread(late, Begin, 0, false, [])]));
    es := Then(s0, es, go, Run(s0, es), Sys(s0.closing, s0.sh, [Thread(late, Try(EmptyActive), 0, false, [])]));
    es := Then(s0, es, go, Run(s0, es), Sys(s0.closing, LISTED, [Thread(late, Begin, 0, false, [])]));
    es := Then(s0, es, go, Run(s0, es), Sys(s0.closing, LISTED, [Thread(late, Adding, 0, false, [])]));
    es := Then(s0, es, Spawn(Completer(None)), Run(s0, es), Racing(s0.closing, late, LISTED, Adding, CBegin));
  }

  lemma RegistrarAdds(late: Op, s0: Sys, es: seq<Event>, sh: Shared, completer: Pc) returns (longer: seq<Event>)
    requires late.Registrar? && Run(s0, es) == Racing(s0.closing, late, sh, Adding, completer)
    requires !(s0.closing && sh.closed)
    ensures Run(s0, longer) == Racing(s0.closing, late, sh.(list := sh.list + [0]), End(true), completer)
  {
    longer := Then(s0, es, Move(0, false), Run(s0, es),
                   Racing(s0.closing, late, sh.(list := sh.list + [0]), End(true), completer));
  }

  /** The completing call has looked for children in the list and found none. */
  const TAKEN := LISTED.(st := Finishing, swaps := 2, completing := true, owner := Some(1))

  lemma CompleterBegins(late: Op, s0: Sys, before: seq<Event>) returns (es: seq<Event>)
    requires Run(s0, before) == Racing(s0.closing, late, LISTED, Adding, CBegin)
    ensures Run(s0, es) == Racing(s0.closing, late, TAKEN, Adding, Sealing)
  {
    var begun := LISTED.(st := Finishing, swaps := 2);
    es := CompleterMoves(late, s0, before, Adding, LISTED, CBegin, LISTED, CTry(NodeList));
    es := CompleterMoves(late, s0, es, Adding, LISTED, CTry(NodeList), begun, Lock);
    es := CompleterMoves(late, s0, es, Adding, begun, Lock, TAKEN, Sealing);
  }

  lemma CompleterCloses(late: Op, s0: Sys, before: seq<Event>, list: seq<nat>, registrar: Pc) returns (es: seq<Event>)
    requires Run(s0, before) == Racing(s0.closing, late, TAKEN.(list := list), registrar, Sealing)
    ensures Run(s0, es) == Racing(s0.closing, late, Told(list), registrar, TellAll)
  {
    var scanned := TAKEN.(list := list);
    var sealedUp := scanned.(isSealed := true, finalizations := 1);
    var done := sealedUp.(st := Done(None), swaps := 3);
    es := CompleterMoves(late, s0, before, registrar, scanned, Sealing, sealedUp, Committing(None));
    es := CompleterMoves(late, s0, es, registrar, sealedUp, Committing(None), done, Closing);
    es := CompleterMoves(late, s0, es, registrar, done, Closing, Told(list), TellAll);
  }

  lemma CompleterReturns(late: Op, s0: Sys, es: seq<Event>) returns (longer: seq<Event>)
    requires Run(s0, es) == Racing(s0.closing, late, Told([]), Adding, TellAll)
    ensures Run(s0, longer) == Racing(s0.closing, late, Told([]), Adding, End(true))
  {
    longer := Then(s0, es, Move(1, false), Run(s0, es), Racing(s0.closing, late, Told([]), Adding, End(true)));
  }

  lemma CompleterMoves(late: Op, s0: Sys, es: seq<Event>, registrar: Pc, sh: Shared, pc: Pc, sh': Shared, pc': Pc)
    returns (longer: seq<Event>)
    requires Run(s0, es) == Racing(s0.closing, late, sh, registrar, pc) && !pc.TellCancelling? && !pc.TellAll?
    requires var th := Thread(Completer(None), pc, 0, false, []);
             Own(s0.closing, sh, 1, th, false) == (sh', th.(pc := pc'))
    ensures Run(s0, longer) == Racing(s0.closing, late, sh', registrar, pc')
  {
    longer := Then(s0, es, Move(1, false), Run(s0, es), Racing(s0.closing, late, sh', registrar, pc'));
  }

  // ---------------------------------------------------------------- nodes that come after the scan for children

  /** The thread that took the completion over has looked for children for the last time. */
  predicate Scanned(s: Sys) {
    && s.sh.owner.Some? && s.sh.owner.value < |s.threads|
    && (s.threads[s.sh.owner.value].pc.Sealing? || s.threads[s.sh.owner.value].pc.Committing?)
  }

  lemma StaysScanned(s: Sys, e: Event)
    requires Inv(s) && (Scanned(s) || s.sh.st.Done?)
    ensures Scanned(Exec(s, e)) || Exec(s, e).sh.st.Done?
  {
    match e
    case Spawn(_) =>
    case Move(t, wait) =>
      if t < |s.threads| {
        var th := s.threads[t];
        assert ThreadOk(s.sh, t, th);
        if th.pc.TellCancelling? {
          if th.pc.pos < |s.sh.list| { assert NodeOk(s, th.pc.pos); }
        } else if !th.pc.TellAll? {
          OwnScanned(s.closing, s.sh, t, th, wait);
        }
      }
  }

  lemma OwnScanned(closing: bool, sh: Shared, t: nat, th: Thread, wait: bool)
    requires Fine(closing, sh, t, th) && !th.pc.TellCancelling? && !th.pc.TellAll?
    ensures var (sh', th') := Own(closing, sh, t, th, wait);
            && (sh.owner.Some? ==> sh'.owner == sh.owner) && (sh.st.Done? ==> sh'.st == sh.st)
            && (sh.owner == Some(t) && (th.pc.Sealing? || th.pc.Committing?) ==>
                  th'.pc.Committing? || sh'.st.Done?)
  {
    OwnKeeps(closing, sh, t, th, wait);
  }

  /** After that it looks no more, whatever happens. */
  lemma {:induction false} ScannedForGood(s: Sys, es: seq<Event>)
    requires Inv(s) && (Scanned(s) || s.sh.st.Done?)
    ensures Scanned(Run(s, es)) || Run(s, es).sh.st.Done?
    decreases |es|
  {
    if es != [] {
      ScannedForGood(s, es[..|es| - 1]);
      RunKeeps(s, es[..|es| - 1]);
      StaysScanned(Run(s, es[..|es| - 1]), es[|es| - 1]);
    }
  }

  /**
   * A node is accepted unless the list honours `close` and has been closed. So it is accepted as long as the job
   * is incomplete, also if the completing call has already looked for children, which it then does not do again.
   */
  lemma AcceptedUntilClosed(closing: bool, active: bool, before: seq<Event>, t: nat, after: seq<Event>)
    requires t < |Reached(closing, active, before).threads|
    requires var th := Reached(closing, active, before).threads[t]; th.op.Registrar? && th.pc == Adding
    ensures var s := Reached(closing, active, before);
            var s1 := Exec(s, Move(t, false));
            && (t in s1.sh.list <==> !(closing && s.sh.closed))
            && (!s.sh.st.Done? ==> t in s1.sh.list && !s1.sh.st.Done?)
            && (Scanned(s) ==> Scanned(s1) && (Scanned(Run(s1, after)) || Run(s1, after).sh.st.Done?))
  {
    var s := Reached(closing, active, before);
    ReachedOk(closing, active, before);
    assert ThreadOk(s.sh, t, s.threads[t]);
    StepKeeps(s, Move(t, false));
    if Scanned(s) {
      ScannedForGood(Exec(s, Move(t, false)), after);
    }
  }

  /** A run in which a node is accepted in that gap, and the job becomes final without another look. */
  lemma NodeAfterScan(closing: bool, onCancelling: bool)
    ensures exists before: seq<Event>, after: seq<Event> ::
              var s := Reached(closing, true, before);
              var s1 := Exec(s, Move(0, false));
              var s2 := Run(s1, after);
              && Scanned(s) && s.sh.list == [] && |s.threads| > 0 && s.threads[0].op == Late(onCancelling)
              && !s1.sh.st.Done? && s1.sh.list == [0] && s2.sh.st.Done? && s2.sh.list == [0]
  {
    var before := ScansFirst(closing, Late(onCancelling));
    var s := Reached(closing, true, before);
    var s1 := AddsInGap(closing, Late(onCancelling), s);
    var after := GapToFinal(closing, Late(onCancelling), s1);
    assert Scanned(s) && Run(s1, after).sh == Told([0]);
  }

  lemma ScansFirst(closing: bool, late: Op) returns (es: seq<Event>)
    requires late.Registrar?
    ensures Reached(closing, true, es) == Racing(closing, late, TAKEN, Adding, Sealing)
  {
    var s0 := Init(closing, true);
    es := RegistrarReads(late, s0);
    es := CompleterBegins(late, s0, es);
  }

  lemma AddsInGap(closing: bool, late: Op, s: Sys) returns (s1: Sys)
    requires late.Registrar? && s == Racing(closing, late, TAKEN, Adding, Sealing)
    ensures s1 == Exec(s, Move(0, false)) == Racing(closing, late, TAKEN.(list := [0]), End(true), Sealing)
  {
    s1 := Exec(s, Move(0, false));
  }

  lemma GapToFinal(closing: bool, late: Op, s1: Sys) returns (es: seq<Event>)
    requires late.Registrar? && s1 == Racing(closing, late, TAKEN.(list := [0]), End(true), Sealing)
    ensures Run(s1, es) == Racing(closing, late, Told([0]), End(true), TellAll)
  {
    es := CompleterCloses(late, s1, [], [0], End(true));
  }
}
