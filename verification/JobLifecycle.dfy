/**
 * One job under any interleaving of threads. Every step of a thread is one access to shared memory:
 * a load or a compare-and-set of `Impl::state`, a section under the lock of the Finishing state, an
 * insertion into or a closing of the handler list, or one visit of a list node.
 *
 * The handler list of the repository accepts nodes after `close` (its `close` has no body yet);
 * `closing` says whether the list honours `close`, as its interface promises.
 */
module JobLifecycle {
  import opened Options
  import opened Causes

  /** What the atomic pointer `Impl::state` points to. */
  datatype St = EmptyNew | EmptyActive | InactiveList | NodeList | Finishing | Done(cause: Option<Exn>)

  /** What a thread does, and for a handler registration which kind of node it inserts. */
  datatype Op =
    | Starter
    | Canceller(cause: Exn)
    | Completer(proposed: Option<Exn>)
    | Registrar(onCancelling: bool, immediate: bool)

  datatype Pc =
    | Begin                               // loop head of start, make_cancelling, try_put_node_into_list
    | Try(expected: St)                   // about to compare-and-set the state just loaded
    | CBegin                              // loop head of make_completing
    | CTry(expected: St)
    | Lock                                // about to enter the locked section of the slow path
    | CancelLock                          // about to enter the locked section of make_cancelling
    | TellCancelling(pos: nat, why: Exn)  // notify_cancelling, at list position pos
    | Parked                              // waiting for a child
    | Sealing | Committing(final: Option<Exn>) | Closing | TellAll
    | AssertFailed                        // the final compare-and-set failed
    | CheckRoot | Adding | After          // invoke_on_completion
    | End(result: bool)

  /**
   * A thread; `fails` counts its failed compare-and-sets. For a registration, `invoked` is the flag of
   * an InvokeOnCancelling node and `calls` the causes its handler has been called with.
   */
  datatype Thread = Thread(op: Op, pc: Pc, fails: nat, invoked: bool, calls: seq<Option<Exn>>)

  /**
   * Shared memory. `hasList` and the fields below it belong to the one handler list and the one
   * Finishing object a job can have. The last five are bookkeeping: who took the completion over, how
   * far `notify_completion` has come, and how often what happened.
   */
  datatype Shared = Shared(
    st: St, hasList: bool, list: seq<nat>, closed: bool,
    completing: bool, root: Option<Exn>, extra: Option<Exn>, isSealed: bool,
    owner: Option<nat>, told: nat, swaps: nat, finalizations: nat, rootWrites: nat)

  datatype Sys = Sys(closing: bool, sh: Shared, threads: seq<Thread>)

  datatype Event = Spawn(op: Op) | Move(thread: nat, wait: bool)

  function Init(closing: bool, active: bool): Sys {
    Sys(closing,
        Shared(if active then EmptyActive else EmptyNew, false, [], false,
               false, None, None, false, None, 0, 0, 0, 0),
        [])
  }

  // ---------------------------------------------------------------- steps

  function ProposedBy(op: Op): Option<Exn> {
    match op
    case Canceller(cause) => Some(cause)
    case Completer(proposed) => proposed
    case _ => None
  }

  /** `add_exception_locked` */
  function AddException(sh: Shared, e: Exn): Shared {
    if sh.root.None? then sh.(root := Some(e), rootWrites := sh.rootWrites + 1)
    else if sh.extra.None? then sh.(extra := Some(e))
    else sh
  }

  function Swap(sh: Shared, st: St): Shared {
    sh.(st := st, swaps := sh.swaps + 1)
  }

  /** Calling a handler: an InvokeOnCancelling node lets only the first call through. */
  function Invoke(th: Thread, cause: Option<Exn>): Thread
    requires th.op.Registrar?
  {
    if !th.op.onCancelling then th.(calls := th.calls + [cause])
    else if th.invoked then th
    else th.(invoked := true, calls := th.calls + [cause])
  }

  /** The compare-and-set of start_internal, try_make_cancelling or the promotions of try_put_node_into_list. */
  function TrySwap(sh: Shared, th: Thread, expected: St): (Shared, Thread) {
    if sh.st != expected then (sh, th.(pc := Begin, fails := th.fails + 1))
    else
      match th.op
      case Starter => (Swap(sh, if expected.EmptyNew? then EmptyActive else NodeList), th.(pc := End(true)))
      case Canceller(cause) =>
        (AddException(Swap(sh, Finishing), cause).(hasList := true), th.(pc := TellCancelling(0, cause)))
      case Completer(_) => (sh, th)
      case Registrar(_, _) =>
        (Swap(sh, if expected.EmptyNew? then InactiveList else NodeList).(hasList := true), th.(pc := Begin))
  }

  /** The compare-and-set of make_completing: straight to the final state, or to Finishing. */
  function TryComplete(sh: Shared, t: nat, th: Thread, expected: St): (Shared, Thread) {
    if sh.st != expected then (sh, th.(pc := CBegin, fails := th.fails + 1))
    else if (expected.EmptyNew? || expected.EmptyActive?) && ProposedBy(th.op).None? then
      (Swap(sh, Done(None)).(owner := Some(t)), th.(pc := End(true)))
    else (Swap(sh, Finishing).(hasList := true), th.(pc := Lock))
  }

  /** The locked section of try_make_completing_slow_path; `wait`: an incomplete child is found afterwards. */
  function TakeOver(sh: Shared, t: nat, th: Thread, wait: bool): (Shared, Thread) {
    if sh.completing then (sh, th.(pc := Refused(th.op)))
    else
      var sh1 := sh.(completing := true, owner := Some(t));
      var sh2 := if ProposedBy(th.op).Some? then AddException(sh1, ProposedBy(th.op).value) else sh1;
      (sh2, th.(pc := if wait then Parked else Sealing))
  }

  /** The locked section of make_cancelling on a Finishing state. */
  function CancelFinishing(sh: Shared, th: Thread, cause: Exn): (Shared, Thread) {
    if sh.isSealed then (sh, th.(pc := End(false)))
    else (AddException(sh, cause), th.(pc := if sh.root.None? then TellCancelling(0, cause) else End(true)))
  }

  /** finalize_finishing_state and what follows it, up to the list being closed. */
  function Finalizing(sh: Shared, th: Thread): (Shared, Thread) {
    match th.pc
    case Parked => (sh, th.(pc := Sealing))
    case Sealing =>
      (sh.(isSealed := true, finalizations := sh.finalizations + 1),
       th.(pc := Committing(FinalCause(sh.root, sh.extra, ProposedBy(th.op)))))
    case Committing(final) =>
      if sh.st.Finishing? then (Swap(sh, Done(final)), th.(pc := Closing)) else (sh, th.(pc := AssertFailed))
    case Closing => (sh.(closed := true), th.(pc := TellAll))
    case _ => (sh, th)
  }

  /** The rest of invoke_on_completion once the list is there. */
  function Registering(closing: bool, sh: Shared, t: nat, th: Thread): (Shared, Thread)
    requires th.op.Registrar?
  {
    match th.pc
    case CheckRoot =>
      if sh.root.None? then (sh, th.(pc := Adding))
      else (sh, (if th.op.immediate then Invoke(th, sh.root) else th).(pc := After))
    case Adding =>
      if sh.closed && closing then (sh, th.(pc := After))
      else (sh.(list := sh.list + [t]), th.(pc := End(true)))
    case After =>
      (sh, (if th.op.immediate then Invoke(th, if sh.st.Done? then sh.st.cause else None) else th).(pc := End(false)))
    case _ => (sh, th)
  }

  /** The new shared memory and the new record of the moving thread, for steps that touch no other thread. */
  function Own(closing: bool, sh: Shared, t: nat, th: Thread, wait: bool): (Shared, Thread) {
    match th.pc
    case Begin => (sh, th.(pc := Loaded(sh, th.op)))
    case Try(expected) => TrySwap(sh, th, expected)
    case CBegin =>
      (sh, th.(pc := if sh.st.Done? then Refused(th.op) else if sh.st.Finishing? then Lock else CTry(sh.st)))
    case CTry(expected) => TryComplete(sh, t, th, expected)
    case Lock => TakeOver(sh, t, th, wait)
    case CancelLock => if th.op.Canceller? then CancelFinishing(sh, th, th.op.cause) else (sh, th)
    case _ => if th.op.Registrar? then Registering(closing, sh, t, th) else Finalizing(sh, th)
  }

  /** What a thread does with the state it loads at its loop head. */
  function Loaded(sh: Shared, op: Op): Pc {
    match op
    case Starter => if sh.st.EmptyNew? || sh.st.InactiveList? then Try(sh.st) else End(false)
    case Canceller(_) =>
      if sh.st.Finishing? then CancelLock
      else if sh.st.Done? then End(false)
      else if sh.st.EmptyActive? || sh.st.NodeList? then Try(sh.st)
      else CBegin
    case Completer(_) => CBegin
    case Registrar(onCancelling, _) =>
      if sh.st.EmptyNew? || sh.st.EmptyActive? then Try(sh.st)
      else if sh.st.Done? then After
      else if sh.st.Finishing? && onCancelling then CheckRoot
      else Adding
  }

  /** `make_completing` returned false: a completing call ends, `make_cancelling` goes round again. */
  function Refused(op: Op): Pc {
    if op.Canceller? then Begin else End(false)
  }

  /** One visit of a list node: the handler of thread h is called, or skipped. */
  function Visit(s: Sys, h: nat, cancelling: bool, cause: Option<Exn>): seq<Thread> {
    if h < |s.threads| && s.threads[h].op.Registrar? && (cancelling ==> s.threads[h].op.onCancelling)
    then s.threads[h := Invoke(s.threads[h], cause)]
    else s.threads
  }

  function MoveThread(s: Sys, t: nat, wait: bool): Sys
    requires t < |s.threads|
  {
    var th := s.threads[t];
    match th.pc
    case TellCancelling(pos, why) =>
      if pos < |s.sh.list| then
        var ths := Visit(s, s.sh.list[pos], true, Some(why));
        if t < |ths| then s.(threads := ths[t := ths[t].(pc := TellCancelling(pos + 1, why))]) else s
      else s.(threads := s.threads[t := th.(pc := End(true))])
    case TellAll =>
      if s.sh.told < |s.sh.list| then
        s.(sh := s.sh.(told := s.sh.told + 1),
           threads := Visit(s, s.sh.list[s.sh.told], false, if s.sh.st.Done? then s.sh.st.cause else None))
      else s.(threads := s.threads[t := th.(pc := End(true))])
    case _ =>
      var (sh, th') := Own(s.closing, s.sh, t, th, wait);
      s.(sh := sh, threads := s.threads[t := th'])
  }

  function Exec(s: Sys, e: Event): Sys {
    match e
    case Spawn(op) =>
      s.(threads := s.threads + [Thread(op, if op.Completer? then CBegin else Begin, 0, false, [])])
    case Move(t, wait) => if t < |s.threads| then MoveThread(s, t, wait) else s
  }

  function Run(s: Sys, es: seq<Event>): Sys {
    if es == [] then s else Exec(Run(s, es[..|es| - 1]), es[|es| - 1])
  }

  // ---------------------------------------------------------------- the invariant

  /** Every change of the state pointer climbs. */
  function Rank(st: St): nat {
    match st
    case EmptyNew => 0
    case EmptyActive => 1
    case InactiveList => 1
    case NodeList => 2
    case Finishing => 3
    case Done(_) => 4
  }

  predicate SharedOk(sh: Shared) {
    && sh.swaps <= Rank(sh.st)
    && (sh.hasList <==> !sh.st.EmptyNew? && !sh.st.EmptyActive? && (sh.st.Done? ==> sh.isSealed))
    && (!sh.hasList ==> sh.list == [] && !sh.completing && !sh.closed && (sh.st.Done? ==> sh.st == Done(None)))
    && (Rank(sh.st) < 3 ==> !sh.completing && sh.root.None? && sh.owner.None?)
    && (!sh.hasList ==> sh.root.None?)
    && (sh.owner.Some? <==> sh.completing || (sh.st.Done? && !sh.hasList))
    && (sh.isSealed ==> sh.completing && Rank(sh.st) >= 3)
    && (sh.extra.Some? ==> sh.root.Some?)
    && sh.finalizations == (if sh.isSealed then 1 else 0)
    && sh.rootWrites == (if sh.root.Some? then 1 else 0)
    && (sh.closed ==> sh.st.Done?)
    && (!sh.closed ==> sh.told == 0)
    && sh.told <= |sh.list|
  }

  /** Where the thread that took the completion over stands. */
  predicate OwnerOk(closing: bool, sh: Shared, th: Thread) {
    && (th.op.Completer? || th.op.Canceller?)
    && (sh.completing && ProposedBy(th.op).Some? ==> sh.root.Some?)
    && (sh.st.Done? && sh.hasList ==> sh.st.cause == FinalCause(sh.root, sh.extra, ProposedBy(th.op)))
    && match th.pc
       case Parked => sh.st.Finishing? && !sh.isSealed
       case Sealing => sh.st.Finishing? && !sh.isSealed
       case Committing(final) =>
         sh.st.Finishing? && sh.isSealed && final == FinalCause(sh.root, sh.extra, ProposedBy(th.op))
       case Closing => sh.st.Done? && sh.hasList && !sh.closed
       case TellAll => sh.st.Done? && sh.hasList && sh.closed
       case End(result) =>
         result && sh.st.Done? && (sh.hasList ==> sh.closed && (closing ==> sh.told == |sh.list|))
       case _ => false
  }

  predicate Expecting(sh: Shared, th: Thread, e: St) {
    && (e == sh.st || Rank(e) < Rank(sh.st)) && Rank(e) < 3
    && th.fails <= Rank(e)
  }

  predicate PcOk(sh: Shared, t: nat, th: Thread) {
    match th.pc
    case Begin => !th.op.Completer?
    case Try(e) =>
      && Expecting(sh, th, e)
      && (match th.op
          case Starter => e.EmptyNew? || e.InactiveList?
          case Canceller(_) => e.EmptyActive? || e.NodeList?
          case Completer(_) => false
          case Registrar(_, _) => e.EmptyNew? || e.EmptyActive?)
    case CBegin => th.op.Completer? || th.op.Canceller?
    case CTry(e) => Expecting(sh, th, e) && (th.op.Completer? || th.op.Canceller?)
    case Lock => Rank(sh.st) >= 3 && sh.hasList && (th.op.Completer? || th.op.Canceller?)
    case CancelLock => sh.hasList && Rank(sh.st) >= 3 && th.op.Canceller?
    case TellCancelling(pos, why) => pos <= |sh.list| && sh.root.Some? && th.op.Canceller?
    case AssertFailed => false
    case CheckRoot => sh.hasList && Rank(sh.st) >= 3 && th.op.Registrar? && th.op.onCancelling
    case Adding => sh.hasList && th.op.Registrar?
    case After => th.op.Registrar?
    case End(result) => th.op.Completer? && result ==> sh.owner == Some(t)
    case _ => sh.owner == Some(t)
  }

  /** A registration and its handler. */
  predicate HandlerOk(sh: Shared, t: nat, th: Thread) {
    if !th.op.Registrar? then th.calls == [] && t !in sh.list
    else
      && |th.calls| <= 1
      && (th.invoked <==> th.op.onCancelling && th.calls != [])
      && (t in sh.list <==> th.pc == End(true))
      && (th.pc.Begin? || th.pc.Try? || th.pc.CheckRoot? || th.pc.Adding? ==> th.calls == [])
      && (th.pc.After? ==>
            if th.op.onCancelling then sh.st.Done? || (sh.root.Some? && (th.op.immediate ==> th.calls != []))
            else sh.st.Done? && th.calls == [])
      && (th.pc == End(false) && th.op.immediate ==> |th.calls| == 1)
      && (th.pc == End(false) && th.op.immediate && !th.op.onCancelling ==> sh.st.Done? && th.calls == [sh.st.cause])
  }

  predicate ThreadOk(sh: Shared, t: nat, th: Thread) {
    th.fails <= Rank(sh.st) && PcOk(sh, t, th) && HandlerOk(sh, t, th)
  }

  /** The node at position i: told exactly when notify_completion has passed it. */
  predicate NodeOk(s: Sys, i: nat)
    requires i < |s.sh.list|
  {
    var h := s.sh.list[i];
    && h < |s.threads| && s.threads[h].op.Registrar? && s.threads[h].pc == End(true)
    && (i < s.sh.told ==> s.sh.st.Done?)
    && (if s.threads[h].op.onCancelling then i < s.sh.told ==> |s.threads[h].calls| == 1
        else s.threads[h].calls == if i < s.sh.told then [s.sh.st.cause] else [])
  }

  ghost predicate Inv(s: Sys) {
    && SharedOk(s.sh)
    && (s.sh.owner.Some? ==> s.sh.owner.value < |s.threads| && OwnerOk(s.closing, s.sh, s.threads[s.sh.owner.value]))
    && (forall t :: 0 <= t < |s.threads| ==> ThreadOk(s.sh, t, s.threads[t]))
    && (forall i :: 0 <= i < |s.sh.list| ==> NodeOk(s, i))
    && (forall i, k :: 0 <= i < k < |s.sh.list| ==> s.sh.list[i] != s.sh.list[k])
  }

  // ---------------------------------------------------------------- one step

  /** What a step of thread t may do to shared memory. */
  predicate Grew(sh: Shared, sh': Shared, t: nat) {
    && (sh'.st == sh.st || Rank(sh.st) < Rank(sh'.st)) && (sh.st.Done? ==> sh'.st == sh.st)
    && (sh.hasList ==> sh'.hasList)
    && (sh.root.Some? ==> sh'.root == sh.root)
    && (sh'.list == sh.list || sh'.list == sh.list + [t])
    && (sh.owner.Some? ==> sh'.owner == sh.owner) && (sh'.owner == sh.owner || sh'.owner == Some(t))
  }

  lemma OthersKeep(sh: Shared, sh': Shared, t: nat, u: nat, th: Thread)
    requires Grew(sh, sh', t) && t != u && ThreadOk(sh, u, th)
    ensures ThreadOk(sh', u, th)
  {
  }

  /** Shared memory and the record of thread t are in order. */
  predicate Fine(closing: bool, sh: Shared, t: nat, th: Thread) {
    && SharedOk(sh) && ThreadOk(sh, t, th)
    && (sh.owner == Some(t) ==> OwnerOk(closing, sh, th))
  }

  /** A step of thread t to r leaves both in order, and only grows what others see. */
  predicate Kept(closing: bool, sh: Shared, t: nat, r: (Shared, Thread)) {
    Fine(closing, r.0, t, r.1) && Grew(sh, r.0, t) && Lasting(sh, r.0) && r.0.told == sh.told
  }

  lemma TrySwapKeeps(closing: bool, sh: Shared, t: nat, th: Thread, expected: St)
    requires Fine(closing, sh, t, th) && th.pc == Try(expected)
    ensures Kept(closing, sh, t, TrySwap(sh, th, expected))
  {
    if sh.st == expected {
      match th.op
      case Starter =>
      case Canceller(_) =>
      case Registrar(_, _) =>
    }
  }

  lemma TryCompleteKeeps(closing: bool, sh: Shared, t: nat, th: Thread, expected: St)
    requires Fine(closing, sh, t, th) && th.pc == CTry(expected)
    ensures Kept(closing, sh, t, TryComplete(sh, t, th, expected))
  {
  }

  lemma TakeOverKeeps(closing: bool, sh: Shared, t: nat, th: Thread, wait: bool)
    requires Fine(closing, sh, t, th) && th.pc == Lock
    ensures Kept(closing, sh, t, TakeOver(sh, t, th, wait))
  {
  }

  lemma CancelFinishingKeeps(closing: bool, sh: Shared, t: nat, th: Thread)
    requires Fine(closing, sh, t, th) && th.pc == CancelLock
    ensures Kept(closing, sh, t, CancelFinishing(sh, th, th.op.cause))
  {
  }

  lemma FinalizingKeeps(closing: bool, sh: Shared, t: nat, th: Thread)
    requires Fine(closing, sh, t, th) && (th.pc in {Parked, Sealing, Closing} || th.pc.Committing?)
    ensures Kept(closing, sh, t, Finalizing(sh, th))
  {
    if th.pc.Committing? { FinalCauseKind(sh.root, sh.extra, ProposedBy(th.op)); }
  }

  lemma RegisteringKeeps(closing: bool, sh: Shared, t: nat, th: Thread)
    requires Fine(closing, sh, t, th) && th.op.Registrar? && (th.pc.CheckRoot? || th.pc.Adding? || th.pc.After?)
    ensures Kept(closing, sh, t, Registering(closing, sh, t, th))
  {
  }

  lemma LoadingKeeps(closing: bool, sh: Shared, t: nat, th: Thread, wait: bool)
    requires Fine(closing, sh, t, th) && (th.pc.Begin? || th.pc.CBegin?)
    ensures Kept(closing, sh, t, Own(closing, sh, t, th, wait))
  {
    match th.op
    case Starter =>
    case Canceller(_) =>
    case Completer(_) =>
    case Registrar(_, _) =>
  }

  lemma OwnKeeps(closing: bool, sh: Shared, t: nat, th: Thread, wait: bool)
    requires Fine(closing, sh, t, th) && !th.pc.TellCancelling? && !th.pc.TellAll?
    ensures Kept(closing, sh, t, Own(closing, sh, t, th, wait))
  {
    match th.pc
    case Begin => LoadingKeeps(closing, sh, t, th, wait);
    case CBegin => LoadingKeeps(closing, sh, t, th, wait);
    case Try(expected) => TrySwapKeeps(closing, sh, t, th, expected);
    case CTry(expected) => TryCompleteKeeps(closing, sh, t, th, expected);
    case Lock => TakeOverKeeps(closing, sh, t, th, wait);
    case CancelLock => CancelFinishingKeeps(closing, sh, t, th);
    case CheckRoot => RegisteringKeeps(closing, sh, t, th);
    case Adding => RegisteringKeeps(closing, sh, t, th);
    case After => RegisteringKeeps(closing, sh, t, th);
    case End(_) =>
    case _ => FinalizingKeeps(closing, sh, t, th);
  }

  /** Nobody interferes with the thread that took the completion over. */
  lemma OwnerKeeps(closing: bool, sh: Shared, t: nat, th: Thread, wait: bool, o: nat, tho: Thread)
    requires Fine(closing, sh, t, th) && !th.pc.TellCancelling? && !th.pc.TellAll?
    requires sh.owner == Some(o) && o != t && OwnerOk(closing, sh, tho)
    ensures OwnerOk(closing, Own(closing, sh, t, th, wait).0, tho)
  {
  }

  /** A registration in the list does not move any more; a new node comes with a handler nobody called. */
  lemma OwnListKeeps(closing: bool, sh: Shared, t: nat, th: Thread, wait: bool)
    requires Fine(closing, sh, t, th) && !th.pc.TellCancelling? && !th.pc.TellAll?
    ensures var (sh', th') := Own(closing, sh, t, th, wait);
            && (t in sh.list ==> th' == th)
            && (sh'.list != sh.list ==>
                  th.op.Registrar? && t !in sh.list && th' == th.(pc := End(true)) && th.calls == [])
  {
  }

  /** Putting a step of one thread back into the whole system. */
  lemma Combine(s: Sys, t: nat, sh': Shared, th': Thread)
    requires Inv(s) && t < |s.threads| && Kept(s.closing, s.sh, t, (sh', th'))
    requires sh'.owner.Some? && sh'.owner != Some(t) ==> OwnerOk(s.closing, sh', s.threads[sh'.owner.value])
    requires t in s.sh.list ==> th' == s.threads[t]
    requires sh'.list != s.sh.list ==>
               && t !in s.sh.list && s.threads[t].op.Registrar? && s.threads[t].calls == []
               && th' == s.threads[t].(pc := End(true))
    ensures Inv(s.(sh := sh', threads := s.threads[t := th']))
  {
    var s' := s.(sh := sh', threads := s.threads[t := th']);
    forall u | 0 <= u < |s'.threads| ensures ThreadOk(s'.sh, u, s'.threads[u]) {
      if u != t { OthersKeep(s.sh, sh', t, u, s.threads[u]); }
    }
    forall i | 0 <= i < |s'.sh.list| ensures NodeOk(s', i) {
      if i < |s.sh.list| {
        assert NodeOk(s, i);
        assert s'.sh.list[i] == s.sh.list[i] && s.sh.list[i] in s.sh.list;
      }
    }
    forall i, k | 0 <= i < k < |s'.sh.list| ensures s'.sh.list[i] != s'.sh.list[k] {
      if k == |s.sh.list| { assert s.sh.list[i] in s.sh.list; }
    }
  }

  lemma OwnMoveKeeps(s: Sys, t: nat, wait: bool)
    requires Inv(s) && t < |s.threads|
    requires !s.threads[t].pc.TellCancelling? && !s.threads[t].pc.TellAll?
    ensures Inv(MoveThread(s, t, wait))
  {
    var th := s.threads[t];
    assert ThreadOk(s.sh, t, th);
    var (sh', th') := Own(s.closing, s.sh, t, th, wait);
    OwnKeeps(s.closing, s.sh, t, th, wait);
    OwnListKeeps(s.closing, s.sh, t, th, wait);
    OwnerNeverGivesUp(s, t, sh', th', wait);
    Combine(s, t, sh', th');
  }

  lemma OwnerNeverGivesUp(s: Sys, t: nat, sh': Shared, th': Thread, wait: bool)
    requires Inv(s) && t < |s.threads| && Fine(s.closing, s.sh, t, s.threads[t])
    requires !s.threads[t].pc.TellCancelling? && !s.threads[t].pc.TellAll?
    requires (sh', th') == Own(s.closing, s.sh, t, s.threads[t], wait) && Grew(s.sh, sh', t)
    ensures sh'.owner.Some? && sh'.owner != Some(t) ==>
              sh'.owner.value < |s.threads| && OwnerOk(s.closing, sh', s.threads[sh'.owner.value])
  {
    if sh'.owner.Some? && sh'.owner != Some(t) {
      OwnerKeeps(s.closing, s.sh, t, s.threads[t], wait, sh'.owner.value, s.threads[sh'.owner.value]);
    }
  }

  lemma InvokedThread(sh: Shared, told: nat, h: nat, th: Thread, cause: Option<Exn>)
    requires ThreadOk(sh, h, th) && th.op.Registrar? && th.pc == End(true) && (!th.op.onCancelling ==> th.calls == [])
    ensures var th' := Invoke(th, cause);
            && ThreadOk(sh.(told := told), h, th') && th'.op == th.op && th'.pc == th.pc && |th'.calls| == 1
            && (!th.op.onCancelling ==> th'.calls == [cause])
  {
  }

  lemma ToldThread(sh: Shared, told: nat, u: nat, th: Thread)
    requires ThreadOk(sh, u, th)
    ensures ThreadOk(sh.(told := told), u, th)
  {
  }

  /** A visited handler stays in order, whoever visits it. */
  lemma VisitKeeps(s: Sys, pos: nat, cancelling: bool, cause: Option<Exn>)
    requires Inv(s) && pos < |s.sh.list|
    requires !cancelling ==> pos == s.sh.told && s.sh.st.Done? && s.sh.closed && cause == s.sh.st.cause
    ensures var s' := s.(sh := s.sh.(told := if cancelling then s.sh.told else pos + 1),
                         threads := Visit(s, s.sh.list[pos], cancelling, cause));
            Inv(s') && forall u :: 0 <= u < |s.threads| && !s.threads[u].op.Registrar? ==> s'.threads[u] == s.threads[u]
  {
    var h := s.sh.list[pos];
    var told := if cancelling then s.sh.told else pos + 1;
    var s' := s.(sh := s.sh.(told := told), threads := Visit(s, h, cancelling, cause));
    assert NodeOk(s, pos);
    VisitedThreads(s, pos, cancelling, cause);
    forall i | 0 <= i < |s'.sh.list| ensures NodeOk(s', i) {
      VisitedNode(s, pos, cancelling, cause, i);
    }
  }

  lemma VisitedThreads(s: Sys, pos: nat, cancelling: bool, cause: Option<Exn>)
    requires Inv(s) && pos < |s.sh.list| && (!cancelling ==> pos == s.sh.told)
    ensures var told := if cancelling then s.sh.told else pos + 1;
            var ths := Visit(s, s.sh.list[pos], cancelling, cause);
            |ths| == |s.threads| && forall u :: 0 <= u < |ths| ==> ThreadOk(s.sh.(told := told), u, ths[u])
  {
    var h := s.sh.list[pos];
    var told := if cancelling then s.sh.told else pos + 1;
    var ths := Visit(s, h, cancelling, cause);
    assert NodeOk(s, pos);
    forall u | 0 <= u < |ths| ensures ThreadOk(s.sh.(told := told), u, ths[u]) {
      if ths[u] != s.threads[u] {
        InvokedThread(s.sh, told, h, s.threads[h], cause);
      } else {
        ToldThread(s.sh, told, u, s.threads[u]);
      }
    }
  }

  lemma VisitedNode(s: Sys, pos: nat, cancelling: bool, cause: Option<Exn>, i: nat)
    requires Inv(s) && pos < |s.sh.list| && i < |s.sh.list|
    requires !cancelling ==> pos == s.sh.told && s.sh.st.Done? && cause == s.sh.st.cause
    ensures NodeOk(s.(sh := s.sh.(told := if cancelling then s.sh.told else pos + 1),
                      threads := Visit(s, s.sh.list[pos], cancelling, cause)), i)
  {
    var h := s.sh.list[pos];
    assert NodeOk(s, pos) && NodeOk(s, i);
    if Visit(s, h, cancelling, cause) != s.threads {
      InvokedThread(s.sh, s.sh.told, h, s.threads[h], cause);
    }
  }

  lemma TellCancellingKeeps(s: Sys, t: nat, wait: bool)
    requires Inv(s) && t < |s.threads| && s.threads[t].pc.TellCancelling?
    ensures Inv(MoveThread(s, t, wait))
  {
    var pos, why := s.threads[t].pc.pos, s.threads[t].pc.why;
    if pos < |s.sh.list| {
      CancellingVisitKeeps(s, t, pos, why);
      CancellingRecordKeeps(s.(threads := Visit(s, s.sh.list[pos], true, Some(why))), t, TellCancelling(pos + 1, why));
    } else {
      CancellingRecordKeeps(s, t, End(true));
    }
  }

  lemma CancellingVisitKeeps(s: Sys, t: nat, pos: nat, why: Exn)
    requires Inv(s) && t < |s.threads| && s.threads[t].pc.TellCancelling? && pos < |s.sh.list|
    ensures var ths := Visit(s, s.sh.list[pos], true, Some(why));
            Inv(s.(threads := ths)) && t < |ths| && ths[t] == s.threads[t]
  {
    assert ThreadOk(s.sh, t, s.threads[t]);
    VisitKeeps(s, pos, true, Some(why));
    assert s.sh == s.sh.(told := s.sh.told);
  }

  lemma CancellingRecordKeeps(s: Sys, t: nat, pc: Pc)
    requires Inv(s) && t < |s.threads| && s.threads[t].pc.TellCancelling?
    requires pc == End(true) || (pc.TellCancelling? && pc.pos <= |s.sh.list|)
    ensures Inv(s.(threads := s.threads[t := s.threads[t].(pc := pc)]))
  {
    assert ThreadOk(s.sh, t, s.threads[t]);
    RecordKeeps(s, t, pc);
  }

  lemma TellAllKeeps(s: Sys, t: nat, wait: bool)
    requires Inv(s) && t < |s.threads| && s.threads[t].pc.TellAll?
    ensures Inv(MoveThread(s, t, wait))
  {
    TellAllOwns(s, t);
    if s.sh.told < |s.sh.list| {
      VisitKeeps(s, s.sh.told, false, s.sh.st.cause);
    } else {
      TellAllEnds(s, t);
    }
  }

  lemma TellAllOwns(s: Sys, t: nat)
    requires Inv(s) && t < |s.threads| && s.threads[t].pc.TellAll?
    ensures s.sh.owner == Some(t) && s.sh.st.Done? && s.sh.hasList && s.sh.closed && s.sh.told <= |s.sh.list|
    ensures !s.threads[t].op.Registrar?
  {
    assert ThreadOk(s.sh, t, s.threads[t]);
  }

  lemma TellAllEnds(s: Sys, t: nat)
    requires Inv(s) && t < |s.threads| && s.threads[t].pc.TellAll? && s.sh.told == |s.sh.list|
    ensures Inv(s.(threads := s.threads[t := s.threads[t].(pc := End(true))]))
  {
    TellAllOwns(s, t);
    RecordKeeps(s, t, End(true));
  }

  /** Only the program counter of thread t changes. */
  lemma RecordKeeps(s: Sys, t: nat, pc: Pc)
    requires Inv(s) && t < |s.threads| && !s.threads[t].op.Registrar?
    requires PcOk(s.sh, t, s.threads[t].(pc := pc))
    requires s.sh.owner == Some(t) ==> OwnerOk(s.closing, s.sh, s.threads[t].(pc := pc))
    ensures Inv(s.(threads := s.threads[t := s.threads[t].(pc := pc)]))
  {
    var s' := s.(threads := s.threads[t := s.threads[t].(pc := pc)]);
    forall u | 0 <= u < |s'.threads| ensures ThreadOk(s'.sh, u, s'.threads[u]) {
      assert ThreadOk(s.sh, u, s.threads[u]);
    }
    forall i | 0 <= i < |s'.sh.list| ensures NodeOk(s', i) { assert NodeOk(s, i); }
  }

  lemma StepKeeps(s: Sys, e: Event)
    requires Inv(s)
    ensures Inv(Exec(s, e))
  {
    match e
    case Spawn(op) =>
      var s' := Exec(s, e);
      forall i | 0 <= i < |s.sh.list| ensures s.sh.list[i] != |s.threads| { assert NodeOk(s, i); }
      forall u | 0 <= u < |s'.threads| ensures ThreadOk(s'.sh, u, s'.threads[u]) {
        if u < |s.threads| { assert ThreadOk(s.sh, u, s.threads[u]); }
      }
      forall i | 0 <= i < |s'.sh.list| ensures NodeOk(s', i) { assert NodeOk(s, i); }
    case Move(t, wait) =>
      if t < |s.threads| {
        if s.threads[t].pc.TellCancelling? {
          TellCancellingKeeps(s, t, wait);
        } else if s.threads[t].pc.TellAll? {
          TellAllKeeps(s, t, wait);
        } else {
          OwnMoveKeeps(s, t, wait);
        }
      }
  }

  lemma {:induction false} RunKeeps(s: Sys, es: seq<Event>)
    requires Inv(s)
    ensures Inv(Run(s, es)) && Run(s, es).closing == s.closing
    decreases |es|
  {
    if es != [] {
      RunKeeps(s, es[..|es| - 1]);
      StepKeeps(Run(s, es[..|es| - 1]), es[|es| - 1]);
    }
  }

  /** A run, made longer by one step. */
  lemma Then(s: Sys, es: seq<Event>, e: Event, mid: Sys, next: Sys) returns (longer: seq<Event>)
    requires Run(s, es) == mid && Exec(mid, e) == next
    ensures longer == es + [e] && Run(s, longer) == next
  {
    longer := es + [e];
    assert longer[..|longer| - 1] == es;
  }

  // ---------------------------------------------------------------- theorems about every run

  /** Any system a job can get into. */
  function Reached(closing: bool, active: bool, es: seq<Event>): Sys {
    Run(Init(closing, active), es)
  }

  lemma ReachedOk(closing: bool, active: bool, es: seq<Event>)
    ensures Inv(Reached(closing, active, es)) && Reached(closing, active, es).closing == closing
  {
    RunKeeps(Init(closing, active), es);
  }

  /** The state pointer is swapped at most four times, so no thread ever fails more often than that. */
  lemma AtMostFourSwaps(closing: bool, active: bool, es: seq<Event>, t: nat)
    ensures Reached(closing, active, es).sh.swaps <= 4
    ensures t < |Reached(closing, active, es).threads| ==> Reached(closing, active, es).threads[t].fails <= 4
  {
    ReachedOk(closing, active, es);
    var s := Reached(closing, active, es);
    if t < |s.threads| { assert ThreadOk(s.sh, t, s.threads[t]); }
  }

  /** Did the call of this thread report that it completed the job? */
  predicate Completed(th: Thread) {
    th.op.Completer? && (th.pc in {Parked, Sealing, Closing, TellAll, End(true)} || th.pc.Committing?)
  }

  /** One finalization at most, its final compare-and-set cannot fail, and one completing call at most wins. */
  lemma SingleFinalization(closing: bool, active: bool, es: seq<Event>, t: nat, u: nat)
    ensures var s := Reached(closing, active, es);
            && s.sh.finalizations <= 1
            && (t < |s.threads| ==> s.threads[t].pc != AssertFailed)
            && (t < |s.threads| && s.threads[t].pc.Committing? ==> s.sh.st == Finishing)
            && (t < |s.threads| && u < |s.threads| && Completed(s.threads[t]) && Completed(s.threads[u]) ==> t == u)
  {
    ReachedOk(closing, active, es);
    var s := Reached(closing, active, es);
    if t < |s.threads| { assert ThreadOk(s.sh, t, s.threads[t]); }
    if u < |s.threads| { assert ThreadOk(s.sh, u, s.threads[u]); }
  }

  /**
   * The root cause is written at most once; the final state is exceptional exactly when there is one, and has the
   * cause that prevails among root cause, extra exception and the exception proposed by the completing call.
   */
  lemma CausesAgree(closing: bool, active: bool, es: seq<Event>)
    ensures var s := Reached(closing, active, es); var sh := s.sh;
            && sh.rootWrites <= 1
            && (sh.st.Done? ==> (sh.st.cause.Some? <==> sh.root.Some?))
            && (sh.st.Done? && sh.root.Some? ==> sh.st.cause == Prevails(sh.root, sh.extra, FinalProposal(s)))
            && (sh.st.Done? && sh.st.cause.Some? ==> sh.st.cause in {sh.root, sh.extra, FinalProposal(s)})
            && (sh.st.Done? && sh.st.cause.Some? && IsCancellation(sh.st.cause.value) ==>
                  forall e :: Some(e) in {sh.root, sh.extra, FinalProposal(s)} ==> IsCancellation(e))
  {
    ReachedOk(closing, active, es);
    var s := Reached(closing, active, es);
    var proposed := FinalProposal(s);
    if s.sh.st.Done? && s.sh.hasList {
      FinalCauseKind(s.sh.root, s.sh.extra, proposed);
      if s.sh.root.Some? { WhoPrevails(s.sh.root, s.sh.extra, proposed); }
    }
  }

  /** What the call that completes the job proposed. */
  function FinalProposal(s: Sys): Option<Exn> {
    if s.sh.owner.Some? && s.sh.owner.value < |s.threads| then ProposedBy(s.threads[s.sh.owner.value].op) else None
  }

  /** Nobody is inside a call any more. */
  predicate AtRest(s: Sys) {
    forall t :: 0 <= t < |s.threads| ==> s.threads[t].pc.End?
  }

  /** Handlers that are to be called: registered, or refused with the promise to be called at once. */
  predicate Owed(th: Thread) {
    th.op.Registrar? && (th.pc == End(true) || (th.op.immediate && th.pc == End(false)))
  }

  /**
   * No handler is ever called twice. If the list honours close, then once the job is final and every
   * call has returned, each handler owed a call got exactly one, and a completion handler got it with
   * the final cause, whether it was registered before, during or after completion.
   */
  lemma HandlersExactlyOnce(closing: bool, active: bool, es: seq<Event>, t: nat)
    requires t < |Reached(closing, active, es).threads|
    ensures var s := Reached(closing, active, es); var th := s.threads[t];
            && |th.calls| <= 1
            && (closing && s.sh.st.Done? && AtRest(s) && Owed(th) ==>
                  |th.calls| == 1 && (!th.op.onCancelling ==> th.calls == [s.sh.st.cause]))
  {
    ReachedOk(closing, active, es);
    var s := Reached(closing, active, es);
    var th := s.threads[t];
    assert ThreadOk(s.sh, t, th);
    if s.sh.st.Done? && AtRest(s) && Owed(th) && th.pc == End(true) {
      var i :| 0 <= i < |s.sh.list| && s.sh.list[i] == t;
      assert NodeOk(s, i);
    }
  }

  // ---------------------------------------------------------------- what never changes back

  predicate IsActive(sh: Shared) {
    sh.st.EmptyActive? || sh.st.NodeList? || (sh.st.Finishing? && sh.root.None?)
  }

  predicate IsCancelled(sh: Shared) {
    (sh.st.Finishing? && sh.root.Some?) || (sh.st.Done? && sh.st.cause.Some?)
  }

  predicate IsNew(sh: Shared) { sh.st.EmptyNew? || sh.st.InactiveList? }

  /** What holds of any later moment: the flags of the state table never revert, and sealed is sealed. */
  predicate Lasting(sh: Shared, sh': Shared) {
    && (sh.st.Done? ==> sh'.st == sh.st)
    && (IsCancelled(sh) ==> IsCancelled(sh'))
    && (!IsNew(sh) ==> !IsNew(sh')) && (!IsNew(sh) && !IsActive(sh) ==> !IsActive(sh'))
    && (sh.root.Some? ==> sh'.root == sh.root)
    && (sh.extra.Some? ==> sh'.extra == sh.extra) && (sh.owner.Some? ==> sh'.owner == sh.owner)
    && (sh.isSealed ==> sh'.isSealed && sh'.root == sh.root && sh'.extra == sh.extra)
    && sh.swaps <= sh'.swaps && Rank(sh.st) <= Rank(sh'.st)
  }

  lemma StepLasts(s: Sys, e: Event)
    requires Inv(s)
    ensures Lasting(s.sh, Exec(s, e).sh)
  {
    match e
    case Spawn(_) =>
    case Move(t, wait) =>
      if t < |s.threads| {
        assert ThreadOk(s.sh, t, s.threads[t]);
        if !s.threads[t].pc.TellCancelling? && !s.threads[t].pc.TellAll? {
          OwnKeeps(s.closing, s.sh, t, s.threads[t], wait);
        }
      }
  }

  /** Along every continuation of a run. */
  lemma {:induction false} RunLasts(s: Sys, es: seq<Event>)
    requires Inv(s)
    ensures Lasting(s.sh, Run(s, es).sh)
    decreases |es|
  {
    if es != [] {
      var es' := es[..|es| - 1];
      RunKeeps(s, es');
      RunLasts(s, es');
      StepLasts(Run(s, es'), es[|es| - 1]);
    }
  }
}
