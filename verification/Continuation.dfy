/**
 * One cancellable continuation under any interleaving of threads: one get_result, and any number of
 * resumptions, cancellations, handler and index registrations. Every step is one load or one
 * compare-and-set of `decision_and_index_` or `state_` (or of the `handled` flag of a state), or one
 * call of a user's handler. A dispatched task is an environment that runs once and either takes the
 * result or calls cancel_completed_result.
 */
module Continuation {
  import opened Options

  // ---------------------------------------------------------------- the packed word

  const UNDECIDED := 0
  const SUSPENDED := 1
  const RESUMED := 2
  const INDEX_SPAN := 0x2000_0000   // 1 << DECISION_SHIFT
  const NO_INDEX := INDEX_SPAN - 1

  function Pack(decision: int, index: int): int { decision * INDEX_SPAN + index }
  function DecisionOf(word: int): int { word / INDEX_SPAN }
  function IndexOf(word: int): int { word % INDEX_SPAN }

  /**
   * Packing keeps the decision exactly for an index that fits below it, and then the index too; for the three
   * decisions the word is then a non-negative C++ int.
   */
  lemma PackKeepsParts(decision: int, index: int)
    ensures DecisionOf(Pack(decision, index)) == decision <==> 0 <= index < INDEX_SPAN
    ensures 0 <= index < INDEX_SPAN <==> IndexOf(Pack(decision, index)) == index
    ensures 0 <= index < INDEX_SPAN && decision in {UNDECIDED, SUSPENDED, RESUMED} ==>
              0 <= Pack(decision, index) < 0x8000_0000
  {
  }

  lemma UnpackPacks(word: int)
    ensures Pack(DecisionOf(word), IndexOf(word)) == word && 0 <= IndexOf(word) < INDEX_SPAN
  {
  }

  // ---------------------------------------------------------------- shared memory

  /**
   * `state_`. Handlers and values are named by the thread that registered or supplied them.
   * `replaced` remembers the handler a cancellation found in the state.
   */
  datatype State =
    | Active
    | Handler(h: nat)
    | WithValue(r: nat)                                                       // CompletedWithValue
    | Cancellable(r: nat, handler: Option<nat>, onCancel: bool, cancelled: bool)  // CompletedCancellable...
    | Cancelled(handled: bool, replaced: Option<nat>)                          // CancelledContinuation
    | Exceptional(handled: bool)                                               // CompletedExceptionState

  predicate NotCompleted(st: State) { st.Active? || st.Handler? }

  /** Did the continuation end cancelled: before it got a result, or the result was thrown away? */
  predicate EndsCancelled(st: State) { st.Cancelled? || (st.Cancellable? && st.cancelled) }

  datatype Op =
    | Suspender                 // get_result
    | Runner                    // the dispatched task
    | Resumer(onCancel: bool)   // resume(value, on_cancellation), with or without a callback
    | Failer                    // resume with an exception
    | Canceller                 // cancel
    | Registrar                 // invoke_on_cancellation(handler)
    | Indexer(index: int)       // invoke_on_cancellation(segment, index): the index part

  datatype Res = Yielded | Suspended | Direct | Dispatched | Accepted | Ignored | Refused

  datatype Pc =
    | Start                          // about to load
    | GTry(word: int) | GState       // get_result: suspend, or read the state
    | ITry(word: int)
    | DStart | DTry(word: int)       // dispatch_resume
    | STry(seen: State)              // about to compare-and-set the state just loaded
    | Flag                           // about to set the handled flag
    | OwnCall                        // about to call the thread's own handler or callback
    | CancelCall(h: nat)             // cancel: about to call the handler it replaced
    | KStart | KTry(seen: State)     // cancel_completed_result
    | KHandler(h: nat, onCancel: bool, r: nat) | KCallback(r: nat)
    | Broken                         // an exception the code treats as impossible
    | End(res: Res)

  /** `calls` counts how often the handler or callback of this thread has been called. */
  datatype Thread = Thread(op: Op, pc: Pc, calls: nat)

  datatype Outcome = Value(r: nat) | Failure

  /**
   * Shared memory, and bookkeeping: who moved the state out of NotCompleted, who cancelled the result,
   * which stored handler or callback is still to be called, and what has been delivered.
   */
  datatype Shared = Shared(
    word: int, st: State,
    winner: Option<nat>, leaves: nat, closer: Option<nat>,
    owedHandler: Option<nat>, owedCallback: Option<nat>,
    suspender: Option<nat>, runner: Option<nat>,
    dispatches: nat, yielded: Option<Outcome>, resumed: Option<Outcome>)

  /** `cancellable`: does the resume mode allow cancellation of the result? */
  datatype Sys = Sys(cancellable: bool, sh: Shared, threads: seq<Thread>)

  /** `inactive`: what the deliverer of a result finds when it asks whether the parent job is inactive. */
  datatype Event = Spawn(op: Op) | Move(thread: nat, inactive: bool)

  function Init(cancellable: bool): Sys {
    Sys(cancellable,
        Shared(Pack(UNDECIDED, NO_INDEX), Active, None, 0, None, None, None, None, None, 0, None, None),
        [])
  }

  // ---------------------------------------------------------------- steps

  function Leave(sh: Shared, t: nat, st: State): Shared {
    sh.(st := st, winner := Some(t), leaves := sh.leaves + 1)
  }

  /** `resumed_state` */
  function ResumedState(cancellable: bool, seen: State, t: nat, onCancel: bool): State {
    if cancellable && (onCancel || seen.Handler?)
    then Cancellable(t, if seen.Handler? then Some(seen.h) else None, onCancel, false)
    else WithValue(t)
  }

  /** What a thread does with the state it loads. */
  function Loaded(sh: Shared, t: nat, th: Thread): Pc {
    match th.op
    case Resumer(_) =>
      if NotCompleted(sh.st) then STry(sh.st) else if sh.st.Cancelled? then Flag else End(Refused)
    case Failer => if NotCompleted(sh.st) then STry(sh.st) else End(Refused)
    case Canceller => if NotCompleted(sh.st) then STry(sh.st) else End(Ignored)
    case Registrar =>
      (match sh.st
       case Active => STry(sh.st)
       case Handler(_) => End(Refused)
       case Cancelled(_, _) => Flag
       case Exceptional(_) => Flag
       case Cancellable(_, handler, _, cancelled) =>
         if handler.Some? then End(Refused) else if cancelled then OwnCall else STry(sh.st)
       case WithValue(_) => STry(sh.st))
    case _ => Broken
  }

  /** The compare-and-set of resume, cancel and invoke_on_cancellation on the state they have seen. */
  function TryState(cancellable: bool, sh: Shared, t: nat, th: Thread, seen: State): (Shared, Thread) {
    if sh.st != seen then (sh, th.(pc := Start))
    else
      match th.op
      case Resumer(onCancel) => (Leave(sh, t, ResumedState(cancellable, seen, t, onCancel)), th.(pc := DStart))
      case Failer => (Leave(sh, t, Exceptional(false)), th.(pc := DStart))
      case Canceller =>
        var h := if seen.Handler? then Some(seen.h) else None;
        (Leave(sh, t, Cancelled(h.Some?, h)).(owedHandler := h),
         th.(pc := if h.Some? then CancelCall(h.value) else DStart))
      case Registrar =>
        (match seen
         case Active => (sh.(st := Handler(t)), th.(pc := End(Accepted)))
         case WithValue(r) => (sh.(st := Cancellable(r, Some(t), false, false)), th.(pc := End(Accepted)))
         case Cancellable(r, _, onCancel, cancelled) =>
           (sh.(st := Cancellable(r, Some(t), onCancel, cancelled)), th.(pc := End(Accepted)))
         case _ => (sh, th.(pc := Broken)))
      case _ => (sh, th.(pc := Broken))
  }

  /** `make_resumed` and `make_handled`: one flag for both. */
  function SetFlag(sh: Shared, th: Thread): (Shared, Thread) {
    match sh.st
    case Cancelled(handled, replaced) =>
      if handled then (sh, th.(pc := End(Refused)))
      else
        (sh.(st := Cancelled(true, replaced)),
         th.(pc := if th.op.Registrar? || (th.op.Resumer? && th.op.onCancel) then OwnCall else End(Ignored)))
    case Exceptional(handled) =>
      if handled then (sh, th.(pc := End(Refused)))
      else (sh.(st := Exceptional(true)), th.(pc := End(Accepted)))
    case _ => (sh, th.(pc := Broken))
  }

  /** One round of `cancel_completed_result`. */
  function CloseResult(sh: Shared, t: nat, th: Thread): (Shared, Thread) {
    match th.pc
    case KStart =>
      (match sh.st
       case Active => (sh, th.(pc := Broken))
       case Handler(_) => (sh, th.(pc := Broken))
       case Cancelled(_, _) => Deliver(sh, th, Failure)
       case Exceptional(_) => Deliver(sh, th, Failure)
       case WithValue(_) => (sh, th.(pc := KTry(sh.st)))
       case Cancellable(_, _, _, cancelled) => (sh, th.(pc := if cancelled then Broken else KTry(sh.st))))
    case KTry(seen) =>
      if sh.st != seen then (sh, th.(pc := KStart))
      else
        (match seen
         case WithValue(r) =>
           Deliver(sh.(st := Cancellable(r, None, false, true), closer := Some(t)), th, Failure)
         case Cancellable(r, handler, onCancel, _) =>
           var sh' := sh.(st := Cancellable(r, handler, onCancel, true), closer := Some(t),
                          owedHandler := handler, owedCallback := if onCancel then Some(r) else None);
           if handler.Some? then (sh', th.(pc := KHandler(handler.value, onCancel, r)))
           else if onCancel then (sh', th.(pc := KCallback(r)))
           else Deliver(sh', th, Failure)
         case _ => (sh, th.(pc := Broken)))
    case _ => (sh, th)
  }

  /** get_result returns or throws, or the dispatched task resumes the delegate. */
  function Deliver(sh: Shared, th: Thread, o: Outcome): (Shared, Thread) {
    (if th.op.Suspender? then sh.(yielded := Some(o)) else sh.(resumed := Some(o)), th.(pc := End(Yielded)))
  }

  /** The deliverer looks at the completed state. */
  function TakeResult(cancellable: bool, sh: Shared, th: Thread, inactive: bool): (Shared, Thread) {
    match sh.st
    case Cancelled(_, _) => Deliver(sh, th, Failure)
    case Exceptional(_) => Deliver(sh, th, Failure)
    case WithValue(r) => if cancellable && inactive then (sh, th.(pc := KStart)) else Deliver(sh, th, Value(r))
    case Cancellable(r, _, _, _) =>
      if cancellable && inactive then (sh, th.(pc := KStart)) else Deliver(sh, th, Value(r))
    case _ => (sh, th.(pc := Broken))   // "Invalid state for result"
  }

  /** Steps on the packed word. */
  function OnWord(sh: Shared, th: Thread): (Shared, Thread) {
    var d := DecisionOf(sh.word);
    match th.pc
    case Start =>
      if th.op.Suspender? then
        (sh, th.(pc := if d == UNDECIDED then GTry(sh.word) else if d == RESUMED then GState else Broken))
      else (sh, th.(pc := if IndexOf(sh.word) != NO_INDEX then End(Refused) else ITry(sh.word)))
    case GTry(cur) =>
      if sh.word != cur then (sh, th.(pc := Start))
      else (sh.(word := Pack(SUSPENDED, IndexOf(cur))), th.(pc := End(Suspended)))
    case ITry(cur) =>
      if sh.word != cur || !th.op.Indexer? then (sh, th.(pc := Start))
      else (sh.(word := Pack(DecisionOf(cur), th.op.index)), th.(pc := End(Accepted)))
    case DStart =>
      if d == UNDECIDED then (sh, th.(pc := DTry(sh.word)))
      else if d == SUSPENDED then (sh.(dispatches := sh.dispatches + 1), th.(pc := End(Dispatched)))
      else (sh, th.(pc := Broken))   // "Already resumed"
    case DTry(cur) =>
      if sh.word != cur then (sh, th.(pc := DStart))
      else (sh.(word := Pack(RESUMED, IndexOf(cur))), th.(pc := End(Direct)))
    case _ => (sh, th)
  }

  /** The step of a thread that is not about to call a handler of another thread. */
  function Own(cancellable: bool, sh: Shared, t: nat, th: Thread, inactive: bool): (Shared, Thread) {
    match th.pc
    case Start =>
      if th.op.Suspender? || th.op.Indexer? then OnWord(sh, th)
      else if th.op.Runner? then TakeResult(cancellable, sh, th, inactive)
      else (sh, th.(pc := Loaded(sh, t, th)))
    case GState => TakeResult(cancellable, sh, th, inactive)
    case STry(seen) => TryState(cancellable, sh, t, th, seen)
    case Flag => SetFlag(sh, th)
    case OwnCall => (sh, th.(pc := End(if th.op.Registrar? then Accepted else Ignored), calls := th.calls + 1))
    case KStart => CloseResult(sh, t, th)
    case KTry(_) => CloseResult(sh, t, th)
    case _ => OnWord(sh, th)
  }

  function Call(ths: seq<Thread>, t: nat): seq<Thread> {
    if t < |ths| then ths[t := ths[t].(calls := ths[t].calls + 1)] else ths
  }

  function MoveThread(s: Sys, t: nat, inactive: bool): Sys
    requires t < |s.threads|
  {
    var th := s.threads[t];
    match th.pc
    case CancelCall(h) =>
      s.(sh := s.sh.(owedHandler := None), threads := Call(s.threads[t := th.(pc := DStart)], h))
    case KHandler(h, onCancel, r) =>
      var (sh, th') := if onCancel then (s.sh, th.(pc := KCallback(r))) else Deliver(s.sh, th, Failure);
      s.(sh := sh.(owedHandler := None), threads := Call(s.threads[t := th'], h))
    case KCallback(r) =>
      var (sh, th') := Deliver(s.sh, th, Failure);
      s.(sh := sh.(owedCallback := None), threads := Call(s.threads[t := th'], r))
    case _ =>
      var (sh, th') := Own(s.cancellable, s.sh, t, th, inactive);
      s.(sh := sh, threads := s.threads[t := th'])
  }

  /**
   * get_result is called once; the dispatched task exists once dispatch was called, and runs once. Indices are those
   * that fit into the word; `IndexMustFit` and `MisfitBreaks` say what the others do.
   */
  predicate MaySpawn(sh: Shared, op: Op) {
    match op
    case Suspender => sh.suspender.None?
    case Runner => sh.runner.None? && sh.dispatches > 0
    case Indexer(index) => 0 <= index < INDEX_SPAN
    case _ => true
  }

  function SpawnAny(s: Sys, op: Op): Sys {
    var t := |s.threads|;
    s.(sh := if op.Suspender? then s.sh.(suspender := Some(t))
             else if op.Runner? then s.sh.(runner := Some(t)) else s.sh,
       threads := s.threads + [Thread(op, Start, 0)])
  }

  function Exec(s: Sys, e: Event): Sys {
    match e
    case Spawn(op) =>
      if MaySpawn(s.sh, op) then SpawnAny(s, op) else s
    case Move(t, inactive) => if t < |s.threads| then MoveThread(s, t, inactive) else s
  }

  function Run(s: Sys, es: seq<Event>): Sys {
    if es == [] then s else Exec(Run(s, es[..|es| - 1]), es[|es| - 1])
  }

  // ---------------------------------------------------------------- the invariant

  /** The handler the state holds, or held when it was cancelled. */
  function HandlerIn(st: State): Option<nat> {
    match st
    case Handler(h) => Some(h)
    case Cancellable(_, handler, _, _) => handler
    case Cancelled(_, replaced) => replaced
    case _ => None
  }

  /** The resumption whose value the state holds. */
  function ValueIn(st: State): Option<nat> {
    match st
    case WithValue(r) => Some(r)
    case Cancellable(r, _, _, _) => Some(r)
    case _ => None
  }

  predicate OutcomeOk(sh: Shared, o: Outcome) {
    match o
    case Value(r) => ValueIn(sh.st) == Some(r) && !EndsCancelled(sh.st)
    case Failure => EndsCancelled(sh.st) || sh.st.Exceptional?
  }

  predicate SharedOk(cancellable: bool, sh: Shared) {
    var d := DecisionOf(sh.word);
    && (d == UNDECIDED || d == SUSPENDED || d == RESUMED)
    && sh.leaves == (if NotCompleted(sh.st) then 0 else 1)
    && (sh.winner.Some? <==> !NotCompleted(sh.st))
    && (ValueIn(sh.st).Some? ==> ValueIn(sh.st) == sh.winner)
    && (sh.closer.Some? <==> sh.st.Cancellable? && sh.st.cancelled)
    && (sh.closer.Some? ==> cancellable && sh.closer == (if d == RESUMED then sh.suspender else sh.runner))
    && (!cancellable && sh.st.Cancellable? ==> !sh.st.onCancel)
    && (sh.st.Cancelled? && sh.st.replaced.Some? ==> sh.st.handled)
    && (sh.owedHandler.Some? ==> EndsCancelled(sh.st) && HandlerIn(sh.st) == sh.owedHandler)
    && (sh.owedCallback.Some? ==> sh.closer.Some? && sh.st.onCancel && ValueIn(sh.st) == sh.owedCallback)
    && sh.dispatches <= 1
    && (sh.dispatches == 1 ==> d == SUSPENDED && sh.winner.Some?)
    && (d == SUSPENDED ==> sh.suspender.Some?) && (d == RESUMED ==> sh.winner.Some?)
    && (sh.runner.Some? ==> sh.dispatches == 1)
    && (sh.resumed.Some? ==> sh.runner.Some? && OutcomeOk(sh, sh.resumed.value))
    && (sh.yielded.Some? ==> d == RESUMED && sh.suspender.Some? && OutcomeOk(sh, sh.yielded.value))
  }

  /** The thread that is to deliver the result has not done so yet. */
  predicate Delivering(sh: Shared, t: nat, th: Thread) {
    || (th.op.Suspender? && sh.suspender == Some(t) && DecisionOf(sh.word) == RESUMED && sh.yielded.None?)
    || (th.op.Runner? && sh.runner == Some(t) && sh.dispatches == 1 && sh.resumed.None?)
  }

  predicate Resuming(op: Op) { op.Resumer? || op.Failer? || op.Canceller? }

  predicate PcOk(cancellable: bool, sh: Shared, t: nat, th: Thread) {
    var d := DecisionOf(sh.word);
    match th.pc
    case Start =>
      && (th.op.Suspender? ==> d != SUSPENDED && sh.yielded.None?)
      && (th.op.Runner? ==> Delivering(sh, t, th))
    case GTry(cur) => th.op.Suspender? && DecisionOf(cur) == UNDECIDED && d != SUSPENDED && sh.yielded.None?
    case GState => th.op.Suspender? && Delivering(sh, t, th)
    case ITry(cur) =>
      th.op.Indexer? && IndexOf(cur) == NO_INDEX && DecisionOf(cur) in {UNDECIDED, SUSPENDED, RESUMED}
    case DStart => sh.winner == Some(t) && d != RESUMED && sh.dispatches == 0
    case DTry(cur) => sh.winner == Some(t) && d != RESUMED && sh.dispatches == 0 && DecisionOf(cur) == UNDECIDED
    case STry(seen) =>
      if th.op.Registrar? then
        seen.Active? || seen.WithValue? || (seen.Cancellable? && !seen.cancelled && seen.handler.None?)
      else Resuming(th.op) && NotCompleted(seen)
    case Flag => (th.op.Registrar? && (sh.st.Cancelled? || sh.st.Exceptional?)) || (th.op.Resumer? && sh.st.Cancelled?)
    case OwnCall => (th.op.Registrar? && EndsCancelled(sh.st)) || (th.op.Resumer? && th.op.onCancel && sh.st.Cancelled?)
    case CancelCall(h) =>
      && th.op.Canceller? && sh.winner == Some(t) && d != RESUMED && sh.dispatches == 0
      && sh.st.Cancelled? && sh.owedHandler == Some(h)
    case KStart => cancellable && Delivering(sh, t, th) && sh.closer.None? && ValueIn(sh.st).Some?
    case KTry(seen) =>
      && cancellable && Delivering(sh, t, th) && sh.closer.None? && ValueIn(sh.st).Some?
      && (seen.WithValue? || (seen.Cancellable? && !seen.cancelled))
    case KHandler(h, onCancel, r) =>
      && Delivering(sh, t, th) && sh.closer == Some(t) && sh.owedHandler == Some(h)
      && sh.owedCallback == (if onCancel then Some(r) else None)
    case KCallback(r) =>
      && Delivering(sh, t, th) && sh.closer == Some(t) && sh.owedHandler.None? && sh.owedCallback == Some(r)
    case Broken => false
    case End(res) =>
      (match res
       case Yielded => (th.op.Suspender? && sh.yielded.Some?) || (th.op.Runner? && sh.resumed.Some?)
       case Suspended => th.op.Suspender? && d == SUSPENDED
       case Direct => sh.winner == Some(t) && d == RESUMED
       case Dispatched => sh.winner == Some(t) && sh.dispatches == 1
       case Accepted =>
         th.op.Registrar? || (th.op.Indexer? && (th.op.index == NO_INDEX || IndexOf(sh.word) == th.op.index))
       case Ignored => sh.winner.Some? && (th.op.Canceller? || (th.op.Resumer? && sh.st.Cancelled?))
       case Refused => ((th.op.Resumer? || th.op.Failer?) && sh.winner.Some?) || th.op.Registrar?
                       || (th.op.Indexer? && IndexOf(sh.word) != NO_INDEX))
  }

  /** What the roles a thread has say about where it stands. */
  predicate RoleOk(sh: Shared, t: nat, th: Thread) {
    && (th.op.Suspender? <==> sh.suspender == Some(t))
    && (th.op.Runner? <==> sh.runner == Some(t))
    && (th.op.Indexer? ==> 0 <= th.op.index < INDEX_SPAN)
    && (sh.winner == Some(t) ==>
          && Resuming(th.op)
          && (th.pc.CancelCall? || th.pc.DStart? || th.pc.DTry? || th.pc == End(Direct) || th.pc == End(Dispatched))
          && (sh.dispatches == 1 <==> th.pc == End(Dispatched))
          && (sh.owedHandler.Some? && sh.st.Cancelled? ==> th.pc.CancelCall?))
    && (sh.winner != Some(t) && Resuming(th.op) ==>
          || th.pc.Start? || th.pc.STry? || th.pc.Flag? || th.pc.OwnCall?
          || th.pc == End(Ignored) || th.pc == End(Refused))
    && (sh.suspender == Some(t) ==>
          && (DecisionOf(sh.word) == SUSPENDED <==> th.pc == End(Suspended))
          && (sh.yielded.Some? <==> th.pc == End(Yielded)))
    && (sh.runner == Some(t) ==> (sh.resumed.Some? <==> th.pc == End(Yielded)))
    && (sh.closer == Some(t) ==>
          && (th.pc.KHandler? || th.pc.KCallback? || th.pc == End(Yielded))
          && (sh.owedHandler.Some? && sh.st.Cancellable? ==> th.pc.KHandler?)
          && (sh.owedCallback.Some? ==> th.pc.KHandler? || th.pc.KCallback?))
  }

  /** How often the handler or callback of a thread has been called so far. */
  predicate AccountOk(cancellable: bool, sh: Shared, t: nat, th: Thread) {
    match th.op
    case Registrar =>
      && sh.winner != Some(t)
      && if th.pc == End(Accepted) then
           && th.calls == (if EndsCancelled(sh.st) && sh.owedHandler != Some(t) then 1 else 0)
           && (HandlerIn(sh.st) != Some(t) ==>
                 !NotCompleted(sh.st) && (cancellable ==> EndsCancelled(sh.st) || sh.st.Exceptional?))
         else th.calls == 0 && HandlerIn(sh.st) != Some(t)
    case Resumer(onCancel) =>
      && HandlerIn(sh.st) != Some(t)
      && if sh.winner == Some(t) then
           && ValueIn(sh.st) == Some(t)
           && (onCancel && cancellable ==> sh.st.Cancellable?)
           && (sh.st.Cancellable? ==> sh.st.onCancel == (onCancel && cancellable))
           && th.calls == (if EndsCancelled(sh.st) && onCancel && sh.owedCallback != Some(t) then 1 else 0)
         else th.calls == (if th.pc == End(Ignored) && onCancel then 1 else 0)
    case _ =>
      && th.calls == 0 && HandlerIn(sh.st) != Some(t) && ValueIn(sh.st) != Some(t)
  }

  predicate ThreadOk(cancellable: bool, sh: Shared, t: nat, th: Thread) {
    PcOk(cancellable, sh, t, th) && RoleOk(sh, t, th) && AccountOk(cancellable, sh, t, th)
  }

  ghost predicate Inv(s: Sys) {
    && SharedOk(s.cancellable, s.sh)
    && (s.sh.winner.Some? ==> s.sh.winner.value < |s.threads|)
    && (s.sh.suspender.Some? ==> s.sh.suspender.value < |s.threads|)
    && (s.sh.runner.Some? ==> s.sh.runner.value < |s.threads|)
    && (HandlerIn(s.sh.st).Some? ==> HandlerIn(s.sh.st).value < |s.threads|)
    && (forall t :: 0 <= t < |s.threads| ==> ThreadOk(s.cancellable, s.sh, t, s.threads[t]))
  }

  // ---------------------------------------------------------------- one step

  predicate Fine(cancellable: bool, sh: Shared, t: nat, th: Thread) {
    SharedOk(cancellable, sh) && ThreadOk(cancellable, sh, t, th)
  }

  /** A step of thread t to r leaves shared memory and its own record in order, and keeps the roles of the others. */
  predicate Kept(cancellable: bool, sh: Shared, t: nat, r: (Shared, Thread)) {
    && Fine(cancellable, r.0, t, r.1)
    && (sh.winner.Some? ==> r.0.winner == sh.winner) && (r.0.winner == sh.winner || r.0.winner == Some(t))
    && r.0.suspender == sh.suspender && r.0.runner == sh.runner
    && (HandlerIn(r.0.st) == HandlerIn(sh.st) || HandlerIn(r.0.st) == Some(t) || HandlerIn(r.0.st).None?)
  }

  lemma SuspendKeeps(cancellable: bool, sh: Shared, t: nat, th: Thread)
    requires Fine(cancellable, sh, t, th) && th.op.Suspender? && (th.pc.Start? || th.pc.GTry?)
    ensures Kept(cancellable, sh, t, OnWord(sh, th))
  {
    WordParts(sh.word, th.op);
  }

  lemma IndexKeeps(cancellable: bool, sh: Shared, t: nat, th: Thread)
    requires Fine(cancellable, sh, t, th) && th.op.Indexer? && (th.pc.Start? || th.pc.ITry?)
    ensures Kept(cancellable, sh, t, OnWord(sh, th))
  {
    WordParts(sh.word, th.op);
  }

  lemma DispatchKeeps(cancellable: bool, sh: Shared, t: nat, th: Thread)
    requires Fine(cancellable, sh, t, th) && (th.pc.DStart? || th.pc.DTry?)
    ensures Kept(cancellable, sh, t, OnWord(sh, th))
  {
    WordParts(sh.word, th.op);
  }

  lemma OnWordKeeps(cancellable: bool, sh: Shared, t: nat, th: Thread)
    requires Fine(cancellable, sh, t, th)
    requires th.pc.Start? ==> th.op.Suspender? || th.op.Indexer?
    requires th.pc.Start? || th.pc.GTry? || th.pc.ITry? || th.pc.DStart? || th.pc.DTry?
    ensures Kept(cancellable, sh, t, OnWord(sh, th))
  {
    if th.pc.DStart? || th.pc.DTry? { DispatchKeeps(cancellable, sh, t, th); }
    else if th.pc.GTry? || th.op.Suspender? { SuspendKeeps(cancellable, sh, t, th); }
    else { IndexKeeps(cancellable, sh, t, th); }
  }

  lemma OnWordSpares(cancellable: bool, sh: Shared, t: nat, th: Thread, u: nat, thu: Thread)
    requires Fine(cancellable, sh, t, th) && t != u && ThreadOk(cancellable, sh, u, thu)
    requires th.pc.Start? ==> th.op.Suspender? || th.op.Indexer?
    requires th.pc.Start? || th.pc.GTry? || th.pc.ITry? || th.pc.DStart? || th.pc.DTry?
    ensures ThreadOk(cancellable, OnWord(sh, th).0, u, thu)
  {
    WordParts(sh.word, th.op);
  }

  lemma LoadKeeps(cancellable: bool, sh: Shared, t: nat, th: Thread)
    requires Fine(cancellable, sh, t, th)
    requires th.pc.Start? && (Resuming(th.op) || th.op.Registrar?)
    ensures Kept(cancellable, sh, t, (sh, th.(pc := Loaded(sh, t, th))))
  {
  }

  lemma ResumeKeeps(cancellable: bool, sh: Shared, t: nat, th: Thread)
    requires Fine(cancellable, sh, t, th)
    requires th.pc.STry? && th.op.Resumer?
    ensures Kept(cancellable, sh, t, TryState(cancellable, sh, t, th, th.pc.seen))
  {
  }

  lemma ResumeSpares(cancellable: bool, sh: Shared, t: nat, th: Thread, u: nat, thu: Thread)
    requires Fine(cancellable, sh, t, th) && t != u && ThreadOk(cancellable, sh, u, thu)
    requires th.pc.STry? && th.op.Resumer?
    ensures ThreadOk(cancellable, TryState(cancellable, sh, t, th, th.pc.seen).0, u, thu)
  {
  }

  lemma FailKeeps(cancellable: bool, sh: Shared, t: nat, th: Thread)
    requires Fine(cancellable, sh, t, th)
    requires th.pc.STry? && th.op.Failer?
    ensures Kept(cancellable, sh, t, TryState(cancellable, sh, t, th, th.pc.seen))
  {
  }

  lemma FailSpares(cancellable: bool, sh: Shared, t: nat, th: Thread, u: nat, thu: Thread)
    requires Fine(cancellable, sh, t, th) && t != u && ThreadOk(cancellable, sh, u, thu)
    requires th.pc.STry? && th.op.Failer?
    ensures ThreadOk(cancellable, TryState(cancellable, sh, t, th, th.pc.seen).0, u, thu)
  {
  }

  lemma CancelKeeps(cancellable: bool, sh: Shared, t: nat, th: Thread)
    requires Fine(cancellable, sh, t, th)
    requires th.pc.STry? && th.op.Canceller?
    ensures Kept(cancellable, sh, t, TryState(cancellable, sh, t, th, th.pc.seen))
  {
  }

  lemma CancelSpares(cancellable: bool, sh: Shared, t: nat, th: Thread, u: nat, thu: Thread)
    requires Fine(cancellable, sh, t, th) && t != u && ThreadOk(cancellable, sh, u, thu)
    requires th.pc.STry? && th.op.Canceller?
    ensures ThreadOk(cancellable, TryState(cancellable, sh, t, th, th.pc.seen).0, u, thu)
  {
  }

  lemma RegisterFirstKeeps(cancellable: bool, sh: Shared, t: nat, th: Thread)
    requires Fine(cancellable, sh, t, th) && th.pc.STry? && th.op.Registrar?
    requires th.pc.seen.Active? || th.pc.seen != sh.st
    ensures Kept(cancellable, sh, t, TryState(cancellable, sh, t, th, th.pc.seen))
  {
  }

  lemma RegisterLateKeeps(cancellable: bool, sh: Shared, t: nat, th: Thread)
    requires Fine(cancellable, sh, t, th) && th.pc.STry? && th.op.Registrar? && !th.pc.seen.Active?
    requires th.pc.seen == sh.st
    ensures Kept(cancellable, sh, t, TryState(cancellable, sh, t, th, th.pc.seen))
  {
  }

  lemma RegisterKeeps(cancellable: bool, sh: Shared, t: nat, th: Thread)
    requires Fine(cancellable, sh, t, th)
    requires th.pc.STry? && th.op.Registrar?
    ensures Kept(cancellable, sh, t, TryState(cancellable, sh, t, th, th.pc.seen))
  {
    if th.pc.seen.Active? || th.pc.seen != sh.st { RegisterFirstKeeps(cancellable, sh, t, th); }
    else { RegisterLateKeeps(cancellable, sh, t, th); }
  }

  lemma RegisterSpares(cancellable: bool, sh: Shared, t: nat, th: Thread, u: nat, thu: Thread)
    requires Fine(cancellable, sh, t, th) && t != u && ThreadOk(cancellable, sh, u, thu)
    requires th.pc.STry? && th.op.Registrar?
    ensures ThreadOk(cancellable, TryState(cancellable, sh, t, th, th.pc.seen).0, u, thu)
  {
  }

  lemma ResumerFlagKeeps(cancellable: bool, sh: Shared, t: nat, th: Thread)
    requires Fine(cancellable, sh, t, th) && th.pc.Flag? && th.op.Resumer?
    ensures Kept(cancellable, sh, t, SetFlag(sh, th))
  {
  }

  lemma RegistrarFlagKeeps(cancellable: bool, sh: Shared, t: nat, th: Thread)
    requires Fine(cancellable, sh, t, th) && th.pc.Flag? && th.op.Registrar?
    ensures Kept(cancellable, sh, t, SetFlag(sh, th))
  {
  }

  lemma SetFlagKeeps(cancellable: bool, sh: Shared, t: nat, th: Thread)
    requires Fine(cancellable, sh, t, th)
    requires th.pc.Flag?
    ensures Kept(cancellable, sh, t, SetFlag(sh, th))
  {
    if th.op.Resumer? { ResumerFlagKeeps(cancellable, sh, t, th); } else { RegistrarFlagKeeps(cancellable, sh, t, th); }
  }

  lemma SetFlagSpares(cancellable: bool, sh: Shared, t: nat, th: Thread, u: nat, thu: Thread)
    requires Fine(cancellable, sh, t, th) && t != u && ThreadOk(cancellable, sh, u, thu)
    requires th.pc.Flag?
    ensures ThreadOk(cancellable, SetFlag(sh, th).0, u, thu)
  {
  }

  lemma CloseReadKeeps(cancellable: bool, sh: Shared, t: nat, th: Thread)
    requires Fine(cancellable, sh, t, th) && th.pc.KStart?
    ensures Kept(cancellable, sh, t, CloseResult(sh, t, th))
  {
  }

  lemma CloseTryKeeps(cancellable: bool, sh: Shared, t: nat, th: Thread)
    requires Fine(cancellable, sh, t, th) && th.pc.KTry? && (th.pc.seen != sh.st || th.pc.seen.WithValue?)
    ensures Kept(cancellable, sh, t, CloseResult(sh, t, th))
  {
  }

  lemma CloseWithHandlerKeeps(cancellable: bool, sh: Shared, t: nat, th: Thread)
    requires Fine(cancellable, sh, t, th) && th.pc.KTry? && th.pc.seen == sh.st
    requires sh.st.Cancellable? && sh.st.handler.Some?
    ensures Kept(cancellable, sh, t, CloseResult(sh, t, th))
  {
  }

  lemma CloseWithoutHandlerKeeps(cancellable: bool, sh: Shared, t: nat, th: Thread)
    requires Fine(cancellable, sh, t, th) && th.pc.KTry? && th.pc.seen == sh.st
    requires sh.st.Cancellable? && sh.st.handler.None?
    ensures Kept(cancellable, sh, t, CloseResult(sh, t, th))
  {
  }

  lemma CloseTryCancellableKeeps(cancellable: bool, sh: Shared, t: nat, th: Thread)
    requires Fine(cancellable, sh, t, th) && th.pc.KTry? && th.pc.seen == sh.st && sh.st.Cancellable?
    ensures Kept(cancellable, sh, t, CloseResult(sh, t, th))
  {
    if sh.st.handler.Some? { CloseWithHandlerKeeps(cancellable, sh, t, th); }
    else { CloseWithoutHandlerKeeps(cancellable, sh, t, th); }
  }

  lemma CloseResultKeeps(cancellable: bool, sh: Shared, t: nat, th: Thread)
    requires Fine(cancellable, sh, t, th)
    requires th.pc.KStart? || th.pc.KTry?
    ensures Kept(cancellable, sh, t, CloseResult(sh, t, th))
  {
    if th.pc.KStart? { CloseReadKeeps(cancellable, sh, t, th); }
    else if th.pc.seen == sh.st && sh.st.Cancellable? { CloseTryCancellableKeeps(cancellable, sh, t, th); }
    else { CloseTryKeeps(cancellable, sh, t, th); }
  }

  lemma CloseResultSpares(cancellable: bool, sh: Shared, t: nat, th: Thread, u: nat, thu: Thread)
    requires Fine(cancellable, sh, t, th) && t != u && ThreadOk(cancellable, sh, u, thu)
    requires th.pc.KStart? || th.pc.KTry?
    ensures ThreadOk(cancellable, CloseResult(sh, t, th).0, u, thu)
  {
  }

  lemma SuspenderTakesKeeps(cancellable: bool, sh: Shared, t: nat, th: Thread, inactive: bool)
    requires Fine(cancellable, sh, t, th) && th.pc.GState?
    ensures Kept(cancellable, sh, t, TakeResult(cancellable, sh, th, inactive))
  {
  }

  lemma RunnerTakesKeeps(cancellable: bool, sh: Shared, t: nat, th: Thread, inactive: bool)
    requires Fine(cancellable, sh, t, th) && th.pc.Start? && th.op.Runner?
    ensures Kept(cancellable, sh, t, TakeResult(cancellable, sh, th, inactive))
  {
  }

  lemma TakeResultKeeps(cancellable: bool, sh: Shared, t: nat, th: Thread, inactive: bool)
    requires Fine(cancellable, sh, t, th)
    requires th.pc.GState? || (th.pc.Start? && th.op.Runner?)
    ensures Kept(cancellable, sh, t, TakeResult(cancellable, sh, th, inactive))
  {
    if th.pc.GState? { SuspenderTakesKeeps(cancellable, sh, t, th, inactive); }
    else { RunnerTakesKeeps(cancellable, sh, t, th, inactive); }
  }

  lemma TakeResultSpares(cancellable: bool, sh: Shared, t: nat, th: Thread, inactive: bool, u: nat, thu: Thread)
    requires Fine(cancellable, sh, t, th) && t != u && ThreadOk(cancellable, sh, u, thu)
    requires th.pc.GState? || (th.pc.Start? && th.op.Runner?)
    ensures ThreadOk(cancellable, TakeResult(cancellable, sh, th, inactive).0, u, thu)
  {
  }

  lemma OwnCallKeeps(cancellable: bool, sh: Shared, t: nat, th: Thread)
    requires Fine(cancellable, sh, t, th)
    requires th.pc.OwnCall?
    ensures Kept(cancellable, sh, t,
                 (sh, th.(pc := End(if th.op.Registrar? then Accepted else Ignored), calls := th.calls + 1)))
  {
  }

  lemma WordParts(word: int, op: Op)
    requires op.Indexer? ==> 0 <= op.index < INDEX_SPAN
    ensures 0 <= IndexOf(word) < INDEX_SPAN
    ensures DecisionOf(Pack(SUSPENDED, IndexOf(word))) == SUSPENDED
    ensures DecisionOf(Pack(RESUMED, IndexOf(word))) == RESUMED
    ensures IndexOf(Pack(SUSPENDED, IndexOf(word))) == IndexOf(word) == IndexOf(Pack(RESUMED, IndexOf(word)))
    ensures op.Indexer? ==> DecisionOf(Pack(DecisionOf(word), op.index)) == DecisionOf(word)
    ensures op.Indexer? ==> IndexOf(Pack(DecisionOf(word), op.index)) == op.index
  {
    UnpackPacks(word);
    PackKeepsParts(SUSPENDED, IndexOf(word));
    PackKeepsParts(RESUMED, IndexOf(word));
    if op.Indexer? { PackKeepsParts(DecisionOf(word), op.index); }
  }

  lemma StartKeeps(cancellable: bool, sh: Shared, t: nat, th: Thread, inactive: bool)
    requires Fine(cancellable, sh, t, th) && th.pc.Start?
    ensures Kept(cancellable, sh, t, Own(cancellable, sh, t, th, inactive))
  {
    if th.op.Suspender? || th.op.Indexer? { OnWordKeeps(cancellable, sh, t, th); }
    else if th.op.Runner? { TakeResultKeeps(cancellable, sh, t, th, inactive); }
    else { LoadKeeps(cancellable, sh, t, th); }
  }

  lemma TryKeeps(cancellable: bool, sh: Shared, t: nat, th: Thread, inactive: bool)
    requires Fine(cancellable, sh, t, th) && th.pc.STry?
    ensures Kept(cancellable, sh, t, Own(cancellable, sh, t, th, inactive))
  {
    if th.op.Registrar? { RegisterKeeps(cancellable, sh, t, th); }
    else if th.op.Resumer? { ResumeKeeps(cancellable, sh, t, th); }
    else if th.op.Failer? { FailKeeps(cancellable, sh, t, th); }
    else { CancelKeeps(cancellable, sh, t, th); }
  }

  lemma OwnKeeps(cancellable: bool, sh: Shared, t: nat, th: Thread, inactive: bool)
    requires Fine(cancellable, sh, t, th) && !th.pc.CancelCall? && !th.pc.KHandler? && !th.pc.KCallback?
    ensures Kept(cancellable, sh, t, Own(cancellable, sh, t, th, inactive))
  {
    if th.pc.Start? { StartKeeps(cancellable, sh, t, th, inactive); }
    else if th.pc.STry? { TryKeeps(cancellable, sh, t, th, inactive); }
    else if th.pc.GState? { TakeResultKeeps(cancellable, sh, t, th, inactive); }
    else if th.pc.Flag? { SetFlagKeeps(cancellable, sh, t, th); }
    else if th.pc.OwnCall? { OwnCallKeeps(cancellable, sh, t, th); }
    else if th.pc.KStart? || th.pc.KTry? { CloseResultKeeps(cancellable, sh, t, th); }
    else if !th.pc.End? { OnWordKeeps(cancellable, sh, t, th); }
  }

  lemma StartSpares(cancellable: bool, sh: Shared, t: nat, th: Thread, inactive: bool, u: nat, thu: Thread)
    requires Fine(cancellable, sh, t, th) && th.pc.Start?
    requires t != u && ThreadOk(cancellable, sh, u, thu)
    ensures ThreadOk(cancellable, Own(cancellable, sh, t, th, inactive).0, u, thu)
  {
    if th.op.Suspender? || th.op.Indexer? { OnWordSpares(cancellable, sh, t, th, u, thu); }
    else if th.op.Runner? { TakeResultSpares(cancellable, sh, t, th, inactive, u, thu); }
  }

  lemma TrySpares(cancellable: bool, sh: Shared, t: nat, th: Thread, inactive: bool, u: nat, thu: Thread)
    requires Fine(cancellable, sh, t, th) && th.pc.STry?
    requires t != u && ThreadOk(cancellable, sh, u, thu)
    ensures ThreadOk(cancellable, Own(cancellable, sh, t, th, inactive).0, u, thu)
  {
    if th.op.Registrar? { RegisterSpares(cancellable, sh, t, th, u, thu); }
    else if th.op.Resumer? { ResumeSpares(cancellable, sh, t, th, u, thu); }
    else if th.op.Failer? { FailSpares(cancellable, sh, t, th, u, thu); }
    else { CancelSpares(cancellable, sh, t, th, u, thu); }
  }

  lemma OwnSpares(cancellable: bool, sh: Shared, t: nat, th: Thread, inactive: bool, u: nat, thu: Thread)
    requires Fine(cancellable, sh, t, th) && !th.pc.CancelCall? && !th.pc.KHandler? && !th.pc.KCallback?
    requires t != u && ThreadOk(cancellable, sh, u, thu)
    ensures ThreadOk(cancellable, Own(cancellable, sh, t, th, inactive).0, u, thu)
  {
    if th.pc.Start? { StartSpares(cancellable, sh, t, th, inactive, u, thu); }
    else if th.pc.STry? { TrySpares(cancellable, sh, t, th, inactive, u, thu); }
    else if th.pc.GState? { TakeResultSpares(cancellable, sh, t, th, inactive, u, thu); }
    else if th.pc.Flag? { SetFlagSpares(cancellable, sh, t, th, u, thu); }
    else if th.pc.KStart? || th.pc.KTry? { CloseResultSpares(cancellable, sh, t, th, u, thu); }
    else if !th.pc.OwnCall? && !th.pc.End? { OnWordSpares(cancellable, sh, t, th, u, thu); }
  }

  lemma OwnMoveKeeps(s: Sys, t: nat, inactive: bool)
    requires Inv(s) && t < |s.threads|
    requires var pc := s.threads[t].pc; !pc.CancelCall? && !pc.KHandler? && !pc.KCallback?
    ensures Inv(MoveThread(s, t, inactive))
  {
    var th := s.threads[t];
    var s' := MoveThread(s, t, inactive);
    assert ThreadOk(s.cancellable, s.sh, t, th);
    OwnKeeps(s.cancellable, s.sh, t, th, inactive);
    forall u | 0 <= u < |s'.threads| ensures ThreadOk(s'.cancellable, s'.sh, u, s'.threads[u]) {
      if u != t { OwnSpares(s.cancellable, s.sh, t, th, inactive, u, s.threads[u]); }
    }
  }

  /** The thread whose handler or callback is about to be called by thread t. */
  function Callee(pc: Pc): Option<nat> {
    match pc
    case CancelCall(h) => Some(h)
    case KHandler(h, _, _) => Some(h)
    case KCallback(r) => Some(r)
    case _ => None
  }

  /** Shared memory and the caller's record once it has made its call. */
  function Called(sh: Shared, th: Thread): (Shared, Thread) {
    match th.pc
    case CancelCall(_) => (sh.(owedHandler := None), th.(pc := DStart))
    case KHandler(_, onCancel, r) =>
      var (sh', th') := if onCancel then (sh, th.(pc := KCallback(r))) else Deliver(sh, th, Failure);
      (sh'.(owedHandler := None), th')
    case _ =>
      var (sh', th') := Deliver(sh, th, Failure);
      (sh'.(owedCallback := None), th')
  }

  lemma CancelCallerKeeps(cancellable: bool, sh: Shared, t: nat, th: Thread)
    requires Fine(cancellable, sh, t, th) && th.pc.CancelCall?
    ensures Kept(cancellable, sh, t, Called(sh, th)) && Called(sh, th).0.st == sh.st
  {
  }

  lemma HandlerCallerKeeps(cancellable: bool, sh: Shared, t: nat, th: Thread)
    requires Fine(cancellable, sh, t, th) && th.pc.KHandler?
    ensures Kept(cancellable, sh, t, Called(sh, th)) && Called(sh, th).0.st == sh.st
  {
  }

  lemma CallbackCallerKeeps(cancellable: bool, sh: Shared, t: nat, th: Thread)
    requires Fine(cancellable, sh, t, th) && th.pc.KCallback?
    ensures Kept(cancellable, sh, t, Called(sh, th)) && Called(sh, th).0.st == sh.st
  {
  }

  lemma CallerKeeps(cancellable: bool, sh: Shared, t: nat, th: Thread)
    requires Fine(cancellable, sh, t, th) && Callee(th.pc).Some?
    ensures Kept(cancellable, sh, t, Called(sh, th)) && Called(sh, th).0.st == sh.st
  {
    if th.pc.CancelCall? { CancelCallerKeeps(cancellable, sh, t, th); }
    else if th.pc.KHandler? { HandlerCallerKeeps(cancellable, sh, t, th); }
    else { CallbackCallerKeeps(cancellable, sh, t, th); }
  }

  /** The called handler was waiting for exactly this call. */
  lemma CalleeKeeps(cancellable: bool, sh: Shared, t: nat, th: Thread, h: nat, thh: Thread)
    requires Fine(cancellable, sh, t, th) && Callee(th.pc) == Some(h) && ThreadOk(cancellable, sh, h, thh)
    ensures h != t && ThreadOk(cancellable, Called(sh, th).0, h, thh.(calls := thh.calls + 1))
  {
  }

  lemma CallSpares(cancellable: bool, sh: Shared, t: nat, th: Thread, h: nat, u: nat, thu: Thread)
    requires Fine(cancellable, sh, t, th) && Callee(th.pc) == Some(h) && ThreadOk(cancellable, sh, u, thu)
    requires u != t && u != h
    ensures ThreadOk(cancellable, Called(sh, th).0, u, thu)
  {
  }

  lemma CalleeExists(s: Sys, t: nat)
    requires Inv(s) && t < |s.threads| && Callee(s.threads[t].pc).Some?
    ensures Callee(s.threads[t].pc).value < |s.threads|
  {
    assert ThreadOk(s.cancellable, s.sh, t, s.threads[t]);
  }

  lemma CallMoves(s: Sys, t: nat, inactive: bool)
    requires t < |s.threads| && Callee(s.threads[t].pc).Some?
    ensures var (sh', th') := Called(s.sh, s.threads[t]);
            MoveThread(s, t, inactive)
            == s.(sh := sh', threads := Call(s.threads[t := th'], Callee(s.threads[t].pc).value))
  {
  }

  lemma CallMoveKeeps(s: Sys, t: nat, inactive: bool)
    requires Inv(s) && t < |s.threads| && Callee(s.threads[t].pc).Some?
    ensures Inv(MoveThread(s, t, inactive))
  {
    var th := s.threads[t];
    var h := Callee(th.pc).value;
    CalleeExists(s, t);
    CallMoves(s, t, inactive);
    assert ThreadOk(s.cancellable, s.sh, t, th) && ThreadOk(s.cancellable, s.sh, h, s.threads[h]);
    CallerKeeps(s.cancellable, s.sh, t, th);
    CalleeKeeps(s.cancellable, s.sh, t, th, h, s.threads[h]);
    var s' := MoveThread(s, t, inactive);
    forall u | 0 <= u < |s'.threads| ensures ThreadOk(s'.cancellable, s'.sh, u, s'.threads[u]) {
      if u != t && u != h { CallSpares(s.cancellable, s.sh, t, th, h, u, s.threads[u]); }
    }
  }

  /** Shared memory once thread t has come for op. */
  function Joined(sh: Shared, op: Op, t: nat): Shared {
    if op.Suspender? then sh.(suspender := Some(t)) else if op.Runner? then sh.(runner := Some(t)) else sh
  }

  lemma NewcomerOk(s: Sys, op: Op)
    requires Inv(s) && MaySpawn(s.sh, op)
    ensures SharedOk(s.cancellable, Joined(s.sh, op, |s.threads|))
    ensures ThreadOk(s.cancellable, Joined(s.sh, op, |s.threads|), |s.threads|, Thread(op, Start, 0))
  {
  }

  lemma NewcomerSpares(s: Sys, op: Op, u: nat)
    requires Inv(s) && MaySpawn(s.sh, op) && u < |s.threads|
    ensures ThreadOk(s.cancellable, Joined(s.sh, op, |s.threads|), u, s.threads[u])
  {
    assert ThreadOk(s.cancellable, s.sh, u, s.threads[u]);
  }

  lemma SpawnKeeps(s: Sys, op: Op)
    requires Inv(s)
    ensures Inv(Exec(s, Spawn(op)))
  {
    if MaySpawn(s.sh, op) {
      var s' := Exec(s, Spawn(op));
      assert s'.sh == Joined(s.sh, op, |s.threads|);
      NewcomerOk(s, op);
      forall u | 0 <= u < |s'.threads| ensures ThreadOk(s'.cancellable, s'.sh, u, s'.threads[u]) {
        if u < |s.threads| { NewcomerSpares(s, op, u); }
      }
    }
  }

  lemma StepKeeps(s: Sys, e: Event)
    requires Inv(s)
    ensures Inv(Exec(s, e))
  {
    match e
    case Spawn(op) => SpawnKeeps(s, op);
    case Move(t, inactive) =>
      if t < |s.threads| {
        if Callee(s.threads[t].pc).Some? { CallMoveKeeps(s, t, inactive); }
        else { OwnMoveKeeps(s, t, inactive); }
      }
  }

  lemma {:induction false} RunKeeps(s: Sys, es: seq<Event>)
    requires Inv(s)
    ensures Inv(Run(s, es)) && Run(s, es).cancellable == s.cancellable
    decreases |es|
  {
    if es != [] {
      RunKeeps(s, es[..|es| - 1]);
      StepKeeps(Run(s, es[..|es| - 1]), es[|es| - 1]);
    }
  }

  // ---------------------------------------------------------------- theorems about every run

  function Reached(cancellable: bool, es: seq<Event>): Sys {
    Run(Init(cancellable), es)
  }

  lemma ReachedOk(cancellable: bool, es: seq<Event>)
    ensures Inv(Reached(cancellable, es)) && Reached(cancellable, es).cancellable == cancellable
  {
    UnpackPacks(Pack(UNDECIDED, NO_INDEX));
    PackKeepsParts(UNDECIDED, NO_INDEX);
    RunKeeps(Init(cancellable), es);
  }

  predicate AtRest(s: Sys) {
    forall t :: 0 <= t < |s.threads| ==> s.threads[t].pc.End?
  }

  /**
   * Exactly-once delivery. The state leaves NotCompleted at most once, dispatch is called at most once
   * and never when get_result yields the outcome; and once all calls have returned, a completed
   * continuation with a get_result has done exactly one of the two.
   */
  lemma ExactlyOnceDelivery(cancellable: bool, es: seq<Event>)
    ensures var sh := Reached(cancellable, es).sh;
            && sh.leaves <= 1 && sh.dispatches <= 1
            && !(sh.dispatches == 1 && sh.yielded.Some?)
            && (sh.leaves == 0 ==> sh.dispatches == 0 && sh.yielded.None?)
            && (AtRest(Reached(cancellable, es)) && sh.leaves == 1 && sh.suspender.Some? ==>
                  (sh.dispatches == 1 <==> sh.yielded.None?))
  {
    ReachedOk(cancellable, es);
    var s := Reached(cancellable, es);
    if s.sh.winner.Some? {
      assert ThreadOk(cancellable, s.sh, s.sh.winner.value, s.threads[s.sh.winner.value]);
    }
    if s.sh.suspender.Some? {
      assert ThreadOk(cancellable, s.sh, s.sh.suspender.value, s.threads[s.sh.suspender.value]);
    }
  }

  /**
   * No thread ever meets what the code throws for as impossible: a get_result that did not suspend and
   * finds no result, a result cancelled twice or before it exists, "already suspended", "already resumed"
   * in dispatch_resume.
   */
  lemma NothingBreaks(cancellable: bool, es: seq<Event>, t: nat)
    requires t < |Reached(cancellable, es).threads|
    ensures var s := Reached(cancellable, es);
            && s.threads[t].pc != Broken
            && (s.threads[t].pc == GState ==> !NotCompleted(s.sh.st))
  {
    ReachedOk(cancellable, es);
    var s := Reached(cancellable, es);
    assert ThreadOk(cancellable, s.sh, t, s.threads[t]);
  }

  /**
   * An accepted handler is called exactly once if the continuation ends cancelled, and never otherwise;
   * a refused one never.
   */
  lemma HandlerHandOff(cancellable: bool, es: seq<Event>, t: nat)
    requires t < |Reached(cancellable, es).threads| && Reached(cancellable, es).threads[t].op.Registrar?
    ensures var s := Reached(cancellable, es); var th := s.threads[t];
            && (th.calls >= 1 ==> th.calls == 1 && th.pc == End(Accepted) && EndsCancelled(s.sh.st))
            && (AtRest(s) && th.pc == End(Accepted) ==> (th.calls == 1 <==> EndsCancelled(s.sh.st)))
  {
    ReachedOk(cancellable, es);
    var s := Reached(cancellable, es);
    assert ThreadOk(cancellable, s.sh, t, s.threads[t]);
    NobodyOwes(s);
  }

  /** At rest no stored handler or callback is still to be called. */
  lemma NobodyOwes(s: Sys)
    requires Inv(s)
    ensures AtRest(s) ==> s.sh.owedHandler.None? && s.sh.owedCallback.None?
  {
    if s.sh.winner.Some? {
      assert ThreadOk(s.cancellable, s.sh, s.sh.winner.value, s.threads[s.sh.winner.value]);
    }
    if s.sh.closer.Some? {
      assert ThreadOk(s.cancellable, s.sh, s.sh.closer.value, s.threads[s.sh.closer.value]);
    }
  }

  /** Has the value of resumption t reached the coroutine? */
  predicate Delivered(sh: Shared, t: nat) {
    sh.yielded == Some(Value(t)) || sh.resumed == Some(Value(t))
  }

  /** The result has been handed to the coroutine, by get_result or by the dispatched task. */
  predicate HandedOver(sh: Shared) {
    sh.yielded.Some? || sh.resumed.Some?
  }

  /**
   * A resumption with a callback has exactly one fate: its value is delivered, its callback is called
   * with the value, or the call throws. Never two of them, and once everything is at rest, one of them,
   * unless it won and nobody has come for the result yet.
   */
  lemma ResumptionHandOff(cancellable: bool, es: seq<Event>, t: nat)
    requires t < |Reached(cancellable, es).threads| && Reached(cancellable, es).threads[t].op == Resumer(true)
    ensures var s := Reached(cancellable, es); var th := s.threads[t];
            && th.calls <= 1
            && !(Delivered(s.sh, t) && th.calls == 1)
            && (th.pc == End(Refused) ==> !Delivered(s.sh, t) && th.calls == 0)
            && (AtRest(s) && (s.sh.winner != Some(t) || HandedOver(s.sh)) ==>
                  Delivered(s.sh, t) || th.calls == 1 || th.pc == End(Refused))
            && (AtRest(s) && s.sh.winner == Some(t) && HandedOver(s.sh) ==>
                  && (Delivered(s.sh, t) <==> !EndsCancelled(s.sh.st))
                  && (th.calls == 1 <==> EndsCancelled(s.sh.st)))
  {
    ReachedOk(cancellable, es);
    var s := Reached(cancellable, es);
    assert ThreadOk(cancellable, s.sh, t, s.threads[t]);
    NobodyOwes(s);
  }

  /** A run, made longer by one step. */
  lemma Then(s: Sys, es: seq<Event>, e: Event, mid: Sys, next: Sys) returns (longer: seq<Event>)
    requires Run(s, es) == mid && Exec(mid, e) == next
    ensures longer == es + [e] && Run(s, longer) == next
  {
    longer := es + [e];
    assert longer[..|longer| - 1] == es;
  }

  // ---------------------------------------------------------------- the packed word over a run

  /** A decision and an index, once made, stay: neither disturbs the other. */
  predicate WordLasts(w: int, w': int) {
    && (DecisionOf(w) != UNDECIDED ==> DecisionOf(w') == DecisionOf(w))
    && (IndexOf(w) != NO_INDEX ==> IndexOf(w') == IndexOf(w))
  }

  lemma WordStep(s: Sys, e: Event)
    requires Inv(s)
    ensures WordLasts(s.sh.word, Exec(s, e).sh.word)
    ensures DecisionOf(Exec(s, e).sh.word) == DecisionOf(s.sh.word) || IndexOf(Exec(s, e).sh.word) == IndexOf(s.sh.word)
  {
    match e
    case Spawn(_) =>
    case Move(t, inactive) =>
      if t < |s.threads| {
        var th := s.threads[t];
        assert ThreadOk(s.cancellable, s.sh, t, th);
        OnlyWordSteps(s, t, inactive);
        PackKeepsParts(SUSPENDED, IndexOf(s.sh.word));
        PackKeepsParts(RESUMED, IndexOf(s.sh.word));
        if th.op.Indexer? { PackKeepsParts(DecisionOf(s.sh.word), th.op.index); }
      }
  }

  /** Only three kinds of step write the word. */
  lemma OnlyWordSteps(s: Sys, t: nat, inactive: bool)
    requires t < |s.threads|
    ensures var th := s.threads[t];
            var w := MoveThread(s, t, inactive).sh.word;
            || w == s.sh.word
            || (th.pc == GTry(s.sh.word) && w == Pack(SUSPENDED, IndexOf(s.sh.word)))
            || (th.pc == DTry(s.sh.word) && w == Pack(RESUMED, IndexOf(s.sh.word)))
            || (th.pc == ITry(s.sh.word) && th.op.Indexer? && w == Pack(DecisionOf(s.sh.word), th.op.index))
  {
  }

  lemma WordFits(s: Sys)
    requires Inv(s)
    ensures DecisionOf(s.sh.word) in {UNDECIDED, SUSPENDED, RESUMED} && 0 <= s.sh.word < 0x8000_0000
  {
    UnpackPacks(s.sh.word);
  }

  lemma {:induction false} IndexNeverDisturbsDecision(s: Sys, es: seq<Event>)
    requires Inv(s)
    ensures WordLasts(s.sh.word, Run(s, es).sh.word)
    ensures DecisionOf(Run(s, es).sh.word) in {UNDECIDED, SUSPENDED, RESUMED} && 0 <= Run(s, es).sh.word < 0x8000_0000
    decreases |es|
  {
    RunKeeps(s, es);
    WordFits(Run(s, es));
    if es != [] {
      var es' := es[..|es| - 1];
      RunKeeps(s, es');
      IndexNeverDisturbsDecision(s, es');
      WordStep(Run(s, es'), es[|es| - 1]);
    }
  }

  /** What returned registrations of an index report: an accepted index is in the word, a refused one came late. */
  lemma IndexReport(cancellable: bool, es: seq<Event>, t: nat)
    requires var s := Reached(cancellable, es); t < |s.threads| && s.threads[t].op.Indexer?
    ensures var s := Reached(cancellable, es); var th := s.threads[t];
            && (th.pc == End(Refused) ==> IndexOf(s.sh.word) != NO_INDEX)
            && (th.pc == End(Accepted) && th.op.index != NO_INDEX ==> IndexOf(s.sh.word) == th.op.index)
  {
    ReachedOk(cancellable, es);
    var s := Reached(cancellable, es);
    assert ThreadOk(cancellable, s.sh, t, s.threads[t]);
  }

  /** A new thread, alone, takes its first two steps. */
  function TwoSteps(s: Sys, op: Op): Sys {
    var t := |s.threads|;
    var s1 := MoveThread(SpawnAny(s, op), t, false);
    if t < |s1.threads| then MoveThread(s1, t, false) else s1
  }

  /**
   * Any int may be registered as index. In any reached state without an index the registration succeeds, and leaves
   * the decision alone exactly if the index fits into the word.
   */
  lemma IndexMustFit(cancellable: bool, es: seq<Event>, index: int)
    requires IndexOf(Reached(cancellable, es).sh.word) == NO_INDEX
    ensures var s := Reached(cancellable, es); var s' := TwoSteps(s, Indexer(index));
            && s'.threads == s.threads + [Thread(Indexer(index), End(Accepted), 0)]
            && s'.sh == s.sh.(word := s'.sh.word)
            && (DecisionOf(s'.sh.word) == DecisionOf(s.sh.word) <==> 0 <= index < INDEX_SPAN)
            && (IndexOf(s'.sh.word) == index <==> 0 <= index < INDEX_SPAN)
  {
    var s := Reached(cancellable, es);
    var th := Thread(Indexer(index), Start, 0);
    assert (s.threads + [th])[|s.threads|] == th;
    PackKeepsParts(DecisionOf(s.sh.word), index);
  }

  /** A get_result after such a registration, before any resumption, throws exactly if the index did not fit. */
  lemma MisfitBreaks(cancellable: bool, es: seq<Event>, index: int)
    requires var sh := Reached(cancellable, es).sh;
             NotCompleted(sh.st) && sh.suspender.None? && IndexOf(sh.word) == NO_INDEX
    ensures var s := TwoSteps(Reached(cancellable, es), Indexer(index)); var s' := TwoSteps(s, Suspender);
            && |s'.threads| == |s.threads| + 1
            && (s'.threads[|s.threads|].pc == Broken <==> !(0 <= index < INDEX_SPAN))
            && (s'.threads[|s.threads|].pc == End(Suspended) <==> 0 <= index < INDEX_SPAN)
  {
    IndexMustFit(cancellable, es, index);
    ReachedOk(cancellable, es);
    var s := TwoSteps(Reached(cancellable, es), Indexer(index));
    var th := Thread(Suspender, Start, 0);
    assert (s.threads + [th])[|s.threads|] == th;
  }
}
