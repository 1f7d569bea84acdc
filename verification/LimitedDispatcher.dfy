/**
 * `LimitedDispatcher`: at most `parallelism` tasks are with the underlying dispatcher at a time; the others wait in
 * a queue. The underlying dispatcher may run what it is given in any order and on any thread.
 */
module LimitedDispatcher {
  /** Tasks are numbered in the order in which they are dispatched. */
  type Task = nat

  /** How far a worker has come: handed to the underlying dispatcher, in its task, past its task. */
  datatype Phase = Waiting | Running | Finished

  datatype Mark = Begin(task: Task) | End(task: Task)

  datatype State = State(
    parallelism: nat,
    queue: seq<Task>,
    running: int,               // running_workers
    handed: seq<Task>,          // what the underlying dispatcher was given, in order
    workers: map<Task, Phase>,  // workers that have not yet reached the end of on_worker_complete
    done: set<Task>,
    log: seq<Mark>,             // when tasks began and ended
    reported: seq<Task>)        // tasks whose exception was caught and reported
  {
    function Submitted(): nat { |handed| + |queue| }
  }

  /** The underlying dispatcher is given a worker for t. */
  function HandOver(s: State, t: Task): State {
    s.(handed := s.handed + [t], workers := s.workers[t := Waiting])
  }

  function Dispatched(s: State, t: Task): State {
    if s.running < s.parallelism then HandOver(s.(running := s.running + 1), t)
    else s.(queue := s.queue + [t])
  }

  function WorkerCompleted(s: State, t: Task): State {
    var left := s.(workers := s.workers - {t}, done := s.done + {t});
    if s.queue == [] then left.(running := s.running - 1)
    else HandOver(left.(queue := s.queue[1..]), s.queue[0])
  }

  datatype Event =
    | Submit
    | Start(task: Task)                 // the underlying dispatcher runs the worker
    | Return(task: Task, threw: bool)   // its task returns or throws; both lead to on_worker_complete
    | Complete(task: Task)              // on_worker_complete

  predicate Enabled(s: State, e: Event) {
    match e
    case Submit => true
    case Start(t) => t in s.workers && s.workers[t] == Waiting
    case Return(t, _) => t in s.workers && s.workers[t] == Running
    case Complete(t) => t in s.workers && s.workers[t] == Finished
  }

  function Next(s: State, e: Event): State
    requires Enabled(s, e)
  {
    match e
    case Submit => Dispatched(s, s.Submitted())
    case Start(t) => s.(workers := s.workers[t := Running], log := s.log + [Begin(t)])
    case Return(t, threw) =>
      s.(workers := s.workers[t := Finished], log := s.log + [End(t)],
         reported := if threw then s.reported + [t] else s.reported)
    case Complete(t) => WorkerCompleted(s, t)
  }

  /** A run: events that are not enabled do not happen. */
  function Run(s: State, es: seq<Event>): State {
    if es == [] then s
    else
      var mid := Run(s, es[..|es| - 1]);
      if Enabled(mid, es[|es| - 1]) then Next(mid, es[|es| - 1]) else mid
  }

  function Fresh(parallelism: nat): State {
    State(parallelism, [], 0, [], map[], {}, [], [])
  }

  // ---------------------------------------------------------------- what holds in every state

  function Numbers(from: nat, to: nat): (ns: seq<nat>)
    requires from <= to
    ensures |ns| == to - from && forall i :: 0 <= i < |ns| ==> ns[i] == from + i
  {
    seq(to - from, i requires 0 <= i < to - from => from + i)
  }

  /** The marks of task t. */
  function MarksOf(log: seq<Mark>, t: Task): seq<Mark> {
    if log == [] then []
    else MarksOf(log[..|log| - 1], t) + (if log[|log| - 1].task == t then [log[|log| - 1]] else [])
  }

  /** What the log has to say about t: nothing, that it began, or that it began and ended, once. */
  function Due(s: State, t: Task): seq<Mark> {
    if t in s.done || (t in s.workers && s.workers[t] == Finished) then [Begin(t), End(t)]
    else if t in s.workers && s.workers[t] == Running then [Begin(t)]
    else []
  }

  predicate Ran(s: State, t: Task) {
    t in s.done || (t in s.workers && s.workers[t] == Finished)
  }

  ghost predicate Inv(s: State) {
    && s.parallelism >= 1
    // the counter counts the workers in flight and never exceeds the limit; only a full dispatcher queues
    && s.running == |s.workers| <= s.parallelism
    && (s.queue != [] ==> s.running == s.parallelism)
    // tasks are handed over in submission order, and each is queued, in flight or done
    && s.handed == Numbers(0, |s.handed|)
    && s.queue == Numbers(|s.handed|, s.Submitted())
    && s.workers.Keys !! s.done
    && (forall t: Task :: t in s.workers || t in s.done <==> t < |s.handed|)
    // each task runs once, and throws at most once
    && (forall t: Task :: t in s.reported ==> Ran(s, t))
    && (forall i, k :: 0 <= i < k < |s.reported| ==> s.reported[i] != s.reported[k])
    && (forall t: Task :: MarksOf(s.log, t) == Due(s, t))
  }

  lemma HandOverCounts(s: State, t: Task)
    requires t !in s.workers
    ensures |HandOver(s, t).workers| == |s.workers| + 1
  {
    assert s.workers[t := Waiting].Keys == s.workers.Keys + {t};
  }

  lemma RemoveCounts(s: State, t: Task)
    requires t in s.workers
    ensures |s.workers - {t}| == |s.workers| - 1
  {
    assert (s.workers - {t}).Keys == s.workers.Keys - {t};
  }

  lemma UpdateCounts(s: State, t: Task, p: Phase)
    requires t in s.workers
    ensures |s.workers[t := p]| == |s.workers|
  {
    assert s.workers[t := p].Keys == s.workers.Keys;
  }

  lemma LogGrows(s: State, m: Mark, t: Task)
    ensures MarksOf(s.log + [m], t) == MarksOf(s.log, t) + (if m.task == t then [m] else [])
  {
    assert (s.log + [m])[..|s.log|] == s.log;
  }

  lemma SubmitKeeps(s: State)
    requires Inv(s)
    ensures Inv(Next(s, Submit))
  {
    var t := s.Submitted();
    assert s.running < s.parallelism ==> s.queue == [];
    HandOverCounts(s, t);
    var s' := Next(s, Submit);
    assert forall u: Task :: Due(s', u) == Due(s, u);
  }

  /** A worker moves on, and the log says so. */
  lemma PhaseKeeps(s: State, s': State, t: Task, p: Phase, m: Mark, reported: seq<Task>)
    requires Inv(s) && t in s.workers && m.task == t && s.workers[t] != Finished
    requires s' == s.(workers := s.workers[t := p], log := s.log + [m], reported := reported)
    requires reported == s.reported || (p == Finished && reported == s.reported + [t])
    requires Due(s', t) == Due(s, t) + [m]
    ensures Inv(s')
  {
    UpdateCounts(s, t, p);
    forall u: Task ensures MarksOf(s'.log, u) == Due(s', u) {
      MarksKeep(s, s', t, p, m, u);
    }
    assert t !in s.reported;
    forall u: Task | u in reported ensures Ran(s', u) {
      assert u == t || u in s.reported;
    }
  }

  lemma MarksKeep(s: State, s': State, t: Task, p: Phase, m: Mark, u: Task)
    requires t in s.workers && m.task == t && MarksOf(s.log, u) == Due(s, u)
    requires s' == s.(workers := s.workers[t := p], log := s.log + [m], reported := s'.reported)
    requires Due(s', t) == Due(s, t) + [m]
    ensures MarksOf(s'.log, u) == Due(s', u)
  {
    LogGrows(s, m, u);
    if u != t {
      assert Due(s', u) == Due(s, u) && Due(s, u) + [] == Due(s, u);
    }
  }

  lemma StartKeeps(s: State, t: Task)
    requires Inv(s) && Enabled(s, Start(t))
    ensures Inv(Next(s, Start(t)))
  {
    PhaseKeeps(s, Next(s, Start(t)), t, Running, Begin(t), s.reported);
  }

  lemma ReturnKeeps(s: State, t: Task, threw: bool)
    requires Inv(s) && Enabled(s, Return(t, threw))
    ensures Inv(Next(s, Return(t, threw)))
  {
    PhaseKeeps(s, Next(s, Return(t, threw)), t, Finished, End(t), Next(s, Return(t, threw)).reported);
  }

  /** A place becomes free. */
  lemma IdleKeeps(s: State, t: Task)
    requires Inv(s) && Enabled(s, Complete(t)) && s.queue == []
    ensures Inv(Next(s, Complete(t)))
  {
    RemoveCounts(s, t);
    var s' := Next(s, Complete(t));
    assert forall u: Task :: Due(s', u) == Due(s, u) && (Ran(s, u) ==> Ran(s', u));
  }

  /** A place goes to the task that has waited longest. */
  lemma RefillKeeps(s: State, t: Task)
    requires Inv(s) && Enabled(s, Complete(t)) && s.queue != []
    ensures Inv(Next(s, Complete(t)))
  {
    RemoveCounts(s, t);
    HandOverCounts(s.(workers := s.workers - {t}), s.queue[0]);
    var s' := Next(s, Complete(t));
    assert forall u: Task :: Due(s', u) == Due(s, u) && (Ran(s, u) ==> Ran(s', u));
  }

  lemma CompleteKeeps(s: State, t: Task)
    requires Inv(s) && Enabled(s, Complete(t))
    ensures Inv(Next(s, Complete(t)))
  {
    if s.queue == [] { IdleKeeps(s, t); } else { RefillKeeps(s, t); }
  }

  /** Everything in `Inv` holds after every run. */
  lemma {:induction false} RunKeeps(parallelism: nat, es: seq<Event>)
    requires parallelism >= 1
    ensures Inv(Run(Fresh(parallelism), es)) && Run(Fresh(parallelism), es).parallelism == parallelism
  {
    if es != [] {
      var mid := Run(Fresh(parallelism), es[..|es| - 1]);
      RunKeeps(parallelism, es[..|es| - 1]);
      if Enabled(mid, es[|es| - 1]) {
        match es[|es| - 1]
        case Submit => SubmitKeeps(mid);
        case Start(t) => StartKeeps(mid, t);
        case Return(t, threw) => ReturnKeeps(mid, t, threw);
        case Complete(t) => CompleteKeeps(mid, t);
      }
    }
  }

  /** No task is stranded: when no worker is left, every task dispatched so far is done. */
  lemma NothingStranded(parallelism: nat, es: seq<Event>)
    requires parallelism >= 1
    ensures var s := Run(Fresh(parallelism), es);
            s.workers == map[] ==> s.queue == [] && forall t: Task :: t < s.Submitted() <==> t in s.done
  {
    RunKeeps(parallelism, es);
  }

  // ---------------------------------------------------------------- with parallelism 1

  /** Tasks 0 .. n-1, each ending before the next begins. */
  function InTurn(n: nat): seq<Mark> {
    if n == 0 then [] else InTurn(n - 1) + [Begin(n - 1), End(n - 1)]
  }

  ghost predicate OneByOne(s: State) {
    && |s.handed| <= |s.done| + 1
    && (forall t: Task :: t in s.done <==> t < |s.done|)
    && (forall t: Task :: t in s.workers ==> t == |s.done|)
    && s.log == InTurn(|s.done|) + Due(s, |s.done|)
  }

  lemma OneSubmit(s: State)
    requires Inv(s) && s.parallelism == 1 && OneByOne(s)
    ensures OneByOne(Next(s, Submit))
  {
    var s' := Next(s, Submit);
    if s.running < 1 {
      assert s.workers == map[] && s.queue == [];
      assert |s.handed| !in s.done && |s.done| !in s.done;
    }
    assert Due(s', |s.done|) == Due(s, |s.done|);
  }

  lemma OneStarts(s: State, t: Task)
    requires Inv(s) && s.parallelism == 1 && OneByOne(s) && Enabled(s, Start(t))
    ensures OneByOne(Next(s, Start(t)))
  {
    var s', d := Next(s, Start(t)), |s.done|;
    assert t == d && Due(s, d) == [] && Due(s', d) == [Begin(d)];
    assert InTurn(d) + [] + [Begin(d)] == InTurn(d) + [Begin(d)];
  }

  lemma OneReturns(s: State, t: Task, threw: bool)
    requires Inv(s) && s.parallelism == 1 && OneByOne(s) && Enabled(s, Return(t, threw))
    ensures OneByOne(Next(s, Return(t, threw)))
  {
    var s', d := Next(s, Return(t, threw)), |s.done|;
    assert t == d && Due(s, d) == [Begin(d)] && Due(s', d) == [Begin(d), End(d)];
    assert InTurn(d) + [Begin(d)] + [End(d)] == InTurn(d) + [Begin(d), End(d)];
  }

  lemma OneCompletes(s: State, t: Task)
    requires Inv(s) && s.parallelism == 1 && OneByOne(s) && Enabled(s, Complete(t))
    ensures OneByOne(Next(s, Complete(t)))
  {
    var s', d := Next(s, Complete(t)), |s.done|;
    assert t == d && t !in s.done;
    assert s'.done == s.done + {d} && |s'.done| == d + 1;
    assert |s.handed| == d + 1;
    assert s.log == InTurn(d + 1) && s.log + [] == s.log;
    assert Due(s', d + 1) == [];
  }

  lemma OneByOneStep(s: State, e: Event)
    requires Inv(s) && s.parallelism == 1 && OneByOne(s) && Enabled(s, e)
    ensures OneByOne(Next(s, e))
  {
    match e
    case Submit => OneSubmit(s);
    case Start(t) => OneStarts(s, t);
    case Return(t, threw) => OneReturns(s, t, threw);
    case Complete(t) => OneCompletes(s, t);
  }

  /** The limit 1 gives sequential execution in submission order, whatever the underlying dispatcher does. */
  lemma {:induction false} Sequential(es: seq<Event>)
    ensures OneByOne(Run(Fresh(1), es))
  {
    RunKeeps(1, es);
    if es != [] {
      var mid := Run(Fresh(1), es[..|es| - 1]);
      Sequential(es[..|es| - 1]);
      RunKeeps(1, es[..|es| - 1]);
      if Enabled(mid, es[|es| - 1]) {
        OneByOneStep(mid, es[|es| - 1]);
      }
    }
  }

  // ---------------------------------------------------------------- the class

  datatype Created = Limited(dispatcher: LimitedDispatcher) | InvalidArgument

  /** `limited_parallelism` */
  method LimitedParallelism(parallelism: int) returns (r: Created)
    ensures r.InvalidArgument? <==> parallelism <= 0
    ensures r.Limited? ==> fresh(r.dispatcher) && r.dispatcher.Abs() == Fresh(parallelism)
  {
    if parallelism <= 0 {
      return InvalidArgument;
    }
    var d := new LimitedDispatcher(parallelism);
    r := Limited(d);
  }

  class LimitedDispatcher {
    const parallelism: nat
    var queue: seq<Task>
    var runningWorkers: int
    // the underlying dispatcher and its workers
    var handed: seq<Task>
    var workers: map<Task, Phase>
    ghost var done: set<Task>
    ghost var log: seq<Mark>
    var reported: seq<Task>

    ghost function Abs(): State
      reads this
    {
      State(parallelism, queue, runningWorkers, handed, workers, done, log, reported)
    }

    constructor (parallelism: nat)
      ensures Abs() == Fresh(parallelism)
    {
      this.parallelism := parallelism;
      queue, runningWorkers, handed, workers, done, log, reported := [], 0, [], map[], {}, [], [];
    }

    /** `dispatch` of the underlying dispatcher. */
    method Hand(t: Task)
      modifies this`handed, this`workers
      ensures Abs() == HandOver(old(Abs()), t)
    {
      handed, workers := handed + [t], workers[t := Waiting];
    }

    /** `dispatch`, the body under the lock. */
    method Dispatch() returns (t: Task)
      requires Inv(Abs())
      modifies this
      ensures t == old(Abs()).Submitted()
      ensures Abs() == Next(old(Abs()), Submit) && Inv(Abs())
    {
      SubmitKeeps(Abs());
      t := |handed| + |queue|;
      if runningWorkers < parallelism {
        runningWorkers := runningWorkers + 1;
        Hand(t);
        return;
      }
      queue := queue + [t];
    }

    /** `on_worker_complete` */
    method OnWorkerComplete(t: Task)
      requires Inv(Abs()) && Enabled(Abs(), Complete(t))
      modifies this
      ensures Abs() == Next(old(Abs()), Complete(t)) && Inv(Abs())
    {
      CompleteKeeps(Abs(), t);
      done := done + {t};
      workers := workers - {t};
      if queue == [] {
        runningWorkers := runningWorkers - 1;
        return;
      }
      var next := queue[0];
      queue := queue[1..];
      Hand(next);
    }

    /** `Worker::run`, when nothing else happens meanwhile. A task that throws is caught and reported. */
    method RunWorker(t: Task, throws: bool)
      requires Inv(Abs()) && Enabled(Abs(), Start(t))
      modifies this
      ensures Abs() == Next(Next(Next(old(Abs()), Start(t)), Return(t, throws)), Complete(t)) && Inv(Abs())
      ensures reported == if throws then old(reported) + [t] else old(reported)
    {
      StartKeeps(Abs(), t);
      workers, log := workers[t := Running], log + [Begin(t)];
      ReturnKeeps(Abs(), t, throws);
      if throws {
        reported := reported + [t];
      }
      workers, log := workers[t := Finished], log + [End(t)];
      OnWorkerComplete(t);
    }
  }
}
