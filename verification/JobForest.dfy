/**
 * Jobs and their hierarchy, as `JobSupport` runs it: starting, cancelling, completing, attaching.
 * Every public call, with the callbacks it makes into parents and children, is one atomic step.
 */
module JobForest {
  import opened Options
  import opened Causes
  import opened JobTree
  import opened JobReach

  datatype Call =
    | DoCreate(parent: Option<nat>, active: bool, supervisor: bool)
    | DoStart(job: nat)
    | DoCancel(job: nat, cause: Option<Exn>)
    | DoComplete(job: nat, proposed: Option<Exn>)

  /** Calls that never leave an uncancelled job linked to a cancelled one. */
  predicate PassesOn(call: Call) {
    match call
    case DoCreate(parent, _, _) => parent.None?
    case DoComplete(_, proposed) => proposed.None?
    case _ => true
  }

  /** What a call has brought about in any case. */
  predicate Obeyed(js: seq<Job>, call: Call) {
    match call
    case DoCreate(parent, active, supervisor) =>
      parent.None? || parent.value + 1 < |js| ==>
        |js| > 0 && js[|js| - 1].parent == parent && js[|js| - 1].supervisor == supervisor
    case DoStart(j) => j < |js| ==> !js[j].phase.New?
    case DoCancel(j, _) => j < |js| ==> !js[j].phase.New? && !js[j].IsActive()
    case DoComplete(j, _) => j < |js| ==> js[j].Completing() || js[j].IsCompleted()
  }

  /** Neither linked to a parent nor with a child linked to it. */
  ghost predicate Lone(js: seq<Job>, j: nat)
    requires j < |js|
  {
    !js[j].attached && forall d: nat :: !ChildOf(js, d, j)
  }

  /**
   * What a cancellation does to j itself where nobody answers: a job that is cancelling already records it as its
   * extra exception, if it has none, and a lone one that was live as its root cause.
   */
  ghost predicate CancelledAlone(a: seq<Job>, b: seq<Job>, j: nat, cause: Exn)
    requires j < |a|
  {
    && (a[j].phase.Finishing? && a[j].phase.root.Some? && !a[j].Sealed() ==>
          b == Rephase(a, j, WithExtra(a[j].phase, cause)))
    && (a[j].Live() && !a[j].phase.New? && Lone(a, j) ==> b == Rephase(a, j, Marked(a[j], cause)))
  }

  /** Job j was cancelled with this exception: it is the cause unless another failure, or a later timeout, prevails. */
  predicate Took(j: Job, cause: Exn) {
    && j.IsCancelled() && (cause.Failure? ==> j.Cause() == Some(cause))
    && (!j.Failed() ==> j.Cause() == Some(cause) || (cause.Timeout? && IsTimeout(j.Cause())))
  }

  /**
   * What the wake-up of p does to p: it waits for its next linked child, with the same proposal as before, or, if there
   * is none, ends with the final cause its exceptions demand.
   */
  ghost predicate Continued(a: seq<Job>, b: seq<Job>, p: nat, proposed: Option<Exn>) {
    && p < |a| == |b|
    && if exists c: nat :: ChildOf(a, c, p) then
         exists c: nat :: ChildOf(a, c, p) && b == GiveToken(a, c, proposed)
                          && b[c].waiters == a[c].waiters + [proposed]
       else b[p].phase == Final(FinalCause(a[p].Cause(), a[p].Extra(), proposed))
  }

  ghost predicate HasUncancelledChild(js: seq<Job>, j: nat) {
    exists c: nat :: ChildOf(js, c, j) && !js[c].IsCancelled()
  }

  /** `cancel(nullptr)` makes its own CancellationException. */
  function CauseOr(cause: Option<Exn>): (e: Exn)
    ensures cause.Some? ==> cause == Some(e)
    ensures cause.None? ==> e.Cancellation?
  {
    if cause.Some? then cause.value else DEFAULT_CANCELLATION
  }

  class JobForest {
    /** All jobs, in creation order; the index of a job stands for its address. */
    var jobs: seq<Job>

    constructor ()
      ensures jobs == []
    {
      jobs := [];
    }

    // -------------------------------------------------------------- public calls

    /**
     * Creating a job, `init_parent_job` included: the parent is started, and the job is linked at the
     * end of its list. Under a parent that is final the job is cancelled at once, and `parent_handle`
     * stays null; `nullDisposed` says that the code goes on to call `dispose` through it.
     */
    method Create(parent: Option<nat>, active: bool, supervisor: bool) returns (id: nat, nullDisposed: bool)
      requires Inv(jobs, None) && Quiet(jobs) && (parent.Some? ==> parent.value < |jobs|)
      modifies this
      ensures Inv(jobs, None) && Quiet(jobs) && AllLasting(old(jobs), jobs)
      ensures id == |old(jobs)| && |jobs| == id + 1 && jobs[id].parent == parent && jobs[id].supervisor == supervisor
      ensures jobs[id].attached <==> parent.Some? && !old(jobs)[parent.value].IsCompleted()
      ensures parent.None? || jobs[id].attached ==> jobs[id].phase == if active then Active(false) else New(false)
      ensures parent.Some? && !jobs[id].attached ==>
                jobs[id].Cause() == Some(DEFAULT_CANCELLATION) && (jobs[id].IsCompleted() <==> !active)
      ensures nullDisposed <==> parent.Some? && !jobs[id].attached && !active
      ensures parent.Some? ==> (jobs[id].IsCancelled() <==> old(jobs)[parent.value].IsCompleted())
      ensures Downward(old(jobs)) ==>
                (Downward(jobs) <==> !(jobs[id].attached && old(jobs)[parent.value].IsCancelled()))
      ensures forall k :: 0 <= k < id ==>
                jobs[k] == if jobs[id].attached && parent == Some(k)
                           then old(jobs)[k].(phase := WithList(Started(old(jobs)[k].phase))) else old(jobs)[k]
    {
      id, nullDisposed := |jobs|, false;
      var phase := if active then Active(false) else New(false);
      var linked := parent.Some? && !jobs[parent.value].phase.Final?;
      if linked {
        Attach(Job(parent, supervisor, true, phase, []));
      } else {
        Append(Job(parent, supervisor, false, phase, []));
        if parent.Some? {
          CancelOrphan(id);
          nullDisposed := jobs[id].phase.Final?;
        }
      }
    }

    /** A job that is not linked anywhere. */
    method Append(job: Job)
      requires Inv(jobs, None) && Quiet(jobs) && (job.parent.Some? ==> job.parent.value < |jobs|)
      requires job.parent.Some? ==> jobs[job.parent.value].phase.Final?
      requires !job.attached && job.waiters == [] && (job.phase.Active? || job.phase.New?) && !job.phase.hasList
      modifies this
      ensures Inv(jobs, None) && Quiet(jobs) && AllLasting(old(jobs), jobs) && jobs == old(jobs) + [job]
    {
      AppendKeeps(jobs, job);
      jobs := jobs + [job];
    }

    /** `attach_child` under a final parent: the new child is cancelled at once, and nobody else. */
    method CancelOrphan(id: nat)
      requires Inv(jobs, None) && Quiet(jobs) && id < |jobs| && id == |jobs| - 1 && !jobs[id].attached
      requires jobs[id].phase.New? || jobs[id].phase.Active?
      modifies this
      ensures Inv(jobs, None) && Quiet(jobs) && AllLasting(old(jobs), jobs) && |jobs| == |old(jobs)|
      ensures jobs[id].Cause() == Some(DEFAULT_CANCELLATION) && !jobs[id].attached
      ensures jobs[id].phase.Final? <==> old(jobs)[id].phase.New?
      ensures jobs[id].parent == old(jobs)[id].parent && jobs[id].supervisor == old(jobs)[id].supervisor
      ensures forall k :: 0 <= k < id ==> jobs[k] == old(jobs)[k]
    {
      ghost var before := jobs;
      TreeStarts(jobs, id);
      MakeCancelling(id, DEFAULT_CANCELLATION, Anywhere(jobs, id));
      EvolvedLasts(before, jobs);
      StaysQuiet(before, jobs, None);
      assert Evolves(before[id], jobs[id]);
    }

    /** `init_parent_job` under a parent that is not final: it is started, and `attach_child` links the job. */
    method Attach(child: Job)
      requires Inv(jobs, None) && Quiet(jobs) && child.parent.Some? && child.parent.value < |jobs|
      requires child.attached && child.waiters == []
      requires (child.phase.Active? || child.phase.New?) && !child.phase.hasList
      requires !jobs[child.parent.value].phase.Final?
      modifies this
      ensures Inv(jobs, None) && Quiet(jobs) && AllLasting(old(jobs), jobs)
      ensures var p := child.parent.value;
              jobs == Rephase(old(jobs), p, WithList(Started(old(jobs)[p].phase))) + [child]
    {
      var p := child.parent.value;
      StartKeeps(jobs, p);
      jobs := Rephase(jobs, p, Started(jobs[p].phase));
      ListKeeps(jobs, p);
      jobs := Rephase(jobs, p, WithList(jobs[p].phase));
      AttachKeeps(jobs, p, child);
      jobs := jobs + [child];
    }

    /** `start`: did this call start the job? */
    method Start(j: nat) returns (started: bool)
      requires Inv(jobs, None) && Quiet(jobs) && j < |jobs|
      modifies this
      ensures Inv(jobs, None) && Quiet(jobs) && AllLasting(old(jobs), jobs)
      ensures started <==> old(jobs)[j].phase.New?
      ensures jobs == Rephase(old(jobs), j, Started(old(jobs)[j].phase))
      ensures started ==> jobs[j].phase == Active(old(jobs)[j].phase.hasList)
      ensures !jobs[j].phase.New? && (Downward(old(jobs)) ==> Downward(jobs))
    {
      started := jobs[j].phase.New?;
      StartKeeps(jobs, j);
      jobs := Rephase(jobs, j, Started(jobs[j].phase));
    }

    /**
     * `cancel`. In a forest where nothing is cancelling yet, exactly the declared jobs get cancelled:
     * for a CancellationException the job and all below it; for any other cause the topmost ancestor
     * reachable without crossing a supervisor, and all below that.
     */
    method Cancel(j: nat, cause: Option<Exn>)
      requires Inv(jobs, None) && Quiet(jobs) && j < |jobs|
      modifies this
      ensures Inv(jobs, None) && Quiet(jobs) && AllLasting(old(jobs), jobs)
      ensures !jobs[j].IsActive()
      ensures !old(jobs)[j].IsCompleted() ==> jobs[j].IsCancelled()
      ensures |jobs| == |old(jobs)|
      ensures forall k :: 0 <= k < |jobs| && Root(old(jobs), k) != Root(old(jobs), j) ==> jobs[k] == old(jobs)[k]
      ensures Passed(old(jobs), jobs, None) && (Downward(old(jobs)) ==> Downward(jobs))
      ensures forall k :: 0 <= k < |jobs|
                && (old(jobs)[k].phase.Active? || old(jobs)[k].phase.Finishing?) && !old(jobs)[k].Completing()
                ==> !jobs[k].IsCompleted()
      ensures NothingCancelling(old(jobs), j) && !old(jobs)[j].IsCompleted() ==>
                CancelsExactly(old(jobs), jobs, j, CauseOr(cause)) && CausesSpread(old(jobs), jobs, j, CauseOr(cause))
      ensures CancelledAlone(old(jobs), jobs, j, CauseOr(cause))
      ensures old(jobs)[j].Live() ==> Took(jobs[j], CauseOr(cause))
    {
      ghost var before := jobs;
      ghost var exact := NothingCancelling(jobs, j) && !jobs[j].IsCompleted();
      TreeStarts(jobs, j);
      ghost var g := Anywhere(jobs, j);
      if exact {
        ScopeStarts(jobs, j, CauseOr(cause));
        g := ScopeOf(jobs, j, CauseOr(cause));
      }
      MakeCancelling(j, CauseOr(cause), g);
      EvolvedLasts(before, jobs);
      StaysQuiet(before, jobs, None);
      if Downward(before) { DownwardKept(before, jobs, None); }
      if exact {
        ReachedExactly(before, jobs, j, CauseOr(cause));
        CausesExactly(before, jobs, j, CauseOr(cause));
      }
    }

    /** `complete` (no exception) and `complete_exceptionally`: did this call start the completion? */
    method Complete(j: nat, proposed: Option<Exn>) returns (started: bool)
      requires Inv(jobs, None) && Quiet(jobs) && j < |jobs|
      modifies this
      ensures Inv(jobs, None) && Quiet(jobs) && AllLasting(old(jobs), jobs)
      ensures started <==> !old(jobs)[j].IsCompleted() && !old(jobs)[j].Completing()
      ensures !started ==> jobs == old(jobs)
      ensures |jobs| == |old(jobs)| && (started ==> Told(old(jobs), jobs, j, proposed))
      ensures forall k :: 0 <= k < |jobs| && Root(old(jobs), k) != Root(old(jobs), j) ==> jobs[k] == old(jobs)[k]
      ensures forall k :: 0 <= k < |jobs| && k != j
                && (old(jobs)[k].phase.Active? || old(jobs)[k].phase.Finishing?) && !old(jobs)[k].Completing()
                ==> !jobs[k].IsCompleted() && !jobs[k].Completing()
      ensures Passed(old(jobs), jobs, Some(j))
      ensures started && Downward(old(jobs)) ==>
                (Downward(jobs) <==> !(proposed.Some? && old(jobs)[j].Live() && HasUncancelledChild(old(jobs), j)))
    {
      ghost var before := jobs;
      TreeStarts(jobs, j);
      started := MakeCompleting(j, proposed, Anywhere(jobs, j));
      EvolvedLasts(before, jobs);
      if started { AfterCompleting(before, jobs, j, proposed); }
      StaysQuiet(before, jobs, Some(j));
    }

    /** Any run: a program of calls, made one after the other. Calls on jobs that do not exist are skipped. */
    method Run(calls: seq<Call>)
      requires Inv(jobs, None) && Quiet(jobs)
      modifies this
      ensures Inv(jobs, None) && Quiet(jobs) && AllLasting(old(jobs), jobs)
      ensures Downward(old(jobs)) && (forall i :: 0 <= i < |calls| ==> PassesOn(calls[i])) ==> Downward(jobs)
      ensures calls != [] ==> Obeyed(jobs, calls[|calls| - 1])
    {
      ghost var before := jobs;
      for i := 0 to |calls|
        invariant Inv(jobs, None) && Quiet(jobs) && AllLasting(before, jobs)
        invariant Downward(before) && (forall k :: 0 <= k < i ==> PassesOn(calls[k])) ==> Downward(jobs)
        invariant i > 0 ==> Obeyed(jobs, calls[i - 1])
      {
        ghost var now := jobs;
        Make(calls[i]);
        LastingTrans(before, now, jobs);
      }
    }

    method Make(call: Call)
      requires Inv(jobs, None) && Quiet(jobs)
      modifies this
      ensures Inv(jobs, None) && Quiet(jobs) && AllLasting(old(jobs), jobs)
      ensures Downward(old(jobs)) && PassesOn(call) ==> Downward(jobs)
      ensures Obeyed(jobs, call)
    {
      match call
      case DoCreate(parent, active, supervisor) =>
        MakeJob(parent, active, supervisor);
      case DoStart(j) =>
        if j < |jobs| {
          var _ := Start(j);
        }
      case DoCancel(j, cause) =>
        if j < |jobs| {
          Cancel(j, cause);
        }
      case DoComplete(j, proposed) =>
        if j < |jobs| {
          var _ := Complete(j, proposed);
        }
    }

    method MakeJob(parent: Option<nat>, active: bool, supervisor: bool)
      requires Inv(jobs, None) && Quiet(jobs)
      modifies this
      ensures Inv(jobs, None) && Quiet(jobs) && AllLasting(old(jobs), jobs)
      ensures Downward(old(jobs)) && parent.None? ==> Downward(jobs)
      ensures Obeyed(jobs, DoCreate(parent, active, supervisor))
    {
      if parent.None? || parent.value < |jobs| {
        var _, _ := Create(parent, active, supervisor);
      }
    }

    // -------------------------------------------------------------- the cascade

    /** `make_cancelling` */
    method MakeCancelling(j: nat, cause: Exn, ghost g: Scope)
      requires j < |jobs| && Inv(jobs, None) && InScope(jobs, g) && j in g.tree
      requires g.exact ==> CancelOk(jobs, j, cause, g)
      modifies this
      ensures Inv(jobs, None) && InScope(jobs, g) && Step(old(jobs), jobs, None, g)
      ensures !jobs[j].Live()
      ensures old(jobs)[j].Live() ==> Took(jobs[j], cause)
      ensures old(jobs)[j].phase.New? ==> jobs[j].phase == Final(Some(cause))
      ensures CancelledAlone(old(jobs), jobs, j, cause)
      decreases Phi(jobs), 7
    {
      match jobs[j].phase
      case Finishing(_, root, _, isSealed) =>
        if !isSealed {
          if root.None? {
            EnterCancelling(j, cause, g);
          } else {
            ExtraKeeps(jobs, j, cause);
            ExtraInScope(jobs, j, cause, g);
            jobs := Rephase(jobs, j, WithExtra(jobs[j].phase, cause));
          }
        } else {
          assert PhaseOk(jobs, j);
        }
      case Active(_) =>
        EnterCancelling(j, cause, g);
      case New(_) =>
        CompleteNew(j, cause, g);
      case Final(_) =>
    }

    /** A job that was never started is completed by its cancellation. */
    method CompleteNew(j: nat, cause: Exn, ghost g: Scope)
      requires j < |jobs| && Inv(jobs, None) && InScope(jobs, g) && j in g.tree && jobs[j].phase.New?
      requires g.exact ==> CancelOk(jobs, j, cause, g)
      modifies this
      ensures Inv(jobs, None) && InScope(jobs, g) && Step(old(jobs), jobs, None, g)
      ensures jobs[j].phase == Final(Some(cause))
      decreases Phi(jobs), 6
    {
      NoChildrenOfNew(jobs, j);
      var done := MakeCompleting(j, Some(cause), g);
      FinalNewsOut(jobs, j);
    }

    /** The root cause is written (`try_make_cancelling`, `add_exception_locked`) and the news spread. */
    method EnterCancelling(j: nat, cause: Exn, ghost g: Scope)
      requires j < |jobs| && Inv(jobs, None) && InScope(jobs, g) && j in g.tree
      requires g.exact ==> CancelOk(jobs, j, cause, g)
      requires jobs[j].Live() && !jobs[j].phase.New?
      modifies this
      ensures Inv(jobs, None) && InScope(jobs, g) && Step(old(jobs), jobs, None, g)
      ensures Took(jobs[j], cause)
      ensures Lone(old(jobs), j) ==> jobs == Rephase(old(jobs), j, Marked(old(jobs)[j], cause))
      decreases Phi(jobs), 4
    {
      assert PhaseOk(jobs, j);
      MarkKeeps(jobs, j, cause);
      MarkInScope(jobs, j, Marked(jobs[j], cause), cause, g);
      ghost var before := jobs;
      SameLinks(jobs, j, Marked(jobs[j], cause));
      jobs := Rephase(jobs, j, Marked(jobs[j], cause));
      ghost var marked := jobs;
      NotifyCancelling(j, cause, g);
      MarkedStep(before, marked, jobs, j, cause, g);
    }

    /** `notify_cancelling`: the linked children first, in list order, then the parent. */
    method NotifyCancelling(j: nat, cause: Exn, ghost g: Scope)
      requires j < |jobs| && Inv(jobs, None) && InScope(jobs, g) && j in g.tree
      requires jobs[j].phase.Finishing? && jobs[j].phase.root == Some(cause)
      requires g.exact ==> j in g.reach
      modifies this
      ensures Inv(jobs, None) && InScope(jobs, g) && Step(old(jobs), jobs, None, g)
      ensures NewsOut(jobs, j) && (g.exact ==> Closed(jobs, j))
      ensures Lone(old(jobs), j) ==> jobs == old(jobs)
      decreases Phi(jobs), 10
    {
      ghost var before := jobs;
      NotifyChildren(j, g);
      ghost var after := jobs;
      EvolvedPhi(before, jobs);
      StillCancelled(before, jobs, j);
      if g.exact { ClimbIfFailed(before, j, cause, g); }
      CancelParent(j, cause, g);
      StepTrans(before, after, jobs, None, g);
      NewsGoesOut(before, after, jobs, j, cause);
      if g.exact {
        NewsIsOut(before, after, jobs, j, cause, g);
      }
    }

    /** `notify_handlers` on the child nodes: each linked child is told to cancel. */
    method NotifyChildren(j: nat, ghost g: Scope)
      requires j < |jobs| && Inv(jobs, None) && InScope(jobs, g) && j in g.tree && !jobs[j].Live()
      requires jobs[j].phase.Finishing? && (g.exact ==> j in g.reach)
      modifies this
      ensures Inv(jobs, None) && InScope(jobs, g) && Step(old(jobs), jobs, None, g)
      ensures ToldBelow(jobs, j, |jobs|)
      ensures (forall d: nat :: !ChildOf(old(jobs), d, j)) ==> jobs == old(jobs)
      decreases Phi(jobs), 9
    {
      ghost var before := jobs;
      for c := j + 1 to |jobs|
        invariant |jobs| == |before| && ToldSoFar(before, jobs, j, c, g)
        invariant (forall d: nat :: !ChildOf(before, d, j)) ==> jobs == before
      {
        ghost var now := jobs;
        BeforeNext(before, now, j, c, g);
        NotifyChild(j, c, g);
        NextTold(before, now, jobs, j, c, g);
      }
    }

    /** The node of child c, if it is linked. A child that is no longer linked is final. */
    method NotifyChild(j: nat, c: nat, ghost g: Scope)
      requires j < c < |jobs| && Inv(jobs, None) && InScope(jobs, g) && j in g.tree && !jobs[j].Live()
      requires jobs[c].parent == Some(j) && !jobs[c].attached ==> jobs[c].phase.Final?
      requires g.exact ==> j in g.reach
      modifies this
      ensures Inv(jobs, None) && InScope(jobs, g) && Step(old(jobs), jobs, None, g)
      ensures jobs[c].parent == Some(j) ==> !jobs[c].Live()
      ensures ChildOf(old(jobs), c, j) && old(jobs)[c].Live() ==> Took(jobs[c], DEFAULT_CANCELLATION)
      ensures !ChildOf(old(jobs), c, j) ==> jobs == old(jobs)
      decreases Phi(jobs), 8
    {
      if jobs[c].attached && jobs[c].parent == Some(j) {
        if g.exact { ChildCancelOk(jobs, j, c, DEFAULT_CANCELLATION, g); }
        MakeCancelling(c, DEFAULT_CANCELLATION, g);
      }
    }

    /** `cancel_parent` and the parent's `child_cancelled`. */
    method CancelParent(j: nat, cause: Exn, ghost g: Scope)
      requires j < |jobs| && Inv(jobs, None) && InScope(jobs, g) && j in g.tree
      requires !jobs[j].Live()
      requires g.exact && cause.Failure? && jobs[j].attached ==> j in g.climb && cause == g.news
      modifies this
      ensures Inv(jobs, None) && InScope(jobs, g) && Step(old(jobs), jobs, None, g)
      ensures forall p: nat :: cause.Failure? && ChildOf(old(jobs), j, p) && !jobs[p].supervisor ==> !jobs[p].Live()
      ensures ParentHears(old(jobs), jobs, j, Some(cause))
      ensures !old(jobs)[j].attached ==> jobs == old(jobs)
      decreases Phi(jobs), 8
    {
      if jobs[j].attached {
        assert LinkOk(jobs, j);
        var p := jobs[j].parent.value;
        if !jobs[p].supervisor && !IsCancellation(cause) {
          if g.exact { ParentCancelOk(jobs, j, p, cause, g); }
          MakeCancelling(p, cause, g);
        }
      }
    }

    // -------------------------------------------------------------- completion

    /** `make_completing`: does this call start the completion? */
    method MakeCompleting(j: nat, proposed: Option<Exn>, ghost g: Scope) returns (started: bool)
      requires j < |jobs| && Inv(jobs, None) && InScope(jobs, g) && j in g.tree
      requires g.exact ==> jobs[j].phase.New? && proposed.Some? && CancelOk(jobs, j, proposed.value, g)
      modifies this
      ensures Inv(jobs, None) && InScope(jobs, g) && Step(old(jobs), jobs, Some(j), g)
      ensures started <==> !old(jobs)[j].phase.Final? && !old(jobs)[j].Completing()
      ensures !started ==> jobs == old(jobs)
      ensures started ==> Told(old(jobs), jobs, j, proposed)
      decreases Phi(jobs), 5
    {
      if jobs[j].phase.Final? || jobs[j].Completing() {
        return false;
      }
      if !jobs[j].HasList() && proposed.None? {
        NothingOnEmpty(jobs, j);
        FinishJob(j, None, None, g);
        return true;
      }
      CompleteSlowPath(j, proposed, g);
      return true;
    }

    /** `try_make_completing_slow_path`, for a job nobody is completing yet */
    method CompleteSlowPath(j: nat, proposed: Option<Exn>, ghost g: Scope)
      requires j < |jobs| && Inv(jobs, None) && InScope(jobs, g) && j in g.tree
      requires !jobs[j].phase.Final? && !jobs[j].Completing()
      requires g.exact ==> jobs[j].phase.New? && proposed.Some? && CancelOk(jobs, j, proposed.value, g)
      modifies this
      ensures Inv(jobs, None) && InScope(jobs, g) && Step(old(jobs), jobs, Some(j), g)
      ensures Told(old(jobs), jobs, j, proposed)
      decreases Phi(jobs), 4
    {
      ghost var before := jobs;
      BegunRecords(jobs, j, proposed);
      BegunKeeps(jobs, j, proposed);
      if g.exact { MarkInScope(jobs, j, Begun(jobs[j], proposed), proposed.value, g); }
      SameLinks(jobs, j, Begun(jobs[j], proposed));
      jobs := Rephase(jobs, j, Begun(jobs[j], proposed));
      ghost var begun := jobs;
      if g.exact { NoChildrenOfNew(before, j); }
      WaitOrFinalize(j, proposed, g);
      ContinuedTold(before, begun, jobs, j, proposed);
      BegunStep(before, begun, jobs, j, proposed, g);
    }

    /** The first look for children; without any, the job becomes final. */
    method WaitOrFinalize(p: nat, proposed: Option<Exn>, ghost g: Scope)
      requires Inv(jobs, Some(p)) && InScope(jobs, g) && p in g.tree && jobs[p].phase.Finishing?
      requires proposed.Some? ==> jobs[p].IsCancelled()
      requires g.exact ==> forall d: nat :: !ChildOf(jobs, d, p)
      requires g.exact ==> (jobs[p].Live() ==> p !in g.reach)
      requires g.exact ==> (proposed.Some? && proposed.value.Failure? ==> jobs[p].Failed())
      modifies this
      ensures Inv(jobs, None) && InScope(jobs, g) && Step(old(jobs), jobs, Some(p), g)
      ensures Continued(old(jobs), jobs, p, proposed)
      ensures (forall d: nat :: !ChildOf(old(jobs), d, p)) ==> ParentHears(old(jobs), jobs, p, jobs[p].Cause())
      decreases Phi(jobs), 3
    {
      assert forall d: nat :: ChildOf(jobs, d, p) ==> p + 1 <= d;
      var waiting := TryWaitForChild(p, p + 1, proposed, g);
      if !waiting {
        Finalize(p, proposed, g);
      }
    }

    /** The scan of `next_child` and `try_wait_for_child`: register on the first incomplete child from `from` on. */
    method TryWaitForChild(p: nat, from: nat, proposed: Option<Exn>, ghost g: Scope) returns (waiting: bool)
      requires Inv(jobs, Some(p)) && InScope(jobs, g) && p in g.tree && p < from <= |jobs|
      requires forall d: nat :: ChildOf(jobs, d, p) ==> from <= d
      requires proposed.Some? ==> jobs[p].IsCancelled()
      requires g.exact ==> proposed.None? || forall d: nat :: !ChildOf(jobs, d, p)
      modifies this
      ensures !waiting ==> jobs == old(jobs) && forall d: nat :: !ChildOf(jobs, d, p)
      ensures waiting ==> Inv(jobs, None) && InScope(jobs, g) && Step(old(jobs), jobs, None, g)
      ensures waiting ==> exists c: nat :: ChildOf(old(jobs), c, p) && jobs == GiveToken(old(jobs), c, proposed)
    {
      for c := from to |jobs|
        invariant jobs == old(jobs)
        invariant forall d: nat :: ChildOf(jobs, d, p) ==> c <= d
      {
        if jobs[c].attached && jobs[c].parent == Some(p) && !jobs[c].phase.Final? {
          assert ChildOf(jobs, c, p);
          GiveTokenKeeps(jobs, p, c, proposed);
          TokenInScope(jobs, c, proposed, g);
          jobs := GiveToken(jobs, c, proposed);
          return true;
        }
        assert LinkOk(jobs, c);
      }
      return false;
    }

    /** `finalize_finishing_state`: seal, tell the parent, become final. */
    method Finalize(k: nat, proposed: Option<Exn>, ghost g: Scope)
      requires Inv(jobs, Some(k)) && InScope(jobs, g) && k in g.tree && forall d: nat :: !ChildOf(jobs, d, k)
      requires jobs[k].phase.Finishing?
      requires proposed.Some? ==> jobs[k].IsCancelled()
      requires g.exact ==> (jobs[k].Live() ==> k !in g.reach)
      requires g.exact ==> (proposed.Some? && proposed.value.Failure? ==> jobs[k].Failed())
      modifies this
      ensures Inv(jobs, None) && InScope(jobs, g) && Step(old(jobs), jobs, Some(k), g)
      ensures jobs[k].phase ==
              Final(FinalCause(old(jobs)[k].phase.root, old(jobs)[k].phase.extra, proposed))
      ensures ParentHears(old(jobs), jobs, k, jobs[k].Cause())
      decreases Phi(jobs), 2
    {
      var root, extra := jobs[k].phase.root, jobs[k].phase.extra;
      var cause := GetFinalRootCause(root.Some?, Sealed(root, extra, proposed));
      FinalCauseOf(jobs, k, proposed, g);
      if cause.Some? {
        FinishCancelled(k, cause.value, g);
      } else {
        FinishJob(k, None, Some(k), g);
      }
    }

    /** The end of a cancelled job. */
    method FinishCancelled(k: nat, cause: Exn, ghost g: Scope)
      requires Inv(jobs, Some(k)) && InScope(jobs, g) && k in g.tree && forall d: nat :: !ChildOf(jobs, d, k)
      requires jobs[k].phase.Finishing? && jobs[k].IsCancelled() && Settles(jobs[k], Some(cause))
      requires g.exact ==> (jobs[k].Failed() <==> cause.Failure?)
      modifies this
      ensures Inv(jobs, None) && InScope(jobs, g) && Step(old(jobs), jobs, Some(k), g)
      ensures jobs[k].phase == Final(Some(cause)) && ParentHears(old(jobs), jobs, k, Some(cause))
      decreases Phi(jobs), 1
    {
      ghost var before := jobs;
      SealAndTellParent(k, cause, g);
      ghost var told := jobs;
      FinishJob(k, Some(cause), None, g);
      StillHears(before, told, jobs, k, Some(cause));
      StepTrans(before, told, jobs, Some(k), g);
    }

    /** A cancelled job's exceptions are sealed, and its parent learns the final cause (`cancel_parent`). */
    method SealAndTellParent(k: nat, cause: Exn, ghost g: Scope)
      requires Inv(jobs, Some(k)) && InScope(jobs, g) && k in g.tree && forall d: nat :: !ChildOf(jobs, d, k)
      requires jobs[k].phase.Finishing? && jobs[k].IsCancelled()
      requires g.exact ==> (jobs[k].Failed() <==> cause.Failure?)
      requires Settles(jobs[k], Some(cause))
      modifies this
      ensures Inv(jobs, None) && InScope(jobs, g) && Step(old(jobs), jobs, Some(k), g)
      ensures jobs[k].phase == old(jobs)[k].phase.(isSealed := true)
      ensures forall d: nat :: !ChildOf(jobs, d, k)
      ensures ParentHears(old(jobs), jobs, k, Some(cause))
      ensures forall p: nat :: ChildOf(jobs, k, p) && cause.Failure? && !jobs[p].supervisor ==> !jobs[p].Live()
      ensures forall p: nat :: g.exact && ChildOf(jobs, k, p) && p in g.reach ==> !jobs[p].Live()
      ensures Phi(jobs) < Phi(old(jobs))
      decreases Phi(jobs), 0
    {
      ghost var before := jobs;
      SealStep(jobs, k, g);
      jobs := Rephase(jobs, k, SealedPhase(jobs[k].phase));
      ghost var sealedJobs := jobs;
      if g.exact { assert ScopeJob(before, g, k); }
      CancelParent(k, cause, g);
      StepTrans(before, sealedJobs, jobs, Some(k), g);
      EvolvedPhi(sealedJobs, jobs);
      NothingLinkedAgain(before, jobs, k);
      SameHears(before, jobs, k, SealedPhase(before[k].phase), Some(cause));
      ParentTold(sealedJobs, jobs, k, cause, g);
    }

    /** The state is final, the job off its parent's list, and its completion handlers are due. */
    method StoreFinal(k: nat, cause: Option<Exn>) returns (handlers: seq<Option<Exn>>)
      requires k < |jobs|
      modifies this
      ensures jobs == Finish(old(jobs), k, cause) && handlers == old(jobs)[k].waiters
    {
      jobs := jobs[k := jobs[k].(phase := Final(cause))];
      jobs := jobs[k := jobs[k].(attached := false)];
      handlers := jobs[k].waiters;
      jobs := jobs[k := jobs[k].(waiters := [])];
    }

    /**
     * The final state is stored and `complete_state_finalization` runs: off the parent's list, then the
     * completion handlers. Child nodes in the list would be notified as well; none is left.
     */
    method FinishJob(k: nat, cause: Option<Exn>, ghost hole: Option<nat>, ghost g: Scope)
      requires k < |jobs| && Inv(jobs, hole) && InScope(jobs, g) && k in g.tree
      requires !jobs[k].phase.Final? && (hole.None? || hole == Some(k))
      requires forall d: nat :: !ChildOf(jobs, d, k)
      requires jobs[k].Completing() ==> hole == Some(k) || jobs[k].Sealed()
      requires jobs[k].IsCancelled() <==> cause.Some?
      requires Settles(jobs[k], cause)
      requires g.exact ==> (jobs[k].Failed() <==> cause.Some? && cause.value.Failure?)
      requires g.exact ==> (jobs[k].Live() ==> k !in g.reach)
      requires cause.Some? && cause.value.Failure? ==>
                 forall p: nat :: ChildOf(jobs, k, p) && !jobs[p].supervisor ==> !jobs[p].Live()
      requires forall p: nat :: g.exact && ChildOf(jobs, k, p) && p in g.reach ==> !jobs[p].Live()
      modifies this
      ensures Inv(jobs, None) && InScope(jobs, g) && Step(old(jobs), jobs, Some(k), g)
      ensures jobs[k].phase == Final(cause)
      ensures if Woken(old(jobs), k).None? then jobs == Finish(old(jobs), k, cause)
              else Continued(Finish(old(jobs), k, cause), jobs, Woken(old(jobs), k).value, old(jobs)[k].waiters[0])
      decreases Phi(jobs), 0
    {
      ghost var before := jobs;
      FinishStep(jobs, k, hole, cause, g);
      var handlers := StoreFinal(k, cause);
      ghost var finished := jobs;
      RunHandlers(k, handlers, before, cause, g);
      assert Evolves(finished[k], jobs[k]);
      StepTrans(before, finished, jobs, Some(k), g);
    }

    /** The completion handlers of a final job: at most the one that wakes its parent. */
    method RunHandlers(k: nat, handlers: seq<Option<Exn>>, ghost before: seq<Job>, ghost cause: Option<Exn>,
            ghost g: Scope)
      requires k < |before| && jobs == Finish(before, k, cause) && handlers == before[k].waiters
      requires Inv(jobs, Woken(before, k)) && InScope(jobs, g) && ReadyToContinue(before, k, cause, g)
      modifies this
      ensures Inv(jobs, None) && InScope(jobs, g) && Step(old(jobs), jobs, None, g)
      ensures if Woken(before, k).None? then jobs == old(jobs)
              else Continued(old(jobs), jobs, Woken(before, k).value, handlers[0])
      decreases Phi(jobs), 4
    {
      if handlers != [] {
        ContinueCompleting(jobs[k].parent.value, k, handlers[0], g);
      }
    }

    /** `continue_completing`: the child the parent waited for is final; wait for the next one or finalize. */
    method ContinueCompleting(p: nat, last: nat, proposed: Option<Exn>, ghost g: Scope)
      requires Inv(jobs, Some(p)) && InScope(jobs, g) && p in g.tree && p < last < |jobs|
      requires forall d: nat :: ChildOf(jobs, d, p) ==> last < d
      requires proposed.Some? ==> jobs[p].IsCancelled()
      requires g.exact ==> proposed.None? && (jobs[p].Live() ==> p !in g.reach)
      modifies this
      ensures Inv(jobs, None) && InScope(jobs, g) && Step(old(jobs), jobs, None, g)
      ensures Continued(old(jobs), jobs, p, proposed)
      decreases Phi(jobs), 3
    {
      assert WakeupOk(jobs, p, Some(p));
      var waiting := TryWaitForChild(p, last + 1, proposed, g);
      if waiting {
        return;
      }
      waiting := TryWaitForChild(p, last + 1, proposed, g);  // once more, the list being closed to children
      if waiting {
        return;
      }
      ghost var before := jobs;
      Finalize(p, proposed, g);
      FinalNewsOut(jobs, p);
      assert Step(before, jobs, None, g);
    }
  }

  // ---------------------------------------------------------------- two programs that show departures

  /** A parent fails by `complete_exceptionally`: its child stays active. */
  method FailedParentActiveChild(e: Exn) returns (forest: JobForest, parent: nat, child: nat)
    ensures fresh(forest) && parent < child < |forest.jobs| && ChildOf(forest.jobs, child, parent)
    ensures forest.jobs[parent].IsCancelled() && forest.jobs[child].IsActive() && !forest.jobs[child].IsCancelled()
  {
    forest := new JobForest();
    var started, nullDisposed;
    parent, nullDisposed := forest.Create(None, true, false);
    child, nullDisposed := forest.Create(Some(parent), true, false);
    ghost var before := forest.jobs;
    assert ChildOf(before, child, parent);
    started := forest.Complete(parent, Some(e));
    FailureIsNotPassedDown(before, forest.jobs, parent, e);
    TokenKeepsLinks(before, forest.jobs, parent, child, Some(e));
  }

  /** A child created under a parent that has been cancelled: it is linked, active and not cancelled. */
  method CancelledParentActiveChild(cause: Option<Exn>) returns (forest: JobForest, parent: nat, child: nat)
    ensures fresh(forest) && parent < child < |forest.jobs| && ChildOf(forest.jobs, child, parent)
    ensures forest.jobs[parent].IsCancelled() && forest.jobs[child].IsActive() && !forest.jobs[child].IsCancelled()
  {
    forest := new JobForest();
    var nullDisposed;
    parent, nullDisposed := forest.Create(None, true, false);
    forest.Cancel(parent, cause);
    child, nullDisposed := forest.Create(Some(parent), true, false);
  }

  /** A lazy job is created under a parent that has completed: `dispose` is called through a null handle. */
  method LazyChildOfFinalParent() returns (forest: JobForest, parent: nat, child: nat, nullDisposed: bool)
    ensures fresh(forest) && nullDisposed && parent < child < |forest.jobs|
    ensures forest.jobs[parent].phase == Final(None) && forest.jobs[child].parent == Some(parent)
    ensures !forest.jobs[child].attached && forest.jobs[child].IsCompleted() && forest.jobs[child].IsCancelled()
  {
    forest := new JobForest();
    var disposed;
    parent, disposed := forest.Create(None, true, false);
    ghost var before := forest.jobs;
    var started := forest.Complete(parent, None);
    assert forall c: nat :: !ChildOf(before, c, parent);
    child, nullDisposed := forest.Create(Some(parent), false, false);
  }

  /** A failure is reported to a job that is cancelling, and the job completes: it ends with what it had before. */
  method ReportFailure(forest: JobForest, j: nat, e: Exn)
    requires Inv(forest.jobs, None) && Quiet(forest.jobs) && j < |forest.jobs| && e.Failure?
    requires forest.jobs[j].phase.Finishing? && forest.jobs[j].phase.root.Some? && forest.jobs[j].phase.extra.Some?
    requires !forest.jobs[j].phase.completing && Lone(forest.jobs, j)
    modifies forest
    ensures |forest.jobs| == |old(forest.jobs)|
    ensures var ph := old(forest.jobs)[j].phase;
            forest.jobs[j].phase == Final(FinalCause(ph.root, ph.extra, None))
  {
    ghost var before := forest.jobs;
    forest.Cancel(j, Some(e));
    FailureDropped(before, forest.jobs, j, e);
    var started := forest.Complete(j, None);
    LoneTold(before, forest.jobs, j);
  }

  lemma FailureDropped(a: seq<Job>, b: seq<Job>, j: nat, e: Exn)
    requires j < |a| && a[j].phase.Finishing? && a[j].phase.root.Some? && a[j].phase.extra.Some? && !a[j].Sealed()
    requires CancelledAlone(a, b, j, e)
    ensures b == a
  {
    assert a[j].(phase := a[j].phase) == a[j];
  }

  lemma LoneTold(a: seq<Job>, b: seq<Job>, j: nat)
    requires j < |a| == |b| && Lone(a, j) && Told(a, b, j, None) && a[j].phase.Finishing? && a[j].phase.root.Some?
    ensures b[j].phase == Final(FinalCause(a[j].phase.root, a[j].phase.extra, None))
  {
    WhoPrevails(a[j].phase.root, a[j].phase.extra, None);
  }

  /** So a job to which a failure was reported can end with a CancellationException. */
  method LostFailure(first: Exn, second: Exn, e: Exn) returns (forest: JobForest, j: nat)
    requires first.Cancellation? && second.Cancellation? && e.Failure?
    ensures fresh(forest) && j < |forest.jobs| && forest.jobs[j].phase == Final(Some(first))
  {
    forest := new JobForest();
    var nullDisposed;
    j, nullDisposed := forest.Create(None, true, false);
    forest.Cancel(j, Some(first));
    forest.Cancel(j, Some(second));
    ReportFailure(forest, j, e);
    FinalCauseKind(Some(first), Some(second), None);
    assert Sealed(Some(first), Some(second), None)[0] == first;
  }

  /**
   * When exactly a failure reported to a cancelling job makes it end with a failure: if the place for an extra
   * exception is free, or the job has recorded or is told to complete with a failure anyway.
   */
  lemma FailureHeard(ph: Phase, e: Exn, proposed: Option<Exn>)
    requires ph.Finishing? && ph.root.Some? && e.Failure?
    ensures var heard := WithExtra(ph, e);
            var cause := FinalCause(heard.root, heard.extra, proposed);
            cause.Some? && (cause.value.Failure? <==>
              ph.extra.None? || ph.extra.value.Failure? || ph.root.value.Failure?
              || (proposed.Some? && proposed.value.Failure?))
  {
    var heard := WithExtra(ph, e);
    FinalCauseKind(heard.root, heard.extra, proposed);
  }

  // ---------------------------------------------------------------- facts the methods use

  lemma NothingOnEmpty(js: seq<Job>, k: nat)
    requires Inv(js, None) && k < |js| && !js[k].HasList()
    ensures js[k].waiters == [] && forall d: nat :: !ChildOf(js, d, k)
  {
    assert WaiterOk(js, k);
    forall d: nat ensures !ChildOf(js, d, k) {
      if d < |js| { assert LinkOk(js, d); }
    }
  }

  lemma NoChildrenOfNew(js: seq<Job>, k: nat)
    requires Inv(js, None) && k < |js| && js[k].phase.New?
    ensures forall d: nat :: !ChildOf(js, d, k)
    ensures forall d: nat :: ParentIs(js, d, k) ==> js[d].phase.Final?
  {
    forall d: nat ensures !ChildOf(js, d, k) && (ParentIs(js, d, k) ==> js[d].phase.Final?) {
      if d < |js| { assert LinkOk(js, d); }
    }
  }

  /** Nothing gets linked to a job during a cascade. */
  lemma NothingLinkedAgain(a: seq<Job>, b: seq<Job>, k: nat)
    requires Evolved(a, b) && forall d: nat :: !ChildOf(a, d, k)
    ensures forall d: nat :: !ChildOf(b, d, k)
  {
    forall d: nat ensures !ChildOf(b, d, k) {
      if d < |a| { assert Evolves(a[d], b[d]) && !ChildOf(a, d, k); }
    }
  }

  /** Every child of j before number c has been told. */
  ghost predicate ToldBelow(js: seq<Job>, j: nat, c: nat) {
    forall d: nat :: j < d < c && ParentIs(js, d, j) ==> !js[d].Live()
  }

  lemma ToldBelowStable(a: seq<Job>, b: seq<Job>, j: nat, c: nat)
    requires Evolved(a, b) && ToldBelow(a, j, c)
    ensures ToldBelow(b, j, c)
  {
    forall d: nat | j < d < c && ParentIs(b, d, j) ensures !b[d].Live() {
      assert Evolves(a[d], b[d]);
      assert ParentIs(a, d, j);
    }
  }

  /** The children of j before number c have been told, starting from before. */
  ghost predicate ToldSoFar(before: seq<Job>, js: seq<Job>, j: nat, c: nat, g: Scope)
    requires |js| == |before|
  {
    Inv(js, None) && InScope(js, g) && Step(before, js, None, g) && ToldBelow(js, j, c)
  }

  lemma BeforeNext(before: seq<Job>, now: seq<Job>, j: nat, c: nat, g: Scope)
    requires j < c < |now| == |before| && Inv(before, None) && ToldSoFar(before, now, j, c, g)
    requires before[j].phase.Finishing? && !before[j].Live()
    ensures Phi(now) <= Phi(before) && !now[j].Live()
    ensures now[c].parent == Some(j) && !now[c].attached ==> now[c].phase.Final?
  {
    EvolvedPhi(before, now);
    StillCancelled(before, now, j);
    UnlinkedIsFinal(before, now, j, c);
  }

  lemma NextTold(before: seq<Job>, now: seq<Job>, after: seq<Job>, j: nat, c: nat, g: Scope)
    requires j < c < |now| == |before| && ToldSoFar(before, now, j, c, g)
    requires Inv(after, None) && InScope(after, g) && Step(now, after, None, g)
    requires after[c].parent == Some(j) ==> !after[c].Live()
    ensures |after| == |before| && ToldSoFar(before, after, j, c + 1, g)
  {
    StepTrans(before, now, after, None, g);
    ToldBelowStable(now, after, j, c);
  }

  lemma StillCancelled(a: seq<Job>, b: seq<Job>, j: nat)
    requires Evolved(a, b) && j < |a| && a[j].IsCancelled()
    ensures b[j].IsCancelled() && !b[j].Live()
  {
    assert Evolves(a[j], b[j]);
  }

  /** A child of an incomplete job that got unlinked since is final. */
  lemma UnlinkedIsFinal(a: seq<Job>, b: seq<Job>, j: nat, c: nat)
    requires Inv(a, None) && Evolved(a, b) && j < |a| && c < |a| && !a[j].phase.Final?
    ensures b[c].parent == Some(j) && !b[c].attached ==> b[c].phase.Final?
  {
    assert LinkOk(a, c) && Evolves(a[c], b[c]);
  }

  lemma ClimbIfFailed(js: seq<Job>, j: nat, cause: Exn, g: Scope)
    requires InScope(js, g) && g.exact && j < |js| && j in g.tree
    requires js[j].phase.Finishing? && js[j].phase.root == Some(cause)
    ensures cause.Failure? ==> j in g.climb && cause == g.news
  {
    assert ScopeJob(js, g, j);
  }

  lemma NewsGoesOut(before: seq<Job>, after: seq<Job>, end: seq<Job>, j: nat, cause: Exn)
    requires j < |before| && before[j].phase.Finishing? && before[j].phase.root == Some(cause)
    requires Evolved(before, after) && Evolved(after, end) && ToldBelow(after, j, |after|)
    requires forall p: nat :: cause.Failure? && ChildOf(after, j, p) && !end[p].supervisor ==> !end[p].Live()
    ensures NewsOut(end, j)
  {
    assert Evolves(before[j], after[j]) && Evolves(after[j], end[j]);
    forall c: nat | ChildOf(end, c, j) ensures !end[c].Live() {
      assert Evolves(after[c], end[c]);
      assert ParentIs(after, c, j);
    }
    forall p: nat | end[j].phase.Finishing? && end[j].Failed() && ChildOf(end, j, p) && !end[p].supervisor
      ensures !end[p].Live()
    {
      assert ChildOf(after, j, p);
    }
  }

  lemma NewsIsOut(before: seq<Job>, after: seq<Job>, end: seq<Job>, j: nat, cause: Exn, g: Scope)
    requires g.exact && j < |before| && before[j].phase.Finishing? && before[j].phase.root == Some(cause)
    requires Inv(after, None) && Step(before, after, None, g) && Step(before, end, None, g) && Evolved(after, end)
    requires Inv(before, None)
    requires ToldBelow(after, j, |after|)
    requires forall p: nat :: cause.Failure? && ChildOf(after, j, p) && !end[p].supervisor ==> !end[p].Live()
    ensures Closed(end, j)
  {
    assert SpreadJob(before, end, g, j) && SpreadJob(before, after, g, j) && Evolves(after[j], end[j]);
    forall c: nat | ParentIs(end, c, j) ensures !end[c].Live() {
      assert Evolves(after[c], end[c]) && LinkOk(after, c);
      assert ParentIs(after, c, j);
    }
    forall p: nat | end[j].Failed() && ParentIs(end, j, p) && p < |end| && !end[p].supervisor ensures !end[p].Live() {
      assert Evolves(after[p], end[p]) && LinkOk(after, j) && FailureOk(after, j);
      if after[j].attached { assert ChildOf(after, j, p); }
    }
  }

  /** Once a sealed job has told its parent, the parent may be woken without leaving the scope. */
  lemma ParentTold(a: seq<Job>, b: seq<Job>, k: nat, cause: Exn, g: Scope)
    requires k < |a| && a[k].phase.Finishing? && a[k].Sealed() && a[k].IsCancelled()
    requires Step(a, b, None, g) && InScope(b, g)
    requires g.exact ==> (a[k].Failed() <==> cause.Failure?)
    requires forall p: nat :: cause.Failure? && ChildOf(a, k, p) && !b[p].supervisor ==> !b[p].Live()
    ensures forall p: nat :: ChildOf(b, k, p) && cause.Failure? && !b[p].supervisor ==> !b[p].Live()
    ensures forall p: nat :: g.exact && ChildOf(b, k, p) && p in g.reach ==> !b[p].Live()
  {
    assert Evolves(a[k], b[k]);
    forall p: nat | g.exact && ChildOf(b, k, p) && p in g.reach ensures !b[p].Live() {
      assert ScopeJob(b, g, k);
      assert ParentIs(b, k, p) && ChildOf(a, k, p);
    }
  }

  /** Sealing is a legal step. */
  lemma SealStep(js: seq<Job>, k: nat, g: Scope)
    requires Inv(js, Some(k)) && InScope(js, g) && k in g.tree && forall d: nat :: !ChildOf(js, d, k)
    requires js[k].phase.Finishing? && js[k].IsCancelled()
    ensures var js' := Rephase(js, k, SealedPhase(js[k].phase));
            && Inv(js', None) && InScope(js', g) && Step(js, js', Some(k), g) && Phi(js') < Phi(js)
            && forall d: nat :: !ChildOf(js', d, k)
  {
    SealKeeps(js, k);
    SealInScope(js, k, g);
    SameLinks(js, k, SealedPhase(js[k].phase));
    if g.exact { assert ScopeJob(js, g, k); }
  }

  /** Becoming final is a legal step, and leaves the woken parent ready to continue. */
  lemma FinishStep(js: seq<Job>, k: nat, hole: Option<nat>, cause: Option<Exn>, g: Scope)
    requires k < |js| && Inv(js, hole) && InScope(js, g) && k in g.tree
    requires !js[k].phase.Final? && (hole.None? || hole == Some(k))
    requires forall d: nat :: !ChildOf(js, d, k)
    requires js[k].Completing() ==> hole == Some(k) || js[k].Sealed()
    requires js[k].IsCancelled() <==> cause.Some?
    requires Settles(js[k], cause)
    requires g.exact ==> (js[k].Failed() <==> cause.Some? && cause.value.Failure?)
    requires g.exact ==> (js[k].Live() ==> k !in g.reach)
    requires cause.Some? && cause.value.Failure? ==>
               forall p: nat :: ChildOf(js, k, p) && !js[p].supervisor ==> !js[p].Live()
    requires forall p: nat :: g.exact && ChildOf(js, k, p) && p in g.reach ==> !js[p].Live()
    ensures Inv(Finish(js, k, cause), Woken(js, k)) && InScope(Finish(js, k, cause), g)
    ensures Step(js, Finish(js, k, cause), Some(k), g) && Phi(Finish(js, k, cause)) < Phi(js)
    ensures ReadyToContinue(js, k, cause, g)
  {
    assert LinkOk(js, k);
    assert js[k].attached ==> ChildOf(js, k, js[k].parent.value);
    FinishKeeps(js, k, hole, cause);
    FinishInScope(js, k, cause, g);
    FinishEvolves(js, k, cause, g);
    WokenReady(js, k, hole, cause, g);
  }

  ghost predicate ReadyToContinue(js: seq<Job>, k: nat, cause: Option<Exn>, g: Scope)
    requires k < |js|
  {
    if js[k].waiters == [] then Woken(js, k).None?
    else
      var w := Woken(js, k);
      var js' := Finish(js, k, cause);
      && w.Some? && w.value < k && w.value in g.tree
      && (forall d: nat :: ChildOf(js', d, w.value) ==> k < d)
      && (js[k].waiters[0].Some? ==> js'[w.value].IsCancelled())
      && (g.exact ==> js[k].waiters[0].None? && (js'[w.value].Live() ==> w.value !in g.reach))
  }

  lemma FinishEvolves(js: seq<Job>, k: nat, cause: Option<Exn>, g: Scope)
    requires k < |js| && k in g.tree && !js[k].phase.Final?
    requires js[k].IsCancelled() <==> cause.Some?
    requires Settles(js[k], cause)
    requires g.exact ==> (js[k].Failed() <==> cause.Some? && cause.value.Failure?)
    requires g.exact ==> (js[k].Live() ==> k !in g.reach)
    ensures Step(js, Finish(js, k, cause), Some(k), g)
  {
  }

  lemma WokenReady(js: seq<Job>, k: nat, hole: Option<nat>, cause: Option<Exn>, g: Scope)
    requires k < |js| && Inv(js, hole) && InScope(js, g) && k in g.tree && !js[k].phase.Final?
    requires Woken(js, k).Some? ==> forall d: nat :: ChildOf(Finish(js, k, cause), d, Woken(js, k).value) ==> k < d
    requires forall p: nat :: g.exact && ChildOf(js, k, p) && p in g.reach ==> !js[p].Live()
    ensures ReadyToContinue(js, k, cause, g)
  {
    assert LinkOk(js, k) && WaiterOk(js, k);
    if g.exact { assert ScopeJob(js, g, k); }
    if js[k].waiters != [] { assert ChildOf(js, k, js[k].parent.value); }
  }

  /** The final cause of a finishing job without children agrees with what the forest already shows. */
  lemma FinalCauseOf(js: seq<Job>, k: nat, proposed: Option<Exn>, g: Scope)
    requires k < |js| && Inv(js, Some(k)) && InScope(js, g) && k in g.tree && js[k].phase.Finishing?
    requires proposed.Some? ==> js[k].IsCancelled()
    requires g.exact ==> (js[k].Live() ==> k !in g.reach)
    requires g.exact ==> (proposed.Some? && proposed.value.Failure? ==> js[k].Failed())
    ensures var cause := FinalCause(js[k].phase.root, js[k].phase.extra, proposed);
            && (js[k].IsCancelled() <==> cause.Some?)
            && Settles(js[k], cause)
            && (g.exact ==> (js[k].Failed() <==> cause.Some? && cause.value.Failure?))
            && (cause.None? ==> forall p: nat :: g.exact && ChildOf(js, k, p) ==> p !in g.reach)
  {
    assert PhaseOk(js, k);
    var root, extra := js[k].phase.root, js[k].phase.extra;
    FinalCauseKind(root, extra, proposed);
    if root.Some? { WhoPrevails(root, extra, proposed); }
    if g.exact { assert ScopeJob(js, g, k); }
  }

  /**
   * What telling job j to complete does to j. With linked children it waits, and nobody but j itself
   * and, for the registration, one child is touched; without, it is final at once.
   */
  ghost predicate Told(a: seq<Job>, b: seq<Job>, j: nat, proposed: Option<Exn>)
    requires j < |a| == |b|
  {
    if exists c: nat :: ChildOf(a, c, j) then
      exists c: nat :: ChildOf(a, c, j) && b[c].waiters == a[c].waiters + [proposed]
                       && b == GiveToken(Rephase(a, j, Recorded(a[j], proposed)), c, proposed)
    else
      b[j].phase == Final(FinalOf(a[j], proposed)) && ParentHears(a, b, j, FinalOf(a[j], proposed))
  }

  /** A live parent that is no supervisor is cancelled with the failure with which k ends. */
  ghost predicate ParentHears(a: seq<Job>, b: seq<Job>, k: nat, cause: Option<Exn>)
    requires |a| == |b|
  {
    IsFailure(cause) ==>
      forall p: nat :: ChildOf(a, k, p) && !a[p].supervisor && a[p].Live() ==> b[p].Cause() == cause
  }

  lemma SameHears(a: seq<Job>, b: seq<Job>, k: nat, ph: Phase, cause: Option<Exn>)
    requires k < |a| == |b| && ParentHears(Rephase(a, k, ph), b, k, cause)
    ensures ParentHears(a, b, k, cause)
  {
    forall p: nat | IsFailure(cause) && ChildOf(a, k, p) && !a[p].supervisor && a[p].Live()
      ensures b[p].Cause() == cause
    {
      assert ChildOf(Rephase(a, k, ph), k, p);
    }
  }

  lemma StillHears(a: seq<Job>, b: seq<Job>, c: seq<Job>, k: nat, cause: Option<Exn>)
    requires |a| == |b| && ParentHears(a, b, k, cause) && Evolved(b, c)
    ensures ParentHears(a, c, k, cause)
  {
    forall p: nat | IsFailure(cause) && ChildOf(a, k, p) && !a[p].supervisor && a[p].Live()
      ensures c[p].Cause() == cause
    {
      assert Evolves(b[p], c[p]);
    }
  }

  /** Marking job j, and then the news spread from it, make a legal step. */
  lemma MarkedStep(before: seq<Job>, marked: seq<Job>, end: seq<Job>, j: nat, cause: Exn, g: Scope)
    requires j < |before| && j in g.tree && marked == Rephase(before, j, Marked(before[j], cause))
    requires Evolved(before, marked) && Step(marked, end, None, g)
    requires before[j].Live() && !before[j].phase.New? && !before[j].Sealed()
    requires NewsOut(end, j) && (g.exact ==> CancelOk(before, j, cause, g) && Closed(end, j))
    ensures Step(before, end, None, g)
  {
    EvolvedTrans(before, marked, end);
    assert LeftAlone(before, marked, None);
    if g.exact {
      forall k | 0 <= k < |before| ensures SpreadJob(before, end, g, k) {
        assert SpreadJob(marked, end, g, k);
      }
    }
  }

  lemma ContinuedTold(before: seq<Job>, begun: seq<Job>, end: seq<Job>, j: nat, proposed: Option<Exn>)
    requires j < |before| && Inv(before, None) && !before[j].phase.Final?
    requires begun == Rephase(before, j, Begun(before[j], proposed)) && Continued(begun, end, j, proposed)
    requires (forall d: nat :: !ChildOf(begun, d, j)) ==> ParentHears(begun, end, j, end[j].Cause())
    ensures |end| == |before| && Told(before, end, j, proposed)
  {
    BegunRecords(before, j, proposed);
    RecordedPrevails(before, j, proposed);
    SameLinks(before, j, begun[j].phase);
    if exists c: nat :: ChildOf(before, c, j) {
      var c: nat :| ChildOf(before, c, j);
      assert ChildOf(begun, c, j);
    } else {
      SameHears(before, end, j, begun[j].phase, end[j].Cause());
    }
  }

  lemma BegunStep(before: seq<Job>, begun: seq<Job>, end: seq<Job>, j: nat, proposed: Option<Exn>, g: Scope)
    requires j < |before| && j in g.tree && Inv(before, None) && Inv(end, None) && !before[j].Completing()
    requires !before[j].phase.Final?
    requires begun == Rephase(before, j, Begun(before[j], proposed))
    requires Evolved(before, begun) && Step(begun, end, Some(j), g)
    requires g.exact ==> before[j].phase.New? && proposed.Some? && CancelOk(before, j, proposed.value, g)
    requires g.exact ==> end[j].phase.Final?
    ensures Step(before, end, Some(j), g)
  {
    EvolvedTrans(before, begun, end);
    assert PhaseOk(before, j);
    assert LeftAlone(before, end, Some(j));
    if g.exact {
      NoChildrenOfNew(before, j);
      forall k | 0 <= k < |before| ensures SpreadJob(before, end, g, k) {
        assert SpreadJob(begun, end, g, k);
        if k == j { ClosedWhenFinal(before, end, j); }
      }
    }
  }

  lemma ClosedWhenFinal(before: seq<Job>, end: seq<Job>, j: nat)
    requires j < |end| && Inv(end, None) && end[j].phase.Final? && Evolved(before, end)
    requires forall d: nat :: ParentIs(before, d, j) ==> before[d].phase.Final?
    ensures Closed(end, j)
  {
    assert FailureOk(end, j);
    forall c: nat | ParentIs(end, c, j) ensures !end[c].Live() {
      assert Evolves(before[c], end[c]);
      assert ParentIs(before, c, j);
    }
  }

  lemma StaysQuiet(a: seq<Job>, b: seq<Job>, but: Option<nat>)
    requires |a| == |b| && Quiet(a) && LeftAlone(a, b, but)
    requires but.Some? && but.value < |b| ==> !b[but.value].Sealed()
    ensures Quiet(b)
  {
  }

  lemma AfterCompleting(a: seq<Job>, b: seq<Job>, j: nat, proposed: Option<Exn>)
    requires j < |a| == |b| && Inv(a, None) && Inv(b, None) && Evolved(a, b) && Told(a, b, j, proposed)
    requires Passed(a, b, Some(j)) && !a[j].phase.Final?
    ensures !b[j].Sealed()
    ensures Downward(a) ==> (Downward(b) <==> !(proposed.Some? && a[j].Live() && HasUncancelledChild(a, j)))
  {
    ToldUnsealed(a, b, j, proposed);
    if Downward(a) { ToldDownward(a, b, j, proposed); }
  }

  lemma ToldUnsealed(a: seq<Job>, b: seq<Job>, j: nat, proposed: Option<Exn>)
    requires j < |a| == |b| && Told(a, b, j, proposed)
    ensures !b[j].Sealed()
  {
  }

  /** Completing a job keeps cancellation downward-closed unless it makes a live job with an uncancelled child fail. */
  lemma ToldDownward(a: seq<Job>, b: seq<Job>, j: nat, proposed: Option<Exn>)
    requires j < |a| == |b| && Inv(a, None) && Inv(b, None) && Evolved(a, b) && Told(a, b, j, proposed)
    requires Passed(a, b, Some(j)) && Downward(a) && !a[j].phase.Final?
    ensures Downward(b) <==> !(proposed.Some? && a[j].Live() && HasUncancelledChild(a, j))
  {
    if proposed.Some? && a[j].Live() && HasUncancelledChild(a, j) {
      var c: nat :| ChildOf(a, c, j) && !a[c].IsCancelled();
      TokenKeepsLinks(a, b, j, c, proposed);
      FailureIsNotPassedDown(a, b, j, proposed.value);
      assert ChildOf(b, c, j) && b[j].IsCancelled() && !b[c].IsCancelled();
    } else {
      ToldChildren(a, b, j, proposed);
      DownwardKept(a, b, Some(j));
    }
  }

  lemma ToldChildren(a: seq<Job>, b: seq<Job>, j: nat, proposed: Option<Exn>)
    requires j < |a| == |b| && Inv(b, None) && Evolved(a, b) && Told(a, b, j, proposed)
    requires !a[j].phase.Final? && a[j].Live() && b[j].IsCancelled()
             ==> !(proposed.Some? && HasUncancelledChild(a, j))
    ensures a[j].Live() && b[j].IsCancelled() ==> forall c: nat :: ChildOf(b, c, j) ==> b[c].IsCancelled()
  {
    forall c: nat | a[j].Live() && b[j].IsCancelled() && ChildOf(b, c, j) ensures b[c].IsCancelled() {
      assert Evolves(a[c], b[c]) && LinkOk(b, c);
      assert ChildOf(a, c, j);
    }
  }

  /**
   * `complete_exceptionally` on a job with linked children makes it cancelled but, unlike `cancel`,
   * leaves every one of them as active as it was.
   */
  lemma FailureIsNotPassedDown(a: seq<Job>, b: seq<Job>, j: nat, e: Exn)
    requires j < |a| == |b| && Told(a, b, j, Some(e)) && Inv(a, None)
    requires exists c: nat :: ChildOf(a, c, j)
    ensures b[j].IsCancelled() && !b[j].IsCompleted()
    ensures forall c :: 0 <= c < |a| && c != j ==>
              b[c].IsActive() == a[c].IsActive() && b[c].IsCancelled() == a[c].IsCancelled()
  {
    assert forall c :: 0 <= c < |a| ==> LinkOk(a, c);
  }

  lemma TokenKeepsLinks(a: seq<Job>, b: seq<Job>, j: nat, c: nat, proposed: Option<Exn>)
    requires j < |a| == |b| && Told(a, b, j, proposed) && ChildOf(a, c, j)
    ensures ChildOf(b, c, j)
  {
  }

  /** So the children are cancelled by it exactly if they were cancelled before. */
  lemma FailureReachesNoChild(a: seq<Job>, b: seq<Job>, j: nat, e: Exn)
    requires j < |a| == |b| && Told(a, b, j, Some(e)) && Inv(a, None)
    ensures (forall c: nat :: ChildOf(a, c, j) ==> b[c].IsCancelled())
            <==> (forall c: nat :: ChildOf(a, c, j) ==> a[c].IsCancelled())
  {
    if exists c: nat :: ChildOf(a, c, j) {
      FailureIsNotPassedDown(a, b, j, e);
    }
  }
}
