/**
 * The state of a forest of jobs, as values: what `JobSupport::Impl` stores for one job, the
 * invariant of the whole forest, and what every single update keeps.
 *
 * Jobs are numbered in creation order. `init_parent_job` runs once, when a job is created, so a
 * parent has a smaller number than its children, and the children linked in a parent's handler
 * list stand there in increasing order.
 */
module JobTree {
  import opened Options
  import opened Causes

  /**
   * `Impl::state`. New and Active are the Empty states or, once something was registered
   * (`hasList`), InactiveNodeList and NodeList.
   */
  datatype Phase =
    | New(hasList: bool)
    | Active(hasList: bool)
    | Finishing(completing: bool, root: Option<Exn>, extra: Option<Exn>, isSealed: bool)
    | Final(cause: Option<Exn>)

  /**
   * One job. `attached` says that `parent_handle` is a node linked in the parent's list;
   * `waiters` are the ChildCompletion nodes of the parent in this job's own list, each with the
   * update the parent proposes.
   */
  datatype Job = Job(parent: Option<nat>, supervisor: bool, attached: bool, phase: Phase,
                     waiters: seq<Option<Exn>>)
  {
    predicate IsActive() { phase.Active? || (phase.Finishing? && phase.root.None?) }
    predicate IsCompleted() { phase.Final? }
    predicate IsCancelled() { Cause().Some? }

    /** Root cause while finishing, final cause afterwards. */
    function Cause(): Option<Exn> {
      match phase
      case Finishing(_, root, _, _) => root
      case Final(cause) => cause
      case _ => None
    }

    predicate Failed() { IsFailure(Cause()) }

    /** The one exception a cancelling job keeps besides its root cause. */
    function Extra(): Option<Exn> { if phase.Finishing? then phase.extra else None }

    /** Some exception the job has recorded is a failure. */
    predicate SawFailure() { Failed() || IsFailure(Extra()) }

    /** Neither final nor cancelling: a cancellation arriving now takes effect. */
    predicate Live() { !phase.Final? && Cause().None? }

    predicate Completing() { phase.Finishing? && phase.completing }
    predicate Sealed() { phase.Finishing? && phase.isSealed }
    predicate HasList() { phase.Finishing? || phase.Final? || phase.hasList }
  }

  /** c is linked in the list of p. */
  predicate ChildOf(js: seq<Job>, c: nat, p: nat) {
    p < c < |js| && js[c].parent == Some(p) && js[c].attached
  }

  /** p waits for its linked child c. */
  predicate Waits(js: seq<Job>, p: nat, c: nat) {
    ChildOf(js, c, p) && js[c].waiters != []
  }

  predicate ParentIs(js: seq<Job>, c: nat, p: nat) {
    c < |js| && js[c].parent == Some(p)
  }

  // ---------------------------------------------------------------- the forest invariant

  /** Links: a job is linked exactly while it and its parent are both incomplete. */
  predicate LinkOk(js: seq<Job>, c: nat)
    requires c < |js|
  {
    var j := js[c];
    match j.parent
    case None => !j.attached
    case Some(p) =>
      && p < c
      && (j.attached <==> !js[p].phase.Final? && !j.phase.Final?)
      && (j.attached ==> !js[p].phase.New? && js[p].HasList())
  }

  /** A pending ChildCompletion sits on the first linked child of a completing parent. */
  ghost predicate WaiterOk(js: seq<Job>, c: nat)
    requires c < |js|
  {
    var j := js[c];
    j.waiters != [] ==>
      && |j.waiters| == 1
      && j.attached && j.HasList()
      && (j.parent.Some? && j.parent.value < c ==>
            var p := js[j.parent.value];
            && p.Completing() && !p.Sealed()
            && (j.waiters[0].Some? ==> p.phase.root.Some?)
            && forall d :: ChildOf(js, d, j.parent.value) ==> c <= d)
  }

  /** A job is sealed only while it is being finalized: completing, cancelled, nothing linked. */
  ghost predicate PhaseOk(js: seq<Job>, k: nat)
    requires k < |js|
  {
    var j := js[k];
    && (j.phase.Finishing? && j.phase.extra.Some? ==> j.phase.root.Some?)
    && (j.Sealed() ==> j.Completing() && j.phase.root.Some? && forall d :: !ChildOf(js, d, k))
  }

  /** A failed job leaves no live parent behind, unless the parent is a supervisor. */
  predicate FailureOk(js: seq<Job>, k: nat)
    requires k < |js|
  {
    var j := js[k];
    (j.phase.Final? && j.Failed() && j.parent.Some? && j.parent.value < |js|) ==>
      js[j.parent.value].supervisor || !js[j.parent.value].Live()
  }

  /** A completing job has a pending ChildCompletion; `hole` is the one being looked after right now. */
  ghost predicate WakeupOk(js: seq<Job>, k: nat, hole: Option<nat>)
    requires k < |js|
  {
    if hole == Some(k) then
      js[k].Completing() && !js[k].Sealed() && forall c :: !Waits(js, k, c)
    else
      js[k].Completing() && !js[k].Sealed() ==> exists c :: Waits(js, k, c)
  }

  ghost predicate Inv(js: seq<Job>, hole: Option<nat>) {
    && (hole.Some? ==> hole.value < |js|)
    && (forall k :: 0 <= k < |js| ==> LinkOk(js, k))
    && (forall k :: 0 <= k < |js| ==> WaiterOk(js, k))
    && (forall k :: 0 <= k < |js| ==> PhaseOk(js, k))
    && (forall k :: 0 <= k < |js| ==> FailureOk(js, k))
    && (forall k :: 0 <= k < |js| ==> WakeupOk(js, k, hole))
  }

  /** No finalization is under way: the state between public calls. */
  predicate Quiet(js: seq<Job>) {
    forall k :: 0 <= k < |js| ==> !js[k].Sealed()
  }

  // ---------------------------------------------------------------- how one job may change

  function Weight(p: Phase): nat {
    match p
    case Final(_) => 0
    case Finishing(completing, root, _, isSealed) =>
      1 + (if completing then 0 else 1) + (if root.Some? then 0 else 1) + (if isSealed then 0 else 1)
    case _ => 5
  }

  /**
   * The root cause is written once, and a failure is also the final cause. Any other root cause becomes the final
   * cause if there is no failure, except that a timeout may be followed by another timeout.
   */
  predicate CauseKept(a: Job, b: Job) {
    a.Cause().Some? ==>
      && b.Cause().Some?
      && (b.phase.Finishing? || a.Failed() ==> b.Cause() == a.Cause())
      && (!b.Failed() ==> b.Cause() == a.Cause() || (IsTimeout(a.Cause()) && IsTimeout(b.Cause())))
  }

  /** The extra exception is recorded once, too, and no failure that was recorded is forgotten. */
  predicate ExtraKept(a: Job, b: Job) {
    && (a.Extra().Some? && b.phase.Finishing? ==> b.Extra() == a.Extra())
    && (a.SawFailure() ==> b.SawFailure())
    && (IsFailure(a.Extra()) && a.IsCancelled() && !a.Failed() && b.phase.Final? ==> b.Cause() == a.Extra())
  }

  /** A final cause that respects what the job has recorded. */
  predicate Settles(j: Job, cause: Option<Exn>) {
    CauseKept(j, j.(phase := Final(cause))) && ExtraKept(j, j.(phase := Final(cause)))
  }

  predicate Evolves(a: Job, b: Job) {
    && b.parent == a.parent && b.supervisor == a.supervisor
    && (b.attached ==> a.attached)
    && (a.attached && !b.attached ==> b.phase.Final?)
    && Weight(b.phase) <= Weight(a.phase)
    && (a.phase.Final? ==> b.phase == a.phase)
    && (a.phase.Finishing? ==> b.phase.Finishing? || b.phase.Final?)
    && (a.phase.Active? ==> !b.phase.New?)
    && (b.phase.Active? ==> a.phase.Active?)
    && (a.Completing() ==> b.Completing() || b.phase.Final?)
    && (b.IsActive() ==> a.IsActive() || a.phase.New?)
    && CauseKept(a, b) && ExtraKept(a, b)
  }

  predicate Evolved(a: seq<Job>, b: seq<Job>) {
    |a| == |b| && forall k :: 0 <= k < |a| ==> Evolves(a[k], b[k])
  }

  /**
   * Nobody but its own finalizer touches a sealed job, and a started job that nobody told to complete
   * does not complete. `but` is the job whose completion is the business of the call.
   */
  predicate LeftAlone(a: seq<Job>, b: seq<Job>, but: Option<nat>)
    requires |a| == |b|
  {
    forall k :: 0 <= k < |a| && but != Some(k) ==>
      && (a[k].Sealed() <==> b[k].Sealed()) && (a[k].Sealed() ==> b[k].phase == a[k].phase)
      && (!a[k].phase.New? && !a[k].phase.Final? && !a[k].Completing() ==> !b[k].phase.Final? && !b[k].Completing())
  }

  lemma EvolvesTrans(a: Job, b: Job, c: Job)
    requires Evolves(a, b) && Evolves(b, c)
    ensures Evolves(a, c)
  {
  }

  lemma EvolvedTrans(a: seq<Job>, b: seq<Job>, c: seq<Job>)
    requires Evolved(a, b) && Evolved(b, c)
    ensures Evolved(a, c)
  {
    forall k | 0 <= k < |a| ensures Evolves(a[k], c[k]) {
      EvolvesTrans(a[k], b[k], c[k]);
    }
  }

  /** An update of one job alone evolves the forest if it does so for that job. */
  lemma OneEvolves(js: seq<Job>, k: nat, j': Job)
    requires k < |js| && Evolves(js[k], j')
    ensures Evolved(js, js[k := j'])
    ensures Weight(j'.phase) < Weight(js[k].phase) ==> Phi(js[k := j']) < Phi(js)
  {
    if Weight(j'.phase) < Weight(js[k].phase) { PhiStrict(js, js[k := j'], k); }
  }

  // ---------------------------------------------------------------- the termination measure

  function Phi(js: seq<Job>): nat {
    if js == [] then 0 else Weight(js[0].phase) + Phi(js[1..])
  }

  lemma {:induction false} PhiMono(a: seq<Job>, b: seq<Job>)
    requires |a| == |b| && forall k :: 0 <= k < |a| ==> Weight(b[k].phase) <= Weight(a[k].phase)
    ensures Phi(b) <= Phi(a)
  {
    if a != [] { PhiMono(a[1..], b[1..]); }
  }

  lemma {:induction false} PhiStrict(a: seq<Job>, b: seq<Job>, i: nat)
    requires |a| == |b| && forall k :: 0 <= k < |a| ==> Weight(b[k].phase) <= Weight(a[k].phase)
    requires i < |a| && Weight(b[i].phase) < Weight(a[i].phase)
    ensures Phi(b) < Phi(a)
  {
    if i == 0 {
      PhiMono(a[1..], b[1..]);
    } else {
      PhiStrict(a[1..], b[1..], i - 1);
    }
  }

  lemma EvolvedPhi(a: seq<Job>, b: seq<Job>)
    requires Evolved(a, b)
    ensures Phi(b) <= Phi(a)
  {
    forall k | 0 <= k < |a| ensures Weight(b[k].phase) <= Weight(a[k].phase) {
      assert Evolves(a[k], b[k]);
    }
    PhiMono(a, b);
  }

  // ---------------------------------------------------------------- single updates keep the invariant

  function Rephase(js: seq<Job>, k: nat, ph: Phase): seq<Job>
    requires k < |js|
  {
    js[k := js[k].(phase := ph)]
  }

  /** A step of an incomplete job to another incomplete phase that loses nothing others rely on. */
  ghost predicate SafeStep(js: seq<Job>, k: nat, ph: Phase) {
    && k < |js| && !js[k].phase.Final? && !ph.Final?
    && var j := js[k].(phase := ph);
    && (js[k].HasList() ==> j.HasList())
    && (ph.New? ==> js[k].phase.New?)
    && (j.Live() ==> js[k].Live())
    && (js[k].Cause().Some? ==> j.Cause().Some?)
    && (ph.Finishing? && ph.extra.Some? ==> ph.root.Some?)
    && (j.Sealed() ==> j.Completing() && ph.root.Some? && forall d :: !ChildOf(js, d, k))
    && ((exists c :: Waits(js, k, c)) ==> j.Completing() && !j.Sealed())
  }

  lemma RephaseKeeps(js: seq<Job>, k: nat, ph: Phase, hole: Option<nat>, hole': Option<nat>)
    requires Inv(js, hole) && SafeStep(js, k, ph)
    requires hole == hole' || (hole == None && hole' == Some(k)) || (hole == Some(k) && hole' == None)
    requires WakeupOk(Rephase(js, k, ph), k, hole')
    ensures Inv(Rephase(js, k, ph), hole')
  {
    var js' := Rephase(js, k, ph);
    SameLinks(js, k, ph);
    forall i | 0 <= i < |js| ensures LinkOk(js', i) { assert LinkOk(js, i); }
    forall i | 0 <= i < |js| ensures WaiterOk(js', i) {
      assert WaiterOk(js, i) && LinkOk(js, i);
      if js[i].waiters != [] && js[i].parent == Some(k) { assert Waits(js, k, i); }
    }
    forall i | 0 <= i < |js| ensures PhaseOk(js', i) { assert PhaseOk(js, i); }
    forall i | 0 <= i < |js| ensures FailureOk(js', i) { assert FailureOk(js, i); }
    forall i | 0 <= i < |js| ensures WakeupOk(js', i, hole') {
      assert WakeupOk(js, i, hole);
      if i != k && js[i].Completing() && !js[i].Sealed() && hole != Some(i) {
        var c :| Waits(js, i, c);
        assert Waits(js', i, c);
      }
    }
  }

  lemma SameLinks(js: seq<Job>, k: nat, ph: Phase)
    requires k < |js|
    ensures forall c, p :: ChildOf(Rephase(js, k, ph), c, p) <==> ChildOf(js, c, p)
    ensures forall c, p :: Waits(Rephase(js, k, ph), p, c) <==> Waits(js, p, c)
  {
  }

  /** A live job that is not new takes a root cause. */
  function Marked(j: Job, e: Exn): Phase {
    Finishing(j.Completing(), Some(e), None, false)
  }

  lemma MarkKeeps(js: seq<Job>, k: nat, e: Exn)
    requires Inv(js, None) && k < |js| && js[k].Live() && !js[k].phase.New?
    ensures var js' := Rephase(js, k, Marked(js[k], e));
            Inv(js', None) && Evolved(js, js') && Phi(js') < Phi(js)
  {
    var js' := Rephase(js, k, Marked(js[k], e));
    assert WakeupOk(js, k, None) && PhaseOk(js, k);
    SameLinks(js, k, Marked(js[k], e));
    forall c | Waits(js, k, c) ensures js[k].Completing() { assert WaiterOk(js, c); }
    if js'[k].Completing() {
      var c :| Waits(js, k, c);
      assert Waits(js', k, c);
    }
    RephaseKeeps(js, k, Marked(js[k], e), None, None);
    OneEvolves(js, k, js[k].(phase := Marked(js[k], e)));
  }

  /** A cancelling job that is not sealed records the first later exception. */
  function WithExtra(ph: Phase, e: Exn): Phase
    requires ph.Finishing?
  {
    if ph.extra.Some? then ph else ph.(extra := Some(e))
  }

  lemma ExtraKeeps(js: seq<Job>, k: nat, e: Exn)
    requires Inv(js, None) && k < |js| && js[k].phase.Finishing? && js[k].phase.root.Some? && !js[k].Sealed()
    ensures var js' := Rephase(js, k, WithExtra(js[k].phase, e));
            Inv(js', None) && Evolved(js, js')
  {
    var js' := Rephase(js, k, WithExtra(js[k].phase, e));
    assert WakeupOk(js, k, None);
    SameLinks(js, k, WithExtra(js[k].phase, e));
    forall c | Waits(js, k, c) ensures js[k].Completing() { assert WaiterOk(js, c); }
    if js'[k].Completing() {
      var c :| Waits(js, k, c);
      assert Waits(js', k, c);
    }
    RephaseKeeps(js, k, WithExtra(js[k].phase, e), None, None);
  }

  /**
   * The slow path of completing: the job becomes Finishing and completing, and a proposed exception
   * becomes its root cause or, if it has one, its extra exception.
   */
  function Begun(j: Job, proposed: Option<Exn>): Phase {
    var root := j.Cause();
    var extra := if j.phase.Finishing? then j.phase.extra else None;
    if root.None? then Finishing(true, proposed, extra, false)
    else Finishing(true, root, if extra.Some? then extra else proposed, false)
  }

  /**
   * What a job has recorded once it was told to complete: the first exception it ever got as its root cause, and the
   * second as its extra exception.
   */
  function Recorded(j: Job, proposed: Option<Exn>): Phase {
    if j.IsCancelled() then Finishing(true, j.Cause(), if j.Extra().Some? then j.Extra() else proposed, false)
    else Finishing(true, proposed, None, false)
  }

  lemma BegunRecords(js: seq<Job>, k: nat, proposed: Option<Exn>)
    requires Inv(js, None) && k < |js| && !js[k].phase.Final?
    ensures Begun(js[k], proposed) == Recorded(js[k], proposed)
  {
    assert PhaseOk(js, k);
  }

  /** The final cause of a job told to complete with `proposed` when it need not wait. */
  function FinalOf(j: Job, proposed: Option<Exn>): Option<Exn> {
    if j.IsCancelled() then Prevails(j.Cause(), j.Extra(), proposed) else proposed
  }

  lemma RecordedPrevails(js: seq<Job>, k: nat, proposed: Option<Exn>)
    requires Inv(js, None) && k < |js| && !js[k].phase.Final?
    ensures var ph := Begun(js[k], proposed); FinalCause(ph.root, ph.extra, proposed) == FinalOf(js[k], proposed)
  {
    assert PhaseOk(js, k);
    var ph := Begun(js[k], proposed);
    if ph.root.Some? { WhoPrevails(ph.root, ph.extra, proposed); }
  }

  lemma BegunKeeps(js: seq<Job>, k: nat, proposed: Option<Exn>)
    requires Inv(js, None) && k < |js| && !js[k].phase.Final? && !js[k].Completing()
    ensures var js' := Rephase(js, k, Begun(js[k], proposed));
            Inv(js', Some(k)) && Evolved(js, js') && Phi(js') < Phi(js)
  {
    var ph := Begun(js[k], proposed);
    var js' := Rephase(js, k, ph);
    assert PhaseOk(js, k) && WakeupOk(js, k, None);
    SameLinks(js, k, ph);
    forall c: nat ensures !Waits(js, k, c) {
      if c < |js| { assert WaiterOk(js, c); }
    }
    RephaseKeeps(js, k, ph, None, Some(k));
    OneEvolves(js, k, js[k].(phase := ph));
  }

  /** Sealing a cancelled job whose children are gone, at the start of its finalization. */
  function SealedPhase(ph: Phase): Phase
    requires ph.Finishing?
  {
    ph.(isSealed := true)
  }

  lemma SealKeeps(js: seq<Job>, k: nat)
    requires Inv(js, Some(k)) && js[k].phase.Finishing? && js[k].phase.root.Some?
    requires forall d :: !ChildOf(js, d, k)
    ensures var js' := Rephase(js, k, SealedPhase(js[k].phase));
            Inv(js', None) && Phi(js') < Phi(js)
  {
    var js' := Rephase(js, k, SealedPhase(js[k].phase));
    assert WakeupOk(js, k, Some(k)) && PhaseOk(js, k);
    SameLinks(js, k, SealedPhase(js[k].phase));
    RephaseKeeps(js, k, SealedPhase(js[k].phase), Some(k), None);
    PhiStrict(js, js', k);
  }

  /** Registering something on a job gives it a list. */
  function WithList(p: Phase): Phase {
    match p
    case New(_) => New(true)
    case Active(_) => Active(true)
    case _ => p
  }

  /** The parent registers its ChildCompletion on child c. */
  function GiveToken(js: seq<Job>, c: nat, proposed: Option<Exn>): seq<Job>
    requires c < |js|
  {
    js[c := js[c].(phase := WithList(js[c].phase), waiters := js[c].waiters + [proposed])]
  }

  lemma ListKeeps(js: seq<Job>, k: nat)
    requires Inv(js, None) && k < |js|
    ensures Inv(Rephase(js, k, WithList(js[k].phase)), None)
  {
    var ph := WithList(js[k].phase);
    assert WakeupOk(js, k, None) && PhaseOk(js, k);
    if js[k].phase.Finishing? || js[k].phase.Final? {
      assert Rephase(js, k, ph) == js;
    } else {
      forall c: nat ensures !Waits(js, k, c) {
        if c < |js| { assert WaiterOk(js, c); }
      }
      RephaseKeeps(js, k, ph, None, None);
    }
  }

  lemma GiveTokenKeeps(js: seq<Job>, p: nat, c: nat, proposed: Option<Exn>)
    requires Inv(js, Some(p)) && ChildOf(js, c, p)
    requires forall d :: ChildOf(js, d, p) ==> c <= d
    requires proposed.Some? ==> js[p].Cause().Some?
    ensures Inv(GiveToken(js, c, proposed), None) && Evolved(js, GiveToken(js, c, proposed))
  {
    var js' := GiveToken(js, c, proposed);
    assert LinkOk(js, c) && WakeupOk(js, p, Some(p));
    assert !Waits(js, p, c);
    forall d, q ensures ChildOf(js', d, q) <==> ChildOf(js, d, q) {}
    forall d, q ensures Waits(js', q, d) <==> Waits(js, q, d) || (d == c && q == p) {}
    forall i | 0 <= i < |js| ensures LinkOk(js', i) { assert LinkOk(js, i); }
    forall i | 0 <= i < |js| ensures WaiterOk(js', i) { assert WaiterOk(js, i); }
    forall i | 0 <= i < |js| ensures PhaseOk(js', i) { assert PhaseOk(js, i); }
    forall i | 0 <= i < |js| ensures FailureOk(js', i) { assert FailureOk(js, i); }
    assert Waits(js', p, c);
    forall i | 0 <= i < |js| ensures WakeupOk(js', i, None) {
      assert WakeupOk(js, i, Some(p));
      if i != p && js[i].Completing() && !js[i].Sealed() {
        var d :| Waits(js, i, d);
        assert Waits(js', i, d);
      }
    }
  }

  /** The job becomes final, leaves its parent's list, and its ChildCompletion node is taken off to be run. */
  function Finish(js: seq<Job>, k: nat, cause: Option<Exn>): seq<Job>
    requires k < |js|
  {
    js[k := js[k].(phase := Final(cause), attached := false, waiters := [])]
  }

  /** The parent whose ChildCompletion the finished job holds. */
  function Woken(js: seq<Job>, k: nat): Option<nat>
    requires k < |js|
  {
    if js[k].waiters == [] then None else js[k].parent
  }

  lemma FinishKeeps(js: seq<Job>, k: nat, hole: Option<nat>, cause: Option<Exn>)
    requires Inv(js, hole) && k < |js| && !js[k].phase.Final?
    requires hole.None? || hole == Some(k)
    requires forall d :: !ChildOf(js, d, k)
    requires js[k].Completing() ==> hole == Some(k) || js[k].Sealed()
    requires forall p: nat :: cause.Some? && cause.value.Failure? && ChildOf(js, k, p) ==>
               js[p].supervisor || !js[p].Live()
    ensures Inv(Finish(js, k, cause), Woken(js, k))
    ensures Woken(js, k).Some? ==> forall d :: ChildOf(Finish(js, k, cause), d, Woken(js, k).value) ==> k < d
    ensures Phi(Finish(js, k, cause)) < Phi(js)
  {
    var js' := Finish(js, k, cause);
    assert LinkOk(js, k) && WaiterOk(js, k);
    forall c, p ensures ChildOf(js', c, p) <==> ChildOf(js, c, p) && c != k {}
    forall i | 0 <= i < |js| ensures LinkOk(js', i) && WaiterOk(js', i) { FinishLinks(js, k, hole, cause, i); }
    forall i | 0 <= i < |js| ensures PhaseOk(js', i) { assert PhaseOk(js, i); }
    forall i | 0 <= i < |js| ensures FailureOk(js', i) { assert FailureOk(js, i) && LinkOk(js, i); }
    forall i | 0 <= i < |js| ensures WakeupOk(js', i, Woken(js, k)) { FinishWakeups(js, k, hole, cause, i); }
    PhiStrict(js, js', k);
  }

  lemma FinishLinks(js: seq<Job>, k: nat, hole: Option<nat>, cause: Option<Exn>, i: nat)
    requires Inv(js, hole) && k < |js| && i < |js| && !js[k].phase.Final?
    requires forall d :: !ChildOf(js, d, k)
    ensures LinkOk(Finish(js, k, cause), i) && WaiterOk(Finish(js, k, cause), i)
  {
    var js' := Finish(js, k, cause);
    assert LinkOk(js, i) && WaiterOk(js, i) && LinkOk(js, k);
    forall c, p ensures ChildOf(js', c, p) <==> ChildOf(js, c, p) && c != k {}
    assert !ChildOf(js, i, k);
  }

  lemma FinishWakeups(js: seq<Job>, k: nat, hole: Option<nat>, cause: Option<Exn>, i: nat)
    requires Inv(js, hole) && k < |js| && i < |js| && !js[k].phase.Final? && (hole.None? || hole == Some(k))
    requires js[k].Completing() ==> hole == Some(k) || js[k].Sealed()
    ensures WakeupOk(Finish(js, k, cause), i, Woken(js, k))
  {
    var js' := Finish(js, k, cause);
    assert LinkOk(js, k) && WaiterOk(js, k) && WakeupOk(js, i, hole);
    forall c, p ensures Waits(js', p, c) <==> Waits(js, p, c) && c != k {}
    if js[i].Completing() && !js[i].Sealed() && i != k {
      var d :| Waits(js, i, d);
      OneWaiter(js, i, d, k, hole);
      if d != k { assert Waits(js', i, d); }
    }
  }

  /** A job never has two pending ChildCompletions. */
  lemma OneWaiter(js: seq<Job>, p: nat, c: nat, d: nat, hole: Option<nat>)
    requires Inv(js, hole) && Waits(js, p, c)
    ensures Waits(js, p, d) ==> d == c
    ensures forall e :: Waits(js, p, e) ==> e == c
  {
    forall e | Waits(js, p, e) ensures e == c {
      assert WaiterOk(js, c) && WaiterOk(js, e);
      assert ChildOf(js, c, p) && ChildOf(js, e, p);
    }
  }

  // ---------------------------------------------------------------- creation and starting

  /** Starting a job, which attaching a child to it does first. */
  function Started(ph: Phase): Phase {
    if ph.New? then Active(ph.hasList) else ph
  }

  lemma StartKeeps(js: seq<Job>, k: nat)
    requires Inv(js, None) && k < |js|
    ensures Inv(Rephase(js, k, Started(js[k].phase)), None)
  {
    var ph := Started(js[k].phase);
    if js[k].phase.New? {
      assert WakeupOk(js, k, None);
      forall c: nat ensures !Waits(js, k, c) {
        if c < |js| { assert WaiterOk(js, c); }
      }
      RephaseKeeps(js, k, ph, None, None);
    } else {
      assert Rephase(js, k, ph) == js;
    }
  }

  /** A new job that is linked nowhere: it has no parent, or its parent is final. */
  lemma AppendKeeps(js: seq<Job>, j: Job)
    requires Inv(js, None)
    requires j.waiters == [] && (j.phase.New? || j.phase.Active?) && !j.attached
    requires j.parent.Some? ==> j.parent.value < |js| && js[j.parent.value].phase.Final?
    ensures Inv(js + [j], None)
  {
    var js' := js + [j];
    forall c: nat, p: nat ensures ChildOf(js', c, p) <==> ChildOf(js, c, p) {
      if c < |js| && js[c].parent.Some? { assert LinkOk(js, c); }
    }
    forall c, p ensures Waits(js', p, c) <==> Waits(js, p, c) {}
    forall i | 0 <= i < |js'| ensures LinkOk(js', i) { if i < |js| { assert LinkOk(js, i); } }
    forall i | 0 <= i < |js'| ensures WaiterOk(js', i) { if i < |js| { assert WaiterOk(js, i) && LinkOk(js, i); } }
    forall i | 0 <= i < |js'| ensures PhaseOk(js', i) { if i < |js| { assert PhaseOk(js, i); } }
    forall i | 0 <= i < |js'| ensures FailureOk(js', i) { if i < |js| { assert FailureOk(js, i) && LinkOk(js, i); } }
    forall i | 0 <= i < |js'| ensures WakeupOk(js', i, None) { if i < |js| { assert WakeupOk(js, i, None); } }
  }

  /** A new job linked at the end of the list of an incomplete parent. */
  lemma AttachKeeps(js: seq<Job>, p: nat, j: Job)
    requires Inv(js, None) && p < |js|
    requires js[p].phase == Active(true) || (js[p].phase.Finishing? && !js[p].Sealed())
    requires j.waiters == [] && (j.phase.New? || j.phase.Active?) && j.attached && j.parent == Some(p)
    ensures Inv(js + [j], None)
  {
    var js' := js + [j];
    forall c: nat, q: nat ensures ChildOf(js', c, q) <==> ChildOf(js, c, q) || (c == |js| && q == p) {
      if c < |js| && js[c].parent.Some? { assert LinkOk(js, c); }
    }
    forall c, q ensures Waits(js', q, c) <==> Waits(js, q, c) {}
    forall i | 0 <= i < |js'| ensures LinkOk(js', i) { if i < |js| { assert LinkOk(js, i); } }
    forall i | 0 <= i < |js'| ensures WaiterOk(js', i) { if i < |js| { assert WaiterOk(js, i) && LinkOk(js, i); } }
    forall i | 0 <= i < |js'| ensures PhaseOk(js', i) { if i < |js| { assert PhaseOk(js, i); } }
    forall i | 0 <= i < |js'| ensures FailureOk(js', i) { if i < |js| { assert FailureOk(js, i) && LinkOk(js, i); } }
    forall i | 0 <= i < |js'| ensures WakeupOk(js', i, None) { if i < |js| { assert WakeupOk(js, i, None); } }
  }

  // ---------------------------------------------------------------- what holds between public calls

  /** k is a or hangs below a through linked jobs. */
  predicate Below(js: seq<Job>, k: nat, a: nat)
    requires k < |js|
    decreases k
  {
    k == a || (js[k].attached && js[k].parent.Some? && js[k].parent.value < k && Below(js, js[k].parent.value, a))
  }

  /** Structured completion: no job is final while a job linked below it, at any depth, is incomplete. */
  lemma {:induction false} StructuredCompletion(js: seq<Job>, k: nat, a: nat)
    requires Inv(js, None) && k < |js| && a < |js|
    requires Below(js, k, a) && !js[k].IsCompleted()
    ensures !js[a].IsCompleted()
    decreases k
  {
    assert LinkOk(js, k);
    if k != a {
      StructuredCompletion(js, js[k].parent.value, a);
    }
  }

  /**
   * No lost wake-up: a completing job that is not final has exactly one pending ChildCompletion. It
   * sits on an incomplete linked child, and all earlier children are final.
   */
  lemma NoLostWakeup(js: seq<Job>, p: nat) returns (c: nat)
    requires Inv(js, None) && Quiet(js) && p < |js|
    requires js[p].Completing()
    ensures Waits(js, p, c) && |js[c].waiters| == 1 && !js[c].IsCompleted()
    ensures forall e: nat :: Waits(js, p, e) ==> e == c
    ensures forall d: nat :: ParentIs(js, d, p) && d < c ==> js[d].IsCompleted()
  {
    assert WakeupOk(js, p, None);
    c :| Waits(js, p, c);
    assert LinkOk(js, c) && WaiterOk(js, c);
    OneWaiter(js, p, c, c, None);
    forall d: nat | ParentIs(js, d, p) && d < c ensures js[d].IsCompleted() {
      assert LinkOk(js, d) && !ChildOf(js, d, p);
    }
  }

  /** Hence a job that was told to complete is final as soon as all its children are. */
  lemma FinalOnceChildrenAre(js: seq<Job>, p: nat)
    requires Inv(js, None) && Quiet(js) && p < |js|
    requires js[p].Completing() || js[p].IsCompleted()
    ensures (forall c: nat :: ParentIs(js, c, p) ==> js[c].IsCompleted()) ==> js[p].IsCompleted()
  {
    if js[p].Completing() {
      var c := NoLostWakeup(js, p);
      assert ParentIs(js, c, p) && !js[c].IsCompleted();
    }
  }

  // ---------------------------------------------------------------- one job over a whole run

  /** What no sequence of calls undoes (the Job state table of `Job.hpp` read as an order). */
  predicate Lasting(a: Job, b: Job) {
    && b.parent == a.parent && b.supervisor == a.supervisor
    && (a.IsCompleted() ==> b.phase == a.phase)
    && (a.IsCancelled() ==> b.IsCancelled())
    && (!a.phase.New? && !a.IsActive() ==> !b.IsActive())
    && (!a.phase.New? ==> !b.phase.New?)
    && (a.phase.Finishing? ==> b.phase.Finishing? || b.phase.Final?)
    && (a.Completing() ==> b.Completing() || b.phase.Final?)
    && (a.attached && !b.IsCompleted() ==> b.attached)
    && CauseKept(a, b) && ExtraKept(a, b)
  }

  ghost predicate AllLasting(a: seq<Job>, b: seq<Job>) {
    |a| <= |b| && forall k :: 0 <= k < |a| ==> Lasting(a[k], b[k])
  }

  lemma EvolvedLasts(a: seq<Job>, b: seq<Job>)
    requires Evolved(a, b)
    ensures AllLasting(a, b)
  {
    forall k | 0 <= k < |a| ensures Lasting(a[k], b[k]) { assert Evolves(a[k], b[k]); }
  }

  lemma LastingTrans(a: seq<Job>, b: seq<Job>, c: seq<Job>)
    requires AllLasting(a, b) && AllLasting(b, c)
    ensures AllLasting(a, c)
  {
    forall k | 0 <= k < |a| ensures Lasting(a[k], c[k]) {
      assert Lasting(a[k], b[k]) && Lasting(b[k], c[k]);
    }
  }

  /**
   * Structured completion over a run: what hung below job x stays there until it is final, and keeps x from becoming
   * final.
   */
  lemma {:induction false} StructuredRun(a: seq<Job>, b: seq<Job>, k: nat, x: nat)
    requires Inv(a, None) && Inv(b, None) && AllLasting(a, b) && k < |a| && x < |a|
    requires Below(a, k, x) && !a[k].IsCompleted() && !b[k].IsCompleted()
    ensures Below(b, k, x) && !b[x].IsCompleted()
    decreases k
  {
    assert Lasting(a[k], b[k]) && LinkOk(a, k) && LinkOk(b, k);
    if k != x {
      var p := a[k].parent.value;
      assert LinkOk(a, p);
      StructuredRun(a, b, p, x);
    }
  }

  /** In particular, a job that has become final left no child behind: each of its children is final. */
  lemma ChildrenFirst(a: seq<Job>, b: seq<Job>, c: nat, p: nat)
    requires Inv(a, None) && Inv(b, None) && AllLasting(a, b) && ParentIs(a, c, p)
    requires p < c && !a[p].IsCompleted() && b[p].IsCompleted()
    ensures b[c].IsCompleted()
  {
    assert LinkOk(a, c) && LinkOk(b, c) && Lasting(a[c], b[c]);
  }

  /** The three flags of a job show one row of the table, and only a new job shows none of them. */
  lemma FlagsMatchTable(j: Job)
    ensures !(j.IsActive() && (j.IsCompleted() || j.IsCancelled()))
    ensures !j.IsActive() && !j.IsCompleted() && !j.IsCancelled() <==> j.phase.New?
  {
  }
}
