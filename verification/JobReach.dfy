/**
 * Who is reached by a cancellation: the declarative answer, and the facts the cascade keeps while
 * it runs so that it ends up with exactly that answer.
 */
module JobReach {
  import opened Options
  import opened Causes
  import opened JobTree

  // ---------------------------------------------------------------- the declarative answer

  /** The parent a failure of k is reported to, if any: supervisors ignore their children's failures. */
  function FailureParent(js: seq<Job>, k: nat): (p: Option<nat>)
    requires k < |js|
    ensures p.Some? ==> p.value < k && js[k].parent == p && !js[p.value].supervisor
  {
    if js[k].attached && js[k].parent.Some? && js[k].parent.value < k && !js[js[k].parent.value].supervisor
    then js[k].parent else None
  }

  /** The topmost job a failure of k climbs to. */
  function Top(js: seq<Job>, k: nat): (t: nat)
    requires k < |js|
    ensures t <= k
    decreases k
  {
    var p := FailureParent(js, k);
    if p.Some? then Top(js, p.value) else k
  }

  /** The jobs a failure of j climbs through, j and Top(j) included. */
  predicate OnClimb(js: seq<Job>, j: nat, k: nat)
    requires j < |js|
    decreases j
  {
    k == j || (FailureParent(js, j).Some? && OnClimb(js, FailureParent(js, j).value, k))
  }

  /** Where a cancellation of j with this cause starts to spread downwards. */
  function Source(js: seq<Job>, j: nat, cause: Exn): nat
    requires j < |js|
  {
    if IsCancellation(cause) then j else Top(js, j)
  }

  /** Every job cancelled by `cancel(cause)` on j when nothing is cancelling yet. */
  predicate Reached(js: seq<Job>, j: nat, cause: Exn, k: nat)
    requires j < |js| && k < |js|
  {
    Below(js, k, Source(js, j, cause))
  }

  // ---------------------------------------------------------------- the scope of one cascade

  /**
   * The jobs one call may touch at all (`tree`), those a cancellation of `origin` with `news` may cancel (`reach`)
   * and, within these, the climb of the failure. All but the first are only kept up when `exact` holds, which is for a
   * call that finds nothing cancelling.
   */
  datatype Scope = Scope(exact: bool, reach: set<nat>, climb: set<nat>, tree: set<nat>, origin: nat, news: Exn)

  /** The root of the tree of linked jobs that k is in. */
  function Root(js: seq<Job>, k: nat): (r: nat)
    requires k < |js|
    ensures r <= k
    decreases k
  {
    if js[k].attached && js[k].parent.Some? && js[k].parent.value < k then Root(js, js[k].parent.value) else k
  }

  function TreeOf(js: seq<Job>, j: nat): set<nat>
    requires j < |js|
  {
    set k | 0 <= k < |js| && Root(js, k) == Root(js, j)
  }

  /** Anything may be cancelled, but only in the tree of j. */
  function Anywhere(js: seq<Job>, j: nat): Scope
    requires j < |js|
  {
    Scope(false, {}, {}, TreeOf(js, j), j, DEFAULT_CANCELLATION)
  }

  /** Links do not leave the tree. */
  ghost predicate TreeClosed(js: seq<Job>, tree: set<nat>) {
    forall c: nat, p: nat :: ChildOf(js, c, p) ==> (c in tree <==> p in tree)
  }

  lemma TreeStarts(js: seq<Job>, j: nat)
    requires j < |js|
    ensures TreeClosed(js, TreeOf(js, j)) && j in TreeOf(js, j)
  {
  }

  /** Jobs outside the tree stay as they are. */
  ghost predicate Outside(a: seq<Job>, b: seq<Job>, tree: set<nat>)
    requires |a| == |b|
  {
    forall k :: 0 <= k < |a| && k !in tree ==> b[k] == a[k]
  }

  ghost predicate ScopeShape(js: seq<Job>, g: Scope) {
    && g.reach <= g.tree
    && (g.origin in g.climb || forall p: nat :: ChildOf(js, g.origin, p) ==> p !in g.reach)
    && (forall c: nat, p: nat :: ChildOf(js, c, p) && p in g.reach ==> c in g.reach)
    && (forall k: nat :: k in g.climb ==> k in g.reach && k < |js|)
    && (forall k: nat, p: nat :: k in g.climb && ChildOf(js, k, p) && !js[p].supervisor ==> p in g.climb)
    && (forall k: nat, p: nat :: k in g.climb && ChildOf(js, k, p) && js[p].supervisor ==> p !in g.reach)
    && (forall k: nat, q: nat, p: nat ::
          k in g.climb && q in g.climb && ParentIs(js, k, p) && ParentIs(js, q, p) ==> k == q)
  }

  ghost predicate ScopeJob(js: seq<Job>, g: Scope, k: nat)
    requires k < |js|
  {
    var j := js[k];
    k in g.tree ==>
    && (j.phase.Finishing? && j.Failed() ==> k in g.climb)
    && (j.phase.Finishing? && j.phase.root.Some? && !j.Failed() && k in g.reach ==>
          forall p: nat :: ChildOf(js, k, p) && p in g.reach ==> p < |js| && !js[p].Live())
    && (j.phase.Finishing? && j.phase.extra.Some? && j.phase.extra.value.Failure? ==> j.Failed())
    && (forall i :: 0 <= i < |j.waiters| ==> j.waiters[i].None?)
    && (k in g.climb ==> g.news.Failure? && (j.Live() || j.Cause() == Some(g.news)))
    && (k in g.climb && j.Live() ==> forall p: nat :: ParentIs(js, k, p) && p in g.climb ==> p < |js| && js[p].Live())
  }

  ghost predicate InScope(js: seq<Job>, g: Scope) {
    && TreeClosed(js, g.tree)
    && (g.exact ==> ScopeShape(js, g) && forall k :: 0 <= k < |js| ==> ScopeJob(js, g, k))
  }

  /** The news of k's cancellation has gone everywhere it has to go. */
  ghost predicate Closed(js: seq<Job>, k: nat)
    requires k < |js|
  {
    && (forall c: nat :: ParentIs(js, c, k) ==> !js[c].Live())
    && (js[k].Failed() ==> forall p: nat :: ParentIs(js, k, p) && p < |js| && !js[p].supervisor ==> !js[p].Live())
  }

  /** What became of job k between two states of one cascade. */
  ghost predicate SpreadJob(a: seq<Job>, b: seq<Job>, g: Scope, k: nat)
    requires k < |a| == |b|
  {
    && (a[k].Live() && !b[k].Live() ==>
          if b[k].IsCancelled() then k in g.reach && Closed(b, k) else k !in g.reach)
    && (a[k].IsCancelled() ==> (a[k].Failed() <==> b[k].Failed()))
    && (a[k].Live() && b[k].IsCancelled() && k !in g.climb ==>
          && !b[k].Failed()
          && (k != g.origin ==> b[k].Cause() == Some(DEFAULT_CANCELLATION))
          && (k == g.origin && !g.news.Timeout? ==> b[k].Cause() == Some(g.news)))
  }

  ghost predicate Spread(a: seq<Job>, b: seq<Job>, g: Scope)
    requires |a| == |b|
  {
    g.exact ==> forall k :: 0 <= k < |a| ==> SpreadJob(a, b, g, k)
  }

  /** Nobody linked to k waits for the news that k is cancelled. */
  ghost predicate NewsOut(js: seq<Job>, k: nat)
    requires k < |js|
  {
    && (forall c: nat :: ChildOf(js, c, k) ==> !js[c].Live())
    && (js[k].phase.Finishing? && js[k].Failed() ==>
          forall p: nat :: ChildOf(js, k, p) && !js[p].supervisor ==> !js[p].Live())
  }

  /** Whoever got cancelled between two states has passed the news on, `but` excepted. */
  ghost predicate Passed(a: seq<Job>, b: seq<Job>, but: Option<nat>)
    requires |a| == |b|
  {
    forall k :: 0 <= k < |a| && but != Some(k) && a[k].Live() && b[k].IsCancelled() ==> NewsOut(b, k)
  }

  lemma NewsOutStable(a: seq<Job>, b: seq<Job>, k: nat)
    requires Evolved(a, b) && k < |a| && NewsOut(a, k) && a[k].IsCancelled()
    ensures NewsOut(b, k)
  {
    assert Evolves(a[k], b[k]);
    forall c: nat | ChildOf(b, c, k) ensures !b[c].Live() {
      assert Evolves(a[c], b[c]);
      assert ChildOf(a, c, k);
    }
    if b[k].phase.Finishing? && b[k].Failed() {
      forall p: nat | ChildOf(b, k, p) && !b[p].supervisor ensures !b[p].Live() {
        assert Evolves(a[p], b[p]);
        assert ChildOf(a, k, p);
      }
    }
  }

  lemma PassedTrans(a: seq<Job>, b: seq<Job>, c: seq<Job>, but: Option<nat>)
    requires Evolved(a, b) && Evolved(b, c) && Passed(a, b, but) && Passed(b, c, but)
    ensures Passed(a, c, but)
  {
    forall k | 0 <= k < |a| && but != Some(k) && a[k].Live() && c[k].IsCancelled() ensures NewsOut(c, k) {
      assert Evolves(a[k], b[k]) && Evolves(b[k], c[k]);
      if b[k].IsCancelled() { NewsOutStable(b, c, k); }
    }
  }

  /** Nobody is linked to a final job. */
  lemma FinalNewsOut(js: seq<Job>, k: nat)
    requires Inv(js, None) && k < |js| && js[k].phase.Final?
    ensures NewsOut(js, k)
  {
    forall c: nat | c < |js| ensures !ChildOf(js, c, k) {
      assert LinkOk(js, c);
    }
  }

  lemma ClosedStable(a: seq<Job>, b: seq<Job>, k: nat)
    requires Evolved(a, b) && k < |a| && Closed(a, k) && !a[k].Live()
    requires a[k].Failed() <==> b[k].Failed()
    ensures Closed(b, k)
  {
    forall c: nat | ParentIs(b, c, k) ensures !b[c].Live() {
      assert Evolves(a[c], b[c]);
      assert ParentIs(a, c, k);
    }
    if b[k].Failed() {
      forall p: nat | ParentIs(b, k, p) && p < |b| && !b[p].supervisor ensures !b[p].Live() {
        assert Evolves(a[k], b[k]) && Evolves(a[p], b[p]);
        assert ParentIs(a, k, p);
      }
    }
  }

  lemma SpreadTrans(a: seq<Job>, b: seq<Job>, c: seq<Job>, g: Scope)
    requires Evolved(a, b) && Evolved(b, c)
    requires Spread(a, b, g) && Spread(b, c, g)
    ensures Spread(a, c, g)
  {
    if g.exact {
      forall k | 0 <= k < |a| ensures SpreadJob(a, c, g, k) {
        assert SpreadJob(a, b, g, k) && SpreadJob(b, c, g, k);
        assert Evolves(a[k], b[k]) && Evolves(b[k], c[k]);
        if a[k].Live() && !b[k].Live() && b[k].IsCancelled() {
          ClosedStable(b, c, k);
        }
      }
    }
  }

  /** What every part of a cascade promises about the forest. */
  ghost predicate Step(a: seq<Job>, b: seq<Job>, but: Option<nat>, g: Scope) {
    && Evolved(a, b) && LeftAlone(a, b, but) && Outside(a, b, g.tree)
    && Spread(a, b, g) && Passed(a, b, but)
  }

  lemma StepTrans(a: seq<Job>, b: seq<Job>, c: seq<Job>, but: Option<nat>, g: Scope)
    requires Step(a, b, but, g) && Step(b, c, but, g)
    ensures Step(a, c, but, g)
  {
    EvolvedTrans(a, b, c);
    SpreadTrans(a, b, c, g);
    PassedTrans(a, b, c, but);
  }

  // ---------------------------------------------------------------- single updates stay in scope

  /** When `cancel(cause)` may arrive at j within the scope. */
  ghost predicate CancelOk(js: seq<Job>, j: nat, cause: Exn, g: Scope)
    requires j < |js|
  {
    && j in g.reach
    && (cause.Failure? ==> j in g.climb && cause == g.news)
    && (js[j].Live() && !cause.Failure? ==>
          && cause == (if j == g.origin then g.news else DEFAULT_CANCELLATION) && j !in g.climb
          && forall p: nat :: ChildOf(js, j, p) && p in g.reach ==> p < |js| && !js[p].Live())
    && (js[j].Live() && j in g.climb ==> forall q: nat :: q in g.climb && ParentIs(js, q, j) ==> !js[q].Live())
  }

  /** An update of job k alone that stays in scope if it does so for k. */
  lemma ScopeKeeps(js: seq<Job>, k: nat, j': Job, g: Scope)
    requires InScope(js, g) && k < |js|
    requires j'.parent == js[k].parent && j'.supervisor == js[k].supervisor && (j'.attached ==> js[k].attached)
    requires j'.Live() ==> js[k].Live()
    requires g.exact ==> ScopeJob(js[k := j'], g, k)
    requires g.exact && k in g.climb && js[k].Live() && !j'.Live() ==>
               forall q: nat :: q in g.climb && ParentIs(js, q, k) ==> !js[q].Live()
    ensures InScope(js[k := j'], g)
  {
    var js' := js[k := j'];
    forall c: nat, p: nat | ChildOf(js', c, p) ensures ChildOf(js, c, p) {}
    if g.exact {
      assert ScopeJob(js, g, k);
      forall c: nat, p: nat ensures ParentIs(js', c, p) <==> ParentIs(js, c, p) {}
      forall i | 0 <= i < |js| ensures ScopeJob(js', g, i) {
        assert ScopeJob(js, g, i);
      }
    }
  }

  lemma MarkInScope(js: seq<Job>, k: nat, ph: Phase, e: Exn, g: Scope)
    requires InScope(js, g) && k < |js| && js[k].Live()
    requires ph.Finishing? && ph.root == Some(e) && ph.extra.None?
    requires g.exact ==> CancelOk(js, k, e, g)
    ensures InScope(Rephase(js, k, ph), g)
  {
    if g.exact { assert ScopeJob(js, g, k); }
    ScopeKeeps(js, k, js[k].(phase := ph), g);
  }

  lemma ExtraInScope(js: seq<Job>, k: nat, e: Exn, g: Scope)
    requires InScope(js, g) && k < |js| && js[k].phase.Finishing? && js[k].phase.root.Some?
    requires g.exact ==> CancelOk(js, k, e, g)
    ensures InScope(Rephase(js, k, WithExtra(js[k].phase, e)), g)
    ensures Spread(js, Rephase(js, k, WithExtra(js[k].phase, e)), g)
  {
    if g.exact { assert ScopeJob(js, g, k); }
    ScopeKeeps(js, k, js[k].(phase := WithExtra(js[k].phase, e)), g);
  }

  lemma SealInScope(js: seq<Job>, k: nat, g: Scope)
    requires InScope(js, g) && k < |js| && js[k].phase.Finishing?
    ensures InScope(Rephase(js, k, SealedPhase(js[k].phase)), g)
  {
    if g.exact { assert ScopeJob(js, g, k); }
    ScopeKeeps(js, k, js[k].(phase := SealedPhase(js[k].phase)), g);
  }

  lemma TokenInScope(js: seq<Job>, c: nat, proposed: Option<Exn>, g: Scope)
    requires InScope(js, g) && c < |js|
    requires g.exact ==> proposed.None?
    ensures InScope(GiveToken(js, c, proposed), g)
    ensures Spread(js, GiveToken(js, c, proposed), g)
  {
    if g.exact { assert ScopeJob(js, g, c); }
    ScopeKeeps(js, c, GiveToken(js, c, proposed)[c], g);
  }

  lemma FinishInScope(js: seq<Job>, k: nat, cause: Option<Exn>, g: Scope)
    requires InScope(js, g) && k < |js|
    requires (js[k].IsCancelled() <==> cause.Some?) && Settles(js[k], cause)
    requires g.exact ==> (js[k].Failed() <==> cause.Some? && cause.value.Failure?)
    requires g.exact && js[k].Live() ==> k !in g.reach
    ensures InScope(Finish(js, k, cause), g)
  {
    if g.exact { assert ScopeJob(js, g, k); }
    ScopeKeeps(js, k, Finish(js, k, cause)[k], g);
  }

  /** A cancellation passed on to a child that is still linked. */
  lemma ChildCancelOk(js: seq<Job>, j: nat, c: nat, e: Exn, g: Scope)
    requires InScope(js, g) && g.exact && ChildOf(js, c, j) && j in g.reach && !js[j].Live()
    requires e == DEFAULT_CANCELLATION
    ensures CancelOk(js, c, e, g)
  {
    assert ScopeJob(js, g, c);
    assert ParentIs(js, c, j);
  }

  /** A failure passed on to a parent that is not a supervisor. */
  lemma ParentCancelOk(js: seq<Job>, j: nat, p: nat, e: Exn, g: Scope)
    requires InScope(js, g) && g.exact && ChildOf(js, j, p) && !js[p].supervisor
    requires j in g.climb && !js[j].Live() && e.Failure? && e == g.news
    ensures CancelOk(js, p, e, g)
  {
    assert ParentIs(js, j, p);
    forall q: nat | q in g.climb && ParentIs(js, q, p) ensures q == j {}
  }

  // ---------------------------------------------------------------- the cascade reaches exactly the declared jobs

  /** Nothing incomplete is cancelling in the tree of j. */
  predicate NothingCancelling(js: seq<Job>, j: nat)
    requires j < |js|
  {
    forall k :: 0 <= k < |js| && Root(js, k) == Root(js, j) ==> js[k].IsCompleted() || !js[k].IsCancelled()
  }

  lemma {:induction false} RootOfBelow(js: seq<Job>, k: nat, a: nat)
    requires k < |js| && a < |js| && Below(js, k, a)
    ensures Root(js, k) == Root(js, a)
    decreases k
  {
    if k != a { RootOfBelow(js, js[k].parent.value, a); }
  }

  lemma {:induction false} RootOfClimb(js: seq<Job>, j: nat, k: nat)
    requires j < |js| && k < |js| && OnClimb(js, j, k)
    ensures Root(js, k) == Root(js, j)
    decreases j
  {
    if k != j { RootOfClimb(js, FailureParent(js, j).value, k); }
  }

  lemma {:induction false} RootOfTop(js: seq<Job>, j: nat)
    requires j < |js|
    ensures Root(js, Top(js, j)) == Root(js, j)
    decreases j
  {
    if FailureParent(js, j).Some? { RootOfTop(js, FailureParent(js, j).value); }
  }

  function ScopeOf(js: seq<Job>, j: nat, cause: Exn): Scope
    requires j < |js|
  {
    Scope(true,
          (set k | 0 <= k < |js| && Reached(js, j, cause, k)),
          if IsCancellation(cause) then {} else (set k | 0 <= k < |js| && OnClimb(js, j, k)),
          TreeOf(js, j), j, cause)
  }

  lemma {:induction false} BelowTrans(js: seq<Job>, k: nat, a: nat, b: nat)
    requires k < |js| && a < |js| && Below(js, k, a) && Below(js, a, b)
    ensures Below(js, k, b)
    decreases k
  {
    if k != a { BelowTrans(js, js[k].parent.value, a, b); }
  }

  lemma {:induction false} BelowIsLater(js: seq<Job>, k: nat, a: nat)
    requires k < |js| && Below(js, k, a)
    ensures a <= k
    decreases k
  {
    if k != a { BelowIsLater(js, js[k].parent.value, a); }
  }

  /** The climb from j is a path: it stays within the reach, ends at Top(j), and never forks. */
  lemma {:induction false} ClimbPath(js: seq<Job>, j: nat, k: nat)
    requires j < |js| && k < |js| && OnClimb(js, j, k)
    ensures k <= j && Top(js, k) == Top(js, j)
    ensures Below(js, k, Top(js, j)) && Below(js, j, k)
    ensures FailureParent(js, k).Some? ==> OnClimb(js, j, FailureParent(js, k).value)
    decreases j
  {
    if k == j {
      TopAbove(js, j);
      if FailureParent(js, j).Some? { assert OnClimb(js, FailureParent(js, j).value, FailureParent(js, j).value); }
    } else {
      ClimbPath(js, FailureParent(js, j).value, k);
    }
  }

  lemma {:induction false} TopAbove(js: seq<Job>, j: nat)
    requires j < |js|
    ensures Below(js, j, Top(js, j)) && FailureParent(js, Top(js, j)).None? && OnClimb(js, j, Top(js, j))
    decreases j
  {
    if FailureParent(js, j).Some? { TopAbove(js, FailureParent(js, j).value); }
  }

  /** Two jobs of the climb with the same parent are the same job. */
  lemma {:induction false} ClimbUnique(js: seq<Job>, j: nat, k: nat, q: nat)
    requires j < |js| && k < |js| && q < |js| && OnClimb(js, j, k) && OnClimb(js, j, q)
    requires js[k].parent.Some? && js[k].parent == js[q].parent
    requires js[k].parent.value < k && js[q].parent.value < q
    ensures k == q
    decreases j
  {
    if k != j && q != j {
      ClimbUnique(js, FailureParent(js, j).value, k, q);
    } else if k == j && q != j {
      ClimbPath(js, FailureParent(js, j).value, q);
    } else if q == j && k != j {
      ClimbPath(js, FailureParent(js, j).value, k);
    }
  }

  lemma LinkFacts(js: seq<Job>, k: nat)
    requires Inv(js, None) && k < |js|
    ensures forall p: nat :: ParentIs(js, k, p) ==> p < k
    ensures !js[k].IsCompleted() && FailureParent(js, k).None? ==>
              forall p: nat :: ParentIs(js, k, p) ==> js[p].supervisor || js[p].IsCompleted()
  {
    assert LinkOk(js, k);
  }

  /** The climb only meets incomplete jobs, and leaves no linked parent that is not a supervisor. */
  lemma ClimbShape(js: seq<Job>, j: nat, k: nat, p: nat)
    requires Inv(js, None) && j < |js| && k < |js| && OnClimb(js, j, k) && ParentIs(js, k, p)
    requires !js[j].IsCompleted()
    ensures p < k && !js[k].IsCompleted()
    ensures !js[p].supervisor && !js[p].IsCompleted() ==> OnClimb(js, j, p)
    ensures js[p].supervisor ==> k == Top(js, j) && !Below(js, p, Top(js, j))
  {
    ClimbPath(js, j, k);
    ClimbIncomplete(js, j, k);
    assert LinkOk(js, k);
    if js[p].supervisor && Below(js, p, Top(js, j)) {
      assert Top(js, k) == k;
      BelowIsLater(js, p, k);
    }
  }

  lemma {:induction false} ClimbIncomplete(js: seq<Job>, j: nat, k: nat)
    requires Inv(js, None) && j < |js| && k < |js| && OnClimb(js, j, k) && !js[j].IsCompleted()
    ensures !js[k].IsCompleted()
    decreases j
  {
    assert LinkOk(js, j);
    if k != j { ClimbIncomplete(js, FailureParent(js, j).value, k); }
  }

  /** A forest in which nothing is cancelling is within the scope of a cancellation that starts now. */
  lemma ScopeStarts(js: seq<Job>, j: nat, cause: Exn)
    requires Inv(js, None) && j < |js| && NothingCancelling(js, j) && !js[j].IsCompleted()
    ensures InScope(js, ScopeOf(js, j, cause))
    ensures CancelOk(js, j, cause, ScopeOf(js, j, cause))
  {
    var g := ScopeOf(js, j, cause);
    TopAbove(js, j);
    TreeStarts(js, j);
    ScopeShapeStarts(js, j, cause);
    forall k | 0 <= k < |js| ensures ScopeJob(js, g, k) { ScopeJobStarts(js, j, cause, k); }
    if IsCancellation(cause) {
      forall p: nat | ChildOf(js, j, p) ensures p !in g.reach {
        if p in g.reach { BelowIsLater(js, p, j); }
      }
    } else {
      forall q: nat | q in g.climb && ParentIs(js, q, j) ensures false {
        ClimbPath(js, j, q);
        LinkFacts(js, q);
      }
    }
  }

  lemma ScopeShapeStarts(js: seq<Job>, j: nat, cause: Exn)
    requires Inv(js, None) && j < |js| && !js[j].IsCompleted()
    ensures ScopeShape(js, ScopeOf(js, j, cause))
  {
    var g := ScopeOf(js, j, cause);
    RootOfTop(js, j);
    forall k: nat | k in g.reach ensures k in g.tree { RootOfBelow(js, k, Source(js, j, cause)); }
    forall k: nat | k in g.climb ensures k in g.reach { ClimbPath(js, j, k); }
    if IsCancellation(cause) {
      forall p: nat | ChildOf(js, j, p) ensures p !in g.reach {
        if p in g.reach { BelowIsLater(js, p, j); }
      }
    }
    forall k: nat, p: nat | k in g.climb && ChildOf(js, k, p)
      ensures if js[p].supervisor then p !in g.reach else p in g.climb
    {
      ClimbShape(js, j, k, p);
      assert LinkOk(js, k);
      ClimbIncomplete(js, j, k);
      ClimbPath(js, j, k);
    }
    forall k: nat, q: nat, p: nat | k in g.climb && q in g.climb && ParentIs(js, k, p) && ParentIs(js, q, p)
      ensures k == q
    {
      LinkFacts(js, k);
      LinkFacts(js, q);
      ClimbUnique(js, j, k, q);
    }
  }

  lemma ScopeJobStarts(js: seq<Job>, j: nat, cause: Exn, k: nat)
    requires Inv(js, None) && j < |js| && NothingCancelling(js, j) && !js[j].IsCompleted() && k < |js|
    ensures ScopeJob(js, ScopeOf(js, j, cause), k)
  {
    var g := ScopeOf(js, j, cause);
    assert PhaseOk(js, k) && WaiterOk(js, k) && LinkOk(js, k);
    if k in g.climb { ClimbIncomplete(js, j, k); }
    forall p: nat | ParentIs(js, k, p) && p in g.climb ensures p < |js| && js[p].Live() {
      ClimbIncomplete(js, j, p);
      RootOfClimb(js, j, p);
    }
  }

  /** The failure has climbed to the top: every job on the way is cancelled with it. */
  lemma {:induction false} ClimbReached(a: seq<Job>, b: seq<Job>, j: nat, k: nat, g: Scope)
    requires g.exact && j < |a| == |b| && k < |a| && OnClimb(a, j, k)
    requires forall i: nat :: i < |a| && OnClimb(a, j, i) ==> i in g.climb && a[i].Live()
    requires Step(a, b, None, g) && InScope(b, g) && b[j].Failed()
    ensures b[k].Failed()
    decreases j - k
  {
    ClimbPath(a, j, k);
    if k != j {
      var i := ClimbStep(a, j, k);
      ClimbPath(a, j, i);
      ClimbReached(a, b, j, i, g);
      assert SpreadJob(a, b, g, i) && Evolves(a[i], b[i]) && Evolves(a[k], b[k]);
      assert ParentIs(b, i, k);
      assert ScopeJob(b, g, k);
    }
  }

  /** The job from which the climb arrives at k. */
  lemma {:induction false} ClimbStep(js: seq<Job>, j: nat, k: nat) returns (i: nat)
    requires j < |js| && k < |js| && OnClimb(js, j, k) && k != j
    ensures k < i < |js| && OnClimb(js, j, i) && FailureParent(js, i) == Some(k)
    decreases j
  {
    if FailureParent(js, j).value == k {
      i := j;
    } else {
      i := ClimbStep(js, FailureParent(js, j).value, k);
    }
  }

  /** The cancellation has reached everything below the job where it started to spread. */
  lemma {:induction false} BelowReached(a: seq<Job>, b: seq<Job>, k: nat, top: nat, g: Scope)
    requires g.exact && k < |a| == |b| && top < |a| && Below(a, k, top)
    requires Inv(a, None) && NothingCancelling(a, top)
    requires forall i: nat :: i < |a| && Below(a, i, top) ==> i in g.reach
    requires Step(a, b, None, g) && b[top].IsCancelled() && a[top].Live()
    ensures b[k].IsCancelled()
    decreases k
  {
    if k != top {
      var p := a[k].parent.value;
      BelowReached(a, b, p, top, g);
      RootOfBelow(a, k, top);
      assert LinkOk(a, k);
      assert SpreadJob(a, b, g, p) && SpreadJob(a, b, g, k) && Evolves(a[k], b[k]);
      assert ParentIs(b, k, p);
    }
  }

  /** Exactly the declared jobs get cancelled, and the others stay active unless they complete normally. */
  predicate CancelsExactly(a: seq<Job>, b: seq<Job>, j: nat, cause: Exn)
    requires j < |a| == |b|
  {
    forall k :: 0 <= k < |b| ==>
      && (b[k].IsCancelled() <==> a[k].IsCancelled() || Reached(a, j, cause, k))
      && (a[k].IsActive() && !Reached(a, j, cause, k) ==> b[k].IsActive() || b[k].phase == Final(None))
  }

  lemma ReachedExactly(a: seq<Job>, b: seq<Job>, j: nat, cause: Exn)
    requires Inv(a, None) && j < |a| == |b| && NothingCancelling(a, j) && !a[j].IsCompleted()
    requires Step(a, b, None, ScopeOf(a, j, cause)) && InScope(b, ScopeOf(a, j, cause))
    requires b[j].IsCancelled()
    ensures CancelsExactly(a, b, j, cause)
  {
    var g := ScopeOf(a, j, cause);
    var top := Source(a, j, cause);
    TopAbove(a, j);
    RootOfTop(a, j);
    TreeStarts(a, j);
    if cause.Failure? {
      assert ScopeJob(b, g, j);
      forall i: nat | i < |a| && OnClimb(a, j, i) ensures a[i].Live() {
        ClimbIncomplete(a, j, i);
        RootOfClimb(a, j, i);
      }
      ClimbReached(a, b, j, top, g);
    }
    forall k | 0 <= k < |b|
      ensures b[k].IsCancelled() <==> a[k].IsCancelled() || Reached(a, j, cause, k)
      ensures a[k].IsActive() && !Reached(a, j, cause, k) ==> b[k].IsActive() || b[k].phase == Final(None)
    {
      assert SpreadJob(a, b, g, k) && Evolves(a[k], b[k]);
      if Reached(a, j, cause, k) { BelowReached(a, b, k, top, g); }
    }
  }

  /**
   * With which exception a cancellation of j cancels: on the climb everybody gets the failure itself, j its cause, and
   * all others a CancellationException of their own.
   */
  predicate CausesSpread(a: seq<Job>, b: seq<Job>, j: nat, cause: Exn)
    requires j < |a| == |b|
  {
    && (forall k :: 0 <= k < |a| && Fails(a, j, cause, k) ==> b[k].Cause() == Some(cause))
    && (!cause.Timeout? ==> b[j].Cause() == Some(cause))
    && (forall k :: 0 <= k < |a| && k != j && !a[k].IsCancelled() && b[k].IsCancelled() && !Fails(a, j, cause, k) ==>
          b[k].Cause() == Some(DEFAULT_CANCELLATION))
  }

  /** A cancellation of j with this cause makes k fail. */
  predicate Fails(js: seq<Job>, j: nat, cause: Exn, k: nat)
    requires j < |js|
  {
    cause.Failure? && OnClimb(js, j, k)
  }

  lemma CausesExactly(a: seq<Job>, b: seq<Job>, j: nat, cause: Exn)
    requires Inv(a, None) && j < |a| == |b| && NothingCancelling(a, j) && !a[j].IsCompleted()
    requires Step(a, b, None, ScopeOf(a, j, cause)) && InScope(b, ScopeOf(a, j, cause))
    requires CancelsExactly(a, b, j, cause)
    ensures CausesSpread(a, b, j, cause)
  {
    forall k | 0 <= k < |a|
      ensures Fails(a, j, cause, k) ==> b[k].Cause() == Some(cause)
      ensures !a[k].IsCancelled() && b[k].IsCancelled() && !Fails(a, j, cause, k) ==>
                if k != j then b[k].Cause() == Some(DEFAULT_CANCELLATION)
                else cause.Timeout? || b[k].Cause() == Some(cause)
    {
      CauseOf(a, b, j, cause, k);
    }
    BelowSource(a, j, cause);
  }

  lemma BelowSource(js: seq<Job>, j: nat, cause: Exn)
    requires j < |js|
    ensures Reached(js, j, cause, j)
  {
    TopAbove(js, j);
  }

  lemma CauseOf(a: seq<Job>, b: seq<Job>, j: nat, cause: Exn, k: nat)
    requires Inv(a, None) && j < |a| == |b| && k < |a| && NothingCancelling(a, j) && !a[j].IsCompleted()
    requires Step(a, b, None, ScopeOf(a, j, cause)) && InScope(b, ScopeOf(a, j, cause))
    requires b[k].IsCancelled() <==> a[k].IsCancelled() || Reached(a, j, cause, k)
    ensures Fails(a, j, cause, k) ==> b[k].Cause() == Some(cause)
    ensures !a[k].IsCancelled() && b[k].IsCancelled() && !Fails(a, j, cause, k) ==>
              if k != j then b[k].Cause() == Some(DEFAULT_CANCELLATION)
              else cause.Timeout? || b[k].Cause() == Some(cause)
  {
    var g := ScopeOf(a, j, cause);
    assert SpreadJob(a, b, g, k) && Evolves(a[k], b[k]);
    if Fails(a, j, cause, k) {
      ClimbPath(a, j, k);
      RootOfClimb(a, j, k);
      assert ScopeJob(b, g, k);
    }
  }

  // ---------------------------------------------------------------- cancelled from a job downwards

  /** Every job linked to a cancelled one is cancelled. */
  ghost predicate Downward(js: seq<Job>) {
    forall c: nat, p: nat :: ChildOf(js, c, p) && js[p].IsCancelled() ==> js[c].IsCancelled()
  }

  /** And so is every job below it, at any depth. */
  lemma {:induction false} DownwardDepth(js: seq<Job>, k: nat, a: nat)
    requires Downward(js) && k < |js| && a < |js| && Below(js, k, a) && js[a].IsCancelled()
    ensures js[k].IsCancelled()
    decreases k
  {
    if k != a {
      DownwardDepth(js, js[k].parent.value, a);
      assert ChildOf(js, k, js[k].parent.value);
    }
  }

  /** A cascade keeps it when `but`, too, has passed the news on. */
  lemma DownwardKept(a: seq<Job>, b: seq<Job>, but: Option<nat>)
    requires Inv(b, None) && Evolved(a, b) && Passed(a, b, but) && Downward(a)
    requires but.Some? && but.value < |a| && a[but.value].Live() && b[but.value].IsCancelled() ==>
               forall c: nat :: ChildOf(b, c, but.value) ==> b[c].IsCancelled()
    ensures Downward(b)
  {
    forall c: nat, p: nat | ChildOf(b, c, p) && b[p].IsCancelled() ensures b[c].IsCancelled() {
      assert Evolves(a[c], b[c]) && Evolves(a[p], b[p]) && LinkOk(b, c);
      assert ChildOf(a, c, p);
    }
  }
}
