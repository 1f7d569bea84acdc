/**
 * The name pass of `CodebaseComparator::find_matches`: pairs of files that no header matched are collected with
 * their name scores, sorted by score, and taken greedily.
 */
module Matching {
  type Path = string

  datatype Pair = Pair(score: real, source: Path, target: Path)

  predicate Meets(c: Pair, d: Pair) {
    c.source == d.source || c.target == d.target
  }

  /** No file is in two pairs. */
  predicate OneToOne(ms: seq<Pair>) {
    forall i: nat, j: nat :: i < j < |ms| ==> !Meets(ms[i], ms[j])
  }

  predicate Distinct(ps: seq<Path>) {
    forall i: nat, j: nat :: i < j < |ps| ==> ps[i] != ps[j]
  }

  predicate Descending(cs: seq<Pair>) {
    forall i: nat, j: nat :: i < j < |cs| ==> cs[i].score >= cs[j].score
  }

  function Sources(ms: seq<Pair>): set<Path> { set m <- ms :: m.source }
  function Targets(ms: seq<Pair>): set<Path> { set m <- ms :: m.target }

  function Total(ms: seq<Pair>): real {
    if ms == [] then 0.0 else Total(ms[..|ms| - 1]) + ms[|ms| - 1].score
  }

  /** An accepted pair of at least its score has one of the files of c. */
  predicate Covered(c: Pair, ms: seq<Pair>) {
    exists k: nat :: k < |ms| && Covers(ms[k], c)
  }

  predicate Covers(m: Pair, c: Pair) {
    Meets(c, m) && m.score >= c.score
  }

  predicate AllCovered(cs: seq<Pair>, ms: seq<Pair>) {
    forall i: nat :: i < |cs| ==> Covered(cs[i], ms)
  }

  // ---------------------------------------------------------------- the pass

  /** The pair of files may be matched by name. */
  predicate Eligible(c: Pair, score: (Path, Path) -> real, sources: seq<Path>, targets: seq<Path>,
          matchedSources: set<Path>, matchedTargets: set<Path>) {
    && c.source in sources && c.source !in matchedSources
    && c.target in targets && c.target !in matchedTargets
    && c.score == score(c.source, c.target) && c.score > 0.4
  }

  predicate AllEligible(cs: seq<Pair>, score: (Path, Path) -> real, sources: seq<Path>, targets: seq<Path>,
          matchedSources: set<Path>, matchedTargets: set<Path>) {
    forall c :: c in cs ==> Eligible(c, score, sources, targets, matchedSources, matchedTargets)
  }

  /** The nested loops over the files that are still unmatched. */
  method Collect(score: (Path, Path) -> real, sources: seq<Path>, targets: seq<Path>, matchedSources: set<Path>,
          matchedTargets: set<Path>)
    returns (cs: seq<Pair>)
    ensures forall c :: c in cs <==> Eligible(c, score, sources, targets, matchedSources, matchedTargets)
  {
    cs := [];
    for i := 0 to |sources|
      invariant forall c :: c in cs <==> Eligible(c, score, sources[..i], targets, matchedSources, matchedTargets)
    {
      assert sources[..i + 1] == sources[..i] + [sources[i]];
      if sources[i] in matchedSources {
        continue;
      }
      ghost var before := cs;
      for j := 0 to |targets|
        invariant forall c :: c in cs <==>
          (c in before || Eligible(c, score, [sources[i]], targets[..j], matchedSources, matchedTargets))
      {
        assert targets[..j + 1] == targets[..j] + [targets[j]];
        if targets[j] in matchedTargets {
          continue;
        }
        var s := score(sources[i], targets[j]);
        if s > 0.4 {
          cs := cs + [Pair(s, sources[i], targets[j])];
        }
      }
      assert targets[..|targets|] == targets;
    }
    assert sources[..|sources|] == sources;
  }

  /** `std::sort` by descending score: some order in which no score is followed by a higher one. */
  method Sort(cs: seq<Pair>) returns (sorted: seq<Pair>)
    ensures Descending(sorted) && multiset(sorted) == multiset(cs)
  {
    sorted := [];
    for i := 0 to |cs|
      invariant Descending(sorted) && multiset(sorted) == multiset(cs[..i])
    {
      var k := |sorted|;
      var c := cs[i];
      while k > 0 && sorted[k - 1].score < c.score
        invariant 0 <= k <= |sorted| && forall l :: k <= l < |sorted| ==> sorted[l].score < c.score
      {
        k := k - 1;
      }
      Inserted(sorted, k, c);
      assert cs[..i + 1] == cs[..i] + [c];
      sorted := sorted[..k] + [c] + sorted[k..];
    }
    assert cs[..|cs|] == cs;
  }

  lemma Inserted(cs: seq<Pair>, k: nat, c: Pair)
    requires Descending(cs) && k <= |cs| && (k > 0 ==> cs[k - 1].score >= c.score)
    requires forall l: nat :: k <= l < |cs| ==> cs[l].score < c.score
    ensures Descending(cs[..k] + [c] + cs[k..])
    ensures multiset(cs[..k] + [c] + cs[k..]) == multiset(cs) + multiset{c}
  {
    InsertedMembers(cs, k, c);
    var ds := cs[..k] + [c] + cs[k..];
    forall i: nat, j: nat | i < j < |ds| ensures ds[i].score >= ds[j].score {
      InsertedOrder(cs, k, c, i, j);
    }
  }

  lemma InsertedMembers(cs: seq<Pair>, k: nat, c: Pair)
    requires k <= |cs|
    ensures multiset(cs[..k] + [c] + cs[k..]) == multiset(cs) + multiset{c}
  {
    assert cs == cs[..k] + cs[k..];
  }

  lemma InsertedOrder(cs: seq<Pair>, k: nat, c: Pair, i: nat, j: nat)
    requires Descending(cs) && k <= |cs| && (k > 0 ==> cs[k - 1].score >= c.score)
    requires forall l: nat :: k <= l < |cs| ==> cs[l].score < c.score
    requires i < j <= |cs|
    ensures (cs[..k] + [c] + cs[k..])[i].score >= (cs[..k] + [c] + cs[k..])[j].score
  {
    var x := if i < k then cs[i] else if i == k then c else cs[i - 1];
    var y := if j < k then cs[j] else if j == k then c else cs[j - 1];
    var ds := cs[..k] + [c] + cs[k..];
    assert ds[i] == x && ds[j] == y;
  }

  /** The greedy loop: best candidates first, skipping those with a file already matched. */
  method Greedy(cs: seq<Pair>, sources: set<Path>, targets: set<Path>)
    returns (matches: seq<Pair>, matchedSources: set<Path>, matchedTargets: set<Path>)
    requires Descending(cs)
    requires forall c :: c in cs ==> c.source !in sources && c.target !in targets
    ensures OneToOne(matches) && AllCovered(cs, matches) && forall m :: m in matches ==> m in cs
    ensures matchedSources == sources + Sources(matches) && matchedTargets == targets + Targets(matches)
  {
    matches, matchedSources, matchedTargets := [], sources, targets;
    for i := 0 to |cs|
      invariant forall m :: m in matches ==> m in cs[..i]
      invariant OneToOne(matches) && AllCovered(cs[..i], matches)
      invariant matchedSources == sources + Sources(matches) && matchedTargets == targets + Targets(matches)
    {
      var c := cs[i];
      assert cs[..i + 1] == cs[..i] + [c];
      if c.source in matchedSources || c.target in matchedTargets {
        Blocked(cs, i, sources, targets, matches);
        continue;
      }
      Accepted(cs[..i], c, sources, targets, matches);
      matches := matches + [c];
      matchedSources := matchedSources + {c.source};
      matchedTargets := matchedTargets + {c.target};
    }
    assert cs[..|cs|] == cs;
  }

  lemma Blocked(cs: seq<Pair>, i: nat, sources: set<Path>, targets: set<Path>, ms: seq<Pair>)
    requires i < |cs| && Descending(cs) && AllCovered(cs[..i], ms)
    requires cs[i].source !in sources && cs[i].target !in targets
    requires forall m :: m in ms ==> m in cs[..i]
    requires cs[i].source in sources + Sources(ms) || cs[i].target in targets + Targets(ms)
    ensures AllCovered(cs[..i + 1], ms)
  {
    var c := cs[i];
    var m :| m in ms && Meets(c, m);
    var l: nat :| l < |ms| && ms[l] == m;
    var k: nat :| k < i && cs[k] == m;
    assert Covers(ms[l], c);
    assert cs[..i + 1] == cs[..i] + [c];
  }

  lemma Accepted(cs: seq<Pair>, c: Pair, sources: set<Path>, targets: set<Path>, ms: seq<Pair>)
    requires OneToOne(ms) && AllCovered(cs, ms)
    requires c.source !in sources + Sources(ms) && c.target !in targets + Targets(ms)
    ensures OneToOne(ms + [c]) && AllCovered(cs + [c], ms + [c])
    ensures Sources(ms + [c]) == Sources(ms) + {c.source} && Targets(ms + [c]) == Targets(ms) + {c.target}
  {
    forall k: nat | k < |ms| ensures !Meets(ms[k], c) {
      assert ms[k] in ms;
    }
    var ms' := ms + [c];
    forall j: nat | j < |cs| + 1 ensures Covered((cs + [c])[j], ms') {
      if j < |cs| {
        var k: nat :| k < |ms| && Covers(ms[k], cs[j]);
        assert ms'[k] == ms[k];
      } else {
        assert Covers(ms'[|ms|], c);
      }
    }
    assert forall m :: m in ms' <==> m in ms || m == c;
  }

  /** The files left over, in their order. */
  function Without(all: seq<Path>, matched: set<Path>): (rest: seq<Path>)
    ensures forall p :: p in rest <==> p in all && p !in matched
    ensures Distinct(all) ==> Distinct(rest)
  {
    if all == [] then []
    else
      assert all == all[..|all| - 1] + [all[|all| - 1]];
      Without(all[..|all| - 1], matched) + (if all[|all| - 1] in matched then [] else [all[|all| - 1]])
  }

  method Unmatched(all: seq<Path>, matched: set<Path>) returns (unmatched: seq<Path>)
    ensures unmatched == Without(all, matched)
  {
    unmatched := [];
    for i := 0 to |all|
      invariant unmatched == Without(all[..i], matched)
    {
      assert all[..i + 1][..i] == all[..i];
      if all[i] !in matched {
        unmatched := unmatched + [all[i]];
      }
    }
    assert all[..|all|] == all;
  }

  /** The whole pass over the two lists of files, given the files the header pass matched. */
  method NamePass(score: (Path, Path) -> real, sources: seq<Path>, targets: seq<Path>, headerSources: set<Path>,
          headerTargets: set<Path>)
    returns (matches: seq<Pair>, unmatchedSource: seq<Path>, unmatchedTarget: seq<Path>)
    requires Distinct(sources) && Distinct(targets)
    requires headerSources <= (set p <- sources) && headerTargets <= (set p <- targets)
    ensures OneToOne(matches)
    ensures AllEligible(matches, score, sources, targets, headerSources, headerTargets)
    // a rejected pair lost a file to an accepted pair of at least its score
    ensures forall c :: Eligible(c, score, sources, targets, headerSources, headerTargets) ==> Covered(c, matches)
    // no other one-to-one matching of eligible pairs has more than twice the total score
    ensures forall others ::
      (OneToOne(others) && AllEligible(others, score, sources, targets, headerSources, headerTargets)
       ==> Total(others) <= 2.0 * Total(matches))
    // no two files left over could still be matched
    ensures forall p, q :: p in unmatchedSource && q in unmatchedTarget ==> score(p, q) <= 0.4
    ensures Distinct(unmatchedSource) && Distinct(unmatchedTarget)
    // every file is matched by header, matched by name, or listed as unmatched, and only one of these
    ensures headerSources !! Sources(matches) !! (set p <- unmatchedSource)
    ensures headerSources + Sources(matches) + (set p <- unmatchedSource) == (set p <- sources)
    ensures headerTargets !! Targets(matches) !! (set p <- unmatchedTarget)
    ensures headerTargets + Targets(matches) + (set p <- unmatchedTarget) == (set p <- targets)
  {
    var collected := Collect(score, sources, targets, headerSources, headerTargets);
    var cs := Sort(collected);
    SameMembers(cs, collected);
    var matchedSources, matchedTargets;
    matches, matchedSources, matchedTargets := Greedy(cs, headerSources, headerTargets);
    unmatchedSource := Unmatched(sources, matchedSources);
    unmatchedTarget := Unmatched(targets, matchedTargets);
    CoveredMembers(cs, matches);
    forall p, q | p in unmatchedSource && q in unmatchedTarget ensures score(p, q) <= 0.4 {
      var c := Pair(score(p, q), p, q);
      if c.score > 0.4 {
        assert Eligible(c, score, sources, targets, headerSources, headerTargets);
        NothingLeft(c, matches);
      }
    }
    forall others | OneToOne(others) && AllEligible(others, score, sources, targets, headerSources, headerTargets)
      ensures Total(others) <= 2.0 * Total(matches)
    {
      GreedyAtLeastHalf(cs, matches, others);
    }
    Partition(sources, headerSources, Sources(matches), unmatchedSource);
    Partition(targets, headerTargets, Targets(matches), unmatchedTarget);
  }

  lemma NothingLeft(c: Pair, ms: seq<Pair>)
    requires Covered(c, ms)
    ensures c.source in Sources(ms) || c.target in Targets(ms)
  {
    var k: nat :| k < |ms| && Covers(ms[k], c);
    assert ms[k] in ms;
  }

  lemma CoveredMembers(cs: seq<Pair>, ms: seq<Pair>)
    requires AllCovered(cs, ms)
    ensures forall c :: c in cs ==> Covered(c, ms)
  {
  }

  lemma SameMembers(cs: seq<Pair>, ds: seq<Pair>)
    requires multiset(cs) == multiset(ds)
    ensures forall c :: c in cs <==> c in ds
  {
    assert forall c :: c in cs <==> c in multiset(cs);
    assert forall c :: c in ds <==> c in multiset(ds);
  }

  lemma Partition(all: seq<Path>, header: set<Path>, named: set<Path>, rest: seq<Path>)
    requires header <= (set p <- all) && named <= (set p <- all) && header !! named
    requires rest == Without(all, header + named)
    ensures header !! named !! (set p <- rest)
    ensures header + named + (set p <- rest) == (set p <- all)
  {
  }

  // ---------------------------------------------------------------- how good the matching is

  lemma {:induction false} TotalOfCut(ms: seq<Pair>, i: nat)
    requires i < |ms|
    ensures Total(ms) == Total(ms[..i] + ms[i + 1..]) + ms[i].score
  {
    var init, cut := ms[..|ms| - 1], ms[..i] + ms[i + 1..];
    if i == |ms| - 1 {
      assert cut == init;
    } else {
      TotalOfCut(init, i);
      assert cut[..|cut| - 1] == init[..i] + init[i + 1..];
    }
  }

  predicate SameFile(m: Pair, c: Pair, bySource: bool) {
    if bySource then c.source == m.source else c.target == m.target
  }

  /** At most one of some pairs without a common file shares the source (the target) of m. */
  lemma DropCovered(others: seq<Pair>, m: Pair, bySource: bool) returns (rest: seq<Pair>)
    requires OneToOne(others) && m.score >= 0.0
    ensures OneToOne(rest) && Total(others) <= Total(rest) + m.score
    ensures forall c :: c in rest ==> c in others && !(Covers(m, c) && SameFile(m, c, bySource))
  {
    if i: nat :| i < |others| && Covers(m, others[i]) && SameFile(m, others[i], bySource) {
      rest := others[..i] + others[i + 1..];
      TotalOfCut(others, i);
      forall c | c in rest ensures c in others && !SameFile(m, c, bySource) {
        var j: nat :| j < |others| && j != i && others[j] == c;
        assert !Meets(others[if i < j then i else j], others[if i < j then j else i]);
      }
    } else {
      rest := others;
    }
  }

  lemma NothingCovers(others: seq<Pair>)
    requires others != []
    ensures !AllCovered(others, [])
  {
    assert !Covered(others[0], []);
  }

  /** Pairs without a common file, all covered by ms, score at most twice what ms scores. */
  lemma {:induction false} AtLeastHalf(ms: seq<Pair>, others: seq<Pair>)
    requires OneToOne(others) && AllCovered(others, ms)
    requires forall m :: m in ms ==> m.score >= 0.0
    ensures Total(others) <= 2.0 * Total(ms)
    decreases |ms|
  {
    if ms == [] {
      if others != [] {
        NothingCovers(others);
      }
    } else {
      var init, m := ms[..|ms| - 1], ms[|ms| - 1];
      var some := DropCovered(others, m, true);
      var rest := DropCovered(some, m, false);
      forall i: nat | i < |rest| ensures Covered(rest[i], init) {
        var c := rest[i];
        assert c in rest && c in some && c in others;
        var j: nat :| j < |others| && others[j] == c;
        var k: nat :| k < |ms| && Covers(ms[k], others[j]);
        assert k < |init| && init[k] == ms[k];
      }
      AtLeastHalf(init, rest);
    }
  }

  /** Greedy is at least half as good as any one-to-one choice among the candidates. */
  lemma GreedyAtLeastHalf(cs: seq<Pair>, ms: seq<Pair>, others: seq<Pair>)
    requires forall c :: c in cs ==> c.score > 0.4
    requires AllCovered(cs, ms) && forall m :: m in ms ==> m in cs
    requires OneToOne(others) && forall c :: c in others ==> c in cs
    ensures 2.0 * Total(ms) >= Total(others)
  {
    forall i: nat | i < |others| ensures Covered(others[i], ms) {
      assert others[i] in cs;
      var j: nat :| j < |cs| && cs[j] == others[i];
      assert Covered(cs[j], ms);
    }
    AtLeastHalf(ms, others);
  }

  lemma TotalOfTwo(c: Pair, d: Pair)
    ensures Total([c, d]) == c.score + d.score
  {
    assert [c, d][..1] == [c] && [c][..0] == [];
    assert Total([c]) == c.score;
  }

  lemma Apart(ms: seq<Pair>, k: nat) returns (m: Pair)
    requires OneToOne(ms) && k < |ms| && |ms| > 1
    ensures m in ms && !Meets(m, ms[k])
  {
    m := if k == 0 then ms[1] else ms[0];
    assert !Meets(ms[if k == 0 then k else 0], ms[if k == 0 then 1 else k]);
  }

  /**
   * Half is the best that can be promised: a middle pair can cost two that score almost as much. On these
   * candidates the pass can only return the middle pair.
   */
  lemma HalfIsTight(a: Path, b: Path, x: Path, y: Path, s: real, less: real, ms: seq<Pair>)
    requires a != b && x != y && 0.4 < less < s
    requires var cs := [Pair(s, a, x), Pair(less, a, y), Pair(less, b, x)];
             OneToOne(ms) && AllCovered(cs, ms) && forall m :: m in ms ==> m in cs
    ensures var cs := [Pair(s, a, x), Pair(less, a, y), Pair(less, b, x)];
            && Descending(cs) && ms == [cs[0]] && Total(ms) == s
            && OneToOne([cs[1], cs[2]]) && Total([cs[1], cs[2]]) == 2.0 * less
  {
    var cs := [Pair(s, a, x), Pair(less, a, y), Pair(less, b, x)];
    assert Covered(cs[0], ms);
    var k: nat :| k < |ms| && Covers(ms[k], cs[0]);
    assert ms[k] in ms && ms[k] == cs[0];
    if |ms| > 1 {
      var m := Apart(ms, k);
    }
    assert Total([cs[0]]) == Total([]) + s;
    TotalOfTwo(cs[1], cs[2]);
  }
}
