/**
 * The distance between syntax trees (`ASTSimilarity::tree_edit_distance`): a dynamic-programming table
 * over the post-order sequences of node types.
 */
module EditDistance {
  import opened Trees
  import opened Rounding

  // ---------------------------------------------------------------- what the table holds

  function Min(x: nat, y: nat): nat { if x <= y then x else y }
  function Max(x: nat, y: nat): nat { if x >= y then x else y }

  function Cost(x: int, y: int): nat { if x == y then 0 else 1 }

  /** The cheapest way to turn a into b, working from the ends. */
  function Dist(a: seq<int>, b: seq<int>): nat {
    if a == [] then |b|
    else if b == [] then |a|
    else
      var a', b' := a[..|a| - 1], b[..|b| - 1];
      Min(Min(Dist(a', b) + 1, Dist(a, b') + 1), Dist(a', b') + Cost(a[|a| - 1], b[|b| - 1]))
  }

  /** What cell (i, j) of the table has to hold. */
  function Entry(a: seq<int>, b: seq<int>, i: nat, j: nat): nat
    requires i <= |a| && j <= |b|
  {
    Dist(a[..i], b[..j])
  }

  /** The edges of the table, and each inner cell from its three neighbours. */
  lemma Edges(a: seq<int>, b: seq<int>)
    ensures forall i: nat :: i <= |a| ==> Entry(a, b, i, 0) == i
    ensures forall j: nat :: j <= |b| ==> Entry(a, b, 0, j) == j
    ensures Entry(a, b, |a|, |b|) == Dist(a, b)
  {
    assert a[..|a|] == a && b[..|b|] == b;
  }

  lemma {:induction false} Cell(a: seq<int>, b: seq<int>, i: nat, j: nat)
    requires 1 <= i <= |a| && 1 <= j <= |b|
    ensures Entry(a, b, i, j)
         == Min(Min(Entry(a, b, i - 1, j) + 1, Entry(a, b, i, j - 1) + 1),
                Entry(a, b, i - 1, j - 1) + Cost(a[i - 1], b[j - 1]))
  {
    var x, y := a[..i], b[..j];
    LastStep(x, y, a[..i - 1], b[..j - 1]);
  }

  lemma {:induction false} LastStep(x: seq<int>, y: seq<int>, x': seq<int>, y': seq<int>)
    requires x != [] && y != [] && x' == x[..|x| - 1] && y' == y[..|y| - 1]
    ensures Dist(x, y) == Min(Min(Dist(x', y) + 1, Dist(x, y') + 1), Dist(x', y') + Cost(x[|x| - 1], y[|y| - 1]))
  {
  }

  /** Rows above i are filled, and row i up to column j. */
  ghost predicate Filled(a: seq<int>, b: seq<int>, dp: array2<nat>, i: nat, j: nat)
    requires dp.Length0 == |a| + 1 && dp.Length1 == |b| + 1
    reads dp
  {
    forall k: nat, l: nat ::
      (k <= |a| && l <= |b| && (k < i || l == 0 || (k == i && l < j)) ==> dp[k, l] == Entry(a, b, k, l))
  }

  /** `tree_edit_distance`: fills the table row by row. */
  method TreeEditDistance(t1: Tree, t2: Tree) returns (d: nat)
    ensures d == Dist(PostOrder(t1), PostOrder(t2))
  {
    var a, b := PostOrder(t1), PostOrder(t2);
    var n, m := |a|, |b|;
    var dp := new nat[n + 1, m + 1];
    for i := 0 to n + 1
      invariant forall k :: 0 <= k < i ==> dp[k, 0] == k
    {
      dp[i, 0] := i;
    }
    for j := 0 to m + 1
      invariant forall k :: 1 <= k <= n || (k == 0 && j == 0) ==> dp[k, 0] == k
      invariant forall k :: 0 <= k < j ==> dp[0, k] == k
    {
      dp[0, j] := j;
    }
    Edges(a, b);
    for i := 1 to n + 1
      invariant Filled(a, b, dp, i, 1)
    {
      for j := 1 to m + 1
        invariant Filled(a, b, dp, i, j)
      {
        FillCell(a, b, dp, i, j);
      }
    }
    d := dp[n, m];
  }

  /** The body of the inner loop. */
  method FillCell(a: seq<int>, b: seq<int>, dp: array2<nat>, i: nat, j: nat)
    requires dp.Length0 == |a| + 1 && dp.Length1 == |b| + 1
    requires 1 <= i <= |a| && 1 <= j <= |b| && Filled(a, b, dp, i, j)
    modifies dp
    ensures Filled(a, b, dp, i, j + 1)
  {
    var cost := if a[i - 1] == b[j - 1] then 0 else 1;
    Cell(a, b, i, j);
    assert dp[i - 1, j] == Entry(a, b, i - 1, j) && dp[i, j - 1] == Entry(a, b, i, j - 1);
    assert dp[i - 1, j - 1] == Entry(a, b, i - 1, j - 1);
    dp[i, j] := Min(Min(dp[i - 1, j] + 1, dp[i, j - 1] + 1), dp[i - 1, j - 1] + cost);
  }

  // ---------------------------------------------------------------- what the distance means

  /** A single edit, anywhere in the sequence. */
  datatype Edit = Delete(at: nat) | Insert(at: nat, k: int) | Change(at: nat, k: int)

  predicate Possible(e: Edit, a: seq<int>) {
    if e.Insert? then e.at <= |a| else e.at < |a|
  }

  function Apply(e: Edit, a: seq<int>): seq<int>
    requires Possible(e, a)
  {
    match e
    case Delete(at) => a[..at] + a[at + 1..]
    case Insert(at, k) => a[..at] + [k] + a[at..]
    case Change(at, k) => a[..at] + [k] + a[at + 1..]
  }

  function EditCost(e: Edit, a: seq<int>): nat
    requires Possible(e, a)
  {
    if e.Change? then Cost(a[e.at], e.k) else 1
  }

  /** Any edits, one after the other; a place may be edited more than once. */
  type Script = seq<Edit>

  predicate Fits(s: Script, a: seq<int>) {
    s == [] || (Possible(s[0], a) && Fits(s[1..], Apply(s[0], a)))
  }

  function Edited(s: Script, a: seq<int>): seq<int>
    requires Fits(s, a)
  {
    if s == [] then a else Edited(s[1..], Apply(s[0], a))
  }

  function ScriptCost(s: Script, a: seq<int>): nat
    requires Fits(s, a)
  {
    if s == [] then 0 else EditCost(s[0], a) + ScriptCost(s[1..], Apply(s[0], a))
  }

  /** No script is cheaper than the distance ... */
  lemma {:induction false} NoCheaperScript(s: Script, a: seq<int>)
    requires Fits(s, a)
    ensures Dist(a, Edited(s, a)) <= ScriptCost(s, a)
  {
    if s == [] {
      ZeroIffEqual(a, a);
    } else {
      var b := Apply(s[0], a);
      OneEdit(s[0], a);
      NoCheaperScript(s[1..], b);
      Triangle(a, b, Edited(s, a));
    }
  }

  /** A single edit is not cheaper than the distance either. */
  lemma {:induction false} OneEdit(e: Edit, a: seq<int>)
    requires Possible(e, a)
    ensures Dist(a, Apply(e, a)) <= EditCost(e, a)
  {
    var n := if e.Insert? then |a| - e.at else |a| - e.at - 1;
    var b := Apply(e, a);
    Untouched(e, a, n);
    SameEnd(a, b, n);
    EditAtEnd(e, a[..e.at], a[..|a| - n], b[..|b| - n], EditCost(e, a));
  }

  lemma {:induction false} EditAtEnd(e: Edit, p: seq<int>, x: seq<int>, y: seq<int>, cost: nat)
    requires if e.Insert? then x == p else x != [] && x[..|x| - 1] == p
    requires if e.Delete? then y == p else y != [] && y[..|y| - 1] == p && y[|y| - 1] == e.k
    requires cost == if e.Change? then Cost(x[|x| - 1], e.k) else 1
    ensures Dist(x, y) <= cost
  {
    ZeroIffEqual(p, p);
    match e
    case Delete(_) => DropLeft(x, p);
    case Insert(_, _) => DropRight(p, y);
    case Change(_, k) => LastStep(x, y, p, p);
  }

  lemma Untouched(e: Edit, a: seq<int>, n: nat)
    requires Possible(e, a) && n == if e.Insert? then |a| - e.at else |a| - e.at - 1
    ensures var b := Apply(e, a);
            && n <= |b| && a[|a| - n..] == b[|b| - n..]
            && a[..|a| - n] == a[..e.at] + (if e.Insert? then [] else [a[e.at]])
            && b[..|b| - n] == a[..e.at] + (if e.Delete? then [] else [e.k])
  {
  }

  /** A common end does not add to the distance. */
  lemma {:induction false} SameEnd(a: seq<int>, b: seq<int>, n: nat)
    requires n <= |a| && n <= |b| && a[|a| - n..] == b[|b| - n..]
    ensures Dist(a, b) <= Dist(a[..|a| - n], b[..|b| - n])
    decreases n
  {
    if n == 0 {
      assert a[..|a|] == a && b[..|b|] == b;
    } else {
      var a', b' := a[..|a| - 1], b[..|b| - 1];
      SameLast(a, b, n);
      SameEnd(a', b', n - 1);
      LastStep(a, b, a', b');
    }
  }

  lemma SameLast(a: seq<int>, b: seq<int>, n: nat)
    requires 0 < n <= |a| && n <= |b| && a[|a| - n..] == b[|b| - n..]
    ensures var a', b' := a[..|a| - 1], b[..|b| - 1];
            && a[|a| - 1] == b[|b| - 1] && a'[|a'| - (n - 1)..] == b'[|b'| - (n - 1)..]
            && a'[..|a'| - (n - 1)] == a[..|a| - n] && b'[..|b'| - (n - 1)] == b[..|b| - n]
  {
    assert a[|a| - n..][n - 1] == a[|a| - 1] && b[|b| - n..][n - 1] == b[|b| - 1];
    assert a[|a| - n..][..n - 1] == a[..|a| - 1][|a| - n..] && b[|b| - n..][..n - 1] == b[..|b| - 1][|b| - n..];
  }

  /** ... and some script is as cheap. */
  lemma {:induction false} CheapestScript(a: seq<int>, b: seq<int>) returns (s: Script)
    ensures Fits(s, a) && Edited(s, a) == b && ScriptCost(s, a) == Dist(a, b)
    decreases |a| + |b|, 1
  {
    if a == [] && b == [] {
      s := [];
    } else if b == [] {
      Lengths(a[..|a| - 1], b);
      s := DeleteLast(a, b);
    } else if a == [] {
      Lengths(a, b[..|b| - 1]);
      s := InsertLast(a, b);
    } else {
      LastStep(a, b, a[..|a| - 1], b[..|b| - 1]);
      if Dist(a, b) == Dist(a[..|a| - 1], b) + 1 {
        s := DeleteLast(a, b);
      } else if Dist(a, b) == Dist(a, b[..|b| - 1]) + 1 {
        s := InsertLast(a, b);
      } else {
        s := ChangeLast(a, b);
      }
    }
  }

  lemma {:induction false} DeleteLast(a: seq<int>, b: seq<int>) returns (s: Script)
    requires a != [] && Dist(a, b) == Dist(a[..|a| - 1], b) + 1
    ensures Fits(s, a) && Edited(s, a) == b && ScriptCost(s, a) == Dist(a, b)
    decreases |a| + |b|, 0
  {
    var rest := CheapestScript(a[..|a| - 1], b);
    s := EditFirst(Delete(|a| - 1), rest, a, a[..|a| - 1]);
  }

  lemma {:induction false} InsertLast(a: seq<int>, b: seq<int>) returns (s: Script)
    requires b != [] && Dist(a, b) == Dist(a, b[..|b| - 1]) + 1
    ensures Fits(s, a) && Edited(s, a) == b && ScriptCost(s, a) == Dist(a, b)
    decreases |a| + |b|, 0
  {
    var rest := CheapestScript(a, b[..|b| - 1]);
    s := InsertEnd(a, b, rest);
  }

  lemma InsertEnd(a: seq<int>, b: seq<int>, rest: Script) returns (s: Script)
    requires b != [] && Fits(rest, a) && Edited(rest, a) == b[..|b| - 1]
    ensures Fits(s, a) && Edited(s, a) == b && ScriptCost(s, a) == ScriptCost(rest, a) + 1
  {
    s := EditLast(rest, Insert(|b| - 1, b[|b| - 1]), a);
    assert b == b[..|b| - 1] + [b[|b| - 1]];
  }

  lemma {:induction false} ChangeLast(a: seq<int>, b: seq<int>) returns (s: Script)
    requires a != [] && b != []
    requires Dist(a, b) == Dist(a[..|a| - 1], b[..|b| - 1]) + Cost(a[|a| - 1], b[|b| - 1])
    ensures Fits(s, a) && Edited(s, a) == b && ScriptCost(s, a) == Dist(a, b)
    decreases |a| + |b|, 0
  {
    var rest := CheapestScript(a[..|a| - 1], b[..|b| - 1]);
    s := ChangeEnd(a, b, rest);
  }

  lemma ChangeEnd(a: seq<int>, b: seq<int>, rest: Script) returns (s: Script)
    requires a != [] && b != [] && Fits(rest, a[..|a| - 1]) && Edited(rest, a[..|a| - 1]) == b[..|b| - 1]
    ensures Fits(s, a) && Edited(s, a) == b
    ensures ScriptCost(s, a) == Cost(a[|a| - 1], b[|b| - 1]) + ScriptCost(rest, a[..|a| - 1])
  {
    var a', b', k := a[..|a| - 1], b[..|b| - 1], b[|b| - 1];
    Undisturbed(rest, a', [k]);
    ChangesEnd(a, k);
    s := EditFirst(Change(|a| - 1, k), rest, a, a' + [k]);
    FrontAndLast(b);
  }

  lemma ChangesEnd(a: seq<int>, k: int)
    requires a != []
    ensures Apply(Change(|a| - 1, k), a) == a[..|a| - 1] + [k]
  {
  }

  lemma FrontAndLast(b: seq<int>)
    requires b != []
    ensures b == b[..|b| - 1] + [b[|b| - 1]]
  {
  }

  lemma EditFirst(e: Edit, s: Script, a: seq<int>, b: seq<int>) returns (longer: Script)
    requires Possible(e, a) && Apply(e, a) == b && Fits(s, b)
    ensures Fits(longer, a) && Edited(longer, a) == Edited(s, b)
    ensures ScriptCost(longer, a) == EditCost(e, a) + ScriptCost(s, b)
  {
    longer := [e] + s;
    assert longer[1..] == s;
  }

  lemma {:induction false} EditLast(s: Script, e: Edit, a: seq<int>) returns (longer: Script)
    requires Fits(s, a) && Possible(e, Edited(s, a))
    ensures Fits(longer, a) && Edited(longer, a) == Apply(e, Edited(s, a))
    ensures ScriptCost(longer, a) == ScriptCost(s, a) + EditCost(e, Edited(s, a))
    decreases |s|
  {
    if s == [] {
      longer := EditFirst(e, [], a, Apply(e, a));
    } else {
      var rest := EditLast(s[1..], e, Apply(s[0], a));
      longer := EditFirst(s[0], rest, a, Apply(s[0], a));
    }
  }

  /** A script does the same when something follows that it does not touch. */
  lemma {:induction false} Undisturbed(s: Script, a: seq<int>, end: seq<int>)
    requires Fits(s, a)
    ensures Fits(s, a + end) && Edited(s, a + end) == Edited(s, a) + end && ScriptCost(s, a + end) == ScriptCost(s, a)
    decreases |s|
  {
    if s != [] {
      assert Apply(s[0], a + end) == Apply(s[0], a) + end;
      Undisturbed(s[1..], Apply(s[0], a), end);
    }
  }

  // ---------------------------------------------------------------- it is a metric on type sequences

  /** The lengths bound the distance. */
  lemma {:induction false} Lengths(a: seq<int>, b: seq<int>)
    ensures Dist(a, b) <= Max(|a|, |b|) && |a| <= |b| + Dist(a, b) && |b| <= |a| + Dist(a, b)
    decreases |a| + |b|
  {
    if a != [] && b != [] {
      Lengths(a[..|a| - 1], b);
      Lengths(a, b[..|b| - 1]);
      Lengths(a[..|a| - 1], b[..|b| - 1]);
    }
  }

  lemma DropLeft(a: seq<int>, b: seq<int>)
    requires a != []
    ensures Dist(a, b) <= Dist(a[..|a| - 1], b) + 1
  {
    if b == [] { Lengths(a[..|a| - 1], b); }
  }

  lemma DropRight(a: seq<int>, b: seq<int>)
    requires b != []
    ensures Dist(a, b) <= Dist(a, b[..|b| - 1]) + 1
  {
    if a == [] { Lengths(a, b[..|b| - 1]); }
  }

  lemma {:induction false} Symmetric(a: seq<int>, b: seq<int>)
    ensures Dist(a, b) == Dist(b, a)
    decreases |a| + |b|
  {
    if a != [] && b != [] {
      Symmetric(a[..|a| - 1], b);
      Symmetric(a, b[..|b| - 1]);
      Symmetric(a[..|a| - 1], b[..|b| - 1]);
    }
  }

  lemma {:induction false} ZeroIffEqual(a: seq<int>, b: seq<int>)
    ensures Dist(a, b) == 0 <==> a == b
    decreases |a|
  {
    if a != [] && b != [] {
      ZeroIffEqual(a[..|a| - 1], b[..|b| - 1]);
      assert a == a[..|a| - 1] + [a[|a| - 1]] && b == b[..|b| - 1] + [b[|b| - 1]];
    }
  }

  lemma {:induction false} Triangle(a: seq<int>, b: seq<int>, c: seq<int>)
    ensures Dist(a, c) <= Dist(a, b) + Dist(b, c)
    decreases |a| + |b| + |c|
  {
    if a == [] || b == [] || c == [] {
      Lengths(a, b);
      Lengths(b, c);
      Lengths(a, c);
    } else {
      var a', b', c' := a[..|a| - 1], b[..|b| - 1], c[..|c| - 1];
      if Dist(a, b) == Dist(a', b) + 1 {
        Triangle(a', b, c);
      } else if Dist(b, c) == Dist(b, c') + 1 {
        Triangle(a, b, c');
      } else if Dist(a, b) == Dist(a, b') + 1 {
        Triangle(a, b', if Dist(b, c) == Dist(b', c) + 1 then c else c');
      } else {
        Triangle(a', b', if Dist(b, c) == Dist(b', c) + 1 then c else c');
      }
    }
  }

  /** The three laws, for all trees. Two trees are at distance zero if their post-order types agree. */
  lemma TreeMetric(t: Tree, u: Tree, v: Tree)
    ensures Dist(PostOrder(t), PostOrder(u)) == Dist(PostOrder(u), PostOrder(t))
    ensures Dist(PostOrder(t), PostOrder(u)) == 0 <==> PostOrder(t) == PostOrder(u)
    ensures Dist(PostOrder(t), PostOrder(v)) <= Dist(PostOrder(t), PostOrder(u)) + Dist(PostOrder(u), PostOrder(v))
  {
    Symmetric(PostOrder(t), PostOrder(u));
    ZeroIffEqual(PostOrder(t), PostOrder(u));
    Triangle(PostOrder(t), PostOrder(u), PostOrder(v));
  }

  /** The shape is not seen: different trees can be at distance zero. */
  lemma ShapeIsNotSeen(a: Info, b: Info, c: Info)
    ensures var t := Node(a, [Node(b, []), Node(c, [])]);
            var u := Node(a, [Node(c, [Node(b, [])])]);
            t != u && Dist(PostOrder(t), PostOrder(u)) == 0
  {
    var t, u := Node(a, [Node(b, []), Node(c, [])]), Node(a, [Node(c, [Node(b, [])])]);
    TwoLeaves(b, c);
    assert PostOrderAll([Node(c, [Node(b, [])])]) == PostOrderAll([Node(b, [])]) + [c.kind] + PostOrderAll([]);
    assert PostOrderAll([Node(b, [])]) == [b.kind];
    ZeroIffEqual(PostOrder(t), PostOrder(u));
  }

  lemma TwoLeaves(b: Info, c: Info)
    ensures PostOrderAll([Node(b, []), Node(c, [])]) == [b.kind, c.kind]
  {
    var ts := [Node(b, []), Node(c, [])];
    assert ts[1..] == [Node(c, [])];
    assert PostOrder(ts[0]) == [b.kind] && PostOrder(ts[1]) == [c.kind];
    assert PostOrderAll(ts[1..]) == PostOrder(ts[1]) + PostOrderAll([]);
  }

  /** `normalized_edit_distance`; `fl` rounds to float. */
  function Normalized(fl: real -> real, t: Tree, u: Tree): real {
    Complement(fl, Share(fl, Dist(PostOrder(t), PostOrder(u)), Max(Size(t), Size(u))))
  }

  /** The float quotient of two ints. A size of zero, which no tree has, gives a normalized distance of 1. */
  function Share(fl: real -> real, d: nat, m: nat): real {
    if fl(m as real) == 0.0 then 0.0 else fl(fl(d as real) / fl(m as real))
  }

  /**
   * The normalized distance lies between 0 and 1. It is 1 exactly when the post-order types agree or the share of
   * edits is within half the resolution of 1; for trees of up to 2^24 nodes that is when they agree.
   */
  lemma NormalizedRange(fl: real -> real, t: Tree, u: Tree)
    requires RoundsToNearest(fl)
    ensures 0.0 <= Normalized(fl, t, u) <= 1.0
    ensures Normalized(fl, t, u) == 1.0 <==>
            Share(fl, Dist(PostOrder(t), PostOrder(u)), Max(Size(t), Size(u))) <= ULP / 2.0
    ensures PostOrder(t) == PostOrder(u) ==> Normalized(fl, t, u) == 1.0
    ensures Max(Size(t), Size(u)) <= SIGNIFICANDS ==>
              (Normalized(fl, t, u) == 1.0 <==> PostOrder(t) == PostOrder(u))
  {
    var d, m := Dist(PostOrder(t), PostOrder(u)), Max(Size(t), Size(u));
    Lengths(PostOrder(t), PostOrder(u));
    ZeroIffEqual(PostOrder(t), PostOrder(u));
    ShareRange(fl, d, m);
    OneMinus(fl, Share(fl, d, m));
  }

  /** The share of nodes to edit, exactly. */
  function ExactShare(t: Tree, u: Tree): (q: real)
    ensures 0.0 <= q <= 1.0
  {
    Lengths(PostOrder(t), PostOrder(u));
    Ratio(Dist(PostOrder(t), PostOrder(u)) as real, Max(Size(t), Size(u)) as real);
    Dist(PostOrder(t), PostOrder(u)) as real / Max(Size(t), Size(u)) as real
  }

  /** For such trees it is also right up to the resolution of 1. */
  lemma NormalizedNear(fl: real -> real, t: Tree, u: Tree)
    requires RoundsToNearest(fl) && Max(Size(t), Size(u)) <= SIGNIFICANDS
    ensures NearComplement(Normalized(fl, t, u), ExactShare(t, u))
  {
    ShareOfSmall(fl, t, u);
    NearTwice(fl, ExactShare(t, u));
  }

  lemma ShareOfSmall(fl: real -> real, t: Tree, u: Tree)
    requires RoundsToNearest(fl) && Max(Size(t), Size(u)) <= SIGNIFICANDS
    ensures Share(fl, Dist(PostOrder(t), PostOrder(u)), Max(Size(t), Size(u))) == fl(ExactShare(t, u))
  {
    var d, m := Dist(PostOrder(t), PostOrder(u)), Max(Size(t), Size(u));
    Lengths(PostOrder(t), PostOrder(u));
    SmallInts(d);
    SmallInts(m);
    FloatsStay(fl, d as real);
    FloatsStay(fl, m as real);
  }

  lemma ShareRange(fl: real -> real, d: nat, m: nat)
    requires RoundsToNearest(fl) && d <= m && m > 0
    ensures 0.0 <= Share(fl, d, m) <= 1.0 && fl(m as real) >= 1.0
    ensures d == 0 ==> Share(fl, d, m) == 0.0
    ensures 0 < d && m <= SIGNIFICANDS ==> Share(fl, d, m) >= ULP
  {
    SmallInts(0);
    SmallInts(1);
    FloatsStay(fl, 0.0);
    FloatsStay(fl, 1.0);
    Monotone(fl, 0.0, d as real);
    Monotone(fl, d as real, m as real);
    Monotone(fl, 1.0, m as real);
    var q := fl(d as real) / fl(m as real);
    Ratio(fl(d as real), fl(m as real));
    Monotone(fl, 0.0, q);
    Monotone(fl, q, 1.0);
    if 0 < d && m <= SIGNIFICANDS {
      SmallInts(d);
      SmallInts(m);
      FloatsStay(fl, d as real);
      FloatsStay(fl, m as real);
      PowersOfTwo();
      FloatsStay(fl, ULP);
      Quotient(1.0, d as real, m as real, SIGNIFICANDS as real);
      Monotone(fl, ULP, q);
    }
  }

  lemma Ratio(d: real, m: real)
    requires 0.0 <= d <= m && m > 0.0
    ensures 0.0 <= d / m <= 1.0
    ensures d == 0.0 ==> d / m == 0.0
  {
  }

  lemma Quotient(a: real, b: real, c: real, d: real)
    requires 0.0 <= a <= b && 0.0 < c <= d
    ensures a / d <= b / c
  {
    var q := b / c;
    assert q * c == b;
    assert q * d >= q * c;
  }

  /** Beyond that the code can call different trees identical: here only the roots have different types. */
  lemma RoundedToIdentical(fl: real -> real, r: Info, r': Info, children: seq<Tree>)
    requires RoundsToNearest(fl) && r.kind != r'.kind && SizeAll(children) >= 2 * SIGNIFICANDS - 1
    ensures var t, u := Node(r, children), Node(r', children);
            Dist(PostOrder(t), PostOrder(u)) == 1 && Normalized(fl, t, u) == 1.0
  {
    var t, u := Node(r, children), Node(r', children);
    var rest := PostOrderAll(children);
    ZeroIffEqual(rest, rest);
    ZeroIffEqual(PostOrder(t), PostOrder(u));
    assert PostOrder(t)[|rest|] != PostOrder(u)[|rest|];
    LastStep(PostOrder(t), PostOrder(u), rest, rest);
    NormalizedRange(fl, t, u);
    TinyShare(fl, Size(t));
  }

  lemma TinyShare(fl: real -> real, m: nat)
    requires RoundsToNearest(fl) && m >= 2 * SIGNIFICANDS
    ensures Share(fl, 1, m) <= ULP / 2.0
  {
    SmallInts(1);
    PowersOfTwo();
    FloatsStay(fl, 1.0);
    FloatsStay(fl, (2 * SIGNIFICANDS) as real);
    FloatsStay(fl, ULP / 2.0);
    Monotone(fl, (2 * SIGNIFICANDS) as real, m as real);
    Quotient(1.0, 1.0, (2 * SIGNIFICANDS) as real, fl(m as real));
    Monotone(fl, 1.0 / fl(m as real), ULP / 2.0);
  }
}
