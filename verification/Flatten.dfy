/**
 * `struct Tree` with its parent pointers and its caches: `add_child`, `size`, `depth` and `flatten_node_type`.
 */
module Flatten {
  import opened Options

  /** A node and what it owns. Nodes have identities, to which the parent pointers refer. */
  datatype Node = Node(id: nat, kind: int, parent: Option<nat>, cachedSize: int, cachedDepth: int, children: seq<Node>)

  /** What a traversal sees of a node. */
  datatype Seen = Seen(id: nat, kind: int)

  function Max(x: nat, y: nat): nat { if x >= y then x else y }

  // Lists of siblings are taken apart from the right, as the loops go through them from the left.

  function Count(t: Node): nat
    decreases t, 1
  {
    1 + CountAll(t.children)
  }

  function CountAll(ts: seq<Node>): nat
    decreases ts, 0
  {
    if ts == [] then 0 else CountAll(ts[..|ts| - 1]) + Count(ts[|ts| - 1])
  }

  function Height(t: Node): nat
    decreases t, 1
  {
    if t.children == [] then 0 else HeightAll(t.children) + 1
  }

  /** The greatest height, 0 if there is none. */
  function HeightAll(ts: seq<Node>): nat
    decreases ts, 0
  {
    if ts == [] then 0 else Max(HeightAll(ts[..|ts| - 1]), Height(ts[|ts| - 1]))
  }

  function PreOrder(t: Node): seq<Seen>
    decreases t, 1
  {
    [Seen(t.id, t.kind)] + PreOrderAll(t.children)
  }

  function PreOrderAll(ts: seq<Node>): seq<Seen>
    decreases ts, 0
  {
    if ts == [] then [] else PreOrderAll(ts[..|ts| - 1]) + PreOrder(ts[|ts| - 1])
  }

  function PostOrder(t: Node): seq<Seen>
    decreases t, 1
  {
    PostOrderAll(t.children) + [Seen(t.id, t.kind)]
  }

  function PostOrderAll(ts: seq<Node>): seq<Seen>
    decreases ts, 0
  {
    if ts == [] then [] else PostOrderAll(ts[..|ts| - 1]) + PostOrder(ts[|ts| - 1])
  }

  /** A cache that is filled holds the right number. */
  predicate CachesRight(t: Node)
    decreases t, 1
  {
    && (t.cachedSize >= 0 ==> t.cachedSize == Count(t))
    && (t.cachedDepth >= 0 ==> t.cachedDepth == Height(t))
    && AllRight(t.children)
  }

  predicate AllRight(ts: seq<Node>)
    decreases ts, 0
  {
    ts == [] || (AllRight(ts[..|ts| - 1]) && CachesRight(ts[|ts| - 1]))
  }

  /** Every node points to the node that owns it. */
  predicate ParentsAgree(t: Node)
    decreases t, 1
  {
    OwnedBy(t.children, t.id)
  }

  predicate OwnedBy(ts: seq<Node>, up: nat)
    decreases ts, 0
  {
    ts == [] || (OwnedBy(ts[..|ts| - 1], up) && ts[|ts| - 1].parent == Some(up) && ParentsAgree(ts[|ts| - 1]))
  }

  // ---------------------------------------------------------------- flatten_node_type

  function Adopted(ts: seq<Node>, up: nat): seq<Node> {
    if ts == [] then [] else Adopted(ts[..|ts| - 1], up) + [ts[|ts| - 1].(parent := Some(up))]
  }

  function Flat(t: Node, k: int): Node
    decreases t, 1
  {
    if t.children == [] then t
    else t.(children := FlatAll(t.children, k, t.id), cachedSize := -1, cachedDepth := -1)
  }

  /** The new children of a node: a child of the given kind is replaced by its own children. */
  function FlatAll(ts: seq<Node>, k: int, up: nat): seq<Node>
    decreases ts, 0
  {
    if ts == [] then []
    else
      var child := Flat(ts[|ts| - 1], k);
      FlatAll(ts[..|ts| - 1], k, up) + (if child.kind == k then Adopted(child.children, up) else [child])
  }

  /** `flatten_node_type` */
  method FlattenNodeType(t: Node, k: int) returns (r: Node)
    ensures r == Flat(t, k)
    decreases t
  {
    if t.children == [] {
      return t;
    }
    var newChildren := [];
    for i := 0 to |t.children|
      invariant newChildren == FlatAll(t.children[..i], k, t.id)
    {
      assert t.children[..i + 1][..i] == t.children[..i];
      ghost var before := newChildren;
      var child := FlattenNodeType(t.children[i], k);
      if child.kind == k {
        for j := 0 to |child.children|
          invariant newChildren == before + Adopted(child.children[..j], t.id)
        {
          assert child.children[..j + 1][..j] == child.children[..j];
          newChildren := newChildren + [child.children[j].(parent := Some(t.id))];
        }
        assert child.children[..|child.children|] == child.children;
      } else {
        newChildren := newChildren + [child];
      }
    }
    assert t.children[..|t.children|] == t.children;
    r := t.(children := newChildren, cachedSize := -1, cachedDepth := -1);
  }

  function Except(ns: seq<Seen>, k: int): seq<Seen> {
    if ns == [] then []
    else if ns[|ns| - 1].kind == k then Except(ns[..|ns| - 1], k)
    else Except(ns[..|ns| - 1], k) + [ns[|ns| - 1]]
  }

  lemma {:induction false} ExceptConcat(ns: seq<Seen>, ms: seq<Seen>, k: int)
    ensures Except(ns + ms, k) == Except(ns, k) + Except(ms, k)
  {
    if ms == [] {
      assert ns + ms == ns;
    } else {
      ExceptConcat(ns, ms[..|ms| - 1], k);
      assert (ns + ms)[..|ns + ms| - 1] == ns + ms[..|ms| - 1];
    }
  }

  lemma ExceptOne(n: Seen, k: int)
    ensures Except([n], k) == if n.kind == k then [] else [n]
  {
  }

  lemma {:induction false} OrderSnoc(ts: seq<Node>, t: Node)
    ensures PreOrderAll(ts + [t]) == PreOrderAll(ts) + PreOrder(t)
    ensures PostOrderAll(ts + [t]) == PostOrderAll(ts) + PostOrder(t)
  {
    assert (ts + [t])[..|ts|] == ts;
  }

  lemma Regroup(ts: seq<Node>, us: seq<Node>)
    requires us != []
    ensures ts + us == (ts + us[..|us| - 1]) + [us[|us| - 1]]
  {
  }

  lemma {:induction false} PreOrderConcat(ts: seq<Node>, us: seq<Node>)
    ensures PreOrderAll(ts + us) == PreOrderAll(ts) + PreOrderAll(us)
  {
    if us == [] {
      assert ts + us == ts;
    } else {
      var init, last := us[..|us| - 1], us[|us| - 1];
      PreOrderConcat(ts, init);
      OrderSnoc(ts + init, last);
      Regroup(ts, us);
      var x, y, z := PreOrderAll(ts), PreOrderAll(init), PreOrder(last);
      assert PreOrderAll(us) == y + z && (x + y) + z == x + (y + z);
    }
  }

  lemma {:induction false} PostOrderConcat(ts: seq<Node>, us: seq<Node>)
    ensures PostOrderAll(ts + us) == PostOrderAll(ts) + PostOrderAll(us)
  {
    if us == [] {
      assert ts + us == ts;
    } else {
      var init, last := us[..|us| - 1], us[|us| - 1];
      PostOrderConcat(ts, init);
      OrderSnoc(ts + init, last);
      Regroup(ts, us);
      var x, y, z := PostOrderAll(ts), PostOrderAll(init), PostOrder(last);
      assert PostOrderAll(us) == y + z && (x + y) + z == x + (y + z);
    }
  }

  lemma {:induction false} AdoptedSeen(ts: seq<Node>, up: nat)
    ensures PreOrderAll(Adopted(ts, up)) == PreOrderAll(ts) && PostOrderAll(Adopted(ts, up)) == PostOrderAll(ts)
  {
    if ts != [] {
      AdoptedSeen(ts[..|ts| - 1], up);
    }
  }

  lemma OnlyOne(t: Node)
    ensures PreOrderAll([t]) == PreOrder(t) && PostOrderAll([t]) == PostOrder(t)
  {
    assert [t][..0] == [];
  }

  /** The nodes that are left, in the orders they had. */
  lemma {:induction false} FlatAllOrder(ts: seq<Node>, k: int, up: nat)
    ensures PreOrderAll(FlatAll(ts, k, up)) == Except(PreOrderAll(ts), k)
    ensures PostOrderAll(FlatAll(ts, k, up)) == Except(PostOrderAll(ts), k)
    decreases ts
  {
    if ts != [] {
      var init, t := ts[..|ts| - 1], ts[|ts| - 1];
      FlatAllOrder(init, k, up);
      FlatAllOrder(t.children, k, t.id);
      PieceOrder(t, k, up);
      var child := Flat(t, k);
      var piece := if child.kind == k then Adopted(child.children, up) else [child];
      PreOrderConcat(FlatAll(init, k, up), piece);
      PostOrderConcat(FlatAll(init, k, up), piece);
      ExceptConcat(PreOrderAll(init), PreOrder(t), k);
      ExceptConcat(PostOrderAll(init), PostOrder(t), k);
    }
  }

  lemma PieceOrder(t: Node, k: int, up: nat)
    requires PreOrderAll(FlatAll(t.children, k, t.id)) == Except(PreOrderAll(t.children), k)
    requires PostOrderAll(FlatAll(t.children, k, t.id)) == Except(PostOrderAll(t.children), k)
    ensures var child := Flat(t, k);
            var piece := if child.kind == k then Adopted(child.children, up) else [child];
            PreOrderAll(piece) == Except(PreOrder(t), k) && PostOrderAll(piece) == Except(PostOrder(t), k)
  {
    var child, n := Flat(t, k), Seen(t.id, t.kind);
    ExceptConcat([n], PreOrderAll(t.children), k);
    ExceptConcat(PostOrderAll(t.children), [n], k);
    ExceptOne(n, k);
    AdoptedSeen(child.children, up);
    OnlyOne(child);
  }

  /** Only the root can still have the type; all other nodes keep their places in both orders. */
  lemma FlatOrder(t: Node, k: int)
    ensures PreOrder(Flat(t, k)) == [Seen(t.id, t.kind)] + Except(PreOrderAll(t.children), k)
    ensures PostOrder(Flat(t, k)) == Except(PostOrderAll(t.children), k) + [Seen(t.id, t.kind)]
  {
    FlatAllOrder(t.children, k, t.id);
  }

  /** The size drops by the number of dissolved nodes. */
  lemma FlatSize(t: Node, k: int)
    ensures Count(Flat(t, k)) == Count(t) - |Only(PreOrderAll(t.children), k)|
    ensures forall n :: n in PreOrderAll(Flat(t, k).children) ==> n.kind != k
  {
    FlatAllOrder(t.children, k, t.id);
    CountIsLength(t.children);
    CountIsLength(Flat(t, k).children);
    ExceptMembers(PreOrderAll(t.children), k);
  }

  function Only(ns: seq<Seen>, k: int): seq<Seen> {
    if ns == [] then []
    else if ns[|ns| - 1].kind == k then Only(ns[..|ns| - 1], k) + [ns[|ns| - 1]]
    else Only(ns[..|ns| - 1], k)
  }

  lemma {:induction false} ExceptMembers(ns: seq<Seen>, k: int)
    ensures forall n :: n in Except(ns, k) ==> n.kind != k
    ensures |Except(ns, k)| + |Only(ns, k)| == |ns|
  {
    if ns != [] {
      ExceptMembers(ns[..|ns| - 1], k);
    }
  }

  lemma {:induction false} CountIsLength(ts: seq<Node>)
    ensures CountAll(ts) == |PreOrderAll(ts)|
    decreases ts
  {
    if ts != [] {
      CountIsLength(ts[..|ts| - 1]);
      CountIsLength(ts[|ts| - 1].children);
    }
  }

  // ---------------------------------------------------------------- parents and caches survive flattening

  lemma {:induction false} OwnedConcat(ts: seq<Node>, us: seq<Node>, up: nat)
    ensures OwnedBy(ts + us, up) <==> OwnedBy(ts, up) && OwnedBy(us, up)
    ensures AllRight(ts + us) <==> AllRight(ts) && AllRight(us)
  {
    if us == [] {
      assert ts + us == ts;
    } else {
      OwnedConcat(ts, us[..|us| - 1], up);
      assert (ts + us)[..|ts + us| - 1] == ts + us[..|us| - 1];
    }
  }

  lemma LastOf(ts: seq<Node>, t: Node, up: nat)
    ensures OwnedBy(ts + [t], up) <==> OwnedBy(ts, up) && t.parent == Some(up) && ParentsAgree(t)
    ensures AllRight(ts + [t]) <==> AllRight(ts) && CachesRight(t)
  {
    assert (ts + [t])[..|ts|] == ts;
  }

  lemma Reparented(t: Node, up: nat)
    ensures var r := t.(parent := Some(up));
            && Count(r) == Count(t) && Height(r) == Height(t)
            && (CachesRight(r) <==> CachesRight(t)) && (ParentsAgree(r) <==> ParentsAgree(t))
  {
  }

  lemma LastIn(ts: seq<Node>, up: nat)
    requires ts != []
    ensures var init, t := ts[..|ts| - 1], ts[|ts| - 1];
            OwnedBy(ts, up) <==> OwnedBy(init, up) && t.parent == Some(up) && ParentsAgree(t)
    ensures AllRight(ts) <==> AllRight(ts[..|ts| - 1]) && CachesRight(ts[|ts| - 1])
  {
  }

  lemma {:induction false} AdoptedKeeps(ts: seq<Node>, was: nat, up: nat)
    ensures OwnedBy(ts, was) ==> OwnedBy(Adopted(ts, up), up)
    ensures AllRight(ts) ==> AllRight(Adopted(ts, up))
  {
    if ts != [] {
      var init, t := ts[..|ts| - 1], ts[|ts| - 1];
      AdoptedKeeps(init, was, up);
      LastIn(ts, was);
      Reparented(t, up);
      LastOf(Adopted(init, up), t.(parent := Some(up)), up);
      assert Adopted(ts, up) == Adopted(init, up) + [t.(parent := Some(up))];
    }
  }

  lemma {:induction false} FlatAllKeeps(ts: seq<Node>, k: int, up: nat)
    ensures OwnedBy(ts, up) ==> OwnedBy(FlatAll(ts, k, up), up)
    ensures AllRight(ts) ==> AllRight(FlatAll(ts, k, up))
    decreases ts
  {
    if ts != [] {
      var init, t := ts[..|ts| - 1], ts[|ts| - 1];
      FlatAllKeeps(init, k, up);
      FlatAllKeeps(t.children, k, t.id);
      LastIn(ts, up);
      PieceKeeps(t, k, up);
      var child := Flat(t, k);
      var piece := if child.kind == k then Adopted(child.children, up) else [child];
      OwnedConcat(FlatAll(init, k, up), piece, up);
      assert FlatAll(ts, k, up) == FlatAll(init, k, up) + piece;
    }
  }

  lemma PieceKeeps(t: Node, k: int, up: nat)
    requires OwnedBy(t.children, t.id) ==> OwnedBy(FlatAll(t.children, k, t.id), t.id)
    requires AllRight(t.children) ==> AllRight(FlatAll(t.children, k, t.id))
    ensures var child := Flat(t, k);
            var piece := if child.kind == k then Adopted(child.children, up) else [child];
            && (t.parent == Some(up) && ParentsAgree(t) ==> OwnedBy(piece, up))
            && (CachesRight(t) ==> AllRight(piece))
  {
    var child := Flat(t, k);
    AdoptedKeeps(child.children, t.id, up);
    LastOf([], child, up);
    assert [] + [child] == [child];
  }

  /** Parent pointers that agreed with the child lists still do, and caches that were right still are. */
  lemma FlatKeeps(t: Node, k: int)
    ensures ParentsAgree(t) ==> ParentsAgree(Flat(t, k))
    ensures CachesRight(t) ==> CachesRight(Flat(t, k))
  {
    FlatAllKeeps(t.children, k, t.id);
  }

  // ---------------------------------------------------------------- reading and invalidating the caches

  /** The tree without its size caches, or without its depth caches. */
  function Bare(t: Node, sizes: bool): Node
    decreases t, 1
  {
    t.(cachedSize := if sizes then -1 else t.cachedSize,
       cachedDepth := if sizes then t.cachedDepth else -1,
       children := BareAll(t.children, sizes))
  }

  function BareAll(ts: seq<Node>, sizes: bool): (us: seq<Node>)
    ensures |us| == |ts|
    decreases ts, 0
  {
    if ts == [] then [] else BareAll(ts[..|ts| - 1], sizes) + [Bare(ts[|ts| - 1], sizes)]
  }

  lemma {:induction false} BareMeasures(ts: seq<Node>, sizes: bool)
    ensures CountAll(BareAll(ts, sizes)) == CountAll(ts) && HeightAll(BareAll(ts, sizes)) == HeightAll(ts)
    decreases ts
  {
    if ts != [] {
      BareMeasures(ts[..|ts| - 1], sizes);
      BareMeasures(ts[|ts| - 1].children, sizes);
    }
  }

  lemma SameBare(ts: seq<Node>, us: seq<Node>, sizes: bool)
    requires BareAll(ts, sizes) == BareAll(us, sizes)
    ensures CountAll(ts) == CountAll(us) && HeightAll(ts) == HeightAll(us) && |ts| == |us|
  {
    BareMeasures(ts, sizes);
    BareMeasures(us, sizes);
  }

  lemma OneMore(ts: seq<Node>, i: nat, sizes: bool)
    requires i < |ts|
    ensures CountAll(ts[..i + 1]) == CountAll(ts[..i]) + Count(ts[i])
    ensures HeightAll(ts[..i + 1]) == Max(HeightAll(ts[..i]), Height(ts[i]))
    ensures BareAll(ts[..i + 1], sizes) == BareAll(ts[..i], sizes) + [Bare(ts[i], sizes)]
    ensures AllRight(ts[..i + 1]) <==> AllRight(ts[..i]) && CachesRight(ts[i])
  {
    assert ts[..i + 1][..i] == ts[..i];
  }

  lemma {:induction false} AllRightAt(ts: seq<Node>, i: nat)
    requires i < |ts| && AllRight(ts)
    ensures CachesRight(ts[i])
  {
    if i < |ts| - 1 {
      AllRightAt(ts[..|ts| - 1], i);
    }
  }

  /** `size`: right when the caches are; it is cached, and nothing but size caches changes. */
  method Size(t: Node) returns (s: int, r: Node)
    requires CachesRight(t)
    ensures s == Count(t) && Bare(r, true) == Bare(t, true) && CachesRight(r) && r.cachedSize == s
    decreases t
  {
    if t.cachedSize >= 0 {
      return t.cachedSize, t;
    }
    s := 1;
    var children: seq<Node> := [];
    for i := 0 to |t.children|
      invariant s == 1 + CountAll(t.children[..i])
      invariant BareAll(children, true) == BareAll(t.children[..i], true) && AllRight(children)
    {
      AllRightAt(t.children, i);
      var n, child := Size(t.children[i]);
      OneMore(t.children, i, true);
      assert (children + [child])[..|children|] == children;
      s, children := s + n, children + [child];
    }
    assert t.children[..|t.children|] == t.children;
    SameBare(children, t.children, true);
    r := t.(children := children, cachedSize := s);
  }

  /** `depth`, likewise */
  method Depth(t: Node) returns (d: int, r: Node)
    requires CachesRight(t)
    ensures d == Height(t) && Bare(r, false) == Bare(t, false) && CachesRight(r) && r.cachedDepth == d
    decreases t
  {
    if t.cachedDepth >= 0 {
      return t.cachedDepth, t;
    }
    d := 0;
    var children: seq<Node> := [];
    for i := 0 to |t.children|
      invariant d == HeightAll(t.children[..i])
      invariant BareAll(children, false) == BareAll(t.children[..i], false) && AllRight(children)
    {
      AllRightAt(t.children, i);
      var n, child := Depth(t.children[i]);
      OneMore(t.children, i, false);
      assert (children + [child])[..|children|] == children;
      d, children := if d >= n then d else n, children + [child];
    }
    assert t.children[..|t.children|] == t.children;
    SameBare(children, t.children, false);
    if t.children != [] {
      d := d + 1;
    }
    r := t.(children := children, cachedDepth := d);
  }

  /** `add_child` forgets the cached size, but keeps the cached depth. */
  function WithChild(t: Node, child: Node): Node {
    t.(children := t.children + [child.(parent := Some(t.id))], cachedSize := -1)
  }

  /**
   * So caches that were right are right afterwards exactly if no depth was cached, or the new child is not the one
   * that makes the tree deeper.
   */
  lemma AddChildKeepsCaches(t: Node, child: Node)
    requires CachesRight(t) && CachesRight(child)
    ensures CachesRight(WithChild(t, child)) <==> t.cachedDepth < 0 || Height(child) < t.cachedDepth
  {
    var c := child.(parent := Some(t.id));
    Reparented(child, t.id);
    LastOf(t.children, c, t.id);
    var us := t.children + [c];
    assert us[..|us| - 1] == t.children && us[|us| - 1] == c;
    assert HeightAll(us) == Max(HeightAll(t.children), Height(child));
    assert HeightAll(t.children) + 1 == Height(t) || t.children == [];
    var r := WithChild(t, child);
    assert Height(r) == HeightAll(us) + 1;
    assert AllRight(us);
  }

  lemma AddChildKeepsParents(t: Node, child: Node)
    requires ParentsAgree(t) && ParentsAgree(child)
    ensures ParentsAgree(WithChild(t, child))
  {
    Reparented(child, t.id);
    LastOf(t.children, child.(parent := Some(t.id)), t.id);
  }

  /** The new child comes last: after all others in both orders. */
  lemma AddChildOrder(t: Node, child: Node)
    ensures PreOrder(WithChild(t, child)) == PreOrder(t) + PreOrder(child)
    ensures PostOrder(WithChild(t, child)) == PostOrderAll(t.children) + PostOrder(child) + [Seen(t.id, t.kind)]
  {
    var c := child.(parent := Some(t.id));
    var us := t.children + [c];
    assert us[..|us| - 1] == t.children && us[|us| - 1] == c;
    assert PreOrder(c) == PreOrder(child) && PostOrder(c) == PostOrder(child);
  }

  /** A leaf whose depth was asked for keeps depth 0 when it gets a child. */
  lemma StaleDepth(a: nat, b: nat, k: int)
    ensures var leaf := Node(a, k, None, 1, 0, []);
            var t := WithChild(leaf, Node(b, k, None, -1, -1, []));
            CachesRight(leaf) && t.cachedDepth == 0 && Height(t) == 1
  {
    var leaf, child := Node(a, k, None, 1, 0, []), Node(b, k, None, -1, -1, []);
    var c := child.(parent := Some(a));
    assert ([] + [c])[..0] == [];
    assert HeightAll([c]) == Max(HeightAll([]), Height(c));
    assert leaf.children + [c] == [c];
  }
}
