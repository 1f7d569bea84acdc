/**
 * `Tree::to_binary`: the left-child/right-sibling form of a syntax tree, built node by node on a heap of cells.
 */
module BinaryTree {
  import opened Options
  import opened Trees

  /** A node: its children are references, `None` being the null placeholder for a missing left child. */
  datatype Cell = Cell(info: Info, parent: Option<nat>, children: seq<Option<nat>>)

  /** The children of a node with the given left child and right sibling. */
  function Kids(left: Option<nat>, right: Option<nat>): seq<Option<nat>> {
    if right == None then (if left == None then [] else [left]) else [left, right]
  }

  /**
   * From address at on, the cells hold the siblings ts: each node's left child is its first child, its right
   * child the next sibling, and its parent the node that refers to it (up, for the first).
   */
  predicate Laid(cells: seq<Cell>, at: nat, ts: seq<Tree>, up: Option<nat>)
    decreases SizeAll(ts)
  {
    assert ts != [] ==> Size(ts[0]) > SizeAll(ts[0].children);
    ts == [] ||
    (&& Head(cells, at, ts[0], up, if |ts| > 1 then Some(at + Size(ts[0])) else None)
     && Laid(cells, at + 1, ts[0].children, Some(at))
     && Laid(cells, at + Size(ts[0]), ts[1..], Some(at)))
  }

  /** The cell of t alone. */
  predicate Head(cells: seq<Cell>, at: nat, t: Tree, up: Option<nat>, right: Option<nat>) {
    && at < |cells|
    && cells[at] == Cell(t.info, up, Kids(if t.children == [] then None else Some(at + 1), right))
  }

  /** Every reference leads to a later cell. */
  predicate Upward(cells: seq<Cell>) {
    forall i: nat :: i < |cells| ==> Later(cells, i)
  }

  predicate Later(cells: seq<Cell>, i: nat)
    requires i < |cells|
  {
    && |cells[i].children| <= 2
    && forall k: nat :: k < |cells[i].children| ==> NullOrLater(cells, i, cells[i].children[k])
  }

  predicate NullOrLater(cells: seq<Cell>, i: nat, child: Option<nat>) {
    child == None || i < child.value < |cells|
  }

  /** Only the cells that hold the siblings matter. */
  lemma {:induction false} Frame(cells: seq<Cell>, cells': seq<Cell>, at: nat, ts: seq<Tree>, up: Option<nat>)
    requires Laid(cells, at, ts, up)
    requires |cells| <= |cells'|
    requires forall i: nat :: at <= i < at + SizeAll(ts) && i < |cells| ==> cells'[i] == cells[i]
    ensures Laid(cells', at, ts, up)
    decreases SizeAll(ts)
  {
    if ts != [] {
      Frame(cells, cells', at + 1, ts[0].children, Some(at));
      Frame(cells, cells', at + Size(ts[0]), ts[1..], Some(at));
    }
  }

  /** Where the last of the siblings laid out from at on is. */
  function LastAt(at: nat, ts: seq<Tree>): nat
    requires ts != []
  {
    at + SizeAll(ts[..|ts| - 1])
  }

  lemma {:induction false} LastOfRest(at: nat, ts: seq<Tree>)
    requires |ts| > 1
    ensures LastAt(at, ts) == LastAt(at + Size(ts[0]), ts[1..])
    ensures SizeAll(ts) == Size(ts[0]) + SizeAll(ts[1..])
  {
    assert ts[..|ts| - 1] == [ts[0]] + ts[1..][..|ts[1..]| - 1];
    SizeSplits([ts[0]], ts[1..][..|ts[1..]| - 1]);
  }

  lemma {:induction false} LastAlone(at: nat, ts: seq<Tree>)
    requires |ts| == 1
    ensures LastAt(at, ts) == at && SizeAll(ts) == Size(ts[0])
  {
    assert ts[..0] == [] && ts[1..] == [];
  }

  lemma FirstAndSnoc(ts: seq<Tree>, t: Tree)
    requires ts != []
    ensures ts + [t] == [ts[0]] + (ts[1..] + [t])
  {
  }

  /** The last sibling of a chain has no right sibling yet. */
  lemma {:induction false} LastOfChain(cells: seq<Cell>, at: nat, ts: seq<Tree>, up: Option<nat>)
    requires ts != [] && Laid(cells, at, ts, up)
    ensures LastAt(at, ts) < |cells| && cells[LastAt(at, ts)].children in [[], [Some(LastAt(at, ts) + 1)]]
    decreases |ts|
  {
    if |ts| > 1 {
      LastOfChain(cells, at + Size(ts[0]), ts[1..], Some(at));
      LastOfRest(at, ts);
    }
  }

  /** cells' is cells with a sibling at next chained behind last. */
  predicate Linked(cells: seq<Cell>, cells': seq<Cell>, last: nat, next: nat) {
    && last < |cells| <= |cells'|
    && cells[last].children in [[], [Some(last + 1)]]
    && (forall i: nat :: i < |cells| && i != last ==> cells'[i] == cells[i])
    && cells'[last] == cells[last].(children :=
         (if cells[last].children == [] then [None] else cells[last].children) + [Some(next)])
  }

  /** Putting a first tree in front of siblings that are laid out. */
  lemma {:induction false} InFront(cells: seq<Cell>, at: nat, s: Tree, us: seq<Tree>, up: Option<nat>, right: nat)
    requires us != [] && right == at + Size(s)
    requires Head(cells, at, s, up, Some(right)) && Laid(cells, at + 1, s.children, Some(at))
    requires Laid(cells, right, us, Some(at))
    ensures Laid(cells, at, [s] + us, up)
  {
    assert ([s] + us)[1..] == us;
  }

  /** Chaining one more sibling, at next, behind the last. */
  lemma {:induction false} Chain(cells: seq<Cell>, cells': seq<Cell>, at: nat, ts: seq<Tree>, t: Tree, up: Option<nat>,
          last: nat, next: nat)
    requires ts != [] && Laid(cells, at, ts, up) && last == LastAt(at, ts) && next == at + SizeAll(ts)
    requires Linked(cells, cells', last, next) && Laid(cells', next, [t], Some(last))
    ensures Laid(cells', at, ts + [t], up)
    decreases |ts|, 1
  {
    if |ts| == 1 {
      LastAlone(at, ts);
      FirstChained(cells, cells', at, ts, t, up, next);
    } else {
      LaterChained(cells, cells', at, ts, t, up, last, next);
    }
  }

  lemma {:induction false} LaterChained(cells: seq<Cell>, cells': seq<Cell>, at: nat, ts: seq<Tree>, t: Tree,
          up: Option<nat>, last: nat, next: nat)
    requires |ts| > 1 && Laid(cells, at, ts, up) && last == LastAt(at, ts) && next == at + SizeAll(ts)
    requires Linked(cells, cells', last, next) && Laid(cells', next, [t], Some(last))
    ensures Laid(cells', at, ts + [t], up)
    decreases |ts|, 0
  {
    LastOfRest(at, ts);
    TakenApart(cells, at, ts, up);
    MoreChained(cells, cells', at, ts[0], ts[1..], t, up, at + Size(ts[0]), last, next);
    FirstAndSnoc(ts, t);
  }

  lemma {:induction false} MoreChained(cells: seq<Cell>, cells': seq<Cell>, at: nat, s: Tree, rest: seq<Tree>, t: Tree,
          up: Option<nat>, right: nat, last: nat, next: nat)
    requires rest != [] && right == at + Size(s) && last == LastAt(right, rest) && next == right + SizeAll(rest)
    requires Head(cells, at, s, up, Some(right)) && Laid(cells, at + 1, s.children, Some(at))
    requires Laid(cells, right, rest, Some(at)) && Linked(cells, cells', last, next)
    requires Laid(cells', next, [t], Some(last))
    ensures Laid(cells', at, [s] + (rest + [t]), up)
    decreases |rest|, 2
  {
    Chain(cells, cells', right, rest, t, Some(at), last, next);
    FrontStays(cells, cells', at, s, up, right, last, next);
    InFront(cells', at, s, rest + [t], up, right);
  }

  lemma {:induction false} FrontStays(cells: seq<Cell>, cells': seq<Cell>, at: nat, s: Tree, up: Option<nat>,
          right: nat, last: nat, next: nat)
    requires right == at + Size(s) <= last && Linked(cells, cells', last, next)
    requires Head(cells, at, s, up, Some(right)) && Laid(cells, at + 1, s.children, Some(at))
    ensures Head(cells', at, s, up, Some(right)) && Laid(cells', at + 1, s.children, Some(at))
  {
    Frame(cells, cells', at + 1, s.children, Some(at));
  }

  lemma {:induction false} FirstChained(cells: seq<Cell>, cells': seq<Cell>, at: nat, ts: seq<Tree>, t: Tree,
          up: Option<nat>, next: nat)
    requires |ts| == 1 && Laid(cells, at, ts, up) && next == at + Size(ts[0])
    requires Linked(cells, cells', at, next) && Laid(cells', next, [t], Some(at))
    ensures Laid(cells', at, ts + [t], up)
  {
    var s := ts[0];
    TakenApart(cells, at, ts, up);
    Frame(cells, cells', at + 1, s.children, Some(at));
    InFront(cells', at, s, [t], up, next);
    assert ts + [t] == [s] + [t];
  }

  lemma {:induction false} TakenApart(cells: seq<Cell>, at: nat, ts: seq<Tree>, up: Option<nat>)
    requires ts != [] && Laid(cells, at, ts, up)
    ensures Head(cells, at, ts[0], up, if |ts| > 1 then Some(at + Size(ts[0])) else None)
    ensures Laid(cells, at + 1, ts[0].children, Some(at)) && Laid(cells, at + Size(ts[0]), ts[1..], Some(at))
    ensures ts[0].children != [] ==> at + 1 < |cells|
    ensures |ts| > 1 ==> at + Size(ts[0]) < |cells|
    ensures SizeAll(ts) > SizeAll(ts[0].children) && SizeAll(ts) > SizeAll(ts[1..])
  {
  }

  /** A tree is given a parent. */
  lemma {:induction false} Reparent(cells: seq<Cell>, cells': seq<Cell>, at: nat, t: Tree, up: Option<nat>)
    requires Laid(cells, at, [t], None)
    requires |cells'| == |cells| && cells'[at] == cells[at].(parent := up)
    requires forall i: nat :: at < i < |cells| ==> cells'[i] == cells[i]
    ensures Laid(cells', at, [t], up)
  {
    Frame(cells, cells', at + 1, t.children, Some(at));
    assert [t][1..] == [];
  }

  lemma StillUpward(cells: seq<Cell>, cells': seq<Cell>)
    requires Upward(cells) && |cells| <= |cells'|
    requires forall i: nat :: i < |cells'| ==>
               (i < |cells| && cells'[i].children == cells[i].children) || Later(cells', i)
    ensures Upward(cells')
  {
    forall i: nat | i < |cells'| ensures Later(cells', i) {
      if i < |cells| && cells'[i].children == cells[i].children {
        assert Later(cells, i);
      }
    }
  }

  /** The cells after one round of the loop: the sibling built last gets its parent and is chained to current. */
  function Chained(built: seq<Cell>, sibling: nat, current: nat): seq<Cell>
    requires current < sibling < |built|
  {
    var parented := built[sibling := built[sibling].(parent := Some(current))];
    var kids := built[current].children;
    parented[current := built[current].(children := (if kids == [] then [None] else kids) + [Some(sibling)])]
  }

  lemma {:induction false} ChainedUpward(built: seq<Cell>, sibling: nat, current: nat)
    requires current < sibling < |built| && Upward(built) && built[current].children in [[], [Some(current + 1)]]
    ensures Upward(Chained(built, sibling, current))
  {
    assert Later(Chained(built, sibling, current), current);
    StillUpward(built, Chained(built, sibling, current));
  }

  lemma {:induction false} ChainedLaid(before: seq<Cell>, built: seq<Cell>, at: nat, ts: seq<Tree>, t: Tree,
          up: Option<nat>, current: nat)
    requires ts != [] && Laid(before, at, ts, up) && before <= built
    requires current == LastAt(at, ts) < |before| && |before| == at + SizeAll(ts) < |built|
    requires before[current].children in [[], [Some(current + 1)]]
    requires Laid(built, |before|, [t], None)
    ensures Laid(Chained(built, |before|, current), at, ts + [t], up)
  {
    var after := Chained(built, |before|, current);
    Reparent(built, after, |before|, t, Some(current));
    assert before[current] == built[current];
    Chain(before, after, at, ts, t, up, current, |before|);
  }

  /** The root of t and its first i children are in place. */
  predicate Built(before: seq<Cell>, cells: seq<Cell>, t: Tree, i: nat)
    requires 1 <= i <= |t.children|
  {
    && |cells| == |before| + 1 + SizeAll(t.children[..i]) && before <= cells && Upward(cells)
    && cells[|before|] == Cell(t.info, None, [Some(|before| + 1)])
    && Laid(cells, |before| + 1, t.children[..i], Some(|before|))
  }

  lemma {:induction false} FirstBuilt(before: seq<Cell>, built: seq<Cell>, cells: seq<Cell>, t: Tree)
    requires t.children != []
    requires before + [Cell(t.info, None, [])] <= built && |built| == |before| + 1 + Size(t.children[0])
    requires Upward(built) && Laid(built, |before| + 1, [t.children[0]], None)
    requires cells == built[|before| := Cell(t.info, None, [Some(|before| + 1)])]
                           [|before| + 1 := built[|before| + 1].(parent := Some(|before|))]
    ensures Built(before, cells, t, 1)
  {
    var root := |before|;
    assert t.children[..1] == [t.children[0]] && [t.children[0]][1..] == [];
    Reparent(built, cells, root + 1, t.children[0], Some(root));
    assert built[root] == Cell(t.info, None, []);
    assert Later(cells, root);
    StillUpward(built, cells);
  }

  lemma {:induction false} LastBefore(before: seq<Cell>, cells: seq<Cell>, t: Tree, i: nat)
    requires 1 <= i < |t.children| && Built(before, cells, t, i)
    ensures LastAt(|before| + 1, t.children[..i]) < |cells|
    ensures var last := LastAt(|before| + 1, t.children[..i]); cells[last].children in [[], [Some(last + 1)]]
  {
    LastOfChain(cells, |before| + 1, t.children[..i], Some(|before|));
  }

  lemma {:induction false} NextBuilt(before: seq<Cell>, done: seq<Cell>, built: seq<Cell>, t: Tree, i: nat)
    requires 1 <= i < |t.children| && Built(before, done, t, i)
    requires done <= built && |built| == |done| + Size(t.children[i]) && Upward(built)
    requires Laid(built, |done|, [t.children[i]], None)
    requires LastAt(|before| + 1, t.children[..i]) < |done|
    ensures Built(before, Chained(built, |done|, LastAt(|before| + 1, t.children[..i])), t, i + 1)
    ensures |done| == LastAt(|before| + 1, t.children[..i + 1])
  {
    var ts, last := t.children[..i], LastAt(|before| + 1, t.children[..i]);
    LastBefore(before, done, t, i);
    assert ts + [t.children[i]] == t.children[..i + 1] && t.children[..i + 1][..i] == ts;
    SizeSplits(ts, [t.children[i]]);
    ChainedUpward(built, |done|, last);
    ChainedLaid(done, built, |before| + 1, ts, t.children[i], Some(|before|), last);
  }

  lemma {:induction false} AllBuilt(before: seq<Cell>, cells: seq<Cell>, t: Tree)
    requires t.children != [] && Built(before, cells, t, |t.children|)
    ensures Laid(cells, |before|, [t], None) && |cells| == |before| + Size(t)
  {
    assert t.children[..|t.children|] == t.children;
    assert Head(cells, |before|, t, None, None) && [t][1..] == [];
  }

  class Heap {
    var cells: seq<Cell>

    constructor ()
      ensures cells == []
    {
      cells := [];
    }

    /** A sibling becomes the right child of the one before it, with a null left child if that one is a leaf. */
    method ChainTo(current: nat, sibling: nat)
      requires current < sibling < |cells|
      modifies this
      ensures cells == Chained(old(cells), sibling, current)
    {
      ghost var kids := cells[current].children;
      cells := cells[sibling := cells[sibling].(parent := Some(current))];
      cells := cells[current := cells[current].(children := cells[current].children + [Some(sibling)])];
      assert kids == [] ==> [None] + (kids + [Some(sibling)]) == [None] + [Some(sibling)];
      if |cells[current].children| == 1 {
        cells := cells[current := cells[current].(children := [None] + cells[current].children)];
      }
    }

    /** `to_binary`: the new nodes are added behind the existing ones, which are left alone. */
    method ToBinary(t: Tree) returns (root: nat)
      requires Upward(cells)
      modifies this
      ensures root == |old(cells)| && old(cells) <= cells && |cells| == |old(cells)| + Size(t)
      ensures Laid(cells, root, [t], None) && Upward(cells)
      decreases t
    {
      ghost var before := cells;
      root := |cells|;
      cells := cells + [Cell(t.info, None, [])];
      assert Later(cells, root);
      StillUpward(before, cells);
      if t.children == [] {
        assert Head(cells, root, t, None, None) && [t][1..] == [];
        return;
      }
      var first := ToBinary(t.children[0]);
      ghost var built := cells;
      cells := cells[root := cells[root].(children := [Some(first)])];
      cells := cells[first := cells[first].(parent := Some(root))];
      FirstBuilt(before, built, cells, t);
      var current := first;
      for i := 1 to |t.children|
        invariant Built(before, cells, t, i) && current == LastAt(root + 1, t.children[..i])
      {
        ghost var done := cells;
        var sibling := ToBinary(t.children[i]);
        built := cells;
        LastBefore(before, done, t, i);
        ChainTo(current, sibling);
        NextBuilt(before, done, built, t, i);
        current := sibling;
      }
      AllBuilt(before, cells, t);
    }
  }

  // ---------------------------------------------------------------- reading the binary tree

  /** The siblings that start at a cell: its left child leads to its children, its right child to the rest. */
  function Decode(cells: seq<Cell>, at: nat): seq<Tree>
    requires Upward(cells) && at < |cells|
    decreases |cells| - at
  {
    assert Later(cells, at);
    var kids := cells[at].children;
    var children := if |kids| > 0 && kids[0].Some? then Decode(cells, kids[0].value) else [];
    var rest := if |kids| > 1 && kids[1].Some? then Decode(cells, kids[1].value) else [];
    [Node(cells[at].info, children)] + rest
  }

  lemma {:induction false} DecodeOne(cells: seq<Cell>, at: nat, left: Option<nat>, kids: seq<Tree>)
    requires Upward(cells) && at < |cells| && cells[at].children == if left == None then [] else [left]
    requires if left == None then kids == [] else at < left.value < |cells| && Decode(cells, left.value) == kids
    ensures Decode(cells, at) == [Node(cells[at].info, kids)]
  {
    assert Later(cells, at);
  }

  lemma {:induction false} DecodeTwo(cells: seq<Cell>, at: nat, left: Option<nat>, right: nat, kids: seq<Tree>,
          rest: seq<Tree>)
    requires Upward(cells) && at < right < |cells| && cells[at].children == [left, Some(right)]
    requires if left == None then kids == [] else at < left.value < |cells| && Decode(cells, left.value) == kids
    requires Decode(cells, right) == rest
    ensures Decode(cells, at) == [Node(cells[at].info, kids)] + rest
  {
    assert Later(cells, at);
  }

  lemma {:induction false} DecodeLast(cells: seq<Cell>, at: nat, t: Tree, up: Option<nat>)
    requires Upward(cells) && Head(cells, at, t, up, None)
    requires t.children != [] ==> at + 1 < |cells| && Decode(cells, at + 1) == t.children
    ensures Decode(cells, at) == [t]
  {
    DecodeOne(cells, at, if t.children == [] then None else Some(at + 1), t.children);
  }

  lemma {:induction false} DecodeHead(cells: seq<Cell>, at: nat, t: Tree, rest: seq<Tree>, up: Option<nat>, right: nat)
    requires Upward(cells) && Head(cells, at, t, up, Some(right)) && at < right < |cells|
    requires t.children != [] ==> at + 1 < |cells| && Decode(cells, at + 1) == t.children
    requires Decode(cells, right) == rest
    ensures Decode(cells, at) == [t] + rest
  {
    DecodeTwo(cells, at, if t.children == [] then None else Some(at + 1), right, t.children, rest);
  }

  /** Nothing is lost: the binary form reads back as the original tree. */
  lemma {:induction false} RoundTrip(cells: seq<Cell>, at: nat, ts: seq<Tree>, up: Option<nat>)
    requires Upward(cells) && Laid(cells, at, ts, up)
    ensures ts != [] ==> at < |cells| && Decode(cells, at) == ts
    decreases SizeAll(ts), 1
  {
    if ts != [] {
      TakenApart(cells, at, ts, up);
      FirstAndRest(ts);
      if |ts| == 1 {
        OneReads(cells, at, ts[0], up, SizeAll(ts));
      } else {
        SeveralRead(cells, at, ts[0], ts[1..], up, at + Size(ts[0]), SizeAll(ts));
      }
    }
  }

  lemma {:induction false} OneReads(cells: seq<Cell>, at: nat, t: Tree, up: Option<nat>, size: nat)
    requires Upward(cells) && Head(cells, at, t, up, None) && SizeAll(t.children) < size
    requires Laid(cells, at + 1, t.children, Some(at))
    ensures Decode(cells, at) == [t]
    decreases size, 0
  {
    RoundTrip(cells, at + 1, t.children, Some(at));
    DecodeLast(cells, at, t, up);
  }

  lemma {:induction false} SeveralRead(cells: seq<Cell>, at: nat, t: Tree, rest: seq<Tree>, up: Option<nat>,
          right: nat, size: nat)
    requires Upward(cells) && Head(cells, at, t, up, Some(right)) && SizeAll(t.children) < size && SizeAll(rest) < size
    requires at < right && rest != [] && Laid(cells, at + 1, t.children, Some(at)) && Laid(cells, right, rest, Some(at))
    ensures Decode(cells, at) == [t] + rest
    decreases size, 0
  {
    RoundTrip(cells, at + 1, t.children, Some(at));
    RoundTrip(cells, right, rest, Some(at));
    DecodeHead(cells, at, t, rest, up, right);
  }

  lemma FirstAndRest(ts: seq<Tree>)
    requires ts != []
    ensures ts == [ts[0]] + ts[1..] && (|ts| == 1 ==> ts == [ts[0]])
  {
  }

  /** `traverse_preorder` on the binary form, which calls itself on every child: `None` if one of them is null. */
  function Traverse(cells: seq<Cell>, at: nat): (ns: Option<seq<Info>>)
    requires Upward(cells) && at < |cells|
    decreases |cells| - at, 3
  {
    assert Later(cells, at);
    var ns := TraverseFrom(cells, at, 0);
    if ns == None then None else Some([cells[at].info] + ns.value)
  }

  function TraverseFrom(cells: seq<Cell>, at: nat, k: nat): (ns: Option<seq<Info>>)
    requires Upward(cells) && at < |cells| && k <= |cells[at].children| <= 2
    decreases |cells| - at, 2 - k
  {
    assert Later(cells, at);
    if k == |cells[at].children| then Some([])
    else if cells[at].children[k] == None then None
    else
      assert NullOrLater(cells, at, cells[at].children[k]);
      var ns := Traverse(cells, cells[at].children[k].value);
      var rest := TraverseFrom(cells, at, k + 1);
      if ns == None || rest == None then None else Some(ns.value + rest.value)
  }

  /** No leaf has a later sibling. */
  predicate LeavesLast(ts: seq<Tree>)
    decreases SizeAll(ts)
  {
    assert ts != [] ==> Size(ts[0]) > SizeAll(ts[0].children);
    ts == [] || (LeavesLast(ts[0].children) && LeavesLast(ts[1..]) && (|ts| > 1 ==> ts[0].children != []))
  }

  lemma {:induction false} TraverseLeaf(cells: seq<Cell>, at: nat)
    requires Upward(cells) && at < |cells| && (cells[at].children == [] || cells[at].children[0] == None)
    ensures Traverse(cells, at) == if cells[at].children == [] then Some([cells[at].info]) else None
  {
    assert Later(cells, at);
    if cells[at].children == [] {
      assert TraverseFrom(cells, at, 0) == Some([]) && [cells[at].info] + [] == [cells[at].info];
    } else {
      assert TraverseFrom(cells, at, 0) == None;
    }
  }

  lemma {:induction false} OneKid(cells: seq<Cell>, at: nat, left: nat)
    requires Upward(cells) && at < left < |cells| && cells[at].children == [Some(left)]
    ensures Traverse(cells, at) ==
            var ns := Traverse(cells, left); if ns == None then None else Some([cells[at].info] + ns.value)
  {
    assert Later(cells, at);
    var ns := Traverse(cells, left);
    assert TraverseFrom(cells, at, 0) == ns by {
      if ns.Some? { assert ns.value + [] == ns.value; }
    }
  }

  lemma {:induction false} TwoKids(cells: seq<Cell>, at: nat, left: nat, right: nat)
    requires Upward(cells) && at < left < |cells| && at < right < |cells|
    requires cells[at].children == [Some(left), Some(right)]
    ensures Traverse(cells, at) ==
            var ns, ms := Traverse(cells, left), Traverse(cells, right);
            if ns == None || ms == None then None else Some([cells[at].info] + (ns.value + ms.value))
  {
    assert Later(cells, at);
    assert TraverseFrom(cells, at, 2) == Some([]);
    var ms := Traverse(cells, right);
    assert TraverseFrom(cells, at, 1) == ms by {
      if ms.Some? { assert ms.value + [] == ms.value; }
    }
  }

  /**
   * The traversals meet a null child exactly when some leaf has a later sibling; otherwise they visit the nodes
   * of the original tree in the original pre-order.
   */
  lemma {:induction false} TraverseBinary(cells: seq<Cell>, at: nat, ts: seq<Tree>, up: Option<nat>)
    requires Upward(cells) && ts != [] && Laid(cells, at, ts, up)
    ensures Traverse(cells, at) == if LeavesLast(ts) then Some(PreOrderAll(ts)) else None
    decreases SizeAll(ts)
  {
    var x, left, right := ts[0].info, at + 1, at + Size(ts[0]);
    FirstThenRest(ts);
    assert Later(cells, at);
    if ts[0].children == [] {
      TraverseLeaf(cells, at);
    } else {
      TraverseBinary(cells, left, ts[0].children, Some(at));
      if |ts| == 1 {
        OneKid(cells, at, left);
      } else {
        TraverseBinary(cells, right, ts[1..], Some(at));
        TwoKids(cells, at, left, right);
      }
    }
  }

  lemma {:induction false} FirstThenRest(ts: seq<Tree>)
    requires ts != []
    ensures PreOrderAll(ts) == [ts[0].info] + (PreOrderAll(ts[0].children) + PreOrderAll(ts[1..]))
    ensures |ts| == 1 ==> PreOrderAll(ts) == [ts[0].info] + PreOrderAll(ts[0].children)
    ensures |ts| == 1 && ts[0].children == [] ==> PreOrderAll(ts) == [ts[0].info]
  {
  }


  /** The smallest instance: a node with two leaves. */
  method LeafBeforeSibling(a: Info, b: Info, c: Info) returns (heap: Heap, root: nat)
    ensures fresh(heap) && Upward(heap.cells) && root < |heap.cells|
    ensures Decode(heap.cells, root) == [Node(a, [Node(b, []), Node(c, [])])]
    ensures Traverse(heap.cells, root) == None
  {
    var leaves := [Node(b, []), Node(c, [])];
    heap := new Heap();
    root := heap.ToBinary(Node(a, leaves));
    RoundTrip(heap.cells, root, [Node(a, leaves)], None);
    TraverseBinary(heap.cells, root, [Node(a, leaves)], None);
    LeafThenLeaf(a, b, c);
  }

  lemma LeafThenLeaf(a: Info, b: Info, c: Info)
    ensures !LeavesLast([Node(a, [Node(b, []), Node(c, [])])])
  {
    var leaves := [Node(b, []), Node(c, [])];
    assert leaves[0].children == [] && !LeavesLast(leaves);
    assert [Node(a, leaves)][0].children == leaves;
  }
}
