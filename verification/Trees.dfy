/**
 * Syntax trees (`struct Tree`) as values, with the counts and traversals the tool uses.
 */
module Trees {
  datatype Info = Info(kind: int, leafIdx: int, text: string)

  datatype Tree = Node(info: Info, children: seq<Tree>)

  /** `size` of a tree, and of a list of siblings. */
  function Size(t: Tree): (n: nat)
    ensures n >= 1
    decreases t, 1
  {
    1 + SizeAll(t.children)
  }

  function SizeAll(ts: seq<Tree>): (n: nat)
    ensures n >= |ts|
    decreases ts, 0
  {
    if ts == [] then 0 else Size(ts[0]) + SizeAll(ts[1..])
  }

  /** `traverse_preorder` */
  function PreOrder(t: Tree): (ns: seq<Info>)
    decreases t, 1
  {
    [t.info] + PreOrderAll(t.children)
  }

  function PreOrderAll(ts: seq<Tree>): seq<Info>
    decreases ts, 0
  {
    if ts == [] then [] else PreOrder(ts[0]) + PreOrderAll(ts[1..])
  }

  /** `traverse_postorder`, collecting node types. */
  function PostOrder(t: Tree): (ks: seq<int>)
    ensures |ks| == Size(t)
    decreases t, 1
  {
    PostOrderAll(t.children) + [t.info.kind]
  }

  function PostOrderAll(ts: seq<Tree>): (ks: seq<int>)
    ensures |ks| == SizeAll(ts)
    decreases ts, 0
  {
    if ts == [] then [] else PostOrder(ts[0]) + PostOrderAll(ts[1..])
  }

  lemma {:induction false} SizeSplits(ts: seq<Tree>, us: seq<Tree>)
    ensures SizeAll(ts + us) == SizeAll(ts) + SizeAll(us)
  {
    if ts == [] {
      assert ts + us == us;
    } else {
      SizeSplits(ts[1..], us);
      assert (ts + us)[1..] == ts[1..] + us;
    }
  }
}
