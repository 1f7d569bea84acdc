/**
 * Coroutine contexts: immutable sets of keyed elements, built as left-nested lists.
 */
module ContextAlgebra {
  import opened Options

  type Key = int

  datatype Element = Element(key: Key, id: int)

  /** `EmptyCoroutineContext`, a single `Element`, `CombinedContext`. A null pointer is a `None`. */
  datatype Context = Empty | Single(element: Element) | Combined(left: Context, right: Element)

  /** `for_each` */
  function Elements(c: Context): seq<Element> {
    match c
    case Empty => []
    case Single(e) => [e]
    case Combined(left, right) => Elements(left) + [right]
  }

  /** `get` */
  function Get(c: Context, k: Key): Option<Element> {
    match c
    case Empty => None
    case Single(e) => if e.key == k then Some(e) else None
    case Combined(left, right) => if right.key == k then Some(right) else Get(left, k)
  }

  /** `minus_key`: null when nothing is left. */
  function MinusKey(c: Context, k: Key): Option<Context> {
    match c
    case Empty => None
    case Single(e) => if e.key == k then None else Some(c)
    case Combined(left, right) =>
      if right.key == k then Some(left)
      else
        var newLeft := MinusKey(left, k);
        if newLeft == Some(left) then Some(c)
        else if newLeft == None then Some(Single(right))
        else Some(Combined(newLeft.value, right))
  }

  /** The operation `operator+` folds with. */
  function Add(acc: Context, e: Element): Context {
    var removed := MinusKey(acc, e.key);
    if removed == None then Single(e) else Combined(removed.value, e)
  }

  function AddAll(acc: Context, es: seq<Element>): Context {
    if es == [] then acc else Add(AddAll(acc, es[..|es| - 1]), es[|es| - 1])
  }

  /** `operator+`: the right operand may be null. */
  method Plus(a: Context, b: Option<Context>) returns (sum: Context)
    ensures sum == Sum(a, b)
  {
    if b == None {
      return a;
    }
    var es := Elements(b.value);
    sum := a;
    for i := 0 to |es|
      invariant sum == AddAll(a, es[..i])
    {
      assert es[..i + 1][..i] == es[..i];
      sum := Add(sum, es[i]);
    }
    assert es[..|es|] == es;
  }

  function Sum(a: Context, b: Option<Context>): Context {
    AddAll(a, if b == None then [] else Elements(b.value))
  }

  // ---------------------------------------------------------------- what contexts mean

  function Of(c: Option<Context>): seq<Element> {
    if c == None then [] else Elements(c.value)
  }

  predicate HasKey(es: seq<Element>, k: Key) {
    exists i: nat :: i < |es| && es[i].key == k
  }

  predicate Distinct(es: seq<Element>) {
    forall i: nat, j: nat :: i < j < |es| ==> es[i].key != es[j].key
  }

  /** The empty context is never a part of another. */
  predicate Normal(c: Context) {
    c.Combined? ==> c.left != Empty && Normal(c.left)
  }

  /** What the operations make of contexts that were made by them. */
  predicate Proper(c: Context) {
    Normal(c) && Distinct(Elements(c))
  }

  /** es without the last element with key k. */
  function CutLast(es: seq<Element>, k: Key): seq<Element> {
    if es == [] then []
    else if es[|es| - 1].key == k then es[..|es| - 1]
    else CutLast(es[..|es| - 1], k) + [es[|es| - 1]]
  }

  function FindLast(es: seq<Element>, k: Key): Option<Element> {
    if es == [] then None
    else if es[|es| - 1].key == k then Some(es[|es| - 1])
    else FindLast(es[..|es| - 1], k)
  }

  /** es without the elements whose key is in ks. */
  function Except(es: seq<Element>, ks: seq<Element>): seq<Element> {
    if es == [] then []
    else if HasKey(ks, es[|es| - 1].key) then Except(es[..|es| - 1], ks)
    else Except(es[..|es| - 1], ks) + [es[|es| - 1]]
  }

  lemma Last(es: seq<Element>, e: Element)
    ensures (es + [e])[..|es + [e]| - 1] == es && (es + [e])[|es + [e]| - 1] == e
  {
  }

  /** For every context, `get` and `minus_key` see the last element with the key. */
  lemma {:induction false} GetFindsLast(c: Context, k: Key)
    ensures Get(c, k) == FindLast(Elements(c), k)
  {
    if c.Combined? {
      GetFindsLast(c.left, k);
      Last(Elements(c.left), c.right);
    }
  }

  lemma {:induction false} MinusCutsLast(c: Context, k: Key)
    ensures Of(MinusKey(c, k)) == CutLast(Elements(c), k)
  {
    if c.Combined? {
      MinusCutsLast(c.left, k);
      CutSnoc(Elements(c.left), c.right, k);
    }
  }

  lemma CutSnoc(es: seq<Element>, e: Element, k: Key)
    ensures CutLast(es + [e], k) == if e.key == k then es else CutLast(es, k) + [e]
  {
    Last(es, e);
  }

  /** Null stands for the empty context, and nothing else does. */
  lemma {:induction false} MinusIsNull(c: Context, k: Key)
    requires Normal(c)
    ensures MinusKey(c, k) != None ==> Normal(MinusKey(c, k).value) && MinusKey(c, k).value != Empty
    ensures MinusKey(c, k) == None <==> Of(MinusKey(c, k)) == []
  {
    if c.Combined? {
      MinusIsNull(c.left, k);
    }
    if MinusKey(c, k) != None {
      NotEmpty(MinusKey(c, k).value);
    }
  }

  lemma NotEmpty(c: Context)
    ensures c != Empty ==> Elements(c) != []
  {
  }

  // ---------------------------------------------------------------- distinct keys

  lemma {:induction false} CutIsExcept(es: seq<Element>, e: Element)
    requires Distinct(es)
    ensures CutLast(es, e.key) == Except(es, [e])
  {
    if es != [] {
      var init, last := es[..|es| - 1], es[|es| - 1];
      assert HasKey([e], last.key) <==> last.key == e.key by { assert [e][0] == e; }
      if last.key == e.key {
        NothingToExcept(init, [e]);
      } else {
        CutIsExcept(init, e);
      }
    }
  }

  lemma {:induction false} NothingToExcept(es: seq<Element>, ks: seq<Element>)
    requires forall i: nat :: i < |es| ==> !HasKey(ks, es[i].key)
    ensures Except(es, ks) == es
  {
    if es != [] {
      NothingToExcept(es[..|es| - 1], ks);
    }
  }

  lemma {:induction false} ExceptKeys(es: seq<Element>, ks: seq<Element>)
    ensures forall k :: HasKey(Except(es, ks), k) <==> HasKey(es, k) && !HasKey(ks, k)
    ensures Distinct(es) ==> Distinct(Except(es, ks))
  {
    if es != [] {
      var init, last := es[..|es| - 1], es[|es| - 1];
      ExceptKeys(init, ks);
      assert es == init + [last];
      KeysOfConcat(init, [last]);
      OneKey(last);
      if !HasKey(ks, last.key) {
        KeysOfConcat(Except(init, ks), [last]);
        if Distinct(es) {
          assert !HasKey(init, last.key);
          DistinctSnoc(Except(init, ks), last);
        }
      }
    }
  }

  lemma OneKey(e: Element)
    ensures forall k :: HasKey([e], k) <==> k == e.key
  {
    assert [e][0] == e;
  }

  lemma KeysOfConcat(es: seq<Element>, fs: seq<Element>)
    ensures forall k :: HasKey(es + fs, k) <==> HasKey(es, k) || HasKey(fs, k)
  {
    forall k ensures HasKey(es + fs, k) <==> HasKey(es, k) || HasKey(fs, k) {
      if i: nat :| i < |es| && es[i].key == k {
        assert (es + fs)[i] == es[i];
      }
      if j: nat :| j < |fs| && fs[j].key == k {
        assert (es + fs)[|es| + j] == fs[j];
      }
    }
  }

  lemma DistinctSnoc(es: seq<Element>, e: Element)
    requires Distinct(es) && !HasKey(es, e.key)
    ensures Distinct(es + [e])
  {
  }

  lemma {:induction false} ExceptTwice(es: seq<Element>, ks: seq<Element>, ls: seq<Element>)
    ensures Except(Except(es, ks), ls) == Except(es, ks + ls)
  {
    if es != [] {
      var init, last := es[..|es| - 1], es[|es| - 1];
      ExceptTwice(init, ks, ls);
      KeysOfConcat(ks, ls);
      if !HasKey(ks, last.key) {
        Last(Except(init, ks), last);
      }
    }
  }

  lemma {:induction false} ExceptConcat(es: seq<Element>, fs: seq<Element>, ks: seq<Element>)
    ensures Except(es + fs, ks) == Except(es, ks) + Except(fs, ks)
  {
    if fs == [] {
      assert es + fs == es;
    } else {
      ExceptConcat(es, fs[..|fs| - 1], ks);
      assert (es + fs)[..|es + fs| - 1] == es + fs[..|fs| - 1];
    }
  }

  // ---------------------------------------------------------------- the laws

  /** `minus_key` removes exactly that key; null stands for the empty context and for nothing else. */
  lemma MinusKeyLaw(c: Context, e: Element)
    requires Proper(c)
    ensures Of(MinusKey(c, e.key)) == Except(Elements(c), [e])
    ensures MinusKey(c, e.key) == None <==> Except(Elements(c), [e]) == []
    ensures MinusKey(c, e.key) != None ==> Proper(MinusKey(c, e.key).value)
  {
    MinusCutsLast(c, e.key);
    MinusIsNull(c, e.key);
    CutIsExcept(Elements(c), e);
    ExceptKeys(Elements(c), [e]);
  }

  lemma AddElements(acc: Context, e: Element)
    requires Proper(acc)
    ensures Elements(Add(acc, e)) == Except(Elements(acc), [e]) + [e] && Proper(Add(acc, e))
  {
    MinusKeyLaw(acc, e);
    MinusIsNull(acc, e.key);
    ExceptKeys(Elements(acc), [e]);
    OneKey(e);
    DistinctSnoc(Except(Elements(acc), [e]), e);
  }

  lemma ExceptStep(es: seq<Element>, fs: seq<Element>, e: Element)
    requires Distinct(fs + [e])
    ensures Except(Except(es, fs) + fs, [e]) + [e] == Except(es, fs + [e]) + (fs + [e])
  {
    ExceptConcat(Except(es, fs), fs, [e]);
    ExceptTwice(es, fs, [e]);
    OneKey(e);
    var es' := fs + [e];
    assert es'[|fs|] == e && forall i: nat :: i < |fs| ==> es'[i] == fs[i] && es'[i].key != e.key;
    NothingToExcept(fs, [e]);
  }

  lemma {:induction false} AddAllElements(a: Context, es: seq<Element>)
    requires Proper(a) && Distinct(es)
    ensures Elements(AddAll(a, es)) == Except(Elements(a), es) + es && Proper(AddAll(a, es))
  {
    if es == [] {
      NothingToExcept(Elements(a), es);
    } else {
      var init, last := es[..|es| - 1], es[|es| - 1];
      assert es == init + [last];
      AddAllElements(a, init);
      AddElements(AddAll(a, init), last);
      ExceptStep(Elements(a), init, last);
    }
  }

  /** a + b: the elements of a whose keys b does not have, then those of b. */
  lemma SumElements(a: Context, b: Context)
    requires Proper(a) && Proper(b)
    ensures Elements(Sum(a, Some(b))) == Except(Elements(a), Elements(b)) + Elements(b)
    ensures Proper(Sum(a, Some(b)))
  {
    AddAllElements(a, Elements(b));
  }

  /** Lookup prefers the right operand. */
  lemma SumGet(a: Context, b: Context, k: Key)
    requires Proper(a) && Proper(b)
    ensures Get(Sum(a, Some(b)), k) == if Get(b, k) != None then Get(b, k) else Get(a, k)
  {
    SumElements(a, b);
    GetFindsLast(Sum(a, Some(b)), k);
    GetFindsLast(a, k);
    GetFindsLast(b, k);
    FindInConcat(Except(Elements(a), Elements(b)), Elements(b), k);
    if !HasKey(Elements(b), k) {
      FindInExcept(Elements(a), Elements(b), k);
    }
  }

  lemma {:induction false} FindInConcat(es: seq<Element>, fs: seq<Element>, k: Key)
    ensures FindLast(es + fs, k) == if FindLast(fs, k) != None then FindLast(fs, k) else FindLast(es, k)
    ensures FindLast(fs, k) != None <==> HasKey(fs, k)
  {
    if fs == [] {
      assert es + fs == es;
    } else {
      var init, last := fs[..|fs| - 1], fs[|fs| - 1];
      FindInConcat(es, init, k);
      assert (es + fs)[..|es + fs| - 1] == es + init && fs == init + [last];
      KeysOfConcat(init, [last]);
      OneKey(last);
    }
  }

  lemma {:induction false} FindInExcept(es: seq<Element>, ks: seq<Element>, k: Key)
    requires !HasKey(ks, k)
    ensures FindLast(Except(es, ks), k) == FindLast(es, k)
  {
    if es != [] {
      FindInExcept(es[..|es| - 1], ks, k);
      if !HasKey(ks, es[|es| - 1].key) {
        Last(Except(es[..|es| - 1], ks), es[|es| - 1]);
      }
    }
  }

  /** Proper contexts with the same elements are the same context. */
  lemma {:induction false} SameElements(c: Context, d: Context)
    requires Normal(c) && Normal(d) && Elements(c) == Elements(d)
    ensures c == d
  {
    NotEmpty(c);
    NotEmpty(d);
    if c.Combined? {
      NotEmpty(c.left);
      Last(Elements(c.left), c.right);
    }
    if d.Combined? {
      NotEmpty(d.left);
      Last(Elements(d.left), d.right);
    }
    if c.Combined? && d.Combined? {
      SameElements(c.left, d.left);
    }
  }

  lemma ExceptAssociative(x: seq<Element>, y: seq<Element>, z: seq<Element>)
    ensures Except(Except(x, y) + y, z) + z == Except(x, Except(y, z) + z) + (Except(y, z) + z)
  {
    ExceptConcat(Except(x, y), y, z);
    ExceptTwice(x, y, z);
    KeysOfConcat(y, z);
    KeysOfConcat(Except(y, z), z);
    ExceptKeys(y, z);
    SameExcept(x, y + z, Except(y, z) + z);
  }

  /** + is associative ... */
  lemma Associative(a: Context, b: Context, c: Context)
    requires Proper(a) && Proper(b) && Proper(c)
    ensures Sum(Sum(a, Some(b)), Some(c)) == Sum(a, Some(Sum(b, Some(c))))
  {
    SumElements(a, b);
    SumElements(b, c);
    SumElements(Sum(a, Some(b)), c);
    SumElements(a, Sum(b, Some(c)));
    ExceptAssociative(Elements(a), Elements(b), Elements(c));
    SameElements(Sum(Sum(a, Some(b)), Some(c)), Sum(a, Some(Sum(b, Some(c)))));
  }

  /** ... and the empty context, or null on the right, is its identity. */
  lemma Identity(a: Context)
    requires Proper(a)
    ensures Sum(a, Some(Empty)) == a == Sum(a, None) == Sum(Empty, Some(a))
  {
    SumElements(Empty, a);
    assert Except([], Elements(a)) + Elements(a) == Elements(a);
    SameElements(Sum(Empty, Some(a)), a);
  }

  lemma {:induction false} SameExcept(es: seq<Element>, ks: seq<Element>, ls: seq<Element>)
    requires forall k :: HasKey(ks, k) <==> HasKey(ls, k)
    ensures Except(es, ks) == Except(es, ls)
  {
    if es != [] {
      SameExcept(es[..|es| - 1], ks, ls);
    }
  }
}
