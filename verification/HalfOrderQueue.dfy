/**
  The size-balanced pointer heap (stdHalfOrderQueue): a binary tree whose nodes count their subtrees,
  with the smallest key on top.  Here are the operations on tree values and what they keep.
 */
module HalfOrderQueue {
  import opened Common

  datatype Tree<T> = Nil | Node(key: int, data: T, count: int, l: Tree<T>, r: Tree<T>)

  // ---------------------------------------------------------------- what is kept

  function Size<T>(t: Tree<T>): nat {
    if t == Nil then 0 else 1 + Size(t.l) + Size(t.r)
  }

  function Height<T>(t: Tree<T>): nat {
    if t == Nil then 0 else 1 + if Height(t.l) < Height(t.r) then Height(t.r) else Height(t.l)
  }

  ghost function Bag<T>(t: Tree<T>): multiset<(int, T)> {
    if t == Nil then multiset{} else multiset{(t.key, t.data)} + Bag(t.l) + Bag(t.r)
  }

  /** Counts are exact, sibling sizes differ by at most one, and there is no right child alone. */
  predicate Shape<T(==)>(t: Tree<T>) {
    t == Nil ||
      (&& t.count == Size(t) && Size(t.l) <= Size(t.r) + 1 && Size(t.r) <= Size(t.l) + 1
       && (t.l == Nil ==> t.r == Nil) && Shape(t.l) && Shape(t.r))
  }

  predicate AtLeast<T>(k: int, t: Tree<T>) { t == Nil || k <= t.key }

  predicate Heap<T>(t: Tree<T>) {
    t == Nil || (AtLeast(t.key, t.l) && AtLeast(t.key, t.r) && Heap(t.l) && Heap(t.r))
  }

  lemma {:induction false} Pow2Monotone(a: nat, b: nat)
    requires a <= b
    ensures Pow2(a) <= Pow2(b)
  {
    if a < b { Pow2Monotone(a, b - 1); }
  }

  /** The height is exactly floor(log2(size)) + 1. */
  lemma {:induction false} HeightIsLog<T>(t: Tree<T>)
    requires Shape(t) && t != Nil
    ensures Height(t) > 0 && Pow2(Height(t) - 1) <= Size(t) < Pow2(Height(t))
  {
    if t.l != Nil {
      HeightIsLog(t.l);
      if t.r != Nil {
        HeightIsLog(t.r);
        var hl, hr := Height(t.l), Height(t.r);
        if hl < hr { Pow2Monotone(hl, hr - 1); } else { Pow2Monotone(hr, hl); if hr < hl { Pow2Monotone(hr, hl - 1); } }
      } else {
        assert Size(t.l) == 1;
      }
    }
  }

  /** The top of a heap is a minimum of its contents. */
  lemma {:induction false} TopIsMin<T>(t: Tree<T>, x: (int, T))
    requires Heap(t) && x in Bag(t)
    ensures t.key <= x.0
  {
    if x in Bag(t.l) { TopIsMin(t.l, x); } else if x in Bag(t.r) { TopIsMin(t.r, x); }
  }

  // ---------------------------------------------------------------- the operations

  function One<T>(key: int, data: T): Tree<T> { Node(key, data, 1, Nil, Nil) }

  /** Exchange key and data with the left (right) child. */
  function SwapL<T>(t: Tree<T>): Tree<T>
    requires t.Node? && t.l.Node?
  {
    Node(t.l.key, t.l.data, t.count, t.l.(key := t.key, data := t.data), t.r)
  }

  function SwapR<T>(t: Tree<T>): Tree<T>
    requires t.Node? && t.r.Node?
  {
    Node(t.r.key, t.r.data, t.count, t.l, t.r.(key := t.key, data := t.data))
  }

  /** The comparison at the end of _ins. */
  function Settle<T>(t: Tree<T>): Tree<T>
    requires t.Node? && t.l.Node?
  {
    if t.r == Nil then if t.l.key >= t.key then t else SwapL(t)
    else if t.key <= t.l.key && t.key <= t.r.key then t
    else if t.l.key < t.key && t.l.key < t.r.key then SwapL(t)
    else if t.key <= t.r.key then t else SwapR(t)
  }

  /** _ins(), and ins() on the empty tree */
  function Ins<T>(t: Tree<T>, key: int, data: T): (r: Tree<T>)
    ensures r.Node?
  {
    if t == Nil then One(key, data)
    else if t.l == Nil || (t.r != Nil && t.l.count <= t.r.count) then Settle(t.(count := t.count + 1, l := Ins(t.l, key, data)))
    else Settle(t.(count := t.count + 1, r := Ins(t.r, key, data)))
  }

  /** A tree without one of its leaves, and the pair that leaf held. */
  datatype Taken<T> = Taken(rest: Tree<T>, key: int, data: T)

  /** The first walk of del(): towards the larger side to a leaf, which is unlinked. */
  function Cut<T>(t: Tree<T>): Taken<T>
    requires t.Node?
  {
    if t.l == Nil then Taken(Nil, t.key, t.data)
    else if t.r == Nil || t.l.count >= t.r.count then
      var c := Cut(t.l);
      c.(rest := if c.rest == Nil then t.(count := t.count - 1, l := t.r, r := Nil) else t.(count := t.count - 1, l := c.rest))
    else
      var c := Cut(t.r);
      c.(rest := t.(count := t.count - 1, r := c.rest))
  }

  /** The second walk of del(): the pair (k, d), put on top of t, sinks to its place. */
  function Sink<T>(t: Tree<T>, k: int, d: T): Tree<T>
    requires t.Node?
  {
    if t.l == Nil || (AtLeast(k, t.l) && AtLeast(k, t.r)) then t.(key := k, data := d)
    else if t.r == Nil || (t.l.key <= k && t.l.key <= t.r.key) then Node(t.l.key, t.l.data, t.count, Sink(t.l, k, d), t.r)
    else Node(t.r.key, t.r.data, t.count, t.l, Sink(t.r, k, d))
  }

  /** del() */
  function Del<T>(t: Tree<T>): (Tree<T>, Option<(int, T)>) {
    if t == Nil then (Nil, None)
    else if t.l == Nil then (Nil, Some((t.key, t.data)))
    else
      var c := Cut(t);
      (if c.rest == Nil then Nil else Sink(c.rest, c.key, c.data), Some((t.key, t.data)))
  }

  // ---------------------------------------------------------------- insertion

  function If(b: bool): nat { if b then 1 else 0 }

  /** How often a pair occurs. */
  ghost function Many<T>(t: Tree<T>, k: int, d: T): nat {
    if t == Nil then 0 else If(t.key == k && t.data == d) + Many(t.l, k, d) + Many(t.r, k, d)
  }

  lemma {:induction false} BagMany<T>(t: Tree<T>, k: int, d: T)
    ensures Bag(t)[(k, d)] == Many(t, k, d)
  {
    if t != Nil { BagMany(t.l, k, d); BagMany(t.r, k, d); }
  }

  lemma {:induction false} SettleShape<T>(t: Tree<T>)
    requires t.Node? && t.l.Node? && Shape(t)
    ensures Shape(Settle(t)) && Size(Settle(t)) == Size(t)
  {
  }

  /** The tree _ins() has made before its comparison. */
  function Grown<T>(t: Tree<T>, key: int, data: T): (r: Tree<T>)
    requires t.Node?
    ensures r.Node? && r.l.Node?
  {
    if t.l == Nil || (t.r != Nil && t.l.count <= t.r.count) then t.(count := t.count + 1, l := Ins(t.l, key, data))
    else t.(count := t.count + 1, r := Ins(t.r, key, data))
  }

  lemma {:induction false} InsShape<T>(t: Tree<T>, key: int, data: T)
    requires Shape(t)
    ensures Shape(Ins(t, key, data)) && Size(Ins(t, key, data)) == Size(t) + 1
  {
    if t != Nil {
      var u := Grown(t, key, data);
      if t.l == Nil || (t.r != Nil && t.l.count <= t.r.count) {
        InsShape(t.l, key, data);
      } else {
        InsShape(t.r, key, data);
      }
      assert Shape(u) && Size(u) == Size(t) + 1;
      SettleShape(u);
      assert Ins(t, key, data) == Settle(u);
    }
  }

  lemma {:induction false} SettleMany<T>(t: Tree<T>, k: int, d: T)
    requires t.Node? && t.l.Node?
    ensures Many(Settle(t), k, d) == Many(t, k, d)
  {
  }

  lemma {:induction false} InsMany<T>(t: Tree<T>, key: int, data: T, k: int, d: T)
    ensures Many(Ins(t, key, data), k, d) == Many(t, k, d) + If(k == key && d == data)
  {
    if t != Nil {
      SettleMany(Grown(t, key, data), k, d);
      if t.l == Nil || (t.r != Nil && t.l.count <= t.r.count) {
        InsMany(t.l, key, data, k, d);
      } else {
        InsMany(t.r, key, data, k, d);
      }
      assert Ins(t, key, data) == Settle(Grown(t, key, data));
    }
  }

  /** The new top of the grown side is the old one or the new key. */
  lemma {:induction false} InsTop<T>(t: Tree<T>, key: int, data: T)
    requires Heap(t)
    ensures var r := Ins(t, key, data); Heap(r) && r.key == if t == Nil || key < t.key then key else t.key
  {
    if t != Nil {
      if t.l == Nil || (t.r != Nil && t.l.count <= t.r.count) {
        InsTop(t.l, key, data);
      } else {
        InsTop(t.r, key, data);
      }
    }
  }

  // ---------------------------------------------------------------- deletion

  lemma {:induction false} CutShape<T>(t: Tree<T>)
    requires Shape(t) && t != Nil
    ensures Shape(Cut(t).rest) && Size(Cut(t).rest) == Size(t) - 1
  {
    if t.l != Nil {
      if t.r == Nil || t.l.count >= t.r.count { CutShape(t.l); } else { CutShape(t.r); }
    }
  }

  lemma {:induction false} CutMany<T>(t: Tree<T>, k: int, d: T)
    requires t.Node? && Shape(t)
    ensures Many(t, k, d) == Many(Cut(t).rest, k, d) + If(k == Cut(t).key && d == Cut(t).data)
  {
    if t.l != Nil {
      if t.r == Nil || t.l.count >= t.r.count { CutMany(t.l, k, d); } else { CutMany(t.r, k, d); }
    }
  }

  lemma {:induction false} CutHeap<T>(t: Tree<T>)
    requires Heap(t) && t != Nil
    ensures var r := Cut(t).rest; Heap(r) && (r != Nil ==> r.key == t.key && r.data == t.data)
  {
    if t.l != Nil {
      if t.r == Nil || t.l.count >= t.r.count { CutHeap(t.l); } else { CutHeap(t.r); }
    }
  }

  lemma {:induction false} SinkShape<T>(t: Tree<T>, k: int, d: T)
    requires Shape(t) && t != Nil
    ensures Shape(Sink(t, k, d)) && Size(Sink(t, k, d)) == Size(t)
  {
    if t.l != Nil { SinkShape(t.l, k, d); }
    if t.r != Nil { SinkShape(t.r, k, d); }
  }

  lemma {:induction false} SinkMany<T>(t: Tree<T>, k: int, d: T, k2: int, d2: T)
    requires t.Node?
    ensures Many(Sink(t, k, d), k2, d2) + If(t.key == k2 && t.data == d2) == Many(t, k2, d2) + If(k == k2 && d == d2)
  {
    if t.l == Nil || (AtLeast(k, t.l) && AtLeast(k, t.r)) {
    } else if t.r == Nil || (t.l.key <= k && t.l.key <= t.r.key) {
      SinkMany(t.l, k, d, k2, d2);
    } else {
      SinkMany(t.r, k, d, k2, d2);
    }
  }

  lemma {:induction false} SinkHeap<T>(t: Tree<T>, k: int, d: T, m: int)
    requires t.Node? && Shape(t) && Heap(t.l) && Heap(t.r) && m <= k && AtLeast(m, t.l) && AtLeast(m, t.r)
    ensures Heap(Sink(t, k, d)) && AtLeast(m, Sink(t, k, d))
  {
    if t.l == Nil || (AtLeast(k, t.l) && AtLeast(k, t.r)) {
    } else if t.r == Nil || (t.l.key <= k && t.l.key <= t.r.key) {
      SinkHeap(t.l, k, d, t.l.key);
    } else {
      SinkHeap(t.r, k, d, t.r.key);
    }
  }

  /** del() hands out a pair of smallest key, removes exactly that pair and keeps shape and order. */
  lemma {:induction false} DelExact<T>(t: Tree<T>)
    requires Shape(t) && Heap(t)
    ensures var (r, out) := Del(t);
      && Shape(r) && Heap(r)
      && (out == None <==> t == Nil)
      && (out.Some? ==> Bag(t) == Bag(r) + multiset{out.value} && forall x :: x in Bag(t) ==> out.value.0 <= x.0)
  {
    if t != Nil {
      forall x | x in Bag(t) ensures t.key <= x.0 { TopIsMin(t, x); }
      var r := Del(t).0;
      if t.l != Nil {
        var c := Cut(t);
        CutShape(t);
        CutHeap(t);
        CutMany(t, c.key, c.data);
        BagMany(t, c.key, c.data);
        SinkShape(c.rest, c.key, c.data);
        SinkHeap(c.rest, c.key, c.data, t.key);
        DelBag(t);
      }
    }
  }

  lemma {:induction false} DelBag<T>(t: Tree<T>)
    requires t.Node? && t.l.Node? && Shape(t) && Heap(t)
    ensures Bag(t) == Bag(Del(t).0) + multiset{(t.key, t.data)}
  {
    var c, r := Cut(t), Del(t).0;
    CutShape(t);
    CutHeap(t);
    forall x: (int, T) ensures Bag(t)[x] == Bag(r)[x] + If(x.0 == t.key && x.1 == t.data) {
      var (k, d) := x;
      CutMany(t, k, d);
      SinkMany(c.rest, c.key, c.data, k, d);
      BagMany(t, k, d);
      BagMany(r, k, d);
    }
    OneMore(Bag(t), Bag(r), t.key, t.data);
  }

  lemma OneMore<T>(a: multiset<(int, T)>, b: multiset<(int, T)>, k: int, d: T)
    requires forall x :: a[x] == b[x] + If(x.0 == k && x.1 == d)
    ensures a == b + multiset{(k, d)}
  {
    forall x ensures a[x] == (b + multiset{(k, d)})[x] {
      assert x == (k, d) <==> x.0 == k && x.1 == d;
    }
  }

  lemma {:induction false} InsExact<T>(t: Tree<T>, key: int, data: T)
    requires Shape(t) && Heap(t)
    ensures var r := Ins(t, key, data); Shape(r) && Heap(r) && Bag(r) == Bag(t) + multiset{(key, data)}
  {
    InsShape(t, key, data);
    InsTop(t, key, data);
    var r := Ins(t, key, data);
    forall x: (int, T) ensures Bag(r)[x] == Bag(t)[x] + If(x.0 == key && x.1 == data) {
      InsMany(t, key, data, x.0, x.1);
      BagMany(t, x.0, x.1);
      BagMany(r, x.0, x.1);
    }
    OneMore(Bag(r), Bag(t), key, data);
  }
}
