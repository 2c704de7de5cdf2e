/**
  stdHalfOrderQueue as linked nodes rewritten in place.  The ghost field `tree` is the value of a
  node's subtree and `repr` its nodes; every method is tied to the operation on tree values.
 */
module HalfOrderNodes {
  import opened Common
  import opened HalfOrderQueue

  ghost function Val<T(!new)>(n: HeapNode?<T>): Tree<T>
    reads n
  {
    if n == null then Nil else n.tree
  }

  ghost function Repr<T(!new)>(n: HeapNode?<T>): set<object>
    reads n
  {
    if n == null then {} else n.repr
  }

  ghost predicate Ok<T(!new)>(n: HeapNode?<T>)
    reads n, Repr(n)
  {
    n != null ==> n.Valid()
  }

  lemma {:induction false} SinkIgnoresTop<T>(t: Tree<T>, k: int, d: T)
    requires t.Node?
    ensures Sink(t.(key := k, data := d), k, d) == Sink(t, k, d)
  {
  }

  class HeapNode<T(!new)> {
    var key: int
    var data: T
    var count: int
    var n0: HeapNode?<T>
    var n1: HeapNode?<T>
    ghost var tree: Tree<T>
    ghost var repr: set<object>

    ghost predicate Valid()
      reads this, repr
      decreases repr
    {
      && this in repr
      && (n0 != null ==> n0 in repr && n0.repr <= repr && this !in n0.repr && n0.Valid())
      && (n1 != null ==> n1 in repr && n1.repr <= repr && this !in n1.repr && n1.Valid())
      && (n0 != null && n1 != null ==> n0.repr !! n1.repr)
      && tree == Node(key, data, count, Val(n0), Val(n1))
    }

    constructor (key: int, data: T)
      ensures Valid() && fresh(repr) && tree == One(key, data)
    {
      this.key, this.data, this.count, n0, n1 := key, data, 1, null, null;
      tree, repr := One(key, data), {this};
    }

    /** Give this node new contents and links, and bring the ghost fields up to date. */
    method Set(key: int, data: T, count: int, n0: HeapNode?<T>, n1: HeapNode?<T>)
      requires Ok(n0) && Ok(n1) && Repr(n0) !! Repr(n1) && this !in Repr(n0) && this !in Repr(n1)
      modifies this
      ensures Valid() && tree == Node(key, data, count, Val(n0), Val(n1)) && repr == {this} + Repr(n0) + Repr(n1)
      ensures this.key == key && this.data == data && this.count == count && this.n0 == n0 && this.n1 == n1
    {
      this.key, this.data, this.count, this.n0, this.n1 := key, data, count, n0, n1;
      tree := Node(key, data, count, Val(n0), Val(n1));
      repr := {this} + Repr(n0) + Repr(n1);
    }

    /** Exchange key and data with a child. */
    method SwapLeft()
      requires Valid() && n0 != null && tree.l.Node?
      modifies repr
      ensures Valid() && repr <= old(repr) && tree == SwapL(old(tree)) && n0 == old(n0) && n1 == old(n1)
    {
      var k, d := n0.key, n0.data;
      n0.Set(key, data, n0.count, n0.n0, n0.n1);
      Set(k, d, count, n0, n1);
    }

    method SwapRight()
      requires Valid() && n1 != null && tree.r.Node?
      modifies repr
      ensures Valid() && repr <= old(repr) && tree == SwapR(old(tree)) && n0 == old(n0) && n1 == old(n1)
    {
      var k, d := n1.key, n1.data;
      n1.Set(key, data, n1.count, n1.n0, n1.n1);
      Set(k, d, count, n0, n1);
    }

    /** The end of _ins(): exchange with a smaller child. */
    method SettleHere()
      requires Valid() && n0 != null && tree.l.Node?
      modifies repr
      ensures Valid() && repr <= old(repr) && tree == Settle(old(tree))
    {
      if n1 == null {
        if n0.key < key { SwapLeft(); }
      } else if key <= n0.key && key <= n1.key {
      } else if n0.key < key && n0.key < n1.key {
        SwapLeft();
      } else if n1.key < key {
        SwapRight();
      }
    }

    /** _ins() */
    method Ins(key: int, data: T)
      requires Valid() && Shape(tree)
      modifies repr
      ensures Valid() && fresh(repr - old(repr)) && tree == HalfOrderQueue.Ins(old(tree), key, data)
      decreases repr, 1
    {
      if n0 == null || (n1 != null && n0.count <= n1.count) {
        GrowLeft(key, data);
      } else {
        GrowRight(key, data);
      }
      SettleHere();
    }

    method GrowLeft(key: int, data: T)
      requires Valid() && Shape(tree)
      modifies repr
      ensures Valid() && fresh(repr - old(repr)) && n0 != null
      ensures var t := old(tree); tree == t.(count := t.count + 1, l := HalfOrderQueue.Ins(t.l, key, data))
      decreases repr, 0
    {
      var n := n0;
      if n == null {
        n := new HeapNode(key, data);
      } else {
        n.Ins(key, data);
      }
      Set(this.key, this.data, count + 1, n, n1);
    }

    method GrowRight(key: int, data: T)
      requires Valid() && Shape(tree) && n0 != null
      modifies repr
      ensures Valid() && fresh(repr - old(repr)) && n0 != null && tree.l.Node?
      ensures var t := old(tree); tree == t.(count := t.count + 1, r := HalfOrderQueue.Ins(t.r, key, data))
      decreases repr, 0
    {
      var n := n1;
      if n == null {
        n := new HeapNode(key, data);
      } else {
        n.Ins(key, data);
      }
      Set(this.key, this.data, count + 1, n0, n);
    }

    /** del(), first walk: unlink a leaf on the larger side and bring back what it held. */
    method CutLeaf() returns (k: int, d: T)
      requires Valid() && Shape(tree) && n0 != null
      modifies repr
      ensures Valid() && repr <= old(repr)
      ensures Taken(tree, k, d) == Cut(old(tree))
      decreases repr
    {
      if n1 == null || n0.count >= n1.count {
        if n0.n0 == null {
          k, d := n0.key, n0.data;
          Set(key, data, count - 1, n1, null);
        } else {
          k, d := n0.CutLeaf();
          Set(key, data, count - 1, n0, n1);
        }
      } else {
        // the right child is the larger one, so it is no leaf
        k, d := n1.CutLeaf();
        Set(key, data, count - 1, n0, n1);
      }
    }

    /** del(), second walk: the pair on top sinks. */
    method SinkHere()
      requires Valid()
      modifies repr
      ensures Valid() && repr <= old(repr) && tree == Sink(old(tree), old(key), old(data))
      decreases repr
    {
      if n0 == null {
        return;
      }
      if n1 == null {
        if key <= n0.key { return; }
        SinkLeft();
      } else {
        if key <= n0.key && key <= n1.key { return; }
        if n0.key <= key && n0.key <= n1.key { SinkLeft(); } else { SinkRight(); }
      }
    }

    method SinkLeft()
      requires Valid() && n0 != null && tree.l.Node?
      modifies repr
      ensures Valid() && repr <= old(repr)
      ensures var t := old(tree); tree == Node(t.l.key, t.l.data, t.count, Sink(t.l, t.key, t.data), t.r)
      decreases repr, 0
    {
      SinkIgnoresTop(n0.tree, key, data);
      SwapLeft();
      n0.SinkHere();
      Set(key, data, count, n0, n1);
    }

    method SinkRight()
      requires Valid() && n1 != null && tree.r.Node?
      modifies repr
      ensures Valid() && repr <= old(repr)
      ensures var t := old(tree); tree == Node(t.r.key, t.r.data, t.count, t.l, Sink(t.r, t.key, t.data))
      decreases repr, 0
    {
      SinkIgnoresTop(n1.tree, key, data);
      SwapRight();
      n1.SinkHere();
      Set(key, data, count, n0, n1);
    }
  }

  class Queue<T(!new)> {
    var top: HeapNode?<T>
    ghost var nodes: set<object>

    /** Counts exact, sizes balanced, no right child alone, smallest keys on top. */
    ghost predicate Valid()
      reads this, nodes, top, Repr(top)
    {
      nodes == Repr(top) && this !in nodes && Ok(top) && Shape(Val(top)) && Heap(Val(top))
    }

    /** What the queue holds. */
    ghost function Contents(): multiset<(int, T)>
      reads this, top
    {
      Bag(Val(top))
    }

    constructor ()
      ensures Valid() && Contents() == multiset{} && nodes == {}
    {
      top, nodes := null, {};
    }

    method Ins(key: int, data: T)
      requires Valid()
      modifies this, nodes
      ensures Valid() && fresh(nodes - old(nodes)) && Contents() == old(Contents()) + multiset{(key, data)}
    {
      InsExact(Val(top), key, data);
      if top == null {
        top := new HeapNode(key, data);
      } else {
        top.Ins(key, data);
      }
      nodes := top.repr;
    }

    method Del() returns (ret: Option<(int, T)>)
      requires Valid()
      modifies this, nodes
      ensures Valid() && nodes <= old(nodes)
      ensures ret == None <==> old(Contents()) == multiset{}
      ensures ret == None ==> Contents() == old(Contents())
      ensures ret.Some? ==>
        && old(Contents()) == Contents() + multiset{ret.value}
        && forall x :: x in old(Contents()) ==> ret.value.0 <= x.0
    {
      DelExact(Val(top));
      if top == null { return None; }
      ret := Some((top.key, top.data));
      if top.n0 == null {
        top, nodes := null, {};
      } else {
        Lower();
      }
    }

    method Lower()
      requires Valid() && top != null && top.n0 != null
      modifies this, nodes
      ensures Ok(top) && nodes == Repr(top) && this !in nodes && nodes <= old(nodes) && Val(top) == HalfOrderQueue.Del(old(Val(top))).0
    {
      var k, d := top.CutLeaf();
      SinkIgnoresTop(top.tree, k, d);
      top.Set(k, d, top.count, top.n0, top.n1);
      top.SinkHere();
      nodes := top.repr;
    }

    method Count() returns (n: int)
      requires Valid()
      ensures n == |Contents()|
    {
      BagSize(Val(top));
      if top == null { return 0; }
      n := top.count;
    }
  }

  lemma {:induction false} BagSize<T>(t: Tree<T>)
    ensures |Bag(t)| == Size(t)
  {
    if t != Nil { BagSize(t.l); BagSize(t.r); }
  }
}
