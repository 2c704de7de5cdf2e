/**
  The string tree as linked nodes rewritten in place: `list` is a node's first child, `next` its next
  sibling.  The ghost fields give the value of a sibling list (`forest`, as trees of StringTree) and
  its nodes (`repr`); every method is tied to the operation on values.
 */
module StringTreeNodes {
  import opened Common
  import opened StringTree

  ghost function Forest<T(!new)>(n: TreeNode?<T>): seq<Node<T>>
    reads n
  {
    if n == null then [] else n.forest
  }

  ghost function Repr<T(!new)>(n: TreeNode?<T>): set<object>
    reads n
  {
    if n == null then {} else n.repr
  }

  ghost predicate Ok<T(!new)>(n: TreeNode?<T>)
    reads n, Repr(n)
  {
    n != null ==> n.Valid()
  }

  // ---------------------------------------------------------------- the operations on sibling lists

  ghost predicate Found<T(!new)>(l: seq<Node<T>>, key: string) { Find(l, key) < |l| }

  ghost function InsIn<T(!new)>(l: seq<Node<T>>, key: string, e: Entry<T>): seq<Node<T>> {
    var i := Find(l, key);
    if i == |l| then l else l[i := InsBelow(l[i], key, e)]
  }

  lemma {:induction false} InsInFirst<T(!new)>(x: Node<T>, l: seq<Node<T>>, key: string, e: Entry<T>)
    ensures CommonLen(key, x.str) > 0 ==> Found([x] + l, key) && InsIn([x] + l, key, e) == [InsBelow(x, key, e)] + l
    ensures CommonLen(key, x.str) == 0 ==> (Found([x] + l, key) <==> Found(l, key)) && InsIn([x] + l, key, e) == [x] + InsIn(l, key, e)
  {
    assert ([x] + l)[1..] == l;
  }

  ghost function InsHead<T(!new)>(l: seq<Node<T>>, key: string, e: Entry<T>): seq<Node<T>> {
    if Found(l, key) then InsIn(l, key, e) else [Node(key, Some(e), [])] + l
  }

  lemma {:induction false} InsIs<T(!new)>(n: Node<T>, key: string, e: Entry<T>)
    requires key != []
    ensures Ins(n, key, e) == n.(list := InsHead(n.list, key, e))
  {
  }

  lemma {:induction false} SplitIs<T(!new)>(k: Node<T>, key: string, e: Entry<T>)
    requires 0 < CommonLen(key, k.str) < |k.str|
    ensures var c := CommonLen(key, k.str);
      InsBelow(k, key, e) == Node(k.str[..c], if c == |key| then Some(e) else None,
        [Node(k.str[c..], k.val, k.list)] + if c == |key| then [] else [Node(key[c..], Some(e), [])])
  {
  }

  ghost function DelIn<T(!new)>(l: seq<Node<T>>, key: string): (seq<Node<T>>, Option<Entry<T>>) {
    var i := Find(l, key);
    if i == |l| || CommonLen(key, l[i].str) < |l[i].str| then (l, None)
    else
      var d := Del(l[i], key[|l[i].str|..]);
      (l[..i] + Tidy(d.0) + l[i + 1..], d.1)
  }

  lemma {:induction false} DelIs<T(!new)>(n: Node<T>, key: string)
    requires key != []
    ensures Del(n, key) == (n.(list := DelIn(n.list, key).0), DelIn(n.list, key).1)
  {
  }

  lemma {:induction false} DelInMatch<T(!new)>(x: Node<T>, l: seq<Node<T>>, key: string)
    requires CommonLen(key, x.str) > 0
    ensures var c := CommonLen(key, x.str);
      DelIn([x] + l, key) == if c < |x.str| then ([x] + l, None) else (Tidy(Del(x, key[c..]).0) + l, Del(x, key[c..]).1)
  {
    var c, m := CommonLen(key, x.str), [x] + l;
    assert Find(m, key) == 0 && m[..0] == [] && m[1..] == l;
    if c == |x.str| {
      var t := Tidy(Del(x, key[c..]).0);
      assert [] + t + l == t + l;
    }
  }

  lemma {:induction false} DelInSkip<T(!new)>(x: Node<T>, l: seq<Node<T>>, key: string)
    requires CommonLen(key, x.str) == 0
    ensures DelIn([x] + l, key) == ([x] + DelIn(l, key).0, DelIn(l, key).1)
  {
    var j, m := Find(l, key), [x] + l;
    assert m[1..] == l;
    assert Find(m, key) == j + 1;
    if j < |l| && CommonLen(key, l[j].str) == |l[j].str| {
      var t := Tidy(Del(l[j], key[|l[j].str|..]).0);
      assert m[j + 1] == l[j] && m[..j + 1] == [x] + l[..j] && m[j + 2..] == l[j + 1..];
      assert [x] + l[..j] + t + l[j + 1..] == [x] + (l[..j] + t + l[j + 1..]);
    }
  }

  lemma {:induction false} ChosenFirst<T(!new)>(x: Node<T>, l: seq<Node<T>>, key: string)
    ensures Chosen([x] + l, key) == if CommonLen(key, x.str) > 0 then Some(x) else Chosen(l, key)
  {
    assert ([x] + l)[1..] == l;
  }

  lemma {:induction false} SearchIs<T(!new)>(n: Node<T>, key: string)
    requires key != []
    ensures var k := Chosen(n.list, key);
      Search(n, key) == if k == None || CommonLen(key, k.value.str) < |k.value.str| then None else Search(k.value, key[|k.value.str|..])
  {
  }

  class TreeNode<T(!new)> {
    var str: string
    var val: Option<Entry<T>>
    var list: TreeNode?<T>
    var next: TreeNode?<T>
    ghost var forest: seq<Node<T>>
    ghost var repr: set<object>

    ghost predicate Valid()
      reads this, repr
      decreases repr
    {
      && this in repr
      && (list != null ==> list in repr && list.repr <= repr && this !in list.repr && list.Valid())
      && (next != null ==> next in repr && next.repr <= repr && this !in next.repr && next.Valid())
      && (list != null && next != null ==> list.repr !! next.repr)
      && forest == [Node(str, val, Forest(list))] + Forest(next)
    }

    constructor (str: string, val: Option<Entry<T>>, list: TreeNode?<T>, next: TreeNode?<T>)
      requires Ok(list) && Ok(next) && Repr(list) !! Repr(next)
      ensures Valid() && forest == [Node(str, val, Forest(list))] + Forest(next)
      ensures repr == {this} + Repr(list) + Repr(next)
      ensures this.str == str && this.val == val && this.list == list && this.next == next
    {
      this.str, this.val, this.list, this.next := str, val, list, next;
      forest := [Node(str, val, Forest(list))] + Forest(next);
      repr := {this} + Repr(list) + Repr(next);
    }

    /** Give this node new contents and links, and bring the ghost fields up to date. */
    method Set(str: string, val: Option<Entry<T>>, list: TreeNode?<T>, next: TreeNode?<T>)
      requires Ok(list) && Ok(next) && Repr(list) !! Repr(next) && this !in Repr(list) && this !in Repr(next)
      modifies this
      ensures Valid() && forest == [Node(str, val, Forest(list))] + Forest(next)
      ensures repr == {this} + Repr(list) + Repr(next)
      ensures this.str == str && this.val == val && this.list == list && this.next == next
    {
      this.str, this.val, this.list, this.next := str, val, list, next;
      forest := [Node(str, val, Forest(list))] + Forest(next);
      repr := {this} + Repr(list) + Repr(next);
    }

    /** reset() around a new child holding the tail of the string, and a second one for the rest of key. */
    method Split(clen: nat, key: string, e: Entry<T>)
      requires Valid() && clen == CommonLen(key, str) && 0 < clen < |str|
      modifies this
      ensures Valid() && fresh(repr - old(repr))
      ensures forest == [InsBelow(old(Node(str, val, Forest(list))), key, e)] + old(Forest(next))
    {
      var t1 := Tail(str[clen..], val, list, key[clen..], e);
      SplitIs(Node(str, val, Forest(list)), key, e);
      Set(str[..clen], if clen == |key| then Some(e) else None, t1, next);
    }

    /** ins() over the siblings from here on; false when none shares a character with key. */
    method InsAmong(key: string, e: Entry<T>) returns (found: bool)
      requires Valid() && key != []
      modifies repr
      ensures Valid() && fresh(repr - old(repr))
      ensures found <==> Found(old(forest), key)
      ensures forest == InsIn(old(forest), key, e)
      decreases |key|, repr, 0
    {
      var clen, xlen := Match(str, key);
      ghost var x, rest := Node(str, val, Forest(list)), Forest(next);
      InsInFirst(x, rest, key, e);
      if clen == 0 {
        if next == null {
          found := false;
        } else {
          found := next.InsAmong(key, e);
          Set(str, val, list, next);
        }
      } else if clen == xlen {
        Ins(key[clen..], e);
        found := true;
      } else {
        Split(clen, key, e);
        found := true;
      }
    }

    /** ins() */
    method Ins(key: string, e: Entry<T>)
      requires Valid()
      modifies repr
      ensures Valid() && fresh(repr - old(repr))
      ensures forest == [StringTree.Ins(old(Node(str, val, Forest(list))), key, e)] + old(Forest(next))
      decreases |key|, repr, 1
    {
      if key == [] {
        Set(str, Some(e), list, next);
      } else {
        var head := InsList(list, key, e);
        InsIs(Node(str, val, old(Forest(list))), key, e);
        Set(str, val, head, next);
      }
    }

    /** After a deletion below: unlink the node, let it swallow its only child, or keep it. */
    method TidyUp() returns (head: TreeNode?<T>)
      requires Valid()
      modifies this
      ensures Ok(head) && Repr(head) <= old(repr)
      ensures Forest(head) == Tidy(old(Node(str, val, Forest(list)))) + old(Forest(next))
    {
      head := this;
      if val == None {
        if list == null {
          head := next;
          assert [] + Forest(next) == Forest(next);
        } else if list.next == null {
          assert Forest(list) == [Node(list.str, list.val, Forest(list.list))];
          Set(str + list.str, list.val, list.list, next);
        } else {
          assert list.Valid() && list.next.Valid();
          assert |Forest(list)| >= 2;
        }
      }
    }

    /** del() over the siblings from here on; `head` is the list afterwards. */
    method DelAmong(key: string) returns (head: TreeNode?<T>, ret: Option<Entry<T>>)
      requires Valid() && key != []
      modifies repr
      ensures Ok(head) && Repr(head) <= old(repr)
      ensures (Forest(head), ret) == DelIn(old(forest), key)
      decreases |key|, repr, 1
    {
      var clen, xlen := Match(str, key);
      if clen == 0 {
        DelInSkip(Node(str, val, Forest(list)), Forest(next), key);
        head := this;
        ret := DelNext(key);
      } else {
        DelInMatch(Node(str, val, Forest(list)), Forest(next), key);
        if clen == xlen {
          head, ret := DelHere(key[clen..], |key|);
        } else {
          head, ret := this, None;
        }
      }
    }

    method DelNext(key: string) returns (ret: Option<Entry<T>>)
      requires Valid() && key != []
      modifies repr
      ensures Valid() && repr <= old(repr)
      ensures forest == [old(Node(str, val, Forest(list)))] + DelIn(old(Forest(next)), key).0
      ensures ret == DelIn(old(Forest(next)), key).1
      decreases |key|, repr, 0
    {
      ret := None;
      if next != null {
        var n;
        n, ret := next.DelAmong(key);
        Set(str, val, list, n);
      }
    }

    method DelHere(key: string, ghost bound: nat) returns (head: TreeNode?<T>, ret: Option<Entry<T>>)
      requires Valid() && |key| < bound
      modifies repr
      ensures Ok(head) && Repr(head) <= old(repr)
      ensures var d := old(StringTree.Del(Node(str, val, Forest(list)), key)); Forest(head) == Tidy(d.0) + old(Forest(next)) && ret == d.1
      decreases bound, repr, 0
    {
      ret := Del(key);
      head := TidyUp();
    }

    /** del() */
    method Del(key: string) returns (ret: Option<Entry<T>>)
      requires Valid()
      modifies repr
      ensures Valid() && repr <= old(repr)
      ensures Node(str, val, Forest(list)) == StringTree.Del(old(Node(str, val, Forest(list))), key).0
      ensures ret == StringTree.Del(old(Node(str, val, Forest(list))), key).1 && Forest(next) == old(Forest(next))
      decreases |key|, repr, 1
    {
      if key == [] {
        ret := val;
        Set(str, None, list, next);
      } else {
        DelIs(Node(str, val, Forest(list)), key);
        var l;
        l, ret := DelList(list, key);
        Set(str, val, l, next);
      }
    }

    /** The loop of every lookup: the first child sharing a character with key. */
    method FindChild(key: string) returns (k: TreeNode?<T>, clen: nat, xlen: nat)
      requires Valid()
      ensures k == null ==> Chosen(Forest(list), key) == None
      ensures k != null ==> k.Valid() && Chosen(Forest(list), key) == Some(Node(k.str, k.val, Forest(k.list)))
      ensures k != null ==> 0 < clen == CommonLen(key, k.str) && xlen == |k.str|
    {
      k, clen, xlen := list, 0, 0;
      while k != null
        invariant Ok(k) && Chosen(Forest(k), key) == Chosen(Forest(list), key)
        decreases Repr(k)
      {
        clen, xlen := Match(k.str, key);
        ChosenFirst(Node(k.str, k.val, Forest(k.list)), Forest(k.next), key);
        if clen > 0 { return; }
        k := k.next;
      }
    }

    /** search() */
    method Search(key: string) returns (r: Option<Entry<T>>)
      requires Valid()
      ensures r == StringTree.Search(Node(str, val, Forest(list)), key)
      decreases |key|
    {
      if key == [] { return val; }
      SearchIs(Node(str, val, Forest(list)), key);
      var k, clen, xlen := FindChild(key);
      r := None;
      if k != null && clen == xlen { r := k.Search(key[clen..]); }
    }

    /** The search that reports how much of the key matched. */
    method SearchLongest(key: string, at: nat, last: Reach<T>) returns (r: Reach<T>)
      requires Valid()
      ensures r == Longest(Node(str, val, Forest(list)), key, at, last)
      decreases |key|, 1
    {
      r := last;
      if val.Some? {
        if key == [] { return Reached(val.value, at); }
        if val.value.partial { r := Reached(val.value, at); }
      }
      if key != [] {
        var k, clen, xlen := FindChild(key);
        if k != null { r := k.LongestHere(key, clen, at, r); }
      }
    }

    /** The child chosen: go on inside it if its whole string matched. */
    method LongestHere(key: string, clen: nat, at: nat, last: Reach<T>) returns (r: Reach<T>)
      requires Valid() && 0 < clen == CommonLen(key, str)
      ensures r == Further(Some(Node(str, val, Forest(list))), key, at, last)
      decreases |key|, 0
    {
      r := last;
      if clen == |str| {
        r := SearchLongest(key[clen..], at + clen, last);
      }
    }
  }

  method DelList<T(!new)>(list: TreeNode?<T>, key: string) returns (head: TreeNode?<T>, ret: Option<Entry<T>>)
    requires Ok(list) && key != []
    modifies Repr(list)
    ensures Ok(head) && Repr(head) <= old(Repr(list))
    ensures Forest(head) == DelIn(old(Forest(list)), key).0 && ret == DelIn(old(Forest(list)), key).1
    decreases |key|, Repr(list), 2
  {
    head, ret := null, None;
    if list != null {
      head, ret := list.DelAmong(key);
    }
  }

  /** The node that takes over the tail of a split string, with a sibling for what is left of key. */
  method Tail<T(!new)>(str: string, val: Option<Entry<T>>, list: TreeNode?<T>, rest: string, e: Entry<T>) returns (t1: TreeNode<T>)
    requires Ok(list)
    ensures t1.Valid() && fresh(t1.repr - Repr(list))
    ensures t1.forest == [Node(str, val, Forest(list))] + if rest == [] then [] else [Node(rest, Some(e), [])]
  {
    var t2: TreeNode?<T> := null;
    if rest != [] {
      t2 := new TreeNode(rest, Some(e), null, null);
    }
    t1 := new TreeNode(str, val, list, t2);
  }

  /** ins() below a node: into the sibling found, or as a new first sibling. */
  method InsList<T(!new)>(list: TreeNode?<T>, key: string, e: Entry<T>) returns (head: TreeNode<T>)
    requires Ok(list) && key != []
    modifies Repr(list)
    ensures head.Valid() && fresh(head.repr - old(Repr(list)))
    ensures head.forest == InsHead(old(Forest(list)), key, e)
    decreases |key|, Repr(list), 1
  {
    var found := false;
    if list != null {
      found := list.InsAmong(key, e);
      head := list;
    }
    if !found {
      head := new TreeNode(key, Some(e), null, list);
    }
  }

  /** The tree a client holds: a root without a string, and the table its history made. */
  class StringTable<T(!new)> {
    var root: TreeNode<T>
    ghost var table: map<string, Entry<T>>

    ghost predicate Valid()
      reads this, root, root.repr
    {
      root.Valid() && this !in root.repr && Holds(Node(root.str, root.val, Forest(root.list)), table)
    }

    constructor ()
      ensures Valid() && table == map[] && fresh(root) && fresh(root.repr)
    {
      root := new TreeNode([], None, null, null);
      table := map[];
      Refines<T>([]);
    }

    method Ins(key: string, obj: T, partial: bool)
      requires Valid()
      modifies this, root.repr
      ensures Valid() && fresh(root.repr - old(root.repr)) && root == old(root)
      ensures table == old(table)[key := Entry(obj, partial)]
    {
      InsRefines(Node(root.str, root.val, Forest(root.list)), table, key, Entry(obj, partial));
      root.Ins(key, Entry(obj, partial));
      assert root.forest[0] == Node(root.str, root.val, Forest(root.list));
      table := table[key := Entry(obj, partial)];
    }

    method Del(key: string) returns (ret: Option<Entry<T>>)
      requires Valid()
      modifies this, root.repr
      ensures Valid() && root.repr <= old(root.repr) && root == old(root)
      ensures table == old(table) - {key} && ret == Lookup(old(table), key)
    {
      DelRefines(Node(root.str, root.val, Forest(root.list)), table, key);
      ret := root.Del(key);
      table := table - {key};
    }

    method Search(key: string) returns (r: Option<Entry<T>>)
      requires Valid()
      ensures r == Lookup(table, key)
    {
      SearchRefines(Node(root.str, root.val, Forest(root.list)), table, key);
      r := root.Search(key);
    }

    /** search(&match_len, key) */
    method SearchMatch(key: string) returns (r: Option<Entry<T>>, len: nat)
      requires Valid()
      ensures key in table ==> r == Some(table[key]) && len == |key|
      ensures key !in table && r.Some? ==>
        && len < |key| && key[..len] in table && table[key[..len]] == r.value && r.value.partial
        && forall j :: len < j < |key| && key[..j] in table ==> !table[key[..j]].partial
      ensures r == None ==> len == 0 && key !in table && forall j :: 0 <= j < |key| && key[..j] in table ==> !table[key[..j]].partial
    {
      LongestRefines(Node(root.str, root.val, Forest(root.list)), table, key);
      var m := root.SearchLongest(key, 0, Nothing);
      if m == Nothing { return None, 0; }
      return Some(m.entry), m.len;
    }
  }
}
