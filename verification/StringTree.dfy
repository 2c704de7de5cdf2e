/**
  The compressed string tree (stdStringTreeBase).  Every edge carries a string; a node may hold an
  object with its partial flag.  A key is stored where the strings on the path to a node spell it.
 */
module StringTree {
  import opened Common

  datatype Entry<T> = Entry(obj: T, partial: bool)

  /** The outcome of the match-length search. */
  datatype Reach<T> = Nothing | Reached(entry: Entry<T>, len: nat)

  datatype Node<T> = Node(str: string, val: Option<Entry<T>>, list: seq<Node<T>>)

  // ---------------------------------------------------------------- what a tree stores

  /** The reference: key leads to e along some path below n. */
  ghost predicate Stores<T(!new)>(n: Node<T>, key: string, e: Entry<T>)
    decreases n, 0
  {
    || (key == [] && n.val == Some(e))
    || exists i :: 0 <= i < |n.list| && Via(n.list[i], key, e)
  }

  /** key runs along the edge into k and on. */
  ghost predicate Via<T(!new)>(k: Node<T>, key: string, e: Entry<T>)
    decreases k, 1
  {
    k.str <= key && Stores(k, key[|k.str|..], e)
  }

  /** Siblings start with different characters. */
  ghost predicate Apart<T(!new)>(l: seq<Node<T>>) {
    forall i, j :: 0 <= i < j < |l| && l[i].str != [] && l[j].str != [] ==> l[i].str[0] != l[j].str[0]
  }

  /** Every node but the root has a non-empty string, and holds an object or at least two children. */
  ghost predicate Inner<T(!new)>(n: Node<T>)
    decreases n, 1
  {
    n.str != [] && (n.val == None ==> |n.list| >= 2) && Wf(n)
  }

  ghost predicate Wf<T(!new)>(n: Node<T>)
    decreases n, 0
  {
    Apart(n.list) && forall i :: 0 <= i < |n.list| ==> Inner(n.list[i])
  }

  // ---------------------------------------------------------------- the operations

  /** The length of the longest common prefix. */
  function CommonLen(a: string, b: string): (r: nat)
    ensures r <= |a| && r <= |b|
    ensures r > 0 <==> a != [] && b != [] && a[0] == b[0]
  {
    if a == [] || b == [] || a[0] != b[0] then 0 else 1 + CommonLen(a[1..], b[1..])
  }

  lemma {:induction false} CommonPrefix(a: string, b: string)
    ensures var r := CommonLen(a, b); a[..r] == b[..r] && (r < |a| && r < |b| ==> a[r] != b[r])
  {
    if a != [] && b != [] && a[0] == b[0] {
      CommonPrefix(a[1..], b[1..]);
      var r := CommonLen(a[1..], b[1..]);
      assert a[..r + 1] == [a[0]] + a[1..][..r] && b[..r + 1] == [b[0]] + b[1..][..r];
    }
  }

  /** match() */
  method Match(elp: string, ix: string) returns (clen: nat, xlen: nat)
    ensures xlen == |elp| && clen == CommonLen(ix, elp)
  {
    xlen := |elp|;
    clen := 0;
    while clen < xlen && clen < |ix|
      invariant clen <= xlen && clen <= |ix|
      invariant ix[..clen] == elp[..clen]
    {
      if ix[clen] != elp[clen] { break; }
      clen := clen + 1;
    }
    CommonLenUnique(ix, elp, clen);
  }

  lemma {:induction false} CommonLenUnique(a: string, b: string, r: nat)
    requires r <= |a| && r <= |b| && a[..r] == b[..r]
    requires r < |a| && r < |b| ==> a[r] != b[r]
    ensures r == CommonLen(a, b)
  {
    if r > 0 {
      assert a[0] == a[..r][0] == b[..r][0] == b[0];
      assert a[1..][..r - 1] == a[..r][1..] == b[..r][1..] == b[1..][..r - 1];
      CommonLenUnique(a[1..], b[1..], r - 1);
    }
  }

  /** The first sibling that shares its first character with key; |l| if there is none. */
  function Find<T>(l: seq<Node<T>>, key: string): (i: nat)
    ensures i <= |l|
    ensures i < |l| ==> CommonLen(key, l[i].str) > 0
    ensures forall j :: 0 <= j < i ==> CommonLen(key, l[j].str) == 0
  {
    if l == [] || CommonLen(key, l[0].str) > 0 then 0 else 1 + Find(l[1..], key)
  }

  function Ins<T>(n: Node<T>, key: string, e: Entry<T>): Node<T>
    decreases |key|, 1
  {
    if key == [] then n.(val := Some(e))
    else
      var i := Find(n.list, key);
      if i == |n.list| then n.(list := [Node(key, Some(e), [])] + n.list)
      else n.(list := n.list[i := InsBelow(n.list[i], key, e)])
  }

  /** Insertion into a child that shares a non-empty prefix with key: descend, or split its string. */
  function InsBelow<T>(k: Node<T>, key: string, e: Entry<T>): Node<T>
    requires CommonLen(key, k.str) > 0
    decreases |key|, 0
  {
    var clen := CommonLen(key, k.str);
    var rest := Node(k.str[clen..], k.val, k.list);
    if clen == |k.str| then Ins(k, key[clen..], e)
    else if clen == |key| then Node(k.str[..clen], Some(e), [rest])
    else Node(k.str[..clen], None, [rest, Node(key[clen..], Some(e), [])])
  }

  function Search<T>(n: Node<T>, key: string): Option<Entry<T>>
    decreases |key|
  {
    if key == [] then n.val
    else
      var i := Find(n.list, key);
      if i == |n.list| then None
      else
        var clen := CommonLen(key, n.list[i].str);
        if clen == |n.list[i].str| then Search(n.list[i], key[clen..]) else None
  }

  /** What becomes of a child after a deletion below it: unlinked, merged with its only child, or kept. */
  function Tidy<T>(k: Node<T>): seq<Node<T>> {
    if k.val.Some? then [k]
    else if k.list == [] then []
    else if |k.list| == 1 then [Node(k.str + k.list[0].str, k.list[0].val, k.list[0].list)]
    else [k]
  }

  function Del<T>(n: Node<T>, key: string): (Node<T>, Option<Entry<T>>)
    decreases |key|
  {
    if key == [] then (n.(val := None), n.val)
    else
      var i := Find(n.list, key);
      if i == |n.list| then (n, None)
      else
        var clen := CommonLen(key, n.list[i].str);
        if clen == |n.list[i].str| then
          var (k, r) := Del(n.list[i], key[clen..]);
          (n.(list := n.list[..i] + Tidy(k) + n.list[i + 1..]), r)
        else (n, None)
  }

  /** The search that remembers the last partial entry passed; `at` is how much of the whole key is
      consumed, `last` the remembered entry and where it was. */
  function Longest<T>(n: Node<T>, key: string, at: nat, last: Reach<T>): Reach<T>
    decreases |key|, 1
  {
    if key == [] then if n.val.Some? then Reached(n.val.value, at) else last
    else Further(Chosen(n.list, key), key, at, if n.val.Some? && n.val.value.partial then Reached(n.val.value, at) else last)
  }

  /** Go on inside the sibling chosen if its whole string matches. */
  function Further<T>(k: Option<Node<T>>, key: string, at: nat, last: Reach<T>): Reach<T>
    requires k.Some? ==> CommonLen(key, k.value.str) > 0
    decreases |key|, 0
  {
    if k == None || CommonLen(key, k.value.str) < |k.value.str| then last
    else Longest(k.value, key[|k.value.str|..], at + |k.value.str|, last)
  }

  /** The sibling a lookup continues in. */
  function Chosen<T>(l: seq<Node<T>>, key: string): (k: Option<Node<T>>)
    ensures k.Some? ==> CommonLen(key, k.value.str) > 0
  {
    var i := Find(l, key);
    if i == |l| then None else Some(l[i])
  }

  // ---------------------------------------------------------------- search is lookup

  /** In a well-formed sibling list only the sibling found can lead anywhere. */
  lemma {:induction false} OnlyFound<T(!new)>(n: Node<T>, key: string, e: Entry<T>)
    requires Wf(n) && key != []
    ensures var i := Find(n.list, key);
      Stores(n, key, e) <==> i < |n.list| && CommonLen(key, n.list[i].str) == |n.list[i].str| && Via(n.list[i], key, e)
  {
    if Stores(n, key, e) {
      var j :| 0 <= j < |n.list| && Via(n.list[j], key, e);
      var k := n.list[j];
      assert Inner(k);
      CommonLenUnique(key, k.str, |k.str|);
      FoundIs(n, key, j);
    }
  }

  lemma {:induction false} FoundIs<T(!new)>(n: Node<T>, key: string, j: nat)
    requires Wf(n) && j < |n.list| && CommonLen(key, n.list[j].str) > 0
    ensures Find(n.list, key) == j
  {
    var i := Find(n.list, key);
    assert i <= j;
    assert n.list[i].str[0] == key[0] == n.list[j].str[0];
  }

  lemma {:induction false} StoresEmpty<T(!new)>(n: Node<T>, e: Entry<T>)
    requires Wf(n)
    ensures Stores(n, [], e) <==> n.val == Some(e)
  {
    forall i | 0 <= i < |n.list| ensures !Via(n.list[i], [], e) { assert Inner(n.list[i]); }
  }

  lemma {:induction false} SearchExact<T(!new)>(n: Node<T>, key: string, e: Entry<T>)
    requires Wf(n)
    ensures Search(n, key) == Some(e) <==> Stores(n, key, e)
    decreases |key|
  {
    if key == [] {
      StoresEmpty(n, e);
    } else {
      OnlyFound(n, key, e);
      var i := Find(n.list, key);
      if i < |n.list| {
        var k, c := n.list[i], CommonLen(key, n.list[i].str);
        assert Inner(k);
        SearchExact(k, key[c..], e);
        CommonPrefix(key, k.str);
        assert c == |k.str| ==> (Via(k, key, e) <==> Stores(k, key[c..], e));
      }
    }
  }

  // ---------------------------------------------------------------- insertion is map update

  /** Cutting the string of an edge in two does not change what lies behind it. */
  lemma {:induction false} CutEdge<T(!new)>(k: Node<T>, c: nat, key: string, e: Entry<T>)
    requires c <= |k.str|
    ensures k.str[..c] <= key && Via(Node(k.str[c..], k.val, k.list), key[c..], e) <==> Via(k, key, e)
  {
    var rest := Node(k.str[c..], k.val, k.list);
    if |k.str| <= |key| {
      assert key[c..][|k.str| - c..] == key[|k.str|..];
      assert k.str == k.str[..c] + k.str[c..];
      assert key == key[..c] + key[c..];
      assert Stores(rest, key[|k.str|..], e) <==> Stores(k, key[|k.str|..], e);
    }
  }

  lemma {:induction false} CutInner<T(!new)>(k: Node<T>, c: nat)
    requires Inner(k) && c < |k.str|
    ensures Inner(Node(k.str[c..], k.val, k.list))
  {
  }

  lemma {:induction false} Leaf<T(!new)>(str: string, e: Entry<T>, key: string, f: Entry<T>)
    ensures Via(Node(str, Some(e), []), key, f) <==> key == str && f == e
  {
  }

  /** The child after an insertion below it starts with the same character, is well formed, and leads
      key to e and everything else where it led before. */
  lemma {:induction false} InsBelowExact<T(!new)>(k: Node<T>, key: string, e: Entry<T>, k2: string, f: Entry<T>)
    requires Inner(k) && CommonLen(key, k.str) > 0
    ensures var r := InsBelow(k, key, e); Inner(r) && r.str[0] == k.str[0]
    ensures Via(InsBelow(k, key, e), k2, f) <==> if k2 == key then f == e else Via(k, k2, f)
    decreases |key|, 0
  {
    var c := CommonLen(key, k.str);
    CommonPrefix(key, k.str);
    if c == |k.str| {
      Tails(key, k2, c);
      if k.str <= k2 {
        InsExact(k, key[c..], e, k2[c..], f);
      } else {
        InsExact(k, key[c..], e, [], f);
      }
    } else {
      SplitExact(k, key, e, k2, f);
    }
  }

  lemma Tails(a: string, b: string, c: nat)
    requires c <= |a|
    ensures a == b <==> a[..c] <= b && a[c..] == b[c..]
  {
    if a[..c] <= b {
      assert a == a[..c] + a[c..] && b == a[..c] + b[c..];
    }
  }

  lemma {:induction false} SplitExact<T(!new)>(k: Node<T>, key: string, e: Entry<T>, k2: string, f: Entry<T>)
    requires Inner(k) && 0 < CommonLen(key, k.str) < |k.str|
    ensures var r := InsBelow(k, key, e); Inner(r) && r.str[0] == k.str[0]
    ensures Via(InsBelow(k, key, e), k2, f) <==> if k2 == key then f == e else Via(k, k2, f)
  {
    var c := CommonLen(key, k.str);
    var rest := Node(k.str[c..], k.val, k.list);
    var r := InsBelow(k, key, e);
    CommonPrefix(key, k.str);
    CutInner(k, c);
    CutEdge(k, c, k2, f);
    assert r.list[0] == rest;
    Tails(key, k2, c);
    if c < |key| {
      Leaf(key[c..], e, k2[if c <= |k2| then c else 0..], f);
      assert r.list[1] == Node(key[c..], Some(e), []) && Inner(r.list[1]);
    }
  }

  /** A new first sibling. */
  lemma {:induction false} InsFront<T(!new)>(n: Node<T>, key: string, e: Entry<T>, k2: string, f: Entry<T>)
    requires Wf(n) && key != [] && Find(n.list, key) == |n.list|
    ensures var r := n.(list := [Node(key, Some(e), [])] + n.list);
      Wf(r) && (Stores(r, k2, f) <==> if k2 == key then f == e else Stores(n, k2, f))
  {
    var leaf := Node(key, Some(e), []);
    var r := n.(list := [leaf] + n.list);
    forall i | 0 <= i < |r.list| ensures Inner(r.list[i]) && (i > 0 ==> r.list[i].str[0] != key[0]) {
      if i > 0 { assert Inner(n.list[i - 1]) && CommonLen(key, n.list[i - 1].str) == 0; }
    }
    assert Apart(r.list) by {
      forall i, j | 0 <= i < j < |r.list| ensures r.list[i].str[0] != r.list[j].str[0] {
        if i > 0 { assert n.list[i - 1].str[0] != n.list[j - 1].str[0]; }
      }
    }
    Leaf(key, e, k2, f);
    forall i | 0 <= i < |n.list| ensures Via(n.list[i], k2, f) ==> k2 != key && Via(r.list[i + 1], k2, f) {
      assert r.list[i + 1] == n.list[i];
    }
    assert r.list[0] == leaf;
  }

  /** One sibling replaced by another with the same first character. */
  lemma {:induction false} Replace<T(!new)>(n: Node<T>, i: nat, k: Node<T>)
    requires Wf(n) && i < |n.list| && Inner(k) && Inner(n.list[i]) && k.str[0] == n.list[i].str[0]
    ensures Wf(n.(list := n.list[i := k]))
  {
    var l := n.list[i := k];
    forall j | 0 <= j < |l| ensures Inner(l[j]) && l[j].str[0] == n.list[j].str[0] {
      assert Inner(n.list[j]);
    }
  }

  lemma {:induction false} InsReplace<T(!new)>(n: Node<T>, i: nat, k: Node<T>, key: string, e: Entry<T>, k2: string, f: Entry<T>)
    requires Wf(n) && i < |n.list| && Inner(k) && Inner(n.list[i]) && k.str[0] == n.list[i].str[0] && key != [] && key[0] == k.str[0]
    requires Via(k, k2, f) <==> if k2 == key then f == e else Via(n.list[i], k2, f)
    ensures var r := n.(list := n.list[i := k]);
      Wf(r) && (Stores(r, k2, f) <==> if k2 == key then f == e else Stores(n, k2, f))
  {
    Replace(n, i, k);
    var r := n.(list := n.list[i := k]);
    forall j | 0 <= j < |n.list| && j != i
      ensures r.list[j] == n.list[j] && (Via(n.list[j], k2, f) ==> k2 != key)
    {
      assert Inner(n.list[j]) && Inner(n.list[i]);
      assert n.list[j].str[0] != key[0];
    }
    assert r.list[i] == k;
    if Stores(n, k2, f) && k2 != key && k2 != [] {
      var j :| 0 <= j < |n.list| && Via(n.list[j], k2, f);
      assert Via(r.list[j], k2, f);
    }
    if Stores(r, k2, f) && k2 != [] {
      var j :| 0 <= j < |r.list| && Via(r.list[j], k2, f);
      if j == i { assert k2 == key || Via(n.list[i], k2, f); } else { assert Via(n.list[j], k2, f); }
    }
  }

  lemma {:induction false} InsExact<T(!new)>(n: Node<T>, key: string, e: Entry<T>, k2: string, f: Entry<T>)
    requires Wf(n)
    ensures Wf(Ins(n, key, e))
    ensures Stores(Ins(n, key, e), k2, f) <==> if k2 == key then f == e else Stores(n, k2, f)
    decreases |key|, 1
  {
    if key != [] {
      var i := Find(n.list, key);
      if i == |n.list| {
        InsFront(n, key, e, k2, f);
      } else {
        InsBelowExact(n.list[i], key, e, k2, f);
        InsReplace(n, i, InsBelow(n.list[i], key, e), key, e, k2, f);
      }
    } else {
      forall i | 0 <= i < |n.list| ensures !Via(n.list[i], [], f) { assert Inner(n.list[i]); }
    }
  }

  // ---------------------------------------------------------------- deletion is map removal

  lemma {:induction false} SameList<T(!new)>(a: Node<T>, b: Node<T>)
    requires Wf(a) && b.list == a.list
    ensures Wf(b)
  {
  }

  lemma {:induction false} TidyShape<T(!new)>(k: Node<T>)
    requires k.str != [] && Wf(k)
    ensures |Tidy(k)| <= 1 && forall x :: x in Tidy(k) ==> Inner(x) && x.str[0] == k.str[0]
  {
    if k.val == None && |k.list| == 1 {
      assert Inner(k.list[0]);
      SameList(k.list[0], Tidy(k)[0]);
      assert Inner(Tidy(k)[0]);
    }
  }

  lemma {:induction false} TidyExact<T(!new)>(k: Node<T>, key: string, e: Entry<T>)
    requires k.str != [] && Wf(k)
    ensures Via(k, key, e) <==> Tidy(k) != [] && Via(Tidy(k)[0], key, e)
  {
    if k.val == None && |k.list| == 1 {
      var c := k.list[0];
      assert Inner(c);
      var m := Tidy(k)[0];
      assert m.str[..|k.str|] == k.str && m.str[|k.str|..] == c.str;
      assert Node(m.str[|k.str|..], m.val, m.list) == c;
      CutEdge(m, |k.str|, key, e);
    }
  }

  /** One sibling replaced by at most one other with the same first character. */
  lemma {:induction false} Splice<T(!new)>(n: Node<T>, i: nat, t: seq<Node<T>>)
    requires Wf(n) && i < |n.list| && Inner(n.list[i]) && |t| <= 1
    requires forall x :: x in t ==> Inner(x) && x.str[0] == n.list[i].str[0]
    ensures Wf(n.(list := n.list[..i] + t + n.list[i + 1..]))
  {
    if |t| == 1 {
      Replace(n, i, t[0]);
      assert n.list[..i] + t + n.list[i + 1..] == n.list[i := t[0]];
    } else {
      var l := n.list[..i] + t + n.list[i + 1..];
      forall j | 0 <= j < |l| ensures Inner(l[j]) && l[j] == n.list[if j < i then j else j + 1] {
        assert Inner(n.list[if j < i then j else j + 1]);
      }
    }
  }

  /** After the splice, what is stored is what the other siblings store and what t[0] leads to. */
  lemma {:induction false} SpliceStores<T(!new)>(n: Node<T>, i: nat, t: seq<Node<T>>, key: string, k2: string, f: Entry<T>)
    requires Wf(n) && i < |n.list| && Inner(n.list[i]) && |t| <= 1
    requires key != [] && key[0] == n.list[i].str[0]
    requires (t != [] && Via(t[0], k2, f)) <==> k2 != key && Via(n.list[i], k2, f)
    ensures Stores(n.(list := n.list[..i] + t + n.list[i + 1..]), k2, f) <==> k2 != key && Stores(n, k2, f)
  {
    var l := n.list[..i] + t + n.list[i + 1..];
    if ListVia(l, k2, f) {
      var j :| 0 <= j < |l| && Via(l[j], k2, f);
      SpliceFrom(n, i, t, key, k2, f, j);
    }
    if k2 != key && ListVia(n.list, k2, f) {
      var q :| 0 <= q < |n.list| && Via(n.list[q], k2, f);
      SpliceTo(n, i, t, k2, f, q);
    }
  }

  ghost predicate ListVia<T(!new)>(l: seq<Node<T>>, key: string, e: Entry<T>) {
    exists i :: 0 <= i < |l| && Via(l[i], key, e)
  }

  lemma {:induction false} SpliceTo<T(!new)>(n: Node<T>, i: nat, t: seq<Node<T>>, k2: string, f: Entry<T>, q: nat)
    requires i < |n.list| && |t| <= 1 && q < |n.list| && Via(n.list[q], k2, f)
    requires q == i ==> t != [] && Via(t[0], k2, f)
    ensures ListVia(n.list[..i] + t + n.list[i + 1..], k2, f)
  {
    var l := n.list[..i] + t + n.list[i + 1..];
    var j := if q <= i || t != [] then q else q - 1;
    assert l[j] == if q == i then t[0] else n.list[q];
  }

  lemma {:induction false} SpliceFrom<T(!new)>(n: Node<T>, i: nat, t: seq<Node<T>>, key: string, k2: string, f: Entry<T>, j: nat)
    requires Wf(n) && i < |n.list| && Inner(n.list[i]) && |t| <= 1
    requires key != [] && key[0] == n.list[i].str[0]
    requires t != [] && Via(t[0], k2, f) ==> k2 != key && Via(n.list[i], k2, f)
    requires var l := n.list[..i] + t + n.list[i + 1..]; j < |l| && Via(l[j], k2, f)
    ensures k2 != key && ListVia(n.list, k2, f)
  {
    var l := n.list[..i] + t + n.list[i + 1..];
    if j == i && t != [] {
      assert l[j] == t[0];
    } else {
      var q := if j < i || t != [] then j else j + 1;
      assert l[j] == n.list[q];
      assert Inner(n.list[q]) && n.list[q].str[0] != key[0];
    }
  }

  lemma {:induction false} DelShape<T(!new)>(n: Node<T>, key: string)
    requires Wf(n)
    ensures Wf(Del(n, key).0) && Del(n, key).0.str == n.str
    ensures Del(n, key).1 == Search(n, key)
    decreases |key|
  {
    if key != [] {
      var i := Find(n.list, key);
      if i < |n.list| {
        var k, c := n.list[i], CommonLen(key, n.list[i].str);
        assert Inner(k);
        if c == |k.str| {
          DelShape(k, key[c..]);
          TidyShape(Del(k, key[c..]).0);
          Splice(n, i, Tidy(Del(k, key[c..]).0));
        }
      }
    }
  }

  lemma {:induction false} DelExact<T(!new)>(n: Node<T>, key: string, k2: string, f: Entry<T>)
    requires Wf(n)
    ensures Stores(Del(n, key).0, k2, f) <==> k2 != key && Stores(n, k2, f)
    decreases |key|
  {
    if key == [] {
      forall i | 0 <= i < |n.list| ensures !Via(n.list[i], [], f) { assert Inner(n.list[i]); }
    } else {
      OnlyFound(n, key, f);
      var i := Find(n.list, key);
      if i < |n.list| {
        var k, c := n.list[i], CommonLen(key, n.list[i].str);
        assert Inner(k);
        if c == |k.str| {
          var k' := Del(k, key[c..]).0;
          DelExact(k, key[c..], if k.str <= k2 then k2[c..] else [], f);
          DelShape(k, key[c..]);
          CommonPrefix(key, k.str);
          Tails(key, k2, c);
          TidyShape(k');
          TidyExact(k', k2, f);
          SpliceStores(n, i, Tidy(k'), key, k2, f);
        }
      }
    }
  }

  // ---------------------------------------------------------------- the match-length search

  /** The first m characters of key are stored below n, as the whole key or as a partial entry. */
  ghost predicate Hit<T(!new)>(n: Node<T>, key: string, m: nat, e: Entry<T>) {
    m <= |key| && Stores(n, key[..m], e) && (m == |key| || e.partial)
  }

  /** r is the longest hit, counted from `at`; `last` if there is none. */
  ghost predicate Best<T(!new)>(n: Node<T>, key: string, at: nat, last: Reach<T>, r: Reach<T>) {
    if exists m, e :: Hit(n, key, m, e) then
      && r.Reached? && r.len >= at && Hit(n, key, r.len - at, r.entry)
      && forall m, e :: Hit(n, key, m, e) ==> at + m <= r.len
    else r == last
  }

  lemma SliceSlice(key: string, c: nat, m: nat)
    requires c <= m <= |key|
    ensures key[..m][c..] == key[c..][..m - c] && key[..m][..c] == key[..c]
  {
  }

  /** A hit beyond the node itself is a hit of the child found. */
  lemma {:induction false} HitDown<T(!new)>(n: Node<T>, key: string, m: nat, e: Entry<T>)
    requires Wf(n) && 0 < m <= |key|
    ensures var i := Find(n.list, key);
      Hit(n, key, m, e) <==>
        i < |n.list| && CommonLen(key, n.list[i].str) == |n.list[i].str| <= m && Hit(n.list[i], key[|n.list[i].str|..], m - |n.list[i].str|, e)
  {
    var i, pre := Find(n.list, key), key[..m];
    if Hit(n, key, m, e) {
      var j :| 0 <= j < |n.list| && Via(n.list[j], pre, e);
      var c := |n.list[j].str|;
      assert Inner(n.list[j]);
      SliceSlice(key, c, m);
      assert n.list[j].str == pre[..c];
      CommonLenUnique(key, n.list[j].str, c);
      FoundIs(n, key, j);
    }
    if i < |n.list| && CommonLen(key, n.list[i].str) == |n.list[i].str| <= m {
      var c := |n.list[i].str|;
      SliceSlice(key, c, m);
      CommonPrefix(key, n.list[i].str);
      assert Hit(n.list[i], key[c..], m - c, e) ==> Via(n.list[i], pre, e);
    }
  }

  lemma {:induction false} LongestExact<T(!new)>(n: Node<T>, key: string, at: nat, last: Reach<T>)
    requires Wf(n)
    ensures Best(n, key, at, last, Longest(n, key, at, last))
    decreases |key|
  {
    var i, r := Find(n.list, key), Longest(n, key, at, last);
    if key != [] && i < |n.list| && CommonLen(key, n.list[i].str) == |n.list[i].str| {
      assert Inner(n.list[i]);
      var c := |n.list[i].str|;
      var last' := if n.val.Some? && n.val.value.partial then Reached(n.val.value, at) else last;
      assert r == Further(Some(n.list[i]), key, at, last') == Longest(n.list[i], key[c..], at + c, last');
      LongestExact(n.list[i], key[c..], at + c, last');
      Descend(n, key, at, last, c, i, r);
    } else {
      assert key != [] ==> r == Further(Chosen(n.list, key), key, at, if n.val.Some? && n.val.value.partial then Reached(n.val.value, at) else last);
      assert r == if n.val.Some? && (key == [] || n.val.value.partial) then Reached(n.val.value, at) else last;
      HereOnly(n, key, at, last);
    }
  }

  /** No hit beyond the node itself. */
  lemma {:induction false} HereOnly<T(!new)>(n: Node<T>, key: string, at: nat, last: Reach<T>)
    requires Wf(n)
    requires key == [] || (var i := Find(n.list, key); i == |n.list| || CommonLen(key, n.list[i].str) < |n.list[i].str|)
    ensures Best(n, key, at, last, if n.val.Some? && (key == [] || n.val.value.partial) then Reached(n.val.value, at) else last)
  {
    assert key[..0] == [];
    forall e ensures Stores(n, [], e) <==> n.val == Some(e) { StoresEmpty(n, e); }
    if n.val.Some? { assert Hit(n, key, 0, n.val.value) <==> key == [] || n.val.value.partial; }
    forall m: nat, e | 0 < m <= |key| ensures !Hit(n, key, m, e) { HitDown(n, key, m, e); }
    assert forall m, e :: Hit(n, key, m, e) ==> m == 0;
  }

  /** From the best hit of the child found to the best hit of the node. */
  lemma {:induction false} Descend<T(!new)>(n: Node<T>, key: string, at: nat, last: Reach<T>, c: nat, i: nat, r: Reach<T>)
    requires Wf(n) && key != [] && i < |n.list| && c == |n.list[i].str| <= |key|
    requires i == Find(n.list, key) && c == CommonLen(key, n.list[i].str)
    requires Best(n.list[i], key[c..], at + c, if n.val.Some? && n.val.value.partial then Reached(n.val.value, at) else last, r)
    requires c > 0
    ensures Best(n, key, at, last, r)
  {
    var k := n.list[i];
    assert key[..0] == [];
    forall m: nat, e | 0 < m <= |key| ensures Hit(n, key, m, e) <==> c <= m && Hit(k, key[c..], m - c, e) {
      HitDown(n, key, m, e);
    }
    forall e ensures Stores(n, [], e) <==> n.val == Some(e) { StoresEmpty(n, e); }
    if exists m, e :: Hit(k, key[c..], m, e) {
      assert Hit(n, key, r.len - at, r.entry);
      forall m: nat, e | Hit(n, key, m, e) ensures at + m <= r.len {
        if m > 0 { assert Hit(k, key[c..], m - c, e); }
      }
    } else {
      assert forall m, e :: Hit(n, key, m, e) ==> m == 0;
      if n.val.Some? { assert Hit(n, key, 0, n.val.value) <==> n.val.value.partial; }
    }
  }

  // ---------------------------------------------------------------- the shape depends only on the contents

  ghost predicate SameStores<T(!new)>(a: Node<T>, b: Node<T>) {
    forall key, e :: Stores(a, key, e) <==> Stores(b, key, e)
  }

  ghost predicate SameVia<T(!new)>(a: Node<T>, b: Node<T>) {
    forall key, e :: Via(a, key, e) <==> Via(b, key, e)
  }

  /** Equal up to the order of siblings: as many children, and every child of a among those of b.
      (Siblings differ in their first character, so no two share a counterpart.) */
  ghost predicate SameShape<T(!new)>(a: Node<T>, b: Node<T>)
    decreases a, 0
  {
    && a.str == b.str && a.val == b.val && |a.list| == |b.list|
    && forall i :: 0 <= i < |a.list| ==> Among(a.list[i], b.list)
  }

  ghost predicate Among<T(!new)>(k: Node<T>, l: seq<Node<T>>)
    decreases k, 1
  {
    exists j :: 0 <= j < |l| && SameShape(k, l[j])
  }

  lemma {:induction false} ViaAppend<T(!new)>(k: Node<T>, key: string, e: Entry<T>)
    ensures Via(k, k.str + key, e) <==> Stores(k, key, e)
  {
    assert (k.str + key)[|k.str|..] == key;
  }

  /** No node below the root is empty. */
  lemma {:induction false} SomeKey<T(!new)>(k: Node<T>) returns (key: string, e: Entry<T>)
    requires Inner(k)
    ensures k.str <= key && Via(k, key, e)
    decreases k
  {
    if k.val.Some? {
      key, e := k.str, k.val.value;
      assert key[|k.str|..] == [];
    } else {
      assert Inner(k.list[0]);
      var rest;
      rest, e := SomeKey(k.list[0]);
      key := k.str + rest;
      ViaAppend(k, rest, e);
    }
  }

  /** Only the sibling with the key's first character can lead to it. */
  lemma {:induction false} ByFirst<T(!new)>(n: Node<T>, i: nat, key: string, e: Entry<T>)
    requires Wf(n) && i < |n.list| && key != [] && Inner(n.list[i]) && n.list[i].str[0] == key[0]
    ensures Stores(n, key, e) <==> Via(n.list[i], key, e)
  {
    if Stores(n, key, e) {
      var j :| 0 <= j < |n.list| && Via(n.list[j], key, e);
      assert Inner(n.list[j]) && n.list[j].str[0] == key[0];
      assert i == j;
    }
  }

  /** The string into a node is the longest one all keys behind it share. */
  lemma {:induction false} EdgeIsShared<T(!new)>(a: Node<T>, b: Node<T>)
    requires Inner(a) && SameVia(a, b)
    ensures b.str <= a.str
  {
    if a.val.Some? {
      assert a.str[|a.str|..] == [];
      assert Via(a, a.str, a.val.value);
      assert Via(b, a.str, a.val.value);
    } else {
      var p, q := a.list[0], a.list[1];
      assert Inner(p) && Inner(q) && p.str[0] != q.str[0];
      var k1, e1 := SomeKey(p);
      var k2, e2 := SomeKey(q);
      ViaAppend(a, k1, e1);
      ViaAppend(a, k2, e2);
      assert Via(b, a.str + k1, e1) && Via(b, a.str + k2, e2);
      SharedPrefix(a.str, b.str, k1, k2);
    }
  }

  lemma SharedPrefix(a: string, b: string, k1: string, k2: string)
    requires b <= a + k1 && b <= a + k2 && k1 != [] && k2 != [] && k1[0] != k2[0]
    ensures b <= a
  {
    assert (a + k1)[|a|] == k1[0] && (a + k2)[|a|] == k2[0];
    assert forall i :: 0 <= i < |b| ==> b[i] == (a + k1)[i] == a[i];
  }

  /** Every child has a counterpart in a tree with the same contents. */
  lemma {:induction false} Counterpart<T(!new)>(a: Node<T>, b: Node<T>, i: nat) returns (j: nat)
    requires Wf(a) && Wf(b) && SameStores(a, b) && i < |a.list|
    ensures j < |b.list| && a.list[i].str == b.list[j].str && SameStores(a.list[i], b.list[j])
  {
    var p := a.list[i];
    assert Inner(p);
    var key, e := SomeKey(p);
    assert Stores(a, key, e) && Stores(b, key, e);
    j :| 0 <= j < |b.list| && Via(b.list[j], key, e);
    var q := b.list[j];
    assert Inner(q) && q.str[0] == key[0] == p.str[0];
    forall k, f ensures Via(p, k, f) <==> Via(q, k, f) {
      if k != [] && k[0] == p.str[0] {
        ByFirst(a, i, k, f);
        ByFirst(b, j, k, f);
      }
    }
    EdgeIsShared(p, q);
    EdgeIsShared(q, p);
    forall k, f ensures Stores(p, k, f) <==> Stores(q, k, f) {
      ViaAppend(p, k, f);
      ViaAppend(q, k, f);
    }
  }

  lemma {:induction false} Canonical<T(!new)>(a: Node<T>, b: Node<T>)
    requires Wf(a) && Wf(b) && a.str == b.str && SameStores(a, b)
    ensures SameShape(a, b)
    decreases a
  {
    forall e ensures a.val == Some(e) <==> b.val == Some(e) { StoresEmpty(a, e); StoresEmpty(b, e); }
    assert a.val == b.val by {
      if a.val.Some? { assert b.val == Some(a.val.value); } else if b.val.Some? { assert a.val == Some(b.val.value); }
    }
    forall i | 0 <= i < |a.list| ensures Among(a.list[i], b.list) {
      var j := Counterpart(a, b, i);
      assert Inner(a.list[i]) && Inner(b.list[j]);
      Canonical(a.list[i], b.list[j]);
    }
    FewerFirsts(a, b);
    FewerFirsts(b, a);
  }

  ghost function Firsts<T(!new)>(l: seq<Node<T>>): set<char> {
    set i | 0 <= i < |l| && l[i].str != [] :: l[i].str[0]
  }

  lemma {:induction false} FirstsCount<T(!new)>(l: seq<Node<T>>)
    requires Apart(l) && forall i :: 0 <= i < |l| ==> l[i].str != []
    ensures |Firsts(l)| == |l|
  {
    if l != [] {
      var n := |l| - 1;
      FirstsCount(l[..n]);
      assert Firsts(l) == Firsts(l[..n]) + {l[n].str[0]} by {
        assert forall i :: 0 <= i < n ==> l[..n][i] == l[i];
      }
    }
  }

  lemma {:induction false} FewerFirsts<T(!new)>(a: Node<T>, b: Node<T>)
    requires Wf(a) && Wf(b) && SameStores(a, b)
    ensures |a.list| <= |b.list|
  {
    forall i | 0 <= i < |a.list| ensures a.list[i].str != [] { assert Inner(a.list[i]); }
    forall i | 0 <= i < |b.list| ensures b.list[i].str != [] { assert Inner(b.list[i]); }
    forall c | c in Firsts(a.list) ensures c in Firsts(b.list) {
      var i :| 0 <= i < |a.list| && a.list[i].str != [] && a.list[i].str[0] == c;
      var j := Counterpart(a, b, i);
    }
    FirstsCount(a.list);
    FirstsCount(b.list);
    Subset(Firsts(a.list), Firsts(b.list));
  }

  lemma {:induction false} Subset(a: set<char>, b: set<char>)
    requires a <= b
    ensures |a| <= |b|
  {
    if a != {} {
      var c :| c in a;
      Subset(a - {c}, b - {c});
    }
  }

  // ---------------------------------------------------------------- counting

  /** count(): the nodes that hold an object. */
  function Count<T>(n: Node<T>): nat
    decreases n
  {
    (if n.val.Some? then 1 else 0) + CountAll(n.list)
  }

  function CountAll<T>(l: seq<Node<T>>): nat
    decreases l
  {
    if l == [] then 0 else Count(l[0]) + CountAll(l[1..])
  }

  /** All nodes in a list of trees. */
  function Nodes<T>(l: seq<Node<T>>): nat
    decreases l
  {
    if l == [] then 0 else 1 + Nodes(l[0].list) + Nodes(l[1..])
  }

  lemma {:induction false} FewNodes<T(!new)>(l: seq<Node<T>>)
    requires forall i :: 0 <= i < |l| ==> Inner(l[i])
    ensures Nodes(l) + |l| <= 2 * CountAll(l)
    decreases l
  {
    if l != [] {
      var k := l[0];
      assert Inner(k) && Wf(k);
      FewNodes(k.list);
      FewNodes(l[1..]);
    }
  }

  /** The keys below n. */
  ghost function Keys<T(!new)>(n: Node<T>): set<string>
    decreases n
  {
    (if n.val.Some? then {[]} else {}) + KeysAll(n.list)
  }

  ghost function KeysAll<T(!new)>(l: seq<Node<T>>): set<string>
    decreases l
  {
    if l == [] then {} else Prefixed(l[0].str, Keys(l[0])) + KeysAll(l[1..])
  }

  ghost predicate Stored<T(!new)>(n: Node<T>, key: string) { exists e :: Stores(n, key, e) }

  ghost predicate Behind<T(!new)>(k: Node<T>, key: string) { k.str <= key && Stored(k, key[|k.str|..]) }

  ghost predicate BehindAny<T(!new)>(l: seq<Node<T>>, key: string) { exists i :: 0 <= i < |l| && Behind(l[i], key) }

  lemma {:induction false} ViaStored<T(!new)>(k: Node<T>, key: string, e: Entry<T>)
    requires Via(k, key, e)
    ensures Behind(k, key)
  {
    assert Stores(k, key[|k.str|..], e);
  }

  lemma {:induction false} StoredParts<T(!new)>(n: Node<T>, key: string)
    ensures Stored(n, key) <==> (key == [] && n.val.Some?) || BehindAny(n.list, key)
  {
    if Stored(n, key) {
      var e :| Stores(n, key, e);
      if !(key == [] && n.val == Some(e)) {
        var i :| 0 <= i < |n.list| && Via(n.list[i], key, e);
        ViaStored(n.list[i], key, e);
      }
    }
    if key == [] && n.val.Some? { assert Stores(n, key, n.val.value); }
    if BehindAny(n.list, key) {
      var i :| 0 <= i < |n.list| && Behind(n.list[i], key);
      var e :| Stores(n.list[i], key[|n.list[i].str|..], e);
      assert Via(n.list[i], key, e);
      assert Stores(n, key, e);
    }
  }

  lemma {:induction false} KeysExact<T(!new)>(n: Node<T>, key: string)
    ensures key in Keys(n) <==> Stored(n, key)
    decreases n
  {
    KeysAllExact(n.list, key);
    StoredParts(n, key);
  }

  ghost function Prefixed(p: string, s: set<string>): set<string> { set k | k in s :: p + k }

  lemma PrefixedIn(p: string, s: set<string>, key: string)
    ensures key in Prefixed(p, s) <==> p <= key && key[|p|..] in s
  {
    if key in Prefixed(p, s) {
      var k :| k in s && p + k == key;
      assert key[|p|..] == k;
    }
    if p <= key && key[|p|..] in s {
      assert p + key[|p|..] == key;
    }
  }

  lemma {:induction false} KeysAllExact<T(!new)>(l: seq<Node<T>>, key: string)
    ensures key in KeysAll(l) <==> BehindAny(l, key)
    decreases l
  {
    if l != [] {
      KeysAllExact(l[1..], key);
      PrefixedIn(l[0].str, Keys(l[0]), key);
      if l[0].str <= key { KeysExact(l[0], key[|l[0].str|..]); }
      assert forall i :: 0 < i < |l| ==> l[i] == l[1..][i - 1];
    }
  }

  lemma {:induction false} PrefixCount(p: string, s: set<string>)
    ensures |Prefixed(p, s)| == |s|
  {
    if s != {} {
      var x :| x in s;
      var t := s - {x};
      PrefixCount(p, t);
      var image := Prefixed(p, t);
      assert p + x !in image by {
        forall k | k in t ensures p + k != p + x { Cancel(p, k, x); }
      }
      assert Prefixed(p, s) == image + {p + x};
    }
  }

  lemma Cancel(p: string, a: string, b: string)
    ensures p + a == p + b <==> a == b
  {
    assert (p + a)[|p|..] == a && (p + b)[|p|..] == b;
  }

  /** count() is the number of keys stored. */
  lemma {:induction false} CountIsKeys<T(!new)>(n: Node<T>)
    requires Wf(n)
    ensures |Keys(n)| == Count(n)
    decreases n
  {
    CountAllIsKeys(n.list);
    if n.val.Some? {
      forall key | key in KeysAll(n.list) ensures key != [] {
        KeysAllExact(n.list, key);
        var i :| 0 <= i < |n.list| && Behind(n.list[i], key);
        assert Inner(n.list[i]);
      }
    }
  }

  lemma {:induction false} CountAllIsKeys<T(!new)>(l: seq<Node<T>>)
    requires Apart(l) && forall i :: 0 <= i < |l| ==> Inner(l[i])
    ensures |KeysAll(l)| == CountAll(l)
    decreases l
  {
    if l != [] {
      var k := l[0];
      assert Inner(k);
      CountIsKeys(k);
      CountAllIsKeys(l[1..]);
      PrefixCount(k.str, Keys(k));
      forall key | key in KeysAll(l[1..]) ensures key != [] && key[0] != k.str[0] {
        KeysAllExact(l[1..], key);
        var i :| 0 <= i < |l[1..]| && Behind(l[1..][i], key);
        assert Inner(l[i + 1]) && l[i + 1].str[0] != k.str[0];
      }
      var mine := Prefixed(k.str, Keys(k));
      assert forall key :: key in mine ==> key[0] == k.str[0];
      assert mine !! KeysAll(l[1..]);
    }
  }

  /** The tree has fewer than twice as many nodes below the root as keys. */
  lemma {:induction false} NodesBelowTwiceKeys<T(!new)>(n: Node<T>)
    requires Wf(n)
    ensures Keys(n) != {} ==> Nodes(n.list) < 2 * |Keys(n)|
    ensures Keys(n) == {} ==> n.list == [] && n.val == None
  {
    CountIsKeys(n);
    FewNodes(n.list);
    if n.list != [] { assert Nodes(n.list) > 0; }
  }

  // ---------------------------------------------------------------- every history

  datatype Op<T> = InsOp(key: string, e: Entry<T>) | DelOp(key: string)

  function Empty<T>(): Node<T> { Node([], None, []) }

  /** The tree after a history of insertions and deletions, and the map it should be. */
  function Tree<T>(ops: seq<Op<T>>): Node<T> {
    if ops == [] then Empty() else
    var t, op := Tree(ops[..|ops| - 1]), ops[|ops| - 1];
    match op
    case InsOp(key, e) => Ins(t, key, e)
    case DelOp(key) => Del(t, key).0
  }

  function Table<T>(ops: seq<Op<T>>): map<string, Entry<T>> {
    if ops == [] then map[] else
    var m, op := Table(ops[..|ops| - 1]), ops[|ops| - 1];
    match op
    case InsOp(key, e) => m[key := e]
    case DelOp(key) => m - {key}
  }

  function Lookup<T>(m: map<string, Entry<T>>, key: string): Option<Entry<T>> {
    if key in m then Some(m[key]) else None
  }

  /** t is a well-formed tree that stores exactly m. */
  ghost predicate Holds<T(!new)>(t: Node<T>, m: map<string, Entry<T>>) {
    Wf(t) && t.str == [] && forall key, e :: Stores(t, key, e) <==> Lookup(m, key) == Some(e)
  }

  lemma {:induction false} InsRefines<T(!new)>(t: Node<T>, m: map<string, Entry<T>>, key: string, e: Entry<T>)
    requires Holds(t, m)
    ensures Holds(Ins(t, key, e), m[key := e])
  {
    forall k, f ensures Stores(Ins(t, key, e), k, f) <==> Lookup(m[key := e], k) == Some(f) {
      InsExact(t, key, e, k, f);
    }
    InsExact(t, key, e, key, e);
  }

  lemma {:induction false} DelRefines<T(!new)>(t: Node<T>, m: map<string, Entry<T>>, key: string)
    requires Holds(t, m)
    ensures Holds(Del(t, key).0, m - {key}) && Del(t, key).1 == Lookup(m, key)
  {
    forall k, f ensures Stores(Del(t, key).0, k, f) <==> Lookup(m - {key}, k) == Some(f) {
      DelExact(t, key, k, f);
    }
    SearchRefines(t, m, key);
    DelShape(t, key);
  }

  lemma {:induction false} SearchRefines<T(!new)>(t: Node<T>, m: map<string, Entry<T>>, key: string)
    requires Holds(t, m)
    ensures Search(t, key) == Lookup(m, key)
  {
    forall e ensures Search(t, key) == Some(e) <==> Lookup(m, key) == Some(e) {
      SearchExact(t, key, e);
    }
    if Search(t, key).Some? { assert Lookup(m, key) == Some(Search(t, key).value); }
    if Lookup(m, key).Some? { assert Search(t, key) == Some(Lookup(m, key).value); }
  }

  lemma {:induction false} Refines<T(!new)>(ops: seq<Op<T>>)
    ensures Holds(Tree(ops), Table(ops))
  {
    if ops != [] {
      var before, op := ops[..|ops| - 1], ops[|ops| - 1];
      Refines(before);
      if op.InsOp? {
        InsRefines(Tree(before), Table(before), op.key, op.e);
      } else {
        DelRefines(Tree(before), Table(before), op.key);
      }
    }
  }

  /** Whatever the two histories were, equal contents mean equal trees up to sibling order. */
  lemma {:induction false} HistoryIndependent<T(!new)>(a: seq<Op<T>>, b: seq<Op<T>>)
    requires Table(a) == Table(b)
    ensures SameShape(Tree(a), Tree(b))
  {
    Refines(a);
    Refines(b);
    Canonical(Tree(a), Tree(b));
  }

  /** The match-length search on a tree that holds m: the key's own entry, else its longest proper
      prefix with a partial entry, with the length matched; nothing if there is neither. */
  lemma {:induction false} LongestRefines<T(!new)>(t: Node<T>, m: map<string, Entry<T>>, key: string)
    requires Holds(t, m)
    ensures var r := Longest(t, key, 0, Nothing);
      && (key in m ==> r == Reached(m[key], |key|))
      && (key !in m && r.Reached? ==>
        var (e, len) := (r.entry, r.len);
        && len < |key| && key[..len] in m && m[key[..len]] == e && e.partial
        && forall j :: len < j < |key| && key[..j] in m ==> !m[key[..j]].partial)
      && (key !in m && r == Nothing ==> forall j :: 0 <= j < |key| && key[..j] in m ==> !m[key[..j]].partial)
  {
    LongestExact(t, key, 0, Nothing);
    var r := Longest(t, key, 0, Nothing);
    assert key[..|key|] == key;
    assert Best(t, key, 0, Nothing, r);
    if key in m { assert Hit(t, key, |key|, m[key]); }
    forall j | 0 <= j < |key| && key[..j] in m && m[key[..j]].partial ensures r.Reached? && j <= r.len {
      assert Hit(t, key, j, m[key[..j]]);
    }
  }
}
