/**
  The waiting line of the limit semaphore.  The reference is the linked list of stdQueue_ with its
  insertion in key order; the semaphore keeps buckets by key and an index of who waits instead.
 */
module WaitQueue {
  import opened Common

  const MAX_INTEGER64: int := 0x7fff_ffff_ffff_ffff

  /** One element of the line: its key and the waiting object. */
  datatype Waiter = Waiter(key: int, id: nat)

  // ---------------------------------------------------------------- the reference line

  /** stdQueue_::ins stops in front of an element with key k when it inserts `key`. */
  predicate Stops(k: int, key: int, neq: bool) { if neq then k > key else k >= key }

  function InsAt(l: seq<Waiter>, w: Waiter, neq: bool): seq<Waiter> {
    if l == [] || Stops(l[0].key, w.key, neq) then [w] + l else [l[0]] + InsAt(l[1..], w, neq)
  }

  /** stdQueue_::ins: the largest key goes to the tail without looking. */
  function Ins(l: seq<Waiter>, w: Waiter, neq: bool): seq<Waiter> {
    if w.key == MAX_INTEGER64 then l + [w] else InsAt(l, w, neq)
  }

  predicate Sorted(l: seq<Waiter>) {
    (forall i, j :: 0 <= i < j < |l| ==> l[i].key <= l[j].key) && forall i :: 0 <= i < |l| ==> l[i].key <= MAX_INTEGER64
  }

  predicate Distinct(l: seq<Waiter>) { forall i, j :: 0 <= i < j < |l| ==> l[i].id != l[j].id }

  ghost function Ids(l: seq<Waiter>): set<nat> { set i | 0 <= i < |l| :: l[i].id }

  /** Those who wait under one key, in order. */
  function Under(l: seq<Waiter>, key: int): seq<nat> {
    if l == [] then [] else (if l[0].key == key then [l[0].id] else []) + Under(l[1..], key)
  }

  // ---------------------------------------------------------------- buckets that flatten to a line

  ghost predicate Flat(l: seq<Waiter>, b: map<int, seq<nat>>) {
    Sorted(l) && forall k :: Under(l, k) == if k in b then b[k] else []
  }

  lemma {:induction false} UnderMember(l: seq<Waiter>, i: nat)
    requires i < |l|
    ensures Under(l, l[i].key) != []
  {
    if i > 0 { UnderMember(l[1..], i - 1); }
  }

  lemma {:induction false} UnderNone(l: seq<Waiter>, key: int)
    requires forall i :: 0 <= i < |l| ==> l[i].key != key
    ensures Under(l, key) == []
  {
    if l != [] { UnderNone(l[1..], key); }
  }

  lemma {:induction false} UnderSome(l: seq<Waiter>, key: int) returns (i: nat)
    requires Under(l, key) != []
    ensures i < |l| && l[i].key == key
  {
    if l[0].key == key { i := 0; } else { i := UnderSome(l[1..], key); i := i + 1; }
  }

  lemma {:induction false} UnderTail(l: seq<Waiter>, key: int)
    requires l != []
    ensures l[0].key == key ==> Under(l, key) == [l[0].id] + Under(l[1..], key) && Under(l, key)[1..] == Under(l[1..], key)
    ensures l[0].key != key ==> Under(l, key) == Under(l[1..], key)
  {
  }

  lemma {:induction false} SameHead(a: seq<Waiter>, b: seq<Waiter>)
    requires a != [] && b != [] && Sorted(a) && Sorted(b)
    requires Under(a, a[0].key) == Under(b, a[0].key) && Under(a, b[0].key) == Under(b, b[0].key)
    ensures a[0] == b[0]
  {
    UnderMember(a, 0);
    UnderMember(b, 0);
    var j := UnderSome(b, a[0].key);
    var i := UnderSome(a, b[0].key);
    assert a[0].key == b[0].key;
    assert a[0].id == Under(a, a[0].key)[0] == b[0].id;
  }

  lemma {:induction false} SameTails(a: seq<Waiter>, b: seq<Waiter>)
    requires a != [] && b != [] && a[0] == b[0] && forall k :: Under(a, k) == Under(b, k)
    ensures forall k :: Under(a[1..], k) == Under(b[1..], k)
  {
    forall k ensures Under(a[1..], k) == Under(b[1..], k) {
      UnderTail(a, k);
      UnderTail(b, k);
    }
  }

  /** There is only one line in key order with given buckets. */
  lemma {:induction false} FlatUnique(a: seq<Waiter>, b: seq<Waiter>)
    requires Sorted(a) && Sorted(b) && forall k :: Under(a, k) == Under(b, k)
    ensures a == b
  {
    if a != [] { UnderMember(a, 0); }
    if b != [] { UnderMember(b, 0); }
    if a != [] && b != [] {
      SameHead(a, b);
      SameTails(a, b);
      FlatUnique(a[1..], b[1..]);
      assert a == [a[0]] + a[1..] && b == [b[0]] + b[1..];
    }
  }

  /** Appending at the tail is insertion after all equal keys. */
  lemma {:induction false} TailIsLast(l: seq<Waiter>, w: Waiter)
    requires w.key == MAX_INTEGER64 && Sorted(l)
    ensures l + [w] == InsAt(l, w, true)
  {
    if l != [] {
      TailIsLast(l[1..], w);
      assert l + [w] == [l[0]] + (l[1..] + [w]);
    }
  }

  /** Where the insertion loop stops. */
  function Place(l: seq<Waiter>, key: int, neq: bool): (i: nat)
    ensures i <= |l| && (i < |l| ==> Stops(l[i].key, key, neq)) && forall j :: 0 <= j < i ==> !Stops(l[j].key, key, neq)
  {
    if l == [] || Stops(l[0].key, key, neq) then 0 else 1 + Place(l[1..], key, neq)
  }

  function Middle(l: seq<Waiter>, i: nat, w: Waiter): seq<Waiter>
    requires i <= |l|
  {
    l[..i] + [w] + l[i..]
  }

  lemma {:induction false} InsAtIsMiddle(l: seq<Waiter>, w: Waiter, neq: bool)
    ensures InsAt(l, w, neq) == Middle(l, Place(l, w.key, neq), w)
  {
    if l == [] || Stops(l[0].key, w.key, neq) {
      assert l[..0] + [w] + l[0..] == [w] + l;
    } else {
      InsAtIsMiddle(l[1..], w, neq);
      var i := Place(l[1..], w.key, neq);
      assert [l[0]] + (l[1..][..i] + [w] + l[1..][i..]) == l[..i + 1] + [w] + l[i + 1..];
    }
  }

  lemma {:induction false} MiddleKeeps(l: seq<Waiter>, i: nat, w: Waiter)
    requires i <= |l|
    ensures Ids(Middle(l, i, w)) == Ids(l) + {w.id}
    ensures Distinct(l) && w.id !in Ids(l) ==> Distinct(Middle(l, i, w))
  {
    var r := Middle(l, i, w);
    assert forall j :: 0 <= j < |r| ==> r[j] == if j < i then l[j] else if j == i then w else l[j - 1];
    forall x | x in Ids(l) ensures x in Ids(r) {
      var j :| 0 <= j < |l| && l[j].id == x;
      assert r[if j < i then j else j + 1].id == x;
    }
    assert r[i].id == w.id;
  }

  lemma {:induction false} MiddleSorted(l: seq<Waiter>, i: nat, w: Waiter)
    requires i <= |l| && Sorted(l) && w.key <= MAX_INTEGER64
    requires forall j :: 0 <= j < i ==> l[j].key <= w.key
    requires i < |l| ==> w.key <= l[i].key
    ensures Sorted(Middle(l, i, w))
  {
    var r := Middle(l, i, w);
    assert forall j :: 0 <= j < |r| ==> r[j] == if j < i then l[j] else if j == i then w else l[j - 1];
    forall j, k | 0 <= j < k < |r| ensures r[j].key <= r[k].key {
      if j == i { assert l[i].key <= l[k - 1].key; }
    }
  }

  lemma {:induction false} InsAtKeeps(l: seq<Waiter>, w: Waiter, neq: bool)
    requires Sorted(l) && w.key <= MAX_INTEGER64
    ensures var r := InsAt(l, w, neq);
      Sorted(r) && |r| == |l| + 1 && Ids(r) == Ids(l) + {w.id} && (Distinct(l) && w.id !in Ids(l) ==> Distinct(r))
  {
    var i := Place(l, w.key, neq);
    InsAtIsMiddle(l, w, neq);
    MiddleKeeps(l, i, w);
    MiddleSorted(l, i, w);
  }

  lemma {:induction false} UnderInsAt(l: seq<Waiter>, w: Waiter, neq: bool, k: int)
    requires Sorted(l)
    ensures Under(InsAt(l, w, neq), k) ==
      if k != w.key then Under(l, k) else if neq then Under(l, k) + [w.id] else [w.id] + Under(l, k)
  {
    if l == [] || Stops(l[0].key, w.key, neq) {
      assert ([w] + l)[1..] == l;
      if neq { UnderNone(l, w.key); }
    } else {
      UnderInsAt(l[1..], w, neq, k);
      var r := InsAt(l[1..], w, neq);
      assert ([l[0]] + r)[1..] == r;
    }
  }

  /** What inserting does to the line and to the buckets it flattens from. */
  lemma {:induction false} InsFlat(l: seq<Waiter>, b: map<int, seq<nat>>, w: Waiter, neq: bool)
    requires Flat(l, b) && w.key <= MAX_INTEGER64 && Distinct(l) && w.id !in Ids(l)
    ensures var was := if w.key in b then b[w.key] else [];
      var b' := b[w.key := if neq || w.key == MAX_INTEGER64 then was + [w.id] else [w.id] + was];
      var r := Ins(l, w, neq);
      Flat(r, b') && Distinct(r) && Ids(r) == Ids(l) + {w.id} && |r| == |l| + 1
  {
    if w.key == MAX_INTEGER64 { TailIsLast(l, w); }
    var late := neq || w.key == MAX_INTEGER64;
    assert Ins(l, w, neq) == InsAt(l, w, late);
    InsAtKeeps(l, w, late);
    forall k ensures Under(InsAt(l, w, late), k) ==
      if k != w.key then Under(l, k) else if late then Under(l, k) + [w.id] else [w.id] + Under(l, k)
    {
      UnderInsAt(l, w, late, k);
    }
  }

  /** The buckets after taking the front of bucket k; an empty bucket goes. */
  function Pop(b: map<int, seq<nat>>, k: int): (r: map<int, seq<nat>>)
    requires k in b && b[k] != []
    ensures (forall j :: j in b ==> b[j] != []) ==> forall j :: j in r ==> r[j] != []
  {
    if |b[k]| == 1 then b - {k} else b[k := b[k][1..]]
  }

  lemma {:induction false} HeadIs(l: seq<Waiter>, b: map<int, seq<nat>>, k: int)
    requires Flat(l, b) && k in b && (forall j :: j in b ==> b[j] != []) && (forall j :: j in b ==> k <= j)
    ensures l != [] && l[0] == Waiter(k, b[k][0]) && Under(l[1..], k) == b[k][1..]
  {
    var i := UnderSome(l, k);
    UnderMember(l, 0);
    assert l[0].key in b && l[0].key == k;
    UnderTail(l, k);
  }

  lemma {:induction false} TailIds(l: seq<Waiter>)
    requires l != [] && Distinct(l) && Sorted(l)
    ensures Sorted(l[1..]) && Distinct(l[1..]) && Ids(l[1..]) == Ids(l) - {l[0].id}
  {
    var r := l[1..];
    assert forall j :: 0 < j < |l| ==> l[j] == r[j - 1];
  }

  /** The head of the line is the front of the bucket with the smallest key. */
  lemma {:induction false} HeadFlat(l: seq<Waiter>, b: map<int, seq<nat>>, k: int)
    requires Flat(l, b) && Distinct(l) && k in b && (forall j :: j in b ==> b[j] != []) && (forall j :: j in b ==> k <= j)
    ensures l != [] && l[0] == Waiter(k, b[k][0])
    ensures Flat(l[1..], Pop(b, k))
    ensures Distinct(l[1..]) && Ids(l[1..]) == Ids(l) - {l[0].id}
  {
    HeadIs(l, b, k);
    TailIds(l);
    forall j ensures Under(l[1..], j) == if j in Pop(b, k) then Pop(b, k)[j] else [] {
      UnderTail(l, j);
    }
  }

  /** Buckets, index and count stand for the line. */
  ghost predicate Sound(l: seq<Waiter>, b: map<int, seq<nat>>, idx: set<nat>, count: int) {
    Flat(l, b) && Distinct(l) && (forall k :: k in b ==> b[k] != []) && idx == Ids(l) && count == |l|
  }

  lemma {:induction false} HeadSound(l: seq<Waiter>, b: map<int, seq<nat>>, idx: set<nat>, count: int, k: int)
    requires Sound(l, b, idx, count) && k in b && forall j :: j in b ==> k <= j
    ensures l != [] && b[k] != [] && l[0].id == b[k][0] && Sound(l[1..], Pop(b, k), idx - {b[k][0]}, count - 1)
  {
    HeadFlat(l, b, k);
  }

  // ---------------------------------------------------------------- what a history of operations does

  datatype Op = OpIns(key: int, id: nat) | OpDel | OpHas(id: nat) | OpNeq(v: bool)

  /** The line and insNeq after some operations, and what each operation answered. */
  datatype Played = Played(line: seq<Waiter>, neq: bool, answers: seq<Option<nat>>)

  /** One operation on the line: nobody is inserted twice, the head leaves, membership, insNeq. */
  ghost function Play(p: Played, op: Op): Played {
    match op
    case OpIns(key, id) =>
      p.(line := if id in Ids(p.line) then p.line else Ins(p.line, Waiter(key, id), p.neq), answers := p.answers + [None])
    case OpDel =>
      if p.line == [] then p.(answers := p.answers + [None])
      else p.(line := p.line[1..], answers := p.answers + [Some(p.line[0].id)])
    case OpHas(id) => p.(answers := p.answers + [if id in Ids(p.line) then Some(id) else None])
    case OpNeq(v) => p.(neq := v, answers := p.answers + [None])
  }

  ghost function Replay(ops: seq<Op>): Played {
    if ops == [] then Played([], false, []) else Play(Replay(ops[..|ops| - 1]), ops[|ops| - 1])
  }
}
