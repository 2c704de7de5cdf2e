/**
  The two waiting lines as objects: the linked list of stdQueue_, and the buckets with an index that
  the limit semaphore uses in its place.
 */
module WaitQueues {
  import opened Common
  import opened WaitQueue

  class Link {
    const key: int
    const data: nat
    var next: Link?

    constructor (key: int, data: nat, next: Link?)
      ensures this.key == key && this.data == data && this.next == next
    {
      this.key, this.data, this.next := key, data, next;
    }
  }

  ghost predicate Chain(l: seq<Link>)
    reads l
  {
    && (forall i, j :: 0 <= i < j < |l| ==> l[i] != l[j])
    && (forall i {:trigger l[i].next} :: 0 <= i < |l| ==> l[i].next == if i + 1 < |l| then l[i + 1] else null)
  }

  ghost function LineOf(l: seq<Link>): seq<Waiter> { seq(|l|, i requires 0 <= i < |l| => Waiter(l[i].key, l[i].data)) }

  /** stdQueue_: head, tail and count over linked elements. */
  class LinkedQueue {
    var head: Link?
    var tail: Link?
    var count: int
    var insNeq: bool
    ghost var links: seq<Link>

    ghost predicate Valid()
      reads this, links
    {
      && Chain(links) && count == |links|
      && head == (if links == [] then null else links[0])
      && tail == (if links == [] then null else links[|links| - 1])
    }

    ghost function Line(): seq<Waiter>
      reads this
    {
      LineOf(links)
    }

    constructor ()
      ensures Valid() && links == [] && !insNeq
    {
      head, tail, count, insNeq, links := null, null, 0, false, [];
    }

    /** ins(): walk to the place, then link the element in. */
    method Ins(key: int, data: nat)
      requires Valid()
      modifies this, links
      ensures Valid() && insNeq == old(insNeq) && fresh(set x | x in links && x !in old(links))
      ensures Line() == WaitQueue.Ins(old(Line()), Waiter(key, data), insNeq)
    {
      if head != null && key == MAX_INTEGER64 {
        Append(key, data);
      } else if head != null {
        Insert(key, data);
      } else {
        var el := new Link(key, data, null);
        head, tail, links, count := el, el, [el], count + 1;
        assert LineOf([]) == [];
      }
    }

    method Append(key: int, data: nat)
      requires Valid() && head != null
      modifies this, links
      ensures Valid() && insNeq == old(insNeq) && fresh(set x | x in links && x !in old(links))
      ensures Line() == old(Line()) + [Waiter(key, data)]
    {
      var el := new Link(key, data, null);
      tail.next := el;
      tail := el;
      links := links + [el];
      count := count + 1;
    }

    /** The place of a key: the element before it (null at the head) and the one behind it. */
    method FindPlace(key: int) returns (prev: Link?, at: Link?, ghost i: nat)
      requires Valid()
      ensures i == Place(Line(), key, insNeq) <= |links|
      ensures prev == if Place(Line(), key, insNeq) == 0 then null else links[Place(Line(), key, insNeq) - 1]
      ensures at == if Place(Line(), key, insNeq) < |links| then links[Place(Line(), key, insNeq)] else null
    {
      prev, at, i := null, head, 0;
      while at != null
        invariant i <= |links| && prev == (if i == 0 then null else links[i - 1])
        invariant at == (if i < |links| then links[i] else null)
        invariant forall j :: 0 <= j < i ==> !Stops(links[j].key, key, insNeq)
        decreases |links| - i
      {
        if Stops(at.key, key, insNeq) { break; }
        prev, at, i := at, at.next, i + 1;
      }
      PlaceIs(Line(), key, insNeq, i);
    }

    method Insert(key: int, data: nat)
      requires Valid() && head != null
      modifies this, links
      ensures Valid() && insNeq == old(insNeq) && fresh(set x | x in links && x !in old(links))
      ensures Line() == InsAt(old(Line()), Waiter(key, data), insNeq)
    {
      var prev, at, i := FindPlace(key);
      InsAtIsMiddle(Line(), Waiter(key, data), insNeq);
      var el := new Link(key, data, at);
      LineMiddle(links, i, el);
      LinkIn(prev, el, at, i);
    }

    /** Hang a new element between two neighbours. */
    method LinkIn(prev: Link?, el: Link, at: Link?, ghost i: nat)
      requires Valid() && links != [] && i <= |links| && el !in links && el.next == at
      requires prev == (if i == 0 then null else links[i - 1])
      requires at == (if i < |links| then links[i] else null)
      modifies this, links
      ensures Valid() && insNeq == old(insNeq) && links == old(links)[..i] + [el] + old(links)[i..]
    {
      if prev == null { head := el; } else { prev.next := el; }
      if at == null { tail := el; }
      ghost var was := links;
      links := links[..i] + [el] + links[i..];
      count := count + 1;
      forall j {:trigger links[j].next} | 0 <= j < |links| ensures links[j].next == if j + 1 < |links| then links[j + 1] else null {
        assert links[j] == if j < i then was[j] else if j == i then el else was[j - 1];
      }
    }

    /** del() */
    method Del() returns (ret: Option<nat>)
      requires Valid()
      modifies this
      ensures Valid() && insNeq == old(insNeq)
      ensures old(links) == [] ==> ret == None && links == []
      ensures old(links) != [] ==> ret == Some(old(Line())[0].id) && links == old(links)[1..] && Line() == old(Line())[1..]
    {
      if head == null { return None; }
      ret := Some(head.data);
      assert forall j :: 0 <= j < |links[1..]| ==> links[1..][j] == links[j + 1];
      head := head.next;
      links := links[1..];
      if head == null { tail := null; }
      count := count - 1;
    }

    /** check(): the linear scan. */
    method Check(data: nat) returns (found: bool)
      requires Valid()
      ensures found <==> data in Ids(Line())
    {
      var el, i := head, 0;
      while el != null
        invariant i <= |links| && el == (if i < |links| then links[i] else null)
        invariant forall j :: 0 <= j < i ==> links[j].data != data
        decreases |links| - i
      {
        if el.data == data {
          assert Line()[i].id == data;
          return true;
        }
        el, i := el.next, i + 1;
      }
      return false;
    }
  }

  lemma {:induction false} LineMiddle(l: seq<Link>, i: nat, el: Link)
    requires i <= |l|
    ensures LineOf(l[..i] + [el] + l[i..]) == Middle(LineOf(l), i, Waiter(el.key, el.data))
  {
  }

  lemma {:induction false} PlaceIs(l: seq<Waiter>, key: int, neq: bool, i: nat)
    requires i <= |l| && (i < |l| ==> Stops(l[i].key, key, neq)) && forall j :: 0 <= j < i ==> !Stops(l[j].key, key, neq)
    ensures Place(l, key, neq) == i
  {
    if i > 0 { PlaceIs(l[1..], key, neq, i - 1); }
  }

  /** stdLimitSemaphoreWait: buckets by key and an index of who waits. */
  class Buckets {
    var bucket: map<int, seq<nat>>
    var idx: set<nat>
    var count: int
    var insNeq: bool
    ghost var line: seq<Waiter>

    /** The buckets in key order are the line the linked list would hold. */
    ghost predicate Valid()
      reads this
    {
      Sound(line, bucket, idx, count)
    }

    constructor ()
      ensures Valid() && line == [] && !insNeq
    {
      bucket, idx, count, insNeq, line := map[], {}, 0, false, [];
    }

    method WIns(key: int, obj: nat)
      requires Valid() && key <= MAX_INTEGER64 && obj !in idx
      modifies this
      ensures Valid() && insNeq == old(insNeq) && line == WaitQueue.Ins(old(line), Waiter(key, obj), insNeq)
    {
      InsFlat(line, bucket, Waiter(key, obj), insNeq);
      var b := if key in bucket then bucket[key] else [];
      if insNeq || key == MAX_INTEGER64 {
        bucket := bucket[key := b + [obj]];
      } else {
        bucket := bucket[key := [obj] + b];
      }
      idx := idx + {obj};
      count := count + 1;
      line := WaitQueue.Ins(line, Waiter(key, obj), insNeq);
    }

    method WHas(obj: nat) returns (has: bool)
      requires Valid()
      ensures has <==> obj in Ids(line)
    {
      has := obj in idx;
    }

    method WDel() returns (ret: Option<nat>)
      requires Valid()
      modifies this
      ensures Valid() && insNeq == old(insNeq)
      ensures old(line) == [] ==> ret == None && line == []
      ensures old(line) != [] ==> ret == Some(old(line)[0].id) && line == old(line)[1..]
    {
      SmallestKey(line, bucket);
      if bucket == map[] { return None; }
      var k := Begin();
      var front := TakeFront(k);
      ret := Some(front);
    }

    method TakeFront(k: int) returns (front: nat)
      requires Valid() && k in bucket && forall j :: j in bucket ==> k <= j
      modifies this
      ensures Valid() && insNeq == old(insNeq) && old(line) != []
      ensures front == old(line)[0].id && line == old(line)[1..]
    {
      HeadSound(line, bucket, idx, count, k);
      front := bucket[k][0];
      PopFront(k);
      idx := idx - {front};
      count := count - 1;
      line := line[1..];
    }

    /** bucket.begin(): the smallest key. */
    method Begin() returns (k: int)
      requires Valid() && line != []
      ensures k in bucket && forall j :: j in bucket ==> k <= j
    {
      SmallestKey(line, bucket);
      k :| k in bucket && forall j :: j in bucket ==> k <= j;
    }

    method PopFront(k: int)
      requires k in bucket && bucket[k] != []
      modifies this`bucket
      ensures bucket == Pop(old(bucket), k)
    {
      if |bucket[k]| == 1 {
        bucket := bucket - {k};
      } else {
        bucket := bucket[k := bucket[k][1..]];
      }
    }
  }

  /** The first key of the line is the smallest bucket's. */
  lemma {:induction false} SmallestKey(l: seq<Waiter>, b: map<int, seq<nat>>)
    requires Flat(l, b) && forall k :: k in b ==> b[k] != []
    ensures l == [] <==> b == map[]
    ensures l != [] ==> l[0].key in b && forall j :: j in b ==> l[0].key <= j
  {
    if l != [] {
      UnderMember(l, 0);
      forall j | j in b ensures l[0].key <= j {
        var i := UnderSome(l, j);
      }
    } else {
      assert forall k :: Under(l, k) == [];
      assert forall k :: k !in b;
    }
  }

  // ---------------------------------------------------------------- the two in lockstep

  /** The two lines stand where the history of operations put them. */
  ghost predicate InStep(p: LinkedQueue, q: Buckets, at: Played)
    reads p, p.links, q
  {
    p.Valid() && q.Valid() && p.Line() == q.line == at.line && p.insNeq == q.insNeq == at.neq
  }

  method StepIns(p: LinkedQueue, q: Buckets, key: int, id: nat, ghost at: Played)
    requires InStep(p, q, at) && key <= MAX_INTEGER64
    modifies p, q, p.links
    ensures InStep(p, q, Play(at, OpIns(key, id)))
    ensures fresh(set x | x in p.links && x !in old(p.links))
  {
    var has := q.WHas(id);
    if !has {
      p.Ins(key, id);
      q.WIns(key, id);
    }
  }

  method Step(p: LinkedQueue, q: Buckets, op: Op, ghost at: Played) returns (x: Option<nat>, y: Option<nat>)
    requires InStep(p, q, at)
    requires op.OpIns? ==> op.key <= MAX_INTEGER64
    modifies p, q, p.links
    ensures InStep(p, q, Play(at, op)) && Play(at, op).answers == at.answers + [x] == at.answers + [y]
    ensures fresh(set x | x in p.links && x !in old(p.links))
  {
    x, y := None, None;
    match op
    case OpIns(key, id) =>
      StepIns(p, q, key, id, at);
    case OpDel =>
      x := p.Del();
      y := q.WDel();
    case OpHas(id) =>
      var u := p.Check(id);
      var v := q.WHas(id);
      x, y := if u then Some(id) else None, if v then Some(id) else None;
    case OpNeq(v) =>
      p.insNeq := v;
      q.insNeq := v;
  }

  /** Any mix of operations: both lines give the answers that the history gives, and count what it
      leaves waiting. */
  method Lockstep(ops: seq<Op>) returns (a: seq<Option<nat>>, b: seq<Option<nat>>, m: int, n: int)
    requires forall i :: 0 <= i < |ops| && ops[i].OpIns? ==> ops[i].key <= MAX_INTEGER64
    ensures a == b == Replay(ops).answers
    ensures m == n == |Replay(ops).line|
  {
    var p := new LinkedQueue();
    var q := new Buckets();
    a, b := [], [];
    assert LineOf([]) == [];
    for i := 0 to |ops|
      invariant InStep(p, q, Replay(ops[..i])) && a == b == Replay(ops[..i]).answers
      invariant fresh(p) && fresh(q) && fresh(p.links)
    {
      assert ops[..i + 1][..i] == ops[..i];
      var x, y := Step(p, q, ops[i], Replay(ops[..i]));
      a, b := a + [x], b + [y];
    }
    assert ops[..|ops|] == ops;
    m, n := p.count, q.count;
    assert |p.Line()| == |p.links|;
  }
}
