/**
  The lists behind the collector as stdObject.cpp keeps them: one `next` field per object, shared
  by the delete list and the refEvent queue of its bucket, with heads and tails in static arrays.
  Each method is one critical section (or the walk over a detached list) and is proved against the
  step of RefGc it implements.
 */
module StdObjects {
  import G = RefGc

  class StdObject {
    const addr: nat
    var ref: int
    var watch: int
    var next: StdObject?

    constructor (addr: nat)
      ensures this.addr == addr && ref == 1 && watch == -1 && next == null
    {
      this.addr, ref, watch, next := addr, 1, -1, null;
    }
  }

  datatype Kind = Del | Ev

  predicate Distinct(l: seq<StdObject>) {
    forall j, k :: 0 <= j < k < |l| ==> l[j] != l[k]
  }

  /** head and the next fields spell out l, and l ends the chain. */
  ghost predicate Chain(head: StdObject?, l: seq<StdObject>)
    reads l`next
  {
    && head == (if l == [] then null else l[0])
    && forall k {:trigger l[k].next} :: 0 <= k < |l| ==> l[k].next == if k + 1 < |l| then l[k + 1] else null
  }

  function Addrs(l: seq<StdObject>): (r: seq<nat>)
    ensures |r| == |l| && forall k :: 0 <= k < |l| ==> r[k] == l[k].addr
  {
    seq(|l|, k requires 0 <= k < |l| => l[k].addr)
  }

  class Table {
    const refFlags: array<bv8>
    const refList: array<StdObject?>
    const eventHead: array<StdObject?>
    const eventTail: array<StdObject?>
    ghost var dels: seq<seq<StdObject>>
    ghost var evs: seq<seq<StdObject>>
    ghost var place: map<StdObject, (Kind, nat)>   // where each listed object is
    ghost var objs: set<StdObject>    // the objects that are alive and not on their way to deletion
    ghost var armed: set<StdObject>   // those whose drop watch was set
    ghost var fired: set<StdObject>   // those whose drop watch has put them in the refEvent queue

    /** The static arrays and the next fields spell out proper lists. */
    ghost predicate Lists()
      reads this`dels, this`evs, this`place, refFlags, refList, eventHead, eventTail, place.Keys`next
    {
      && refFlags.Length == refList.Length == eventHead.Length == eventTail.Length == G.BUCKETS
      && refList != eventHead && refList != eventTail && eventHead != eventTail
      && refFlags as object !in {refList as object, eventHead, eventTail}
      && |dels| == |evs| == G.BUCKETS
      && forall i :: 0 <= i < G.BUCKETS ==> Listed(i)
    }

    ghost predicate Listed(i: nat)
      requires i < |dels| && i < |evs| && i < refList.Length && i < eventHead.Length && i < eventTail.Length
      reads this`dels, this`evs, this`place, refList, eventHead, eventTail, place.Keys`next
    {
      && (forall o :: o in dels[i] ==> o in place && place[o] == (Del, i))
      && (forall o :: o in evs[i] ==> o in place && place[o] == (Ev, i))
      && Distinct(dels[i]) && Distinct(evs[i])
      && Chain(refList[i], dels[i])
      && Chain(eventHead[i], evs[i])
      && eventTail[i] == (if evs[i] == [] then null else evs[i][|evs[i]| - 1])
    }

    /** What arming at most once gives: the drop watch of a queued object is spent, and the next field of
        an object that is in no list and was never queued is still null. */
    ghost predicate Record()
      reads this, objs
    {
      && place.Keys <= objs && fired <= armed <= objs
      && (forall o :: o in place ==> if place[o].0 == Ev then o in fired else o.ref == 0)
      && (forall o :: o in fired ==> o.watch < 0)
      && (forall o :: o in objs && o.watch >= 0 ==> o in armed)
      && (forall o :: o in objs && o !in place && o !in fired ==> o.next == null)
    }

    ghost predicate Valid()
      reads this, refFlags, refList, eventHead, eventTail, place.Keys`next, objs
    {
      Lists() && Record()
    }

    /** The bucket as the protocol sees it. */
    ghost function View(i: nat): G.Bucket
      requires i < |dels| && i < |evs| && i < refFlags.Length
      reads this`dels, this`evs, refFlags
    {
      G.Bucket(Addrs(dels[i]), Addrs(evs[i]), refFlags[i] & 1 != 0, refFlags[i] & 2 != 0)
    }

    ghost function Views(): (r: seq<G.Bucket>)
      requires Lists()
      reads this`dels, this`evs, this`place, refFlags, refList, eventHead, eventTail, place.Keys`next
      ensures |r| == G.BUCKETS && forall i :: 0 <= i < G.BUCKETS ==> r[i] == View(i)
    {
      var d, e, f := dels, evs, refFlags[..];
      seq(G.BUCKETS, i requires 0 <= i < |d| && i < |e| && i < |f| => G.Bucket(Addrs(d[i]), Addrs(e[i]), f[i] & 1 != 0, f[i] & 2 != 0))
    }

    constructor ()
      ensures Valid() && place == map[] && objs == {} && armed == {} && fired == {}
      ensures forall i :: 0 <= i < G.BUCKETS ==> evs[i] == [] && dels[i] == []
      ensures Views() == G.Initial().buckets
      ensures fresh(refFlags) && fresh(refList) && fresh(eventHead) && fresh(eventTail)
    {
      refFlags := new bv8[G.BUCKETS](_ => 0);
      refList := new StdObject?[G.BUCKETS](_ => null);
      eventHead := new StdObject?[G.BUCKETS](_ => null);
      eventTail := new StdObject?[G.BUCKETS](_ => null);
      dels := seq(G.BUCKETS, _ => []);
      evs := seq(G.BUCKETS, _ => []);
      place := map[];
      objs, armed, fired := {}, {}, {};
      new;
      forall i | 0 <= i < G.BUCKETS ensures Listed(i) {}
    }

    /** A new object comes into use. */
    method Register(o: StdObject)
      requires Valid() && o !in objs && o.next == null && o.watch == -1
      modifies this`objs
      ensures Valid() && objs == old(objs) + {o} && Views() == old(Views())
    {
      objs := objs + {o};
    }

    /** nRefEvent(n), at most once in an object's life. */
    method Arm(o: StdObject, n: nat)
      requires Valid() && o in objs && o !in armed
      modifies this`armed, o`watch
      ensures Valid() && o.watch == n && armed == old(armed) + {o} && Views() == old(Views())
    {
      o.watch := n;
      armed := armed + {o};
    }

    /** The protocol state around one object. */
    ghost function Around(o: StdObject): G.State
      requires Lists()
      reads this`dels, this`evs, this`place, refFlags, refList, eventHead, eventTail, place.Keys`next, o
    {
      G.State(map[o.addr := G.Obj(o.ref, o.watch, 0, false, 0)], Views(), multiset{}, G.Sync(G.Top, 0, G.NotCalled, 0, 0, 0), false)
    }

    /** The pointer writes that append o to the refEvent queue of bucket id.  The new tail's own
        `next` is not among them. */
    method Append(o: StdObject, id: nat)
      requires Lists() && o !in place && id < G.BUCKETS
      modifies eventHead, eventTail, place.Keys`next
      ensures forall i :: 0 <= i < G.BUCKETS && i != id ==> eventHead[i] == old(eventHead[i]) && eventTail[i] == old(eventTail[i])
      ensures eventTail[id] == o && eventHead[id] == (evs[id] + [o])[0]
      ensures forall x :: x in place ==> x.next == if evs[id] != [] && x == evs[id][|evs[id]| - 1] then o else old(x.next)
    {
      assert Listed(id);
      ghost var l := evs[id];
      if eventHead[id] == null {
        eventHead[id], eventTail[id] := o, o;
      } else {
        assert eventTail[id] == l[|l| - 1] && l[|l| - 1] in l;
        eventTail[id].next := o;
        eventTail[id] := o;
      }
    }

    /** Append to the refEvent queue of bucket id.  The queue is right exactly when the new tail's
        `next` was null: a watch armed a second time can break the queue. */
    method Enqueue(o: StdObject, id: nat)
      requires Lists() && o !in place && id < G.BUCKETS
      modifies this`evs, this`place, eventHead, eventTail, place.Keys`next
      ensures place == old(place)[o := (Ev, id)] && evs == old(evs)[id := old(evs)[id] + [o]]
      ensures Lists() <==> o.next == null
    {
      assert Listed(id);
      ghost var l := evs[id];
      Append(o, id);
      evs := evs[id := l + [o]];
      place := place[o := (Ev, id)];
      assert evs[id][|l|] == o;
      if o.next == null {
        forall i | 0 <= i < G.BUCKETS && i != id ensures Listed(i) {
          assert old(Listed(i));
          StillListed(i);
        }
        assert forall k :: 0 <= k < |l| ==> l[k].next == if k < |l| - 1 then old(l[k].next) else o;
        assert Listed(id);
      } else {
        assert !Listed(id);
      }
    }

    /** A bucket whose lists, heads and links were not touched stays in order. */
    twostate lemma StillListed(i: nat)
      requires i < G.BUCKETS && old(Lists()) && old(Listed(i))
      requires |dels| == |evs| == G.BUCKETS && dels[i] == old(dels[i]) && evs[i] == old(evs[i])
      requires refList[i] == old(refList[i]) && eventHead[i] == old(eventHead[i]) && eventTail[i] == old(eventTail[i])
      requires forall x :: x in dels[i] || x in evs[i] ==> x.next == old(x.next) && x in place && place[x] == old(place)[x]
      ensures Listed(i)
    {
    }

    /** Push on the delete list of bucket id. */
    method Doom(o: StdObject, id: nat)
      requires Lists() && o !in place && id < G.BUCKETS
      modifies this`dels, this`place, refList, o`next
      ensures Lists() && place == old(place)[o := (Del, id)]
      ensures dels == old(dels)[id := [o] + old(dels)[id]]
      ensures Views() == old(Views())[id := old(View(id)).(dels := [o.addr] + old(View(id)).dels)]
    {
      assert Listed(id);
      ghost var l := dels[id];
      assert Chain(refList[id], l);
      o.next := refList[id];
      refList[id] := o;
      dels := dels[id := [o] + l];
      place := place[o := (Del, id)];
      forall i | 0 <= i < G.BUCKETS && i != id ensures Listed(i) {
        assert old(Listed(i));
        StillListed(i);
      }
      assert forall x :: x in evs[id] || x in l ==> x.next == old(x.next);
      ghost var d := dels[id];
      forall k | 0 <= k < |d| ensures d[k].next == if k + 1 < |d| then d[k + 1] else null {
        if k > 0 {
          assert d[k] == l[k - 1] && l[k - 1] in l && l[k - 1].next == old(l[k - 1].next);
        }
      }
      assert Listed(id);
      assert Addrs([o] + l) == [o.addr] + Addrs(l);
    }

    /** This release puts the object in a list. */
    ghost predicate Enters(o: StdObject)
      reads o
    {
      0 < o.ref && (o.ref <= o.watch + 1 || o.ref == 1)
    }

    /** relref up to the end of its first critical section.  A release that puts the object in a list
        finds it in none; that `next` is then null follows from arming the watch at most once. */
    method RelrefSection(o: StdObject) returns (r: Outcome)
      requires Valid() && o in objs && (Enters(o) ==> o !in place)
      modifies this`dels, this`evs, this`place, this`fired, refList, eventHead, eventTail, o, place.Keys`next
      ensures Valid()
      ensures place == if r.Quiet? || r.Panic? then old(place) else old(place)[o := (if o.ref == 0 then Del else Ev, G.Home(o.addr))]
      ensures fired == if !(r.Quiet? || r.Panic?) && o.ref != 0 then old(fired) + {o} else old(fired)
      ensures !(r.Quiet? || r.Panic?) <==> old(Enters(o))
      ensures var t := G.Relref(old(Around(o)), o.addr);
              && Views() == t.buckets
              && o.ref == t.objs[o.addr].ref && o.watch == t.objs[o.addr].watch
              && (t.panic <==> r == Panic)
              && (t.climbers == (if r.Climb? then multiset{r.id} else multiset{}))
    {
      var id := o.addr % G.BUCKETS;
      if o.ref == -1 {
        return Quiet;
      }
      if o.ref <= 0 {
        return Panic;
      }
      if o.ref <= o.watch + 1 {
        Fire(o, id);
      } else {
        o.ref := o.ref - 1;
        if o.ref != 0 {
          return Quiet;
        }
        Drop(o, id);
      }
      return if id == 0 then Wake else Climb(id);
    }

    /** The drop watch is spent and the object queued for refEvent. */
    method Fire(o: StdObject, id: nat)
      requires Valid() && o in objs && o !in place && o.watch >= 0 && id < G.BUCKETS
      modifies this`evs, this`place, this`fired, eventHead, eventTail, o`watch, place.Keys`next
      ensures Valid() && place == old(place)[o := (Ev, id)] && fired == old(fired) + {o} && o.watch == -1
      ensures evs == old(evs)[id := old(evs)[id] + [o]]
      ensures Views() == old(Views())[id := old(View(id)).(evs := old(View(id)).evs + [o.addr])]
    {
      o.watch := -1;
      Enqueue(o, id);
      fired := fired + {o};
      assert Addrs(old(evs)[id] + [o]) == Addrs(old(evs)[id]) + [o.addr];
    }

    /** The last reference is gone: the object is listed for deletion. */
    method Drop(o: StdObject, id: nat)
      requires Valid() && o in objs && o !in place && o.ref == 0 && id < G.BUCKETS
      modifies this`dels, this`place, refList, o`next
      ensures Valid() && place == old(place)[o := (Del, id)]
      ensures Views() == old(Views())[id := old(View(id)).(dels := [o.addr] + old(View(id)).dels)]
    {
      Doom(o, id);
    }

    /** Set one of the two bits of refFlags[n]; `was` tells that it was set. */
    method SetFlag(n: nat, left: bool) returns (was: bool)
      requires Lists() && n < G.BUCKETS
      modifies refFlags
      ensures Lists()
      ensures was == old(View(n)).Bit(left)
      ensures Views() == if was then old(Views()) else old(Views())[n := old(View(n)).SetBit(left)]
    {
      var mask: bv8 := if left then 1 else 2;
      if refFlags[n] & mask != 0 {
        return true;
      }
      refFlags[n] := refFlags[n] | mask;
      forall i | 0 <= i < G.BUCKETS ensures Listed(i) {
        assert old(Listed(i));
        StillListed(i);
      }
      return false;
    }

    /** One turn of relref's loop. */
    method ClimbSection(id: nat) returns (r: Outcome)
      requires Lists() && 0 < id < G.BUCKETS
      modifies refFlags
      ensures Lists()
      ensures var s := G.State(map[], old(Views()), multiset{id}, G.Sync(G.Waiting(false), 0, G.NotCalled, 0, 0, 0), false);
              var t := G.Climb(s, id);
              && Views() == t.buckets
              && (r == Wake <==> t.sync.gc == G.Waiting(true))
              && (t.climbers == (if r.Climb? then multiset{r.id} else multiset{}))
      ensures r != Panic && (r.Climb? ==> 0 < r.id < id)
    {
      var nxt := (id - 1) / 2;
      ClimbIs(Views(), id);
      var was := SetFlag(nxt, (id - 1) % 2 == 0);
      if was {
        return Quiet;
      }
      return if nxt == 0 then Wake else Climb(nxt);
    }

    /** The first section again, with what it leaves unreported. */
    method RelrefTop(o: StdObject) returns (r: Outcome)
      requires Valid() && o in objs && (Enters(o) ==> o !in place)
      modifies this`dels, this`evs, this`place, this`fired, refList, eventHead, eventTail, o, place.Keys`next
      ensures Valid() && o.ref == Released(old(o.ref), old(o.watch)) && (r == Panic <==> old(o.ref) <= 0 && old(o.ref) != -1)
      ensures o.watch == if 0 < old(o.ref) <= old(o.watch) + 1 then -1 else old(o.watch)
      ensures place == if old(Enters(o)) then old(place)[o := (if o.ref == 0 then Del else Ev, G.Home(o.addr))] else old(place)
      ensures fired == if old(Enters(o)) && o.ref != 0 then old(fired) + {o} else old(fired)
      ensures r.Climb? ==> 0 < r.id < G.BUCKETS
      ensures Complete(old(Views()), 0) ==> Complete(Views(), if r.Climb? then r.id else 0)
    {
      ghost var s := Around(o);
      r := RelrefSection(o);
      if Complete(s.buckets, 0) { CompleteBut(s, o.addr); }
    }

    /** relref as one thread runs it undisturbed: it ends with every bucket that holds work reported
        upwards, provided that was so before. */
    method Relref(o: StdObject) returns (r: Outcome)
      requires Valid() && o in objs && (Enters(o) ==> o !in place)
      modifies this`dels, this`evs, this`place, this`fired, refFlags, refList, eventHead, eventTail, o, place.Keys`next
      ensures Valid() && !r.Climb?
      ensures o.ref == Released(old(o.ref), old(o.watch)) && (r == Panic <==> old(o.ref) <= 0 && old(o.ref) != -1)
      ensures o.watch == if 0 < old(o.ref) <= old(o.watch) + 1 then -1 else old(o.watch)
      ensures place == if old(Enters(o)) then old(place)[o := (if o.ref == 0 then Del else Ev, G.Home(o.addr))] else old(place)
      ensures fired == if old(Enters(o)) && o.ref != 0 then old(fired) + {o} else old(fired)
      ensures Complete(old(Views()), 0) ==> Complete(Views(), 0)
    {
      r := RelrefTop(o);
      if r.Climb? {
        r := ClimbAll(r.id);
      }
    }

    /** relref's loop. */
    method ClimbAll(start: nat) returns (r: Outcome)
      requires Lists() && 0 < start < G.BUCKETS
      modifies refFlags
      ensures Lists() && (r == Quiet || r == Wake)
      ensures Complete(old(Views()), start) ==> Complete(Views(), 0)
    {
      var id: nat := start;
      while id > 0
        invariant Lists() && id < G.BUCKETS
        invariant Complete(old(Views()), start) ==> Complete(Views(), id)
      {
        ghost var bs := Views();
        r := ClimbSection(id);
        if Complete(bs, id) { CompleteAfter(bs, id); }
        if r == Quiet {
          return;
        }
        id := if r == Wake then 0 else r.id;
      }
      return Wake;
    }

    method DetachDels(id: nat) returns (target: StdObject?, ghost tl: seq<StdObject>)
      requires Lists() && id < G.BUCKETS
      modifies this`dels, this`place, refList
      ensures Lists() && tl == old(dels)[id] && Chain(target, tl) && Distinct(tl)
      ensures place == map x | x in old(place) && x !in tl :: old(place)[x]
      ensures Views() == old(Views())[id := old(View(id)).(dels := [])]
    {
      assert Listed(id);
      target, tl := refList[id], dels[id];
      assert Chain(target, tl);
      refList[id], dels := null, dels[id := []];
      place := map x | x in place && x !in tl :: place[x];
      forall i | 0 <= i < G.BUCKETS ensures Listed(i) {
        assert old(Listed(i));
        if i != id { StillListed(i); }
      }
    }

    method DetachEvs(id: nat) returns (ev: StdObject?, ghost el: seq<StdObject>)
      requires Lists() && id < G.BUCKETS
      modifies this`evs, this`place, eventHead, eventTail
      ensures Lists() && el == old(evs)[id] && Chain(ev, el) && Distinct(el)
      ensures place == map x | x in old(place) && x !in el :: old(place)[x]
      ensures Views() == old(Views())[id := old(View(id)).(evs := [])]
    {
      assert Listed(id);
      ev, el := eventHead[id], evs[id];
      assert Chain(ev, el);
      eventHead[id], eventTail[id], evs := null, null, evs[id := []];
      place := map x | x in place && x !in el :: place[x];
      forall i | 0 <= i < G.BUCKETS ensures Listed(i) {
        assert old(Listed(i));
        if i != id { StillListed(i); }
      }
    }

    method DetachFlags(id: nat) returns (flags: bv8)
      requires Lists() && id < G.BUCKETS
      modifies refFlags
      ensures Lists() && flags == old(refFlags[id])
      ensures Views() == old(Views())[id := old(View(id)).(left := false, right := false)]
    {
      flags := refFlags[id];
      refFlags[id] := 0;
      forall i | 0 <= i < G.BUCKETS ensures Listed(i) {
        assert old(Listed(i));
        StillListed(i);
      }
    }

    /** gc(id), first critical section: detach both lists and the flags. */
    method TakeSection(id: nat) returns (target: StdObject?, ev: StdObject?, flags: bv8, ghost tl: seq<StdObject>, ghost el: seq<StdObject>)
      requires Lists() && id < G.BUCKETS
      modifies this`dels, this`evs, this`place, refFlags, refList, eventHead, eventTail
      ensures Lists() && tl == old(dels)[id] && el == old(evs)[id]
      ensures Chain(target, tl) && Chain(ev, el) && Distinct(tl) && Distinct(el)
      ensures flags == old(refFlags[id])
      ensures place == map x | x in old(place) && x !in tl && x !in el :: old(place)[x]
      ensures (forall x :: x in tl ==> x in old(place) && old(place)[x] == (Del, id)) && (forall x :: x in el ==> x in old(place) && old(place)[x] == (Ev, id))
      ensures Views() == old(Views())[id := G.Bucket([], [], false, false)]
    {
      assert Listed(id);
      target, tl := DetachDels(id);
      flags := DetachFlags(id);
      ev, el := DetachEvs(id);
    }

    /** The same with the record: the objects of the delete list are on their way out, those of the
        refEvent queue are in no list until their owed release. */
    method TakeBucket(id: nat) returns (target: StdObject?, ev: StdObject?, flags: bv8, ghost tl: seq<StdObject>, ghost el: seq<StdObject>)
      requires Valid() && id < G.BUCKETS
      modifies this`dels, this`evs, this`place, this`objs, this`armed, this`fired, refFlags, refList, eventHead, eventTail
      ensures Valid() && tl == old(dels)[id] && el == old(evs)[id]
      ensures Chain(target, tl) && Chain(ev, el) && Distinct(tl) && Distinct(el)
      ensures flags == old(refFlags[id]) && Views() == old(Views())[id := G.Bucket([], [], false, false)]
      ensures (forall x :: x in tl ==> x.ref == 0) && (forall x :: x in el ==> x in fired && x !in place)
      ensures objs == old(objs) - (set x | x in tl) && place.Keys <= old(place.Keys)
    {
      target, ev, flags, tl, el := TakeSection(id);
      ghost var out := set x | x in tl;
      objs, armed, fired := objs - out, armed - out, fired - out;
    }

    /** One turn: the callback, then the owed release. */
    method FireOne(obj: StdObject, bump: nat)
      requires Valid() && obj in fired && obj !in place && obj.ref > 0
      modifies this`dels, this`evs, this`place, this`fired, refFlags, refList, eventHead, eventTail, obj, place.Keys`next
      ensures Valid() && fired == old(fired) && objs == old(objs) && obj.ref == old(obj.ref) + bump - 1
      ensures place == if obj.ref == 0 then old(place)[obj := (Del, G.Home(obj.addr))] else old(place)
      ensures Complete(old(Views()), 0) ==> Complete(Views(), 0)
    {
      obj.ref := obj.ref + bump;
      var _ := Relref(obj);
    }

    /** From the k-th on, the objects of a detached refEvent queue are still linked, in no list, and have
        the counts they came with; those before have had their turn. */
    ghost predicate Turns(l: seq<StdObject>, refs: seq<int>, bumps: seq<nat>, k: nat)
      reads this`place, this`fired, l
    {
      && Distinct(l) && |refs| == |bumps| == |l| && k <= |l|
      && (forall j {:trigger l[j].next} :: k <= j < |l| ==> l[j].next == if j + 1 < |l| then l[j + 1] else null)
      && (forall j :: k <= j < |l| ==> l[j] in fired && l[j] !in place && l[j].ref == refs[j] > 0)
      && (forall j :: 0 <= j < k ==> l[j].ref == refs[j] + bumps[j] - 1 && (l[j] in place <==> l[j].ref == 0))
    }

    ghost function Others(l: seq<StdObject>): set<StdObject>
      reads this`place
    {
      set o | o in place && o !in l
    }

    method FireAt(obj: StdObject, ghost l: seq<StdObject>, ghost refs: seq<int>, bumps: seq<nat>, k: nat)
      requires Valid() && Turns(l, refs, bumps, k) && k < |l| && l[k] == obj
      modifies this`dels, this`evs, this`place, this`fired, refFlags, refList, eventHead, eventTail, obj, place.Keys`next
      ensures Valid() && Turns(l, refs, bumps, k + 1)
      ensures fired == old(fired) && Others(l) == old(Others(l)) && place.Keys <= old(place.Keys) + {obj}
      ensures Complete(old(Views()), 0) ==> Complete(Views(), 0)
    {
      FireOne(obj, bumps[k]);
    }

    /** gc's second loop, undisturbed: every object of the detached queue gets its refEvent, in order,
        and then the release it was owed; a callback may take references (`bumps`).  An object whose
        last reference that was is listed for deletion. */
    method FireAll(head: StdObject?, ghost l: seq<StdObject>, ghost refs: seq<int>, bumps: seq<nat>)
      requires Valid() && Turns(l, refs, bumps, 0) && head == if l == [] then null else l[0]
      modifies this`dels, this`evs, this`place, this`fired, refFlags, refList, eventHead, eventTail, l, place.Keys`next
      ensures Valid() && Turns(l, refs, bumps, |l|)
      ensures fired == old(fired) && Others(l) == old(Others(l))
      ensures Complete(old(Views()), 0) ==> Complete(Views(), 0)
    {
      var ev := head;
      var k := 0;
      while ev != null
        invariant k <= |l| && ev == (if k < |l| then l[k] else null)
        invariant Valid() && Turns(l, refs, bumps, k)
        invariant fired == old(fired) && Others(l) == old(Others(l)) && forall o :: o in place ==> o in old(place) || o in l
        invariant Complete(old(Views()), 0) ==> Complete(Views(), 0)
        decreases |l| - k
      {
        var obj := ev;
        ev := ev.next;
        FireAt(obj, l, refs, bumps, k);
        k := k + 1;
      }
    }
  }

  /** The count after a release: a firing drop watch keeps the reference for the collector to give back. */
  function Released(ref: int, watch: int): int {
    if ref <= 0 || ref <= watch + 1 then ref else ref - 1
  }

  /** Every bucket with work, except possibly `but`, has its bit set in its parent. */
  ghost predicate Complete(bs: seq<G.Bucket>, but: nat) {
    |bs| == G.BUCKETS &&
    forall i :: 0 < i < G.BUCKETS && i != but && !bs[i].Idle() ==> bs[G.Parent(i)].Bit(G.IsLeft(i))
  }

  /** relref's first section leaves at most its own bucket unreported. */
  lemma {:induction false} CompleteBut(s: G.State, o: nat)
    requires s.Shaped() && o in s.objs && s.climbers == multiset{} && Complete(s.buckets, 0)
    ensures Complete(G.Relref(s, o).buckets, G.Home(o))
    ensures G.Relref(s, o).climbers == multiset{} ==> Complete(G.Relref(s, o).buckets, 0)
    ensures forall id :: G.Relref(s, o).climbers == multiset{id} ==> id == G.Home(o)
  {
    var r := G.Relref(s, o);
    RelrefKeepsFlags(s, o);
    forall i | 0 < i < G.BUCKETS && i != G.Home(o) && !r.buckets[i].Idle() ensures r.buckets[G.Parent(i)].Bit(G.IsLeft(i)) {
      assert s.buckets[G.Parent(i)].Bit(G.IsLeft(i));
    }
    assert forall id :: r.climbers == multiset{id} ==> id in r.climbers;
  }

  lemma {:induction false} RelrefKeepsFlags(s: G.State, o: nat)
    requires s.Shaped() && o in s.objs
    ensures var r := G.Relref(s, o);
      && r.Shaped()
      && (forall i :: 0 <= i < G.BUCKETS ==> r.buckets[i].left == s.buckets[i].left && r.buckets[i].right == s.buckets[i].right)
      && (forall i :: 0 <= i < G.BUCKETS && i != G.Home(o) ==> r.buckets[i] == s.buckets[i])
      && (r.climbers == s.climbers && G.Home(o) != 0 ==> r.buckets == s.buckets)
  {
  }

  lemma {:induction false} ClimbIs(bs: seq<G.Bucket>, id: nat)
    requires |bs| == G.BUCKETS && 0 < id < G.BUCKETS
    ensures var s := G.State(map[], bs, multiset{id}, G.Sync(G.Waiting(false), 0, G.NotCalled, 0, 0, 0), false);
            var p, t := (id - 1) / 2, G.Climb(s, id);
            if bs[p].Bit((id - 1) % 2 == 0) then t.buckets == bs && t.climbers == multiset{} && t.sync.gc == G.Waiting(false)
            else
              && t.buckets == bs[p := bs[p].SetBit((id - 1) % 2 == 0)]
              && t.climbers == (if p == 0 then multiset{} else multiset{p})
              && t.sync.gc == G.Waiting(p == 0)
  {
    assert multiset{id} - multiset{id} == multiset{};
  }

  lemma CompleteAfter(bs: seq<G.Bucket>, id: nat)
    requires Complete(bs, id) && 0 < id < G.BUCKETS
    ensures var s := G.State(map[], bs, multiset{id}, G.Sync(G.Waiting(false), 0, G.NotCalled, 0, 0, 0), false);
            var p, t := G.Parent(id), G.Climb(s, id);
            Complete(t.buckets, if bs[p].Bit(G.IsLeft(id)) then 0 else p)
  {
  }

  /** gc's first loop: walk the detached delete list through `next`, reading it before the object
      goes.  Every object on the list is destroyed, in order, and no other. */
  method DeleteAll(head: StdObject?, ghost l: seq<StdObject>) returns (ok: bool, ghost gone: seq<StdObject>)
    requires Chain(head, l) && Distinct(l)
    modifies l
    ensures ok <==> forall o :: o in l ==> old(o.ref) == 0
    ensures ok ==> gone == l && forall o :: o in l ==> o.ref == -1
    ensures gone <= l && forall o :: o in l ==> o.next == old(o.next)
  {
    var target := head;
    gone := [];
    ok := true;
    ghost var k := 0;
    while target != null
      invariant 0 <= k <= |l| && target == (if k < |l| then l[k] else null)
      invariant gone == l[..k]
      invariant forall o :: o in l ==> o.next == old(o.next)
      invariant forall j :: 0 <= j < k ==> old(l[j].ref) == 0 && l[j].ref == -1
      invariant forall j :: k <= j < |l| ==> l[j].ref == old(l[j].ref)
      decreases |l| - k
    {
      var obj := target;
      target := target.next;
      assert l[k].next == old(l[k].next);
      if obj.ref != 0 {
        assert l[k] in l;
        return false, gone;
      }
      obj.ref := -1;
      gone := gone + [obj];
      k := k + 1;
    }
  }

  datatype Outcome = Quiet | Panic | Wake | Climb(id: nat)

  /** An empty table that knows two armed objects of one bucket. */
  method TwoArmed() returns (t: Table, o: StdObject, p: StdObject)
    ensures t.Valid() && t.place == map[] && t.evs[0] == [] && {o, p} <= t.objs && o.watch == p.watch == 0 && o != p
    ensures fresh(t) && fresh(o) && fresh(p) && fresh(t.refFlags) && fresh(t.refList) && fresh(t.eventHead) && fresh(t.eventTail)
  {
    o := new StdObject(0);
    p := new StdObject(101);
    t := new Table();
    t.Register(o);
    t.Register(p);
    t.Arm(o, 0);
    t.Arm(p, 0);
  }

  /** Both are queued for refEvent. */
  method TwoQueued() returns (t: Table, o: StdObject, p: StdObject)
    ensures t.Valid() && t.place.Keys <= {o, p} && t.evs[0] == [o, p] && o.next == p && o != p
    ensures fresh(t) && fresh(o) && fresh(p) && fresh(t.refFlags) && fresh(t.refList) && fresh(t.eventHead) && fresh(t.eventTail)
  {
    t, o, p := TwoArmed();
    t.Fire(o, 0);
    FireSecond(t, o, p);
  }

  method FireSecond(t: Table, o: StdObject, p: StdObject)
    requires t.Valid() && t.place.Keys == {o} && p in t.objs && p !in t.place && p.watch == 0 && t.evs[0] == [o]
    modifies t`evs, t`place, t`fired, t.eventHead, t.eventTail, p`watch, o`next
    ensures t.Valid() && t.place.Keys == {o, p} && t.evs[0] == [o, p] && o.next == p
  {
    t.Fire(p, 0);
    assert t.Listed(0);
    assert t.evs[0][0].next == t.evs[0][1];
  }

  /** Arming twice, as the source permits: o is queued, p behind it, the bucket is taken, and when o's
      watch fires a second time its next still leads to p. */
  method ArmedTwice() returns (t: Table, o: StdObject, p: StdObject)
    ensures !t.Lists() && o.next == p
  {
    t, o, p := TwoQueued();
    var target, ev, flags, tl, el := t.TakeBucket(0);
    assert o in el;
    t.Enqueue(o, 0);
  }

  // ---------------------------------------------------------------- the sections as steps of a run

  /** What relref does depends on the object and its bucket only: in any state of a run that agrees on
      them, the step is the one of the small state a section is proved against. */
  lemma {:induction false} RelrefIsLocal(s: G.State, a: G.State, o: nat)
    requires s.Shaped() && o in s.objs && o in a.objs && a.buckets == s.buckets && a.climbers == multiset{} && !a.panic
    requires s.objs[o].ref == a.objs[o].ref && s.objs[o].watch == a.objs[o].watch
    ensures var s', a' := G.Relref(s, o), G.Relref(a, o);
      && s'.buckets == a'.buckets && s'.climbers == s.climbers + a'.climbers
      && s'.objs[o].ref == a'.objs[o].ref && s'.objs[o].watch == a'.objs[o].watch
      && (s'.panic <==> s.panic || a'.panic)
      && (forall x :: x in s.objs && x != o ==> x in s'.objs && s'.objs[x] == s.objs[x])
  {
  }

  /** In every run, a holder's release that puts the object in a list finds it in none, so the sections
      are never called otherwise; a release of an object that is queued for refEvent is allowed, and
      such an object never enters a second list. */
  lemma EnteringIsUnlisted(acts: seq<G.Action>, o: nat)
    requires G.Enabled(G.Exec(acts), G.Release(o))
    ensures var s := G.Exec(acts);
      var x := s.objs[o];
      0 < x.ref && (x.ref <= x.watch + 1 || x.ref == 1) ==>
        G.Doomed(s, o) == G.Queued(s, o) == G.Firing(s, o) == 0 && (x.ref <= x.watch + 1 ==> x.fired == 0)
  {
    G.InvAlways(acts);
    assert G.ObjOk(G.Exec(acts), o);
  }
}
