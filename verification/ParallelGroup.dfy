/**
  The fork/join group as linked workers: _next leads from the root through the unfinished siblings.
  `chain` is that list; Valid() ties it to the pointers and View() to the steps of Parallel.
 */
module ParallelGroup {
  import opened Common
  import opened Parallel

  class Worker {
    const id: nat
    var next: Worker?
    var body: bool

    constructor (id: nat)
      ensures this.id == id && next == null && !body
    {
      this.id, next, body := id, null, false;
    }
  }

  predicate Apart(l: seq<Worker>) { forall i, j :: 0 <= i < j < |l| ==> l[i] != l[j] && l[i].id != l[j].id }

  ghost predicate Linked(l: seq<Worker>)
    reads l
  {
    forall i {:trigger l[i].next} :: 0 <= i < |l| ==> l[i].next == if i + 1 < |l| then l[i + 1] else null
  }

  lemma {:induction false} ApartAdd(l: seq<Worker>, w: Worker)
    requires l != [] && Apart(l) && forall i :: 0 <= i < |l| ==> l[i].id < w.id
    ensures var r := [l[0], w] + l[1..];
      Apart(r) && forall k :: 0 < k < |r| ==> r[k].id <= w.id && (k > 1 ==> r[k] == l[k - 1])
  {
    var r := [l[0], w] + l[1..];
    assert forall k :: 2 <= k < |r| ==> r[k] == l[k - 1];
  }

  lemma {:induction false} ApartDrop(l: seq<Worker>, i: nat)
    requires i < |l| && Apart(l)
    ensures Apart(l[..i] + l[i + 1..]) && l[i] !in l[..i] + l[i + 1..]
  {
    var r := l[..i] + l[i + 1..];
    assert forall k :: 0 <= k < |r| ==> r[k] == l[if k < i then k else k + 1];
  }

  ghost function IdsOf(l: seq<Worker>): seq<nat> { seq(|l|, i requires 0 <= i < |l| => l[i].id) }

  lemma {:induction false} WithoutAt(l: seq<Worker>, i: nat)
    requires i < |l| && forall j :: 0 <= j < i ==> l[j].id != l[i].id
    ensures Without(IdsOf(l), l[i].id) == IdsOf(l[..i] + l[i + 1..])
  {
    var ids := IdsOf(l);
    if i == 0 {
      assert ids[1..] == IdsOf(l[1..]) && l[..0] + l[1..] == l[1..];
    } else {
      WithoutAt(l[1..], i - 1);
      assert ids[1..] == IdsOf(l[1..]);
      assert l[..i] + l[i + 1..] == [l[0]] + (l[1..][..i - 1] + l[1..][i..]);
      assert IdsOf([l[0]] + (l[1..][..i - 1] + l[1..][i..])) == [l[0].id] + IdsOf(l[1..][..i - 1] + l[1..][i..]);
    }
  }

  class Group {
    const root: Worker
    var org: bool
    var pc: RootPc
    var wakeup: bool
    var sent: nat
    var spawned: nat
    ghost var all: seq<Worker>
    ghost var live: set<nat>
    ghost var empty: set<nat>

    /** `all` is the root followed by the chain. */
    ghost predicate Valid()
      reads this, all
    {
      && all != [] && all[0] == root && root.id == 0 && Apart(all) && Linked(all)
      && forall i :: 0 < i < |all| ==> 0 < all[i].id <= spawned
    }

    ghost function View(): State
      reads this
    {
      State(if all == [] then [] else IdsOf(all[1..]), org, pc, wakeup, sent, live, empty, spawned)
    }

    /** INI_START of the root */
    constructor ()
      ensures Valid() && View() == Initial() && fresh(all)
    {
      var w := new Worker(0);
      root := w;
      org, pc, wakeup, sent, spawned := true, InBody, false, 0, 0;
      all, live, empty := [w], {}, {};
      new;
      root.body := org;
      assert IdsOf(all[1..]) == [];
    }

    /** INI_START of a sibling, the newest worker */
    method IniStart(w: Worker)
      requires Valid() && w !in all && w.id == spawned + 1
      modifies this, root, w
      ensures Valid() && all == [root, w] + old(all)[1..] && View() == Spawn(old(View())) && w.body == org
    {
      w.body := org;
      spawned := spawned + 1;
      live, empty := live + {w.id}, if org then empty else empty + {w.id};
      Join(w);
    }

    method Join(w: Worker)
      requires all != [] && all[0] == root && Apart(all) && Linked(all) && w !in all
      requires forall i :: 0 <= i < |all| ==> all[i].id < w.id && (i > 0 ==> 0 < all[i].id)
      modifies this`all, root, w
      ensures all == [root, w] + old(all)[1..] && Linked(all) && Apart(all) && w.body == old(w.body)
      ensures IdsOf(all[1..]) == [w.id] + IdsOf(old(all)[1..])
      ensures forall i :: 0 < i < |all| ==> 0 < all[i].id <= w.id
    {
      ApartAdd(all, w);
      SecondAdded(all, w, [root, w] + all[1..]);
      LinkFirst(w);
    }

    /** Put w in front of the chain. */
    method LinkFirst(w: Worker)
      requires all != [] && all[0] == root && Apart(all) && Linked(all) && w !in all
      modifies this`all, root, w
      ensures all == [root, w] + old(all)[1..] && Linked(all) && w.body == old(w.body)
    {
      ghost var was := all;
      w.next := root.next;
      root.next := w;
      all := [root, w] + was[1..];
      forall i {:trigger all[i].next} | 0 <= i < |all| ensures all[i].next == if i + 1 < |all| then all[i + 1] else null {
        if i >= 2 { assert all[i] == was[i - 1]; }
      }
    }

    /** FIN_START of the root: wait for the chain to empty, then drop the body and answer. */
    method FinStartRoot()
      requires Valid()
      modifies this, root
      ensures Valid() && all == old(all) && View() == RootFin(old(View())) && !root.body
    {
      root.body := false;
      if root.next != null {
        pc := Waiting;
        return;
      }
      org := false;
      sent := sent + 1;
      pc := Finished;
    }

    /** The walk to the pointer that leads to w. */
    method Before(w: Worker, ghost i: nat) returns (p: Worker)
      requires Valid() && 0 < i < |all| && all[i] == w
      ensures p == all[i - 1]
    {
      p := root;
      ghost var k := 0;
      while p.next != w
        invariant 0 <= k < i && p == all[k]
        decreases i - k
      {
        p, k := p.next, k + 1;
      }
    }

    /** FIN_START of a sibling: unlink it; the last one wakes the root. */
    method FinStart(w: Worker, ghost i: nat)
      requires Valid() && 0 < i < |all| && all[i] == w
      modifies this, all
      ensures Valid() && all == old(all)[..i] + old(all)[i + 1..] && View() == SiblingFin(old(View()), w.id)
      ensures w.next == null && !w.body
    {
      w.body := false;
      var p := Before(w, i);
      ApartDrop(all, i);
      WithoutTail(all, i);
      Unlink(p, w, i);
      live := live - {w.id};
      if root.next == null { wakeup := true; }
    }

    /** Lead the pointer past w. */
    method Unlink(p: Worker, w: Worker, ghost i: nat)
      requires Apart(all) && Linked(all) && 0 < i < |all| && all[i] == w && all[i - 1] == p
      modifies this`all, p, w
      ensures all == old(all)[..i] + old(all)[i + 1..] && Linked(all) && w.next == null && w.body == old(w.body)
    {
      ghost var was := all;
      p.next := w.next;
      w.next := null;
      all := was[..i] + was[i + 1..];
      forall k {:trigger all[k].next} | 0 <= k < |all| ensures all[k].next == if k + 1 < |all| then all[k + 1] else null {
        assert all[k] == was[if k < i then k else k + 1];
      }
    }

    /** An event reaches the root. */
    method RootEvent(wake: bool)
      requires Valid() && (wake ==> wakeup)
      modifies this, root
      ensures Valid() && all == old(all) && View() == Next(old(View()), Parallel.RootEvent(wake))
    {
      if wake { wakeup := false; }
      if pc == Waiting { FinStartRoot(); }
    }
  }

  lemma {:induction false} WithoutTail(l: seq<Worker>, i: nat)
    requires 0 < i < |l| && Apart(l)
    ensures var r := l[..i] + l[i + 1..]; r != [] && IdsOf(r[1..]) == Without(IdsOf(l[1..]), l[i].id)
  {
    var r := l[..i] + l[i + 1..];
    WithoutAt(l[1..], i - 1);
    assert r[1..] == l[1..][..i - 1] + l[1..][i..];
  }

  lemma {:induction false} SecondAdded(was: seq<Worker>, w: Worker, all: seq<Worker>)
    requires was != [] && all == [was[0], w] + was[1..]
    ensures IdsOf(all[1..]) == [w.id] + IdsOf(was[1..])
  {
    assert all[1..] == [w] + was[1..];
  }
}
