/**
  stdMutex: a read/write lock whose waiters yield.  count is the number of readers, or -1 under a
  writer.  Freeing the lock wakes and unqueues everyone who waits.
 */
module RwLock {
  import opened Common
  import opened WaitQueue
  import opened WaitQueues

  datatype Kind = Read | Write

  /** kinds: what each queued caller asked for when it was queued.  readers, writer: who holds.
      woken: everyone ever woken, in order. */
  datatype State = State(
    count: int, wait: seq<nat>,
    kinds: map<nat, Kind>, readers: multiset<nat>, writer: Option<nat>, woken: seq<nat>)

  function Initial(): State { State(0, [], map[], multiset{}, None, []) }

  function Queue(s: State, c: nat, kind: Kind): State {
    if c in s.wait then s else s.(wait := s.wait + [c], kinds := s.kinds[c := kind])
  }

  predicate Grants(s: State, kind: Kind) { if kind == Read then s.count >= 0 else s.count == 0 }

  function Lock(s: State, c: nat, kind: Kind): State {
    if !Grants(s, kind) then Queue(s, c, kind)
    else if kind == Read then s.(count := s.count + 1, readers := s.readers + multiset{c})
    else s.(count := -1, writer := Some(c))
  }

  /** The lock is free: everybody is woken. */
  function Freed(s: State): State {
    s.(count := 0, wait := [], kinds := map[], woken := s.woken + s.wait)
  }

  function Unlock(s: State, c: nat): State {
    if s.count == 0 then s
    else if s.count < 0 then Freed(s.(writer := None))
    else
      var s' := s.(count := s.count - 1, readers := s.readers - multiset{c});
      if s'.count != 0 then s' else Freed(s')
  }

  datatype Action = DoLock(c: nat, kind: Kind) | DoRelease(c: nat)

  /** Only a holder releases (releasing a free lock is harmless). */
  predicate Enabled(s: State, a: Action) {
    a.DoRelease? ==> s.count == 0 || s.writer == Some(a.c) || a.c in s.readers
  }

  function Next(s: State, a: Action): State {
    match a
    case DoLock(c, kind) => Lock(s, c, kind)
    case DoRelease(c) => Unlock(s, c)
  }

  function Exec(acts: seq<Action>): State {
    if acts == [] then Initial()
    else
      var s := Exec(acts[..|acts| - 1]);
      if Enabled(s, acts[|acts| - 1]) then Next(s, acts[|acts| - 1]) else s
  }

  // ---------------------------------------------------------------- what every call keeps

  ghost predicate Inv(s: State) {
    && (if s.writer.Some? then s.count == -1 && s.readers == multiset{} else s.count == |s.readers|)
    && (s.wait != [] ==> s.count != 0)
    && (forall c :: c in s.wait ==> c in s.kinds && (s.kinds[c] == Read ==> s.count == -1))
    && (forall i, j :: 0 <= i < j < |s.wait| ==> s.wait[i] != s.wait[j])
  }

  lemma {:induction false} QueueKeeps(s: State, c: nat, kind: Kind)
    requires Inv(s) && !Grants(s, kind)
    ensures Inv(Queue(s, c, kind))
  {
  }

  lemma {:induction false} UnlockKeeps(s: State, c: nat)
    requires Inv(s) && Enabled(s, DoRelease(c))
    ensures Inv(Unlock(s, c))
  {
  }

  lemma {:induction false} StepKeeps(s: State, a: Action)
    requires Inv(s) && Enabled(s, a)
    ensures Inv(Next(s, a))
  {
    if a.DoRelease? {
      UnlockKeeps(s, a.c);
    } else if !Grants(s, a.kind) {
      QueueKeeps(s, a.c, a.kind);
    }
  }

  lemma {:induction false} Always(acts: seq<Action>)
    ensures Inv(Exec(acts))
  {
    if acts != [] {
      Always(acts[..|acts| - 1]);
      var s, a := Exec(acts[..|acts| - 1]), acts[|acts| - 1];
      if Enabled(s, a) { StepKeeps(s, a); }
    }
  }

  /** A writer excludes everyone; readers exclude writers; callers wait only while the lock is held. */
  lemma {:induction false} Exclusion(acts: seq<Action>)
    ensures var s := Exec(acts);
      && (s.writer.Some? ==> s.readers == multiset{} && s.count == -1)
      && (s.readers != multiset{} ==> s.writer == None && s.count == |s.readers|)
      && (s.wait != [] ==> s.writer.Some? || s.readers != multiset{})
  {
    Always(acts);
  }

  /** A queued caller that calls again for what it was queued for gets nothing and changes nothing; a
      call by a queued caller is granted exactly when it is a read under readers, and then it was
      queued as a writer. */
  lemma {:induction false} QueuedCannotAcquire(acts: seq<Action>, c: nat, kind: Kind)
    requires c in Exec(acts).wait
    ensures var s := Exec(acts);
      && c in s.kinds
      && (s.kinds[c] == kind ==> Lock(s, c, kind) == s)
      && (Grants(s, kind) <==> kind == Read && s.count > 0)
      && (Grants(s, kind) ==> s.kinds[c] == Write)
  {
    Always(acts);
  }

  /** Such a run: 1 is queued for writing behind the reader 0, then asks to read and is granted, and its
      entry stays in the queue of a lock it holds. */
  lemma {:induction false} QueuedWriterReads()
    ensures var s := Exec([DoLock(0, Read), DoLock(1, Write), DoLock(1, Read)]);
      s.count == 2 && s.readers == multiset{0, 1} && s.wait == [1] && s.kinds == map[1 := Write]
  {
    var a, b, c := DoLock(0, Read), DoLock(1, Write), DoLock(1, Read);
    assert [a, b, c][..2] == [a, b] && [a, b][..1] == [a] && [a][..0] == [];
    assert Exec([a]) == Next(Initial(), a);
    assert Exec([a, b]) == Next(Exec([a]), b);
    assert Exec([a, b, c]) == Next(Exec([a, b]), c);
  }

  /** Whenever the lock comes free, all who waited have been woken, in order. */
  lemma {:induction false} FreeingWakesAll(acts: seq<Action>, c: nat)
    requires Enabled(Exec(acts), DoRelease(c))
    ensures var s, t := Exec(acts), Unlock(Exec(acts), c);
      t.count == 0 ==> t.wait == [] && t.woken == s.woken + s.wait && t.writer == None && t.readers == multiset{}
  {
    Always(acts);
  }

  // ---------------------------------------------------------------- what a call does for its caller

  lemma {:induction false} ExecSnoc(acts: seq<Action>, a: Action)
    ensures Exec(acts + [a]) == if Enabled(Exec(acts), a) then Next(Exec(acts), a) else Exec(acts)
  {
    assert (acts + [a])[..|acts|] == acts;
  }

  /** c holds the lock, as its writer or as one of its readers. */
  predicate Holds(s: State, c: nat) { s.writer == Some(c) || c in s.readers }

  predicate Free(s: State) { s.writer == None && s.readers == multiset{} }

  /** Nobody waits any more: those who did have been woken, in the order they came. */
  predicate AllWoken(s: State, t: State) { t.wait == [] && t.woken == s.woken + s.wait }

  /** In every run, a holder's release gives up exactly one hold.  When that was the last, the lock is
      free and everyone who waited has been woken; until then nobody is. */
  lemma {:induction false} ReleaseFrees(acts: seq<Action>, c: nat)
    requires Holds(Exec(acts), c)
    ensures var s, t := Exec(acts), Exec(acts + [DoRelease(c)]);
      && (s.writer == Some(c) ==> Free(t) && t.count == 0 && AllWoken(s, t))
      && (s.writer != Some(c) ==> t.writer == None && t.readers == s.readers - multiset{c} && t.count == |t.readers|)
      && (if Free(t) then AllWoken(s, t) else t.wait == s.wait && t.woken == s.woken)
  {
    Always(acts);
    ExecSnoc(acts, DoRelease(c));
  }

  /** A read is granted exactly when there is no writer, a write exactly when the lock is free; the caller
      then holds it, and the other holders go on.  A caller that is refused holds nothing new and waits,
      behind those who waited before, once. */
  lemma {:induction false} LockGrants(acts: seq<Action>, c: nat, kind: Kind)
    ensures var s, t := Exec(acts), Exec(acts + [DoLock(c, kind)]);
      if (if kind == Read then s.writer == None else Free(s)) then
        && (kind == Read ==> t.readers == s.readers + multiset{c} && t.writer == None)
        && (kind == Write ==> t.writer == Some(c) && t.readers == multiset{})
        && t.wait == s.wait && t.woken == s.woken
      else
        && t.writer == s.writer && t.readers == s.readers && t.woken == s.woken
        && t.wait == if c in s.wait then s.wait else s.wait + [c]
  {
    Always(acts);
    ExecSnoc(acts, DoLock(c, kind));
  }

  /** The holders release one after the other, in any order that lists each as often as it holds. */
  function Releases(cs: seq<nat>): seq<Action> {
    seq(|cs|, i requires 0 <= i < |cs| => DoRelease(cs[i]))
  }

  ghost function Holders(s: State): multiset<nat> {
    s.readers + if s.writer.Some? then multiset{s.writer.value} else multiset{}
  }

  lemma {:induction false} OneHoldFewer(acts: seq<Action>, c: nat)
    requires c in Holders(Exec(acts))
    ensures Holders(Exec(acts + [DoRelease(c)])) == Holders(Exec(acts)) - multiset{c}
  {
    Always(acts);
    ReleaseFrees(acts, c);
    var s := Exec(acts);
    if s.writer == Some(c) {
      assert Holders(s) == multiset{c};
    }
  }

  lemma ReleasesSplit(acts: seq<Action>, cs: seq<nat>)
    requires cs != []
    ensures acts + Releases(cs) == acts + [DoRelease(cs[0])] + Releases(cs[1..])
  {
  }

  lemma {:induction false} NobodyLeft(acts: seq<Action>, cs: seq<nat>)
    requires multiset(cs) == Holders(Exec(acts))
    ensures Holders(Exec(acts + Releases(cs))) == multiset{}
    decreases |cs|
  {
    if cs == [] {
      assert acts + Releases(cs) == acts;
    } else {
      assert cs == [cs[0]] + cs[1..];
      assert multiset(cs) == multiset{cs[0]} + multiset(cs[1..]);
      OneHoldFewer(acts, cs[0]);
      ReleasesSplit(acts, cs);
      NobodyLeft(acts + [DoRelease(cs[0])], cs[1..]);
    }
  }

  lemma {:induction false} NobodyMeansFree(s: State)
    requires Inv(s) && Holders(s) == multiset{}
    ensures Free(s) && s.wait == []
  {
    assert |Holders(s)| == |s.readers| + if s.writer.Some? then 1 else 0;
  }

  /** Once every hold has been released the lock is free and nobody waits, and the next caller gets it. */
  lemma {:induction false} AllReleased(acts: seq<Action>, cs: seq<nat>, c: nat, kind: Kind)
    requires multiset(cs) == Holders(Exec(acts))
    ensures var rel := acts + Releases(cs);
      Free(Exec(rel)) && Exec(rel).wait == [] && Holds(Exec(rel + [DoLock(c, kind)]), c)
  {
    var rel := acts + Releases(cs);
    NobodyLeft(acts, cs);
    Always(rel);
    NobodyMeansFree(Exec(rel));
    LockGrants(rel, c, kind);
  }

  // ---------------------------------------------------------------- the object

  ghost function IdsOf(l: seq<Waiter>): seq<nat> { seq(|l|, i requires 0 <= i < |l| => l[i].id) }

  class StdMutex {
    var count: int
    var wait: LinkedQueue
    var woken: seq<nat>
    ghost var kinds: map<nat, Kind>
    ghost var readers: multiset<nat>
    ghost var writer: Option<nat>

    ghost predicate Valid()
      reads this, wait, wait.links
    {
      wait.Valid()
    }

    ghost function View(): State
      reads this, wait
    {
      State(count, IdsOf(wait.Line()), kinds, readers, writer, woken)
    }

    constructor ()
      ensures Valid() && View() == Initial() && fresh(wait) && fresh(wait.links)
    {
      count, woken := 0, [];
      wait := new LinkedQueue();
      kinds, readers, writer := map[], multiset{}, None;
      new;
      assert IdsOf(wait.Line()) == [];
    }

    method Enqueue(me: nat, kind: Kind)
      requires Valid()
      modifies this, wait, wait.links
      ensures Valid() && wait == old(wait) && View() == Queue(old(View()), me, kind)
      ensures fresh(set x | x in wait.links && x !in old(wait.links))
    {
      var has := wait.Check(me);
      MemberIds(wait.Line(), me);
      if !has {
        wait.Ins(MAX_INTEGER64, me);
        kinds := kinds[me := kind];
        assert IdsOf(wait.Line()) == IdsOf(old(wait.Line())) + [me];
      }
    }

    /** read_lock() */
    method ReadLock(me: nat) returns (granted: bool)
      requires Valid()
      modifies this, wait, wait.links
      ensures Valid() && granted == Grants(old(View()), Read) && View() == Lock(old(View()), me, Read)
      ensures granted <==> old(count) >= 0
      ensures count == if granted then old(count) + 1 else old(count)
    {
      if count >= 0 {
        count := count + 1;
        readers := readers + multiset{me};
        return true;
      }
      Enqueue(me, Read);
      return false;
    }

    /** write_lock() */
    method WriteLock(me: nat) returns (granted: bool)
      requires Valid()
      modifies this, wait, wait.links
      ensures Valid() && granted == Grants(old(View()), Write) && View() == Lock(old(View()), me, Write)
      ensures granted <==> old(count) == 0
      ensures count == if granted then -1 else old(count)
    {
      if count == 0 {
        count := -1;
        writer := Some(me);
        return true;
      }
      Enqueue(me, Write);
      return false;
    }

    /** release(): swap in a fresh queue and drain the old one, waking each caller. */
    method Release(me: nat)
      requires Valid()
      modifies this, wait
      ensures Valid() && View() == Unlock(old(View()), me)
      ensures count == if old(count) <= 0 then 0 else old(count) - 1
      ensures old(count) != 0 && count == 0 ==> wait.links == [] && woken == old(woken) + IdsOf(old(wait.Line()))
      ensures old(count) == 0 || count != 0 ==> wait == old(wait) && woken == old(woken)
    {
      if count == 0 { return; }
      if count < 0 {
        count := 0;
        writer := None;
      } else {
        count := count - 1;
        readers := readers - multiset{me};
        if count != 0 { return; }
      }
      var que := wait;
      wait := new LinkedQueue();
      assert IdsOf(wait.Line()) == [];
      var list := Drain(que);
      woken := woken + list;
      kinds := map[];
    }
  }

  method Drain(que: LinkedQueue) returns (list: seq<nat>)
    requires que.Valid()
    modifies que
    ensures list == IdsOf(old(que.Line())) && que.Valid()
  {
    list := [];
    ghost var all := IdsOf(que.Line());
    while true
      invariant que.Valid() && list + IdsOf(que.Line()) == all
      decreases |que.links|
    {
      ghost var l := que.Line();
      var obj := que.Del();
      if obj == None { break; }
      MoveHead(list, l);
      list := list + [obj.value];
    }
  }

  lemma {:induction false} MoveHead(list: seq<nat>, l: seq<Waiter>)
    requires l != []
    ensures list + IdsOf(l) == list + [l[0].id] + IdsOf(l[1..])
  {
    assert IdsOf(l) == [l[0].id] + IdsOf(l[1..]);
  }

  lemma {:induction false} MemberIds(l: seq<Waiter>, c: nat)
    ensures c in Ids(l) <==> c in IdsOf(l)
  {
    if c in Ids(l) {
      var i :| 0 <= i < |l| && l[i].id == c;
      assert IdsOf(l)[i] == c;
    }
  }
}
