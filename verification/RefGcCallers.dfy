/**
  What the callers of stdObject may rely on in every run: wait_stable() and finish() return when they
  may and not before, the collector leaves only when it may, the number of references is the number
  taken less the number given back, and the drop watch fires at the release that reaches it.
 */
module RefGcCallers {
  import opened Common
  import opened RefGc

  // ---------------------------------------------------------------- wait_stable()

  /** Calls of wait_stable() in a run. */
  function StableCalls(acts: seq<Action>): nat {
    if acts == [] then 0
    else StableCalls(acts[..|acts| - 1]) + if acts[|acts| - 1].StableCall? then 1 else 0
  }

  function Callers(y: Sync): nat { y.stableAsleep + y.stableWoken + y.stableReturned }

  lemma {:induction false} RelrefCallers(s: State, o: Addr)
    requires s.Shaped() && o in s.objs
    ensures Callers(Relref(s, o).sync) == Callers(s.sync) && Relref(s, o).sync.stableReturned == s.sync.stableReturned
    ensures Relref(s, o).sync.finisher.NotCalled? == s.sync.finisher.NotCalled?
    ensures Relref(s, o).sync.finisher.Returned? == s.sync.finisher.Returned?
    ensures Relref(s, o).sync.gc.Exited? == s.sync.gc.Exited?
  {
  }

  /** What a step changes about the callers of wait_stable() and finish(), and about the collector's end. */
  ghost predicate CallersMove(s: State, t: State, a: Action)
    requires s.Shaped()
  {
    && Callers(t.sync) == Callers(s.sync) + (if a.StableCall? then 1 else 0)
    && t.sync.stableReturned == s.sync.stableReturned + (if (a.StableCall? || a.StableWake?) && s.RootIdle() then 1 else 0)
    && (t.sync.finisher.NotCalled? <==> s.sync.finisher.NotCalled? && !a.FinishCall?)
    && (t.sync.finisher.Returned? <==> s.sync.finisher.Returned? || (a.FinishWake? && s.sync.gc.Exited?))
    && (t.sync.gc.Exited? <==>
          s.sync.gc.Exited? || ((a.GcLoop? || a.GcWake?) && s.RootIdle() && !s.sync.finisher.NotCalled?))
  }

  lemma {:induction false} CollectorCallers(s: State, a: Action)
    requires SyncInv(s) && Enabled(s, a) && ByCollector(a)
    ensures CallersMove(s, Next(s, a), a)
  {
    if a.GcOwed? {
      var f, below := s.Frames().top, s.Frames().below;
      RelrefCallers(WithFrames(s, Push(f.(owed := None), below)), f.owed.value);
    }
  }

  lemma {:induction false} ClientCallers(s: State, a: Action)
    requires SyncInv(s) && Enabled(s, a) && !ByCollector(a)
    ensures CallersMove(s, Next(s, a), a)
  {
    if a.Release? {
      RelrefCallers(s.(objs := s.objs[a.o := s.objs[a.o].(handles := s.objs[a.o].handles - 1)]), a.o);
    }
  }

  lemma {:induction false} StepCallers(s: State, a: Action)
    requires SyncInv(s) && Enabled(s, a)
    ensures CallersMove(s, Next(s, a), a)
  {
    if ByCollector(a) { CollectorCallers(s, a); } else { ClientCallers(s, a); }
  }

  /** Every caller of wait_stable() sleeps, has been woken, or has returned: none gets lost. */
  lemma {:induction false} CallersAccounted(acts: seq<Action>)
    ensures Callers(Exec(acts).sync) == StableCalls(acts)
    ensures FinishCall in acts <==> !Exec(acts).sync.finisher.NotCalled?
  {
    if acts != [] {
      var before, a := acts[..|acts| - 1], acts[|acts| - 1];
      assert acts == before + [a];
      CallersAccounted(before);
      InvAlways(before);
      ExecLast(acts);
      if Enabled(Exec(before), a) { StepCallers(Exec(before), a); }
    }
  }

  /** In every run exactly this makes a wait_stable() return: it is called, or looks again after a wakeup,
      at a moment when the root is idle. */
  lemma {:induction false} WaitStableWaits(acts: seq<Action>, a: Action)
    requires Enabled(Exec(acts), a)
    ensures var s, t := Exec(acts), Exec(acts + [a]);
      t.sync.stableReturned == s.sync.stableReturned + if (a.StableCall? || a.StableWake?) && s.RootIdle() then 1 else 0
  {
    InvAlways(acts);
    ExecSnoc(acts, a);
    StepCallers(Exec(acts), a);
  }

  /** And exactly this makes finish() return: it looks again after the collector has left. */
  lemma {:induction false} FinishWaits(acts: seq<Action>, a: Action)
    requires Enabled(Exec(acts), a)
    ensures var s, t := Exec(acts), Exec(acts + [a]);
      t.sync.finisher == Returned <==> s.sync.finisher == Returned || (a == FinishWake && s.sync.gc == Exited)
  {
    InvAlways(acts);
    ExecSnoc(acts, a);
    StepCallers(Exec(acts), a);
  }

  /** The collector leaves exactly when it finds the root idle after finish() was called. */
  lemma {:induction false} CollectorLeaves(acts: seq<Action>, a: Action)
    requires Enabled(Exec(acts), a)
    ensures var s, t := Exec(acts), Exec(acts + [a]);
      t.sync.gc == Exited <==> s.sync.gc == Exited || ((a.GcLoop? || a.GcWake?) && s.RootIdle() && FinishCall in acts)
  {
    InvAlways(acts);
    ExecSnoc(acts, a);
    CallersAccounted(acts);
    StepCallers(Exec(acts), a);
  }

  // ---------------------------------------------------------------- references

  /** References to o that a run has taken, less those it has given back. */
  function Held(acts: seq<Action>, o: Addr): int {
    if acts == [] then 0
    else
      var before, a := acts[..|acts| - 1], acts[|acts| - 1];
      Held(before, o) + if Enabled(Exec(before), a) then Holds(a, o) else 0
  }

  function Holds(a: Action, o: Addr): int {
    if a == New(o) || a == AddRef(o) then 1 else if a == Release(o) then -1 else 0
  }

  /** The value the drop watch of o was last given. */
  function LastWatch(acts: seq<Action>, o: Addr): int {
    if acts == [] then -1
    else
      var before, a := acts[..|acts| - 1], acts[|acts| - 1];
      if Enabled(Exec(before), a) && Sets(a, o) then (if a.Arm? then a.n else -1) else LastWatch(before, o)
  }

  predicate Sets(a: Action, o: Addr) { (a.New? || a.Arm? || a.Disarm?) && a.o == o }

  /** What a step does to an object that is there afterwards. */
  ghost predicate ObjectMoves(s: State, t: State, a: Action, o: Addr) {
    o in t.objs ==>
      && (o !in s.objs ==> a == New(o))
      && t.objs[o].handles == (if o in s.objs then s.objs[o].handles else 0) + Holds(a, o)
      && (Sets(a, o) ==> t.objs[o].watch == if a.Arm? then a.n else -1)
      && (!Sets(a, o) ==> o in s.objs && (t.objs[o].watch == s.objs[o].watch || t.objs[o].watch == -1))
  }

  lemma {:induction false} RelrefMoves(s: State, r: Addr, o: Addr)
    requires s.Shaped() && r in s.objs && o in s.objs
    ensures var t := Relref(s, r);
      && o in t.objs && t.objs[o].handles == s.objs[o].handles
      && (t.objs[o].watch == s.objs[o].watch || t.objs[o].watch == -1)
      && forall x :: x in t.objs <==> x in s.objs
  {
  }

  lemma {:induction false} ReleaseMoves(s: State, r: Addr, o: Addr)
    requires Enabled(s, Release(r))
    ensures ObjectMoves(s, Next(s, Release(r)), Release(r), o)
  {
    var s1 := s.(objs := s.objs[r := s.objs[r].(handles := s.objs[r].handles - 1)]);
    RelrefMoves(s1, r, r);
    if o in s.objs { RelrefMoves(s1, r, o); }
  }

  lemma {:induction false} OwedMoves(s: State, o: Addr)
    requires Enabled(s, GcOwed)
    ensures ObjectMoves(s, Next(s, GcOwed), GcOwed, o)
  {
    var f, below := s.Frames().top, s.Frames().below;
    var s1 := WithFrames(s, Push(f.(owed := None), below));
    RelrefMoves(s1, f.owed.value, f.owed.value);
    if o in s.objs { RelrefMoves(s1, f.owed.value, o); }
  }

  lemma {:induction false} StepMovesObject(s: State, a: Action, o: Addr)
    requires Enabled(s, a)
    ensures ObjectMoves(s, Next(s, a), a, o)
  {
    if a.Release? {
      ReleaseMoves(s, a.o, o);
    } else if a.GcOwed? {
      OwedMoves(s, o);
    }
  }

  lemma {:induction false} HeldIs(acts: seq<Action>, o: Addr)
    ensures var s := Exec(acts); Held(acts, o) == if o in s.objs then s.objs[o].handles else 0
    ensures o !in Exec(acts).objs ==> LastWatch(acts, o) == -1
  {
    if acts != [] {
      var before, a := acts[..|acts| - 1], acts[|acts| - 1];
      HeldIs(before, o);
      ExecLast(acts);
      if Enabled(Exec(before), a) {
        StepMovesObject(Exec(before), a, o);
        StaysThere(Exec(before), a, o);
      }
    }
  }

  lemma {:induction false} StaysThere(s: State, a: Action, o: Addr)
    requires Enabled(s, a)
    ensures o in s.objs || a == New(o) ==> o in Next(s, a).objs
  {
    if a.Release? {
      RelrefMoves(s.(objs := s.objs[a.o := s.objs[a.o].(handles := s.objs[a.o].handles - 1)]), a.o, a.o);
    } else if a.GcOwed? {
      var f, below := s.Frames().top, s.Frames().below;
      RelrefMoves(WithFrames(s, Push(f.(owed := None), below)), f.owed.value, f.owed.value);
    }
  }

  /** In every run ref counts the references taken and not given back, plus the one that a queued or
      running refEvent() stands for; and an object nobody holds is deleted or about to be. */
  lemma {:induction false} RefIsHeld(acts: seq<Action>, o: Addr)
    requires o in Exec(acts).objs
    ensures var s := Exec(acts); var x := s.objs[o];
      && Held(acts, o) >= 0
      && (x.ref != -1 ==> x.ref == Held(acts, o) + Queued(s, o) + Firing(s, o))
      && (Held(acts, o) == 0 && Queued(s, o) == Firing(s, o) == 0 ==> x.ref == -1 || Doomed(s, o) == 1)
  {
    HeldIs(acts, o);
    CountsExact(acts);
  }

  /** The object's watch has not been used up. */
  predicate Unspent(s: State, o: Addr) { o in s.objs && s.objs[o].fired == 0 && Queued(s, o) == 0 }

  /** A step that leaves the watch of o alone, or fires it. */
  ghost predicate WatchKept(s: State, t: State, o: Addr) {
    Unspent(t, o) ==> Unspent(s, o) && t.objs[o].watch == s.objs[o].watch
  }

  lemma {:induction false} RelrefWatch(s: State, r: Addr, o: Addr)
    requires s.Shaped() && r in s.objs && s.objs[r].ref > 0 && o in s.objs
    ensures WatchKept(s, Relref(s, r), o)
  {
    RelrefCounts(s, r, o);
  }

  lemma {:induction false} ReleaseWatch(s: State, r: Addr, o: Addr)
    requires Inv(s) && Enabled(s, Release(r)) && o in s.objs
    ensures WatchKept(s, Next(s, Release(r)), o)
  {
    var s1 := s.(objs := s.objs[r := s.objs[r].(handles := s.objs[r].handles - 1)]);
    assert ObjOk(s, r);
    assert Queued(s1, o) == Queued(s, o);
    RelrefWatch(s1, r, o);
  }

  lemma {:induction false} OwedWatch(s: State, o: Addr)
    requires Inv(s) && Enabled(s, GcOwed) && o in s.objs
    ensures WatchKept(s, Next(s, GcOwed), o)
  {
    var f, below := s.Frames().top, s.Frames().below;
    var s1 := WithFrames(s, Push(f.(owed := None), below));
    assert ObjOk(s, f.owed.value);
    OwedCounts(s, f.owed.value);
    OwedCounts(s, o);
    RelrefWatch(s1, f.owed.value, o);
  }

  lemma {:induction false} FireWatch(s: State, o: Addr)
    requires Inv(s) && Enabled(s, GcFire) && o in s.objs
    ensures WatchKept(s, Next(s, GcFire), o)
  {
    FirstOf(s.Frames().top.ev, o);
  }

  lemma {:induction false} TakeWatch(s: State, o: Addr)
    requires Inv(s) && Enabled(s, GcTake) && o in s.objs
    ensures WatchKept(s, Next(s, GcTake), o)
  {
    BucketUpdate(s.buckets, s.Frames().top.id, Bucket([], [], false, false), o);
  }

  lemma {:induction false} ClimbWatch(s: State, id: nat, o: Addr)
    requires Inv(s) && Enabled(s, ClimbStep(id)) && o in s.objs
    ensures WatchKept(s, Next(s, ClimbStep(id)), o)
  {
    var p := Parent(id);
    BucketUpdate(s.buckets, p, s.buckets[p].SetBit(IsLeft(id)), o);
  }

  predicate MovesQueue(a: Action) { a.Release? || a.GcOwed? || a.GcTake? || a.GcFire? || a.ClimbStep? }

  lemma {:induction false} FramesKept(s: State, a: Action, o: Addr)
    requires Enabled(s, a) && ByCollector(a) && !MovesQueue(a)
    ensures EvsOf(Next(s, a).Frames(), o) == EvsOf(s.Frames(), o)
  {
    if a.GcLoop? || a.GcWake? {
      assert s.Frames() == Empty;
      assert Next(s, a).Frames() == Empty || Next(s, a).Frames() == Push(Call(0), Empty);
      assert EvsOf(Push(Call(0), Empty), o) == 0;
    }
  }

  lemma {:induction false} QueueKept(s: State, a: Action, o: Addr)
    requires Enabled(s, a) && !MovesQueue(a) && !Sets(a, o) && o in s.objs
    ensures WatchKept(s, Next(s, a), o)
  {
    if ByCollector(a) {
      FramesKept(s, a, o);
      assert Next(s, a).buckets == s.buckets;
    } else {
      assert Next(s, a).Frames() == s.Frames() && Next(s, a).buckets == s.buckets;
    }
  }

  lemma {:induction false} WatchMoves(s: State, a: Action, o: Addr)
    requires Inv(s) && Enabled(s, a) && o in s.objs && !Sets(a, o)
    ensures WatchKept(s, Next(s, a), o)
  {
    if a.Release? { ReleaseWatch(s, a.o, o); }
    else if a.GcOwed? { OwedWatch(s, o); }
    else if a.GcTake? { TakeWatch(s, o); }
    else if a.GcFire? { FireWatch(s, o); }
    else if a.ClimbStep? { ClimbWatch(s, a.id, o); }
    else { QueueKept(s, a, o); }
  }

  /** In every run the drop watch holds the value it was last given until it fires, and -1 from then on. */
  lemma {:induction false} WatchIsLastGiven(acts: seq<Action>, o: Addr)
    requires o in Exec(acts).objs
    ensures var s := Exec(acts); s.objs[o].watch == if Unspent(s, o) then LastWatch(acts, o) else -1
  {
    InvAlways(acts);
    assert ObjOk(Exec(acts), o);
    if acts != [] && Unspent(Exec(acts), o) {
      var before, a := acts[..|acts| - 1], acts[|acts| - 1];
      ExecLast(acts);
      InvAlways(before);
      var s := Exec(before);
      HeldIs(before, o);
      if Enabled(s, a) {
        StepMovesObject(s, a, o);
        if !Sets(a, o) {
          WatchMoves(s, a, o);
          WatchIsLastGiven(before, o);
        }
      } else {
        WatchIsLastGiven(before, o);
      }
    }
  }

  // ---------------------------------------------------------------- giving up a reference

  /** What becomes of o, which was x and had q refEvents queued, when a reference is given up: the watch
      fires if it is set and no more than watch + 1 references were held; otherwise there is one fewer,
      and the last one dooms the object. */
  ghost predicate GivenUp(x: Obj, q: nat, t: State, o: Addr) {
    && o in t.objs && t.objs[o].handles == x.handles - 1
    && (if 0 <= x.watch && x.handles <= x.watch + 1 then
          t.objs[o].watch == -1 && t.objs[o].ref == x.ref && Queued(t, o) == 1 && Doomed(t, o) == 0
        else
          t.objs[o].watch == x.watch && t.objs[o].ref == x.ref - 1 && Queued(t, o) == q
          && Doomed(t, o) == if x.ref == 1 then 1 else 0)
  }

  lemma {:induction false} RelrefGivesUp(s: State, o: Addr)
    requires s.Shaped() && ReleaseDue(s, o)
    ensures GivenUp(s.objs[o].(handles := s.objs[o].handles + 1), Queued(s, o), Relref(s, o), o)
  {
    RelrefCounts(s, o, o);
  }

  lemma {:induction false} ReleaseDoes(s: State, o: Addr)
    requires Inv(s) && Enabled(s, Release(o))
    ensures GivenUp(s.objs[o], Queued(s, o), Next(s, Release(o)), o)
  {
    var x := s.objs[o];
    var s1 := s.(objs := s.objs[o := x.(handles := x.handles - 1)]);
    assert ObjOk(s, o);
    assert ReleaseDue(s1, o);
    RelrefGivesUp(s1, o);
    assert Next(s, Release(o)) == Relref(s1, o);
  }

  lemma {:induction false} ReleaseSpares(s: State, o: Addr, u: Addr)
    requires Enabled(s, Release(o)) && u != o && u in s.objs
    ensures var t := Next(s, Release(o)); u in t.objs && t.objs[u] == s.objs[u]
  {
    RelrefTouches(s.(objs := s.objs[o := s.objs[o].(handles := s.objs[o].handles - 1)]), o, u);
  }

  lemma {:induction false} ReleaseMeans(acts: seq<Action>, o: Addr)
    requires Enabled(Exec(acts), Release(o))
    ensures var s, t := Exec(acts), Exec(acts + [Release(o)]);
      && GivenUp(s.objs[o], Queued(s, o), t, o)
      && forall u :: u != o && u in s.objs ==> u in t.objs && t.objs[u] == s.objs[u]
  {
    InvAlways(acts);
    ExecSnoc(acts, Release(o));
    var s := Exec(acts);
    ReleaseDoes(s, o);
    forall u | u != o && u in s.objs ensures u in Next(s, Release(o)).objs && Next(s, Release(o)).objs[u] == s.objs[u] {
      ReleaseSpares(s, o, u);
    }
  }

  /** The release that follows refEvent() takes away the reference it stood for; the object dies there
      unless somebody holds it. */
  lemma {:induction false} OwedDoes(s: State, o: Addr)
    requires Inv(s) && Enabled(s, GcOwed) && s.Frames().top.owed == Some(o)
    ensures var t := Next(s, GcOwed);
      && o in t.objs && Firing(t, o) == 0 && t.objs[o].ref == s.objs[o].handles && t.objs[o].watch == -1
      && Doomed(t, o) == (if s.objs[o].handles == 0 then 1 else 0)
  {
    var f, below := s.Frames().top, s.Frames().below;
    assert ObjOk(s, o);
    OwedCounts(s, o);
    RelrefCounts(WithFrames(s, Push(f.(owed := None), below)), o, o);
  }

  lemma {:induction false} OwedMeans(acts: seq<Action>, o: Addr)
    requires Enabled(Exec(acts), GcOwed) && Exec(acts).Frames().top.owed == Some(o)
    ensures var s, t := Exec(acts), Exec(acts + [GcOwed]);
      && o in t.objs && Firing(t, o) == 0 && t.objs[o].ref == s.objs[o].handles && t.objs[o].watch == -1
      && Doomed(t, o) == (if s.objs[o].handles == 0 then 1 else 0)
  {
    InvAlways(acts);
    ExecSnoc(acts, GcOwed);
    OwedDoes(Exec(acts), o);
  }
}
