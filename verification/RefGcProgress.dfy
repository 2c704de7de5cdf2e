/**
  The collector comes to rest.  Every step of the collector or of a climbing relref uses up some of a
  finite amount of work, whatever the order; so when the callers pause, after finitely many steps none
  is left to take, and then, unless the collector has left, every bucket is swept and every object that
  nobody holds is deleted.
 */
module RefGcProgress {
  import opened Common
  import opened RefGc
  import opened RefGcCallers

  // ---------------------------------------------------------------- the work that is left

  /** A climber at bucket i sets at most one bit at each bucket above. */
  function Way(i: nat): nat { if i == 0 then 0 else 12 + Way(Parent(i)) }

  /** The largest bucket at depth d. */
  function Deepest(d: nat): nat { if d == 0 then 0 else 2 * Deepest(d - 1) + 2 }

  lemma {:induction false} WayBound(i: nat, d: nat)
    requires i <= Deepest(d)
    ensures Way(i) <= 12 * d
  {
    if i > 0 { WayBound(Parent(i), d - 1); }
  }

  lemma {:induction false} WayInTable(i: nat)
    requires i < BUCKETS
    ensures Way(i) <= 72
  {
    assert Deepest(3) == 14;
    assert Deepest(6) == 126;
    WayBound(i, 6);
  }

  function BucketWork(b: Bucket): nat {
    4 * |b.dels| + 84 * |b.evs| + (if b.left then 9 else 0) + if b.right then 9 else 0
  }

  function BucketsWork(bs: seq<Bucket>): nat {
    if bs == [] then 0 else BucketWork(bs[0]) + BucketsWork(bs[1..])
  }

  function ClimbersWork(m: multiset<nat>, n: nat): nat {
    if n == 0 then 0 else m[n - 1] * Way(n - 1) + ClimbersWork(m, n - 1)
  }

  function FrameWork(f: Frame): nat {
    match f
    case Call(id) => if id == 0 then 1 else 4
    case Body(_, target, ev, owed, left, right) =>
      3 + |target| + 81 * |ev| + (if owed.Some? then 80 else 0) + (if left then 6 else 0) + if right then 6 else 0
  }

  function StackWork(st: Stack): nat { if st == Empty then 0 else FrameWork(st.top) + StackWork(st.below) }

  function CollectorWork(gc: Collector): nat {
    match gc
    case Top => 2
    case Waiting(woken) => if woken then 2 else 0
    case Sweep(stack) => StackWork(stack)
    case Exited => 0
  }

  function Work(s: State): nat { BucketsWork(s.buckets) + ClimbersWork(s.climbers, BUCKETS) + CollectorWork(s.sync.gc) }

  lemma {:induction false} BucketsWorkUpdate(bs: seq<Bucket>, i: nat, nb: Bucket)
    requires i < |bs|
    ensures BucketsWork(bs[i := nb]) == BucketsWork(bs) - BucketWork(bs[i]) + BucketWork(nb)
    decreases |bs|
  {
    var bs' := bs[i := nb];
    if i == 0 {
      assert bs'[1..] == bs[1..];
    } else {
      BucketsWorkUpdate(bs[1..], i - 1, nb);
      assert bs'[1..] == bs[1..][i - 1 := nb];
    }
  }

  lemma {:induction false} SameClimbers(m: multiset<nat>, k: multiset<nat>, n: nat)
    requires forall j :: 0 <= j < n ==> m[j] == k[j]
    ensures ClimbersWork(m, n) == ClimbersWork(k, n)
  {
    if n > 0 { SameClimbers(m, k, n - 1); }
  }

  lemma Distribute(a: nat, b: nat)
    ensures (a + 1) * b == a * b + b
  {
  }

  lemma {:induction false} OneClimberMore(m: multiset<nat>, i: nat, n: nat)
    requires i < n
    ensures ClimbersWork(m + multiset{i}, n) == ClimbersWork(m, n) + Way(i)
    decreases n
  {
    if i == n - 1 {
      SameClimbers(m + multiset{i}, m, n - 1);
      assert (m + multiset{i})[i] == m[i] + 1;
      Distribute(m[i], Way(i));
    } else {
      OneClimberMore(m, i, n - 1);
      assert (m + multiset{i})[n - 1] == m[n - 1];
    }
  }

  // ---------------------------------------------------------------- the shape of the collector's stack

  predicate Bodies(st: Stack) { st.Push? ==> st.top.Body? && Bodies(st.below) }

  /** Only the innermost activation of gc may be before its lock, and gc(0) finds work. */
  predicate Sweeping(s: State)
    requires s.Shaped()
  {
    s.sync.gc.Sweep? ==>
      && s.Frames().Push? && Bodies(s.Frames().below)
      && (s.Frames().top == Call(0) ==> !s.RootIdle())
  }

  /** A step that leaves the collector where it is and no bucket emptier. */
  lemma {:induction false} RelrefSweeping(s: State, o: Addr)
    requires s.Shaped() && o in s.objs && Sweeping(s)
    ensures Sweeping(Relref(s, o))
  {
  }

  lemma {:induction false} CollectorSweeping(s: State, a: Action)
    requires Enabled(s, a) && Sweeping(s) && ByCollector(a)
    ensures Sweeping(Next(s, a))
  {
    if a.GcOwed? {
      var f, below := s.Frames().top, s.Frames().below;
      var s1 := WithFrames(s, Push(f.(owed := None), below));
      assert s1.RootIdle() == s.RootIdle();
      RelrefSweeping(s1, f.owed.value);
    }
  }

  lemma {:induction false} ClientSweeping(s: State, a: Action)
    requires Enabled(s, a) && Sweeping(s) && !ByCollector(a)
    ensures Sweeping(Next(s, a))
  {
    if a.Release? {
      RelrefSweeping(s.(objs := s.objs[a.o := s.objs[a.o].(handles := s.objs[a.o].handles - 1)]), a.o);
    }
  }

  lemma {:induction false} SweepingAlways(acts: seq<Action>)
    ensures Exec(acts).Shaped() && Sweeping(Exec(acts))
  {
    InvAlways(acts);
    if acts != [] {
      var s, a := Exec(acts[..|acts| - 1]), acts[|acts| - 1];
      SweepingAlways(acts[..|acts| - 1]);
      ExecLast(acts);
      if Enabled(s, a) {
        if ByCollector(a) { CollectorSweeping(s, a); } else { ClientSweeping(s, a); }
      }
    }
  }

  // ---------------------------------------------------------------- every step uses up work

  /** A step of the collector or of a climber. */
  predicate Runs(a: Action) { ByCollector(a) || a.ClimbStep? }

  lemma {:induction false} ClimbWorks(s: State, id: nat)
    requires TreeInv(s) && Enabled(s, ClimbStep(id))
    ensures Work(Next(s, ClimbStep(id))) < Work(s)
  {
    var p, rest := Parent(id), s.climbers - multiset{id};
    assert s.climbers == rest + multiset{id};
    OneClimberMore(rest, id, BUCKETS);
    if !s.buckets[p].Bit(IsLeft(id)) {
      BucketsWorkUpdate(s.buckets, p, s.buckets[p].SetBit(IsLeft(id)));
      if p != 0 { OneClimberMore(rest, p, BUCKETS); }
    }
  }

  lemma {:induction false} TakeWorks(s: State)
    requires TreeInv(s) && Sweeping(s) && Enabled(s, GcTake)
    ensures Work(Next(s, GcTake)) < Work(s)
  {
    var id := s.Frames().top.id;
    var b := s.buckets[id];
    BucketsWorkUpdate(s.buckets, id, Bucket([], [], false, false));
    assert FrameWork(Body(id, b.dels, b.evs, None, b.left, b.right)) <= 3 + BucketWork(b);
    if id == 0 { assert FrameWork(Body(id, b.dels, b.evs, None, b.left, b.right)) <= BucketWork(b); }
  }

  lemma {:induction false} NotifyWorks(s: State, b: nat, nb: Bucket, objs: map<Addr, Obj>)
    requires s.Shaped() && b < BUCKETS && s.sync.gc.Sweep?
    ensures var t := Notify(s.(objs := objs, buckets := s.buckets[b := nb]), b);
      Work(t) <= Work(s) - BucketWork(s.buckets[b]) + BucketWork(nb) + 72
  {
    BucketsWorkUpdate(s.buckets, b, nb);
    if b > 0 {
      OneClimberMore(s.climbers, b, BUCKETS);
      WayInTable(b);
    }
  }

  lemma {:induction false} OwedWorks(s: State)
    requires Inv(s) && Enabled(s, GcOwed)
    ensures Work(Next(s, GcOwed)) < Work(s)
  {
    var f, below := s.Frames().top, s.Frames().below;
    var o := f.owed.value;
    var s1 := WithFrames(s, Push(f.(owed := None), below));
    assert Work(s1) == Work(s) - 80;
    assert ObjOk(s, o);
    var x, b := s.objs[o], Home(o);
    assert x.ref > 0 && x.watch == -1;
    if x.ref == 1 {
      var B := s.buckets[b];
      NotifyWorks(s1, b, B.(dels := [o] + B.dels), s.objs[o := x.(ref := 0)]);
    }
  }

  lemma {:induction false} CollectorWorks(s: State, a: Action)
    requires Inv(s) && Sweeping(s) && Enabled(s, a) && ByCollector(a)
    ensures Work(Next(s, a)) < Work(s)
  {
    if a.GcTake? {
      TakeWorks(s);
    } else if a.GcOwed? {
      OwedWorks(s);
    } else {
      assert Next(s, a).buckets == s.buckets && Next(s, a).climbers == s.climbers;
      PlainWorks(s, a);
    }
  }

  lemma {:induction false} PlainWorks(s: State, a: Action)
    requires Enabled(s, a) && Sweeping(s) && ByCollector(a) && !a.GcTake? && !a.GcOwed?
    ensures CollectorWork(Next(s, a).sync.gc) < CollectorWork(s.sync.gc)
  {
    if a.GcLoop? || a.GcWake? {
      assert StackWork(Push(Call(0), Empty)) == 1 + StackWork(Empty);
    } else if a.GcLeft? {
      var f, below := s.Frames().top, s.Frames().below;
      assert StackWork(Push(f.(left := false), below)) == FrameWork(f) - 6 + StackWork(below);
    } else if a.GcRight? {
      var f, below := s.Frames().top, s.Frames().below;
      assert StackWork(Push(f.(right := false), below)) == FrameWork(f) - 6 + StackWork(below);
    }
  }

  lemma {:induction false} EveryStepWorks(s: State, a: Action)
    requires Inv(s) && Sweeping(s) && Enabled(s, a) && Runs(a)
    ensures Work(Next(s, a)) < Work(s)
  {
    if ByCollector(a) { CollectorWorks(s, a); } else { ClimbWorks(s, a.id); }
  }

  /** The steps of `more` are all taken, one after the other, by the collector or a climber. */
  ghost predicate Undisturbed(acts: seq<Action>, more: seq<Action>) {
    forall i :: 0 <= i < |more| ==> Runs(more[i]) && Enabled(Exec(acts + more[..i]), more[i])
  }

  /** However the collector and the climbers are scheduled, they take no more steps on their own than
      there is work when the callers pause. */
  lemma {:induction false} WorkRunsOut(acts: seq<Action>, more: seq<Action>)
    requires Undisturbed(acts, more)
    ensures |more| + Work(Exec(acts + more)) <= Work(Exec(acts))
    decreases |more|
  {
    if more == [] {
      assert acts + more == acts;
    } else {
      var n := |more| - 1;
      var m, a := more[..n], more[n];
      forall i | 0 <= i < n ensures Runs(m[i]) && Enabled(Exec(acts + m[..i]), m[i]) {
        assert m[..i] == more[..i] && m[i] == more[i];
      }
      WorkRunsOut(acts, m);
      InvAlways(acts + m);
      SweepingAlways(acts + m);
      EveryStepWorks(Exec(acts + m), a);
      ExecSnoc(acts + m, a);
      assert acts + more == acts + m + [a];
    }
  }

  // ---------------------------------------------------------------- at rest

  /** Neither the collector nor a climber has a step to take. */
  ghost predicate AtRest(s: State) { forall a :: Runs(a) ==> !Enabled(s, a) }

  /** While a sweep is on, the collector can go on with it. */
  lemma {:induction false} SweepGoesOn(s: State) returns (a: Action)
    requires Inv(s) && Sweeping(s) && s.sync.gc.Sweep?
    ensures ByCollector(a) && Enabled(s, a)
  {
    var f := s.Frames().top;
    if f.Call? {
      a := GcTake;
    } else if f.target != [] {
      assert ObjOk(s, f.target[0]);
      FirstOf(f.target, f.target[0]);
      a := GcDelete;
    } else if f.owed.Some? {
      assert ObjOk(s, f.owed.value);
      a := GcOwed;
    } else if f.ev != [] {
      assert ObjOk(s, f.ev[0]);
      FirstOf(f.ev, f.ev[0]);
      a := GcFire;
    } else {
      a := if f.left then GcLeft else if f.right then GcRight else GcReturn;
    }
  }

  lemma {:induction false} RestMeans(s: State)
    requires Inv(s) && Sweeping(s) && AtRest(s)
    ensures s.climbers == multiset{} && (s.sync.gc == Exited || s.sync.gc == Waiting(false))
  {
    if s.climbers != multiset{} {
      var c :| c in s.climbers;
      assert Enabled(s, ClimbStep(c));
    }
    if s.sync.gc.Sweep? {
      var a := SweepGoesOn(s);
      assert false;
    }
    assert !Enabled(s, GcLoop(false)) && !Enabled(s, GcWake(false));
  }

  lemma {:induction false} IdleHoldsNothing(bs: seq<Bucket>, o: Addr)
    requires forall i :: 0 <= i < |bs| ==> bs[i].Idle()
    ensures DelsIn(bs, o) == 0 && EvsIn(bs, o) == 0
  {
    if bs != [] {
      assert bs[0].Idle();
      IdleHoldsNothing(bs[1..], o);
    }
  }

  /** At rest, unless the collector has left: it sleeps, every bucket is swept, no refEvent is queued or
      running, and every object is deleted or held. */
  ghost predicate AllSwept(s: State) {
    && s.Shaped() && s.sync.gc == Waiting(false) && s.climbers == multiset{}
    && (forall i :: 0 <= i < BUCKETS ==> s.buckets[i].Idle())
    && (forall o :: o in s.objs ==>
          && Doomed(s, o) == Queued(s, o) == Firing(s, o) == 0
          && (if s.objs[o].handles == 0 then s.objs[o].ref == -1 else s.objs[o].ref == s.objs[o].handles))
  }

  lemma {:induction false} RestIsSwept(s: State)
    requires Inv(s) && Sweeping(s) && AtRest(s) && s.sync.gc != Exited
    ensures AllSwept(s)
  {
    RestMeans(s);
    forall i | 0 <= i < BUCKETS ensures s.buckets[i].Idle() { QuiescentBucket(s, i); }
    forall o | o in s.objs
      ensures Doomed(s, o) == Queued(s, o) == Firing(s, o) == 0
      ensures if s.objs[o].handles == 0 then s.objs[o].ref == -1 else s.objs[o].ref == s.objs[o].handles
    {
      IdleHoldsNothing(s.buckets, o);
      assert ObjOk(s, o);
    }
  }

  /** From every state of every run the collector and the climbers can be run to rest, and whenever they
      are at rest all is swept, unless the collector has left. */
  lemma {:induction false} ComesToRest(acts: seq<Action>) returns (more: seq<Action>)
    ensures Undisturbed(acts, more) && AtRest(Exec(acts + more))
    ensures Exec(acts + more).sync.gc != Exited ==> AllSwept(Exec(acts + more))
    decreases Work(Exec(acts))
  {
    InvAlways(acts);
    SweepingAlways(acts);
    var s := Exec(acts);
    if a :| Runs(a) && Enabled(s, a) {
      EveryStepWorks(s, a);
      ExecSnoc(acts, a);
      var rest := ComesToRest(acts + [a]);
      more := [a] + rest;
      forall i | 0 <= i < |more| ensures Runs(more[i]) && Enabled(Exec(acts + more[..i]), more[i]) {
        if i == 0 {
          assert acts + more[..0] == acts;
        } else {
          assert acts + more[..i] == (acts + [a]) + rest[..i - 1];
        }
      }
      assert acts + more == (acts + [a]) + rest;
    } else {
      more := [];
      assert acts + more == acts;
      if s.sync.gc != Exited { RestIsSwept(s); }
    }
  }

  /** However they were scheduled: once they are at rest all is swept, unless the collector has left. */
  lemma {:induction false} SweptAtRest(acts: seq<Action>)
    requires AtRest(Exec(acts)) && Exec(acts).sync.gc != Exited
    ensures AllSwept(Exec(acts))
  {
    InvAlways(acts);
    SweepingAlways(acts);
    RestIsSwept(Exec(acts));
  }

  /** At rest after finish() was called, and only then, the collector has left and finish() returns as
      soon as it runs; at rest without that, no wait_stable() is left asleep. */
  lemma {:induction false} ShutdownCompletes(acts: seq<Action>)
    requires AtRest(Exec(acts))
    ensures var y := Exec(acts).sync;
      && (FinishCall in acts <==> y.gc == Exited)
      && (FinishCall in acts ==> y.finisher == Asleep(true) || y.finisher == Returned)
      && (FinishCall !in acts ==> y.stableAsleep == 0)
  {
    InvAlways(acts);
    SweepingAlways(acts);
    RestMeans(Exec(acts));
    CallersAccounted(acts);
  }
}
