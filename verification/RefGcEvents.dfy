/**
  The order of refEvent() callbacks: those of one bucket run in the order in which the releases that
  made them due came.
 */
module RefGcEvents {
  import opened Common
  import opened RefGc
  import opened RefGcCallers

  /** Releasing o now makes its refEvent due. */
  predicate Due(s: State, o: Addr) {
    o in s.objs && 0 <= s.objs[o].watch && s.objs[o].handles <= s.objs[o].watch + 1
  }

  /** The objects of bucket b whose refEvent has become due in a run, in order. */
  function DueOrder(acts: seq<Action>, b: nat): seq<Addr> {
    if acts == [] then []
    else
      var before, a := acts[..|acts| - 1], acts[|acts| - 1];
      DueOrder(before, b) + if Enabled(Exec(before), a) then DueBy(Exec(before), a, b) else []
  }

  function DueBy(s: State, a: Action, b: nat): seq<Addr> {
    if a.Release? && Home(a.o) == b && Due(s, a.o) then [a.o] else []
  }

  /** The objects whose refEvent gc(b) has called in a run, in order. */
  function FiredOrder(acts: seq<Action>, b: nat): seq<Addr> {
    if acts == [] then []
    else
      var before, a := acts[..|acts| - 1], acts[|acts| - 1];
      FiredOrder(before, b) + if Enabled(Exec(before), a) then FiredBy(Exec(before), a, b) else []
  }

  function FiredBy(s: State, a: Action, b: nat): seq<Addr>
    requires Enabled(s, a)
  {
    if a.GcFire? && s.Frames().top.id == b then [s.Frames().top.ev[0]] else []
  }

  /** What an activation of gc(b) has taken and not yet called. */
  function TakenBy(st: Stack, b: nat): seq<Addr> {
    if st == Empty then [] else if st.top.Body? && st.top.id == b then st.top.ev else TakenBy(st.below, b)
  }

  /** gc calls itself for buckets further down only, so no bucket is being swept twice at once. */
  predicate Descends(st: Stack) {
    st.Push? ==> Descends(st.below) && (st.below.Push? ==> st.below.top.Body? && st.below.top.id < st.top.id)
  }

  lemma {:induction false} NotBelow(st: Stack, b: nat)
    requires Descends(st) && (st.Push? ==> st.top.id < b)
    ensures TakenBy(st, b) == []
  {
    if st.Push? { NotBelow(st.below, b); }
  }

  /** What bucket b still has to call, oldest first. */
  function Pending(s: State, b: nat): seq<Addr>
    requires s.Shaped() && b < BUCKETS
  {
    TakenBy(s.Frames(), b) + s.buckets[b].evs
  }

  ghost predicate PendingMoves(s: State, t: State, fired: seq<Addr>, due: seq<Addr>, b: nat)
    requires b < BUCKETS
  {
    s.Shaped() && t.Shaped() && Pending(s, b) + due == fired + Pending(t, b) && Descends(t.Frames())
  }

  lemma {:induction false} RelrefPending(s: State, o: Addr, b: nat)
    requires s.Shaped() && Descends(s.Frames()) && o in s.objs && b < BUCKETS && s.objs[o].ref > 0
    ensures PendingMoves(s, Relref(s, o), [], if s.objs[o].ref <= s.objs[o].watch + 1 && Home(o) == b then [o] else [], b)
  {
    var t := Relref(s, o);
    assert t.Frames() == s.Frames();
    if s.objs[o].ref <= s.objs[o].watch + 1 && Home(o) == b {
      assert t.buckets[b].evs == s.buckets[b].evs + [o];
    } else {
      assert t.buckets[b].evs == s.buckets[b].evs;
    }
  }

  lemma {:induction false} ReleasePending(s: State, o: Addr, b: nat)
    requires Inv(s) && Descends(s.Frames()) && Enabled(s, Release(o)) && b < BUCKETS
    ensures PendingMoves(s, Next(s, Release(o)), [], if Home(o) == b && Due(s, o) then [o] else [], b)
  {
    var s1 := s.(objs := s.objs[o := s.objs[o].(handles := s.objs[o].handles - 1)]);
    assert ObjOk(s, o);
    RelrefPending(s1, o, b);
  }

  lemma {:induction false} OwedPending(s: State, b: nat)
    requires Inv(s) && Descends(s.Frames()) && Enabled(s, GcOwed) && b < BUCKETS
    ensures PendingMoves(s, Next(s, GcOwed), [], [], b)
  {
    var f, below := s.Frames().top, s.Frames().below;
    var s1 := WithFrames(s, Push(f.(owed := None), below));
    assert ObjOk(s, f.owed.value);
    assert TakenBy(s1.Frames(), b) == TakenBy(s.Frames(), b);
    RelrefPending(s1, f.owed.value, b);
  }

  lemma {:induction false} TakePending(s: State, b: nat)
    requires Inv(s) && Descends(s.Frames()) && Enabled(s, GcTake) && b < BUCKETS
    ensures PendingMoves(s, Next(s, GcTake), [], [], b)
  {
    NotBelow(s.Frames().below, s.Frames().top.id);
  }

  lemma {:induction false} ReturnPending(s: State, b: nat)
    requires Inv(s) && Descends(s.Frames()) && Enabled(s, GcReturn) && b < BUCKETS
    ensures PendingMoves(s, Next(s, GcReturn), [], [], b)
  {
    NotBelow(s.Frames().below, s.Frames().top.id);
  }

  lemma {:induction false} FirePending(s: State, b: nat)
    requires Inv(s) && Descends(s.Frames()) && Enabled(s, GcFire) && b < BUCKETS
    ensures PendingMoves(s, Next(s, GcFire), FiredBy(s, GcFire, b), [], b)
  {
    var f := s.Frames().top;
    assert f.ev == [f.ev[0]] + f.ev[1..];
  }

  lemma {:induction false} ClimbPending(s: State, id: nat, b: nat)
    requires Inv(s) && Descends(s.Frames()) && Enabled(s, ClimbStep(id)) && b < BUCKETS
    ensures PendingMoves(s, Next(s, ClimbStep(id)), [], [], b)
  {
  }

  /** The steps that move the stack without touching what is pending. */
  lemma {:induction false} StackPending(s: State, a: Action, b: nat)
    requires Inv(s) && Descends(s.Frames()) && Enabled(s, a) && b < BUCKETS
    requires a.GcLoop? || a.GcWake? || a.GcDelete? || a.GcLeft? || a.GcRight?
    ensures PendingMoves(s, Next(s, a), [], [], b)
  {
    var t := Next(s, a);
    assert t.buckets == s.buckets;
    if a.GcLoop? || a.GcWake? {
      assert TakenBy(Push(Call(0), Empty), b) == TakenBy(Empty, b);
    } else {
      var below := s.Frames().below;
      assert Descends(below);
      if a.GcLeft? || a.GcRight? { assert TakenBy(t.Frames(), b) == TakenBy(t.Frames().below, b); }
    }
  }

  lemma {:induction false} StepPending(s: State, a: Action, b: nat)
    requires Inv(s) && Descends(s.Frames()) && Enabled(s, a) && b < BUCKETS
    ensures PendingMoves(s, Next(s, a), FiredBy(s, a, b), DueBy(s, a, b), b)
  {
    if a.Release? { ReleasePending(s, a.o, b); }
    else if a.GcOwed? { OwedPending(s, b); }
    else if a.GcTake? { TakePending(s, b); }
    else if a.GcReturn? { ReturnPending(s, b); }
    else if a.GcFire? { FirePending(s, b); }
    else if a.ClimbStep? { ClimbPending(s, a.id, b); }
    else if ByCollector(a) { StackPending(s, a, b); }
    else { assert Next(s, a).buckets == s.buckets && Next(s, a).Frames() == s.Frames(); }
  }

  lemma Rearranged<T>(done: seq<T>, p: seq<T>, d: seq<T>, f: seq<T>, q: seq<T>)
    requires p + d == f + q
    ensures (done + f) + q == (done + p) + d
  {
    assert (done + f) + q == done + (f + q);
    assert (done + p) + d == done + (p + d);
  }

  lemma {:induction false} OrderStep(before: seq<Action>, s: State, t: State, a: Action, b: nat)
    requires b < BUCKETS && Inv(s) && Descends(s.Frames()) && t == Try(s, a)
    ensures t.Shaped() && Descends(t.Frames())
    ensures FiredOrder(before, b) + Pending(s, b) == DueOrder(before, b) ==>
      (FiredOrder(before, b) + if Enabled(s, a) then FiredBy(s, a, b) else []) + Pending(t, b)
      == DueOrder(before, b) + if Enabled(s, a) then DueBy(s, a, b) else []
  {
    if Enabled(s, a) {
      StepPending(s, a, b);
      Rearranged(FiredOrder(before, b), Pending(s, b), DueBy(s, a, b), FiredBy(s, a, b), Pending(t, b));
    } else {
      assert FiredOrder(before, b) + [] == FiredOrder(before, b) && DueOrder(before, b) + [] == DueOrder(before, b);
    }
  }

  /** In every run the refEvents of a bucket are called in the order in which they became due, each
      once: what was called, then what is still pending, is what became due. */
  lemma {:induction false} FiredInOrder(acts: seq<Action>, b: nat)
    requires b < BUCKETS
    ensures Exec(acts).Shaped() && Descends(Exec(acts).Frames())
    ensures FiredOrder(acts, b) + Pending(Exec(acts), b) == DueOrder(acts, b)
  {
    if acts != [] {
      var before, a := acts[..|acts| - 1], acts[|acts| - 1];
      FiredInOrder(before, b);
      InvAlways(before);
      ExecLast(acts);
      OrderStep(before, Exec(before), Exec(acts), a, b);
    }
  }
}
