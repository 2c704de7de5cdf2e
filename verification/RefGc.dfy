/**
  Reference counting and the collector's notification tree of stdObject, as a machine whose steps
  are the critical sections of addref, relref, nRefEvent, gc, gc_thread, wait_stable and finish.

  Objects hash to one of 101 buckets; bucket i > 0 reports to bucket (i-1)/2 by one flag bit.  A
  relref that queues an object leaves a climber at the object's bucket; each climbing step is one
  critical section of the parent bucket.  Any number of threads climb at once, the collector
  included, so climbers are a multiset of positions.
 */
module RefGc {
  import opened Common

  type Addr = nat

  const BUCKETS: nat := 101

  function Home(o: Addr): nat { o % BUCKETS }
  function Parent(i: nat): nat requires i > 0 { (i - 1) / 2 }
  predicate IsLeft(i: nat) requires i > 0 { (i - 1) % 2 == 0 }

  /** ref and watch are the source's ref and refEvent_num; handles counts the references clients
      hold, armed and fired record the drop watch's history. */
  datatype Obj = Obj(ref: int, watch: int, handles: nat, armed: bool, fired: nat)

  /** refList (newest first), the refEvent queue (oldest first) and refFlags of one bucket. */
  datatype Bucket = Bucket(dels: seq<Addr>, evs: seq<Addr>, left: bool, right: bool)
  {
    predicate Idle() { dels == [] && evs == [] && !left && !right }
    predicate Bit(isLeft: bool) { if isLeft then left else right }
    function SetBit(isLeft: bool): Bucket { if isLeft then this.(left := true) else this.(right := true) }
  }

  /** One activation of gc(id): called but not yet past its lock, or working on what it took.
      `owed` is the object whose refEvent() is running and whose relref() is still to come. */
  datatype Frame =
    | Call(id: nat)
    | Body(id: nat, target: seq<Addr>, ev: seq<Addr>, owed: Option<Addr>, left: bool, right: bool)

  datatype Stack = Empty | Push(top: Frame, below: Stack)

  datatype Collector = Top | Waiting(woken: bool) | Sweep(stack: Stack) | Exited

  datatype Finisher = NotCalled | Asleep(woken: bool) | Returned

  /** flag is finish_flag; stableAsleep, stableWoken and stableReturned count the wait_stable() callers
      that sleep un-notified, that were notified but have not re-checked yet, and that have returned. */
  datatype Sync = Sync(gc: Collector, flag: int, finisher: Finisher, stableAsleep: nat, stableWoken: nat, stableReturned: nat)

  datatype State = State(objs: map<Addr, Obj>, buckets: seq<Bucket>, climbers: multiset<nat>, sync: Sync, panic: bool)
  {
    predicate Shaped() { |buckets| == BUCKETS }
    predicate RootIdle() requires Shaped() { buckets[0].Idle() }
    function Frames(): Stack { match sync.gc case Sweep(st) => st case _ => Empty }
  }

  function Initial(): State {
    State(map[], seq(BUCKETS, _ => Bucket([], [], false, false)), multiset{}, Sync(Top, 0, NotCalled, 0, 0, 0), false)
  }

  // ---------------------------------------------------------------- the critical sections

  function Broadcast(y: Sync): Sync {
    Sync(if y.gc.Waiting? then Waiting(true) else y.gc, y.flag,
         if y.finisher.Asleep? then Asleep(true) else y.finisher,
         0, y.stableAsleep + y.stableWoken, y.stableReturned)
  }

  /** The end of relref's first critical section: root work wakes the sleepers, any other bucket
      starts a climb. */
  function Notify(s: State, b: nat): State {
    if b == 0 then s.(sync := Broadcast(s.sync)) else s.(climbers := s.climbers + multiset{b})
  }

  function Relref(s: State, o: Addr): State
    requires s.Shaped() && o in s.objs
  {
    var b := Home(o);
    var x := s.objs[o];
    if x.ref == -1 then s
    else if x.ref <= 0 then s.(panic := true)
    else if x.ref <= x.watch + 1 then
      Notify(s.(objs := s.objs[o := x.(watch := -1)],
                buckets := s.buckets[b := s.buckets[b].(evs := s.buckets[b].evs + [o])]), b)
    else if x.ref != 1 then s.(objs := s.objs[o := x.(ref := x.ref - 1)])
    else
      Notify(s.(objs := s.objs[o := x.(ref := 0)],
                buckets := s.buckets[b := s.buckets[b].(dels := [o] + s.buckets[b].dels)]), b)
  }

  /** One pass of relref's loop: set the bit of `id` in its parent, stop if it was set. */
  function Climb(s: State, id: nat): State
    requires s.Shaped() && 0 < id < BUCKETS && id in s.climbers
  {
    var p := Parent(id);
    var rest := s.climbers - multiset{id};
    if s.buckets[p].Bit(IsLeft(id)) then s.(climbers := rest)
    else
      var s' := s.(buckets := s.buckets[p := s.buckets[p].SetBit(IsLeft(id))], climbers := rest);
      if p == 0 then s'.(sync := Broadcast(s.sync)) else s'.(climbers := rest + multiset{p})
  }

  function WithFrames(s: State, st: Stack): State {
    s.(sync := s.sync.(gc := if st == Empty then Top else Sweep(st)))
  }

  /** gc(id), first critical section: take everything the bucket holds. */
  function Take(s: State, id: nat, below: Stack): State
    requires s.Shaped() && id < BUCKETS
  {
    var b := s.buckets[id];
    WithFrames(s.(buckets := s.buckets[id := Bucket([], [], false, false)]),
               Push(Body(id, b.dels, b.evs, None, b.left, b.right), below))
  }

  /** gc_thread under the root lock: announce stability, then sweep, leave or sleep.  `wakeStable`
      is the scheduler's choice of who receives the single signal at exit. */
  function Decide(s: State, wakeStable: bool): State
    requires s.Shaped()
  {
    if !s.RootIdle() then s.(sync := s.sync.(gc := Sweep(Push(Call(0), Empty))))
    else if s.sync.flag != 0 then s.(sync := Signal(s.sync.(gc := Exited, flag := 2), wakeStable))
    else s.(sync := s.sync.(gc := Waiting(false)))
  }

  function Signal(y: Sync, wakeStable: bool): Sync {
    if y.stableAsleep > 0 && (wakeStable || y.finisher != Asleep(false))
    then y.(stableAsleep := y.stableAsleep - 1, stableWoken := y.stableWoken + 1)
    else if y.finisher == Asleep(false) then y.(finisher := Asleep(true))
    else y
  }

  /** The loop of wait_stable(): a caller returns when the root is idle, and sleeps otherwise. */
  function StableCheck(y: Sync, idle: bool): Sync {
    if idle then y.(stableReturned := y.stableReturned + 1) else y.(stableAsleep := y.stableAsleep + 1)
  }

  datatype Action =
    | New(o: Addr)                        // a constructor: one reference, no drop watch
    | AddRef(o: Addr)                     // by a holder, or by the refEvent() callback itself
    | Release(o: Addr)                    // relref() by a holder
    | Arm(o: Addr, n: nat)                // nRefEvent(n), once per object
    | Disarm(o: Addr)                     // nRefEvent(-1)
    | ClimbStep(id: nat)
    | GcLoop(wakeStable: bool)            // gc_thread at the top of its loop
    | GcWake(wakeStable: bool)            // gc_thread back from the condition variable
    | GcTake | GcDelete | GcFire | GcOwed | GcLeft | GcRight | GcReturn
    | StableCall | StableWake             // wait_stable(): entry, and re-check after a wakeup
    | FinishCall | FinishWake
    | Spurious(who: nat)                  // 0 collector, 1 finish(), 2 one wait_stable()

  predicate Working(s: State) { s.sync.gc.Sweep? && s.sync.gc.stack.Push? && s.sync.gc.stack.top.Body? }

  /** What the source and its client discipline allow next. */
  predicate Enabled(s: State, a: Action) {
    s.Shaped() && !s.panic &&
    match a
    case New(o) => o !in s.objs
    case AddRef(o) => o in s.objs && (s.objs[o].handles > 0 || (Working(s) && s.Frames().top.owed == Some(o)))
    case Release(o) => o in s.objs && s.objs[o].handles > 0
    case Arm(o, n) => o in s.objs && s.objs[o].handles > 0 && !s.objs[o].armed
    case Disarm(o) => o in s.objs && s.objs[o].handles > 0
    case ClimbStep(id) => 0 < id < BUCKETS && id in s.climbers
    case GcLoop(_) => s.sync.gc == Top
    case GcWake(_) => s.sync.gc == Waiting(true)
    case GcTake => s.sync.gc.Sweep? && s.sync.gc.stack.Push? && s.sync.gc.stack.top.Call? && s.sync.gc.stack.top.id < BUCKETS
    case GcDelete => Working(s) && s.Frames().top.target != [] && s.Frames().top.target[0] in s.objs
    case GcFire => Working(s) && s.Frames().top.target == [] && s.Frames().top.owed == None
                   && s.Frames().top.ev != [] && s.Frames().top.ev[0] in s.objs
    case GcOwed => Working(s) && s.Frames().top.owed.Some? && s.Frames().top.owed.value in s.objs
    case GcLeft => Working(s) && Swept(s.Frames().top) && s.Frames().top.left
    case GcRight => Working(s) && Swept(s.Frames().top) && !s.Frames().top.left && s.Frames().top.right
    case GcReturn => Working(s) && Swept(s.Frames().top) && !s.Frames().top.left && !s.Frames().top.right
    case StableCall => true
    case StableWake => s.sync.stableWoken > 0
    case FinishCall => s.sync.finisher == NotCalled
    case FinishWake => s.sync.finisher == Asleep(true)
    case Spurious(who) =>
      if who == 0 then s.sync.gc == Waiting(false)
      else if who == 1 then s.sync.finisher == Asleep(false)
      else s.sync.stableAsleep > 0
  }

  predicate Swept(f: Frame) requires f.Body? { f.target == [] && f.ev == [] && f.owed == None }

  function Next(s: State, a: Action): State
    requires Enabled(s, a)
  {
    match a
    case New(o) => s.(objs := s.objs[o := Obj(1, -1, 1, false, 0)])
    case AddRef(o) =>
      var x := s.objs[o];
      s.(objs := s.objs[o := x.(ref := if x.ref == -1 then -1 else x.ref + 1, handles := x.handles + 1)])
    case Release(o) =>
      var x := s.objs[o];
      Relref(s.(objs := s.objs[o := x.(handles := x.handles - 1)]), o)
    case Arm(o, n) => s.(objs := s.objs[o := s.objs[o].(watch := n, armed := true)])
    case Disarm(o) => s.(objs := s.objs[o := s.objs[o].(watch := -1)])
    case ClimbStep(id) => Climb(s, id)
    case GcLoop(wakeStable) => Decide(if s.RootIdle() then s.(sync := Broadcast(s.sync)) else s, wakeStable)
    case GcWake(wakeStable) => Decide(s, wakeStable)
    case GcTake => Take(s, s.Frames().top.id, s.Frames().below)
    case GcDelete =>
      var f, below := s.Frames().top, s.Frames().below;
      var o := f.target[0];
      var s' := WithFrames(s, Push(f.(target := f.target[1..]), below));
      if s.objs[o].ref != 0 then s'.(panic := true)
      else s'.(objs := s.objs[o := s.objs[o].(ref := -1)])
    case GcFire =>
      var f, below := s.Frames().top, s.Frames().below;
      var o := f.ev[0];
      WithFrames(s.(objs := s.objs[o := s.objs[o].(fired := s.objs[o].fired + 1)]),
                 Push(f.(ev := f.ev[1..], owed := Some(o)), below))
    case GcOwed =>
      var f, below := s.Frames().top, s.Frames().below;
      Relref(WithFrames(s, Push(f.(owed := None), below)), f.owed.value)
    case GcLeft =>
      var f, below := s.Frames().top, s.Frames().below;
      WithFrames(s, Push(Call(2 * f.id + 1), Push(f.(left := false), below)))
    case GcRight =>
      var f, below := s.Frames().top, s.Frames().below;
      WithFrames(s, Push(Call(2 * f.id + 2), Push(f.(right := false), below)))
    case GcReturn => WithFrames(s, s.Frames().below)
    case StableCall => s.(sync := StableCheck(s.sync, s.RootIdle()))
    case StableWake => s.(sync := StableCheck(s.sync.(stableWoken := s.sync.stableWoken - 1), s.RootIdle()))
    case FinishCall => s.(sync := Broadcast(s.sync).(flag := 1, finisher := Asleep(false)))
    case FinishWake => s.(sync := s.sync.(finisher := if s.sync.flag == 1 then Asleep(false) else Returned))
    case Spurious(who) =>
      if who == 0 then s.(sync := s.sync.(gc := Waiting(true)))
      else if who == 1 then s.(sync := s.sync.(finisher := Asleep(true)))
      else s.(sync := s.sync.(stableAsleep := s.sync.stableAsleep - 1, stableWoken := s.sync.stableWoken + 1))
  }

  /** An action that is not enabled is skipped. */
  function Try(s: State, a: Action): State { if Enabled(s, a) then Next(s, a) else s }

  /** Every run: any list of actions from the initial state.  (It is split in three so that a proof
      looks into it only where it calls ExecLast.) */
  function Exec(acts: seq<Action>): State
    decreases |acts|, 2
  {
    if acts == [] then Initial() else After(acts)
  }

  function After(acts: seq<Action>): State
    requires acts != []
    decreases |acts|, 1
  {
    Then(acts[..|acts| - 1], acts[|acts| - 1])
  }

  function Then(acts: seq<Action>, a: Action): State
    decreases |acts| + 1, 0
  {
    Try(Exec(acts), a)
  }

  lemma {:induction false} ExecLast(acts: seq<Action>)
    requires acts != []
    ensures Exec(acts) == Try(Exec(acts[..|acts| - 1]), acts[|acts| - 1])
  {
    assert Exec(acts) == After(acts);
    assert After(acts) == Then(acts[..|acts| - 1], acts[|acts| - 1]);
  }

  lemma {:induction false} ExecSnoc(acts: seq<Action>, a: Action)
    ensures Exec(acts + [a]) == Try(Exec(acts), a)
  {
    ExecLast(acts + [a]);
    assert (acts + [a])[..|acts|] == acts;
  }

  // ---------------------------------------------------------------- the notification tree

  predicate ClaimedBy(f: Frame, i: nat) {
    match f
    case Call(id) => i == id
    case Body(id, _, _, _, left, right) => (left && i == 2 * id + 1) || (right && i == 2 * id + 2)
  }

  /** gc took the report about bucket i and has not yet taken the bucket itself. */
  predicate Claimed(st: Stack, i: nat) {
    st.Push? && (ClaimedBy(st.top, i) || Claimed(st.below, i))
  }

  predicate FrameOk(f: Frame) {
    match f
    case Call(id) => id < BUCKETS
    case Body(id, _, _, _, left, right) => id < BUCKETS && (left ==> 2 * id + 1 < BUCKETS) && (right ==> 2 * id + 2 < BUCKETS)
  }

  predicate StackOk(st: Stack) { st.Push? ==> FrameOk(st.top) && StackOk(st.below) }

  /** Somebody will come for bucket i. */
  predicate Reported(s: State, i: nat)
    requires s.Shaped() && 0 < i < BUCKETS
  {
    s.buckets[Parent(i)].Bit(IsLeft(i)) || i in s.climbers || Claimed(s.Frames(), i)
  }

  ghost predicate TreeInv(s: State) {
    && s.Shaped()
    && (forall c :: c in s.climbers ==> 0 < c < BUCKETS)
    && StackOk(s.Frames())
    && (forall i :: 0 <= i < BUCKETS ==> (s.buckets[i].left ==> 2 * i + 1 < BUCKETS) && (s.buckets[i].right ==> 2 * i + 2 < BUCKETS))
    && (forall i :: 0 < i < BUCKETS && !s.buckets[i].Idle() ==> Reported(s, i))
  }

  lemma TreeFrame(s: State, s': State)
    requires TreeInv(s) && s'.buckets == s.buckets && s'.climbers == s.climbers && StackOk(s'.Frames())
    requires forall i {:trigger Claimed(s'.Frames(), i)} :: Claimed(s.Frames(), i) ==> Claimed(s'.Frames(), i)
    ensures TreeInv(s')
  {
    forall i | 0 < i < BUCKETS && !s'.buckets[i].Idle() ensures Reported(s', i) {
      assert Reported(s, i);
    }
  }

  predicate ByCollector(a: Action) {
    a.GcLoop? || a.GcWake? || a.GcTake? || a.GcDelete? || a.GcFire? || a.GcOwed? || a.GcLeft? || a.GcRight? || a.GcReturn?
  }

  lemma {:induction false} TreePreserved(s: State, a: Action)
    requires TreeInv(s) && Enabled(s, a)
    ensures TreeInv(Next(s, a))
  {
    if ByCollector(a) { CollectorKeepsTree(s, a); } else { ClientKeepsTree(s, a); }
  }

  lemma {:induction false} ClientKeepsTree(s: State, a: Action)
    requires TreeInv(s) && Enabled(s, a) && !ByCollector(a)
    ensures TreeInv(Next(s, a))
  {
    if a.ClimbStep? {
      ClimbKeepsTree(s, a.id);
    } else if a.Release? {
      var s' := s.(objs := s.objs[a.o := s.objs[a.o].(handles := s.objs[a.o].handles - 1)]);
      TreeFrame(s, s');
      RelrefKeepsTree(s', a.o);
    } else {
      TreeFrame(s, Next(s, a));
    }
  }

  lemma {:induction false} CollectorKeepsTree(s: State, a: Action)
    requires TreeInv(s) && Enabled(s, a) && ByCollector(a)
    ensures TreeInv(Next(s, a))
  {
    if a.GcTake? {
      TakeKeepsTree(s);
    } else if a.GcOwed? {
      var f, below := s.Frames().top, s.Frames().below;
      var s' := WithFrames(s, Push(f.(owed := None), below));
      TreeFrame(s, s');
      RelrefKeepsTree(s', f.owed.value);
    } else {
      TreeFrame(s, Next(s, a));
    }
  }

  lemma {:induction false} QueueKeepsTree(s: State, b: nat, nb: Bucket, objs: map<Addr, Obj>)
    requires TreeInv(s) && b < BUCKETS && nb.left == s.buckets[b].left && nb.right == s.buckets[b].right
    ensures TreeInv(Notify(s.(objs := objs, buckets := s.buckets[b := nb]), b))
  {
    var s' := Notify(s.(objs := objs, buckets := s.buckets[b := nb]), b);
    forall i | 0 < i < BUCKETS && !s'.buckets[i].Idle() ensures Reported(s', i) {
      if i != b { assert Reported(s, i); }
    }
  }

  lemma {:induction false} RelrefKeepsTree(s: State, o: Addr)
    requires TreeInv(s) && o in s.objs
    ensures TreeInv(Relref(s, o))
  {
    var x, b := s.objs[o], Home(o);
    var B := s.buckets[b];
    if x.ref == -1 || x.ref <= 0 {
    } else if x.ref <= x.watch + 1 {
      QueueKeepsTree(s, b, B.(evs := B.evs + [o]), s.objs[o := x.(watch := -1)]);
    } else if x.ref == 1 {
      QueueKeepsTree(s, b, B.(dels := [o] + B.dels), s.objs[o := x.(ref := 0)]);
    } else {
      TreeFrame(s, Relref(s, o));
    }
  }

  lemma {:induction false} ClimbKeepsTree(s: State, id: nat)
    requires TreeInv(s) && 0 < id < BUCKETS && id in s.climbers
    ensures TreeInv(Climb(s, id))
  {
    var s' := Climb(s, id);
    forall i | 0 < i < BUCKETS && !s'.buckets[i].Idle() ensures Reported(s', i) {
      if i != Parent(id) { assert Reported(s, i); }
    }
  }

  lemma {:induction false} TakeKeepsTree(s: State)
    requires TreeInv(s) && Enabled(s, GcTake)
    ensures TreeInv(Next(s, GcTake))
  {
  }

  /** No activation of gc on the stack has a bucket still to visit. */
  predicate Unclaimed(st: Stack) {
    st.Push? ==> st.top.Body? && !st.top.left && !st.top.right && Unclaimed(st.below)
  }

  lemma {:induction false} UnclaimedIs(st: Stack, i: nat)
    requires Unclaimed(st)
    ensures !Claimed(st, i)
  {
    if st.Push? { UnclaimedIs(st.below, i); }
  }

  lemma {:induction false} ClaimedIs(st: Stack) returns (i: nat)
    requires !Unclaimed(st)
    ensures Claimed(st, i)
  {
    var f := st.top;
    if f.Call? { i := f.id; } else if f.left { i := 2 * f.id + 1; } else if f.right { i := 2 * f.id + 2; } else { i := ClaimedIs(st.below); }
  }

  ghost predicate NoneClaimed(st: Stack) { forall i: nat :: !Claimed(st, i) }

  /** That is: gc has claimed no bucket that it has not visited. */
  lemma {:induction false} UnclaimedMeans(st: Stack)
    ensures Unclaimed(st) <==> NoneClaimed(st)
  {
    if Unclaimed(st) {
      forall i: nat ensures !Claimed(st, i) { UnclaimedIs(st, i); }
    } else {
      var i := ClaimedIs(st);
      assert !NoneClaimed(st);
    }
  }

  /** With nobody climbing and nothing claimed, an idle root means that every bucket is idle. */
  lemma {:induction false} QuiescentBucket(s: State, i: nat)
    requires TreeInv(s) && s.climbers == multiset{} && s.RootIdle() && Unclaimed(s.Frames()) && i < BUCKETS
    ensures s.buckets[i].Idle()
    decreases i
  {
    if i > 0 {
      QuiescentBucket(s, Parent(i));
      UnclaimedIs(s.Frames(), i);
    }
  }

  // ---------------------------------------------------------------- sleeping and waking

  /** The collector sleeps un-notified only with an idle root and no shutdown request, and while it
      is parked over an idle root no wait_stable() caller sleeps un-notified. */
  predicate SyncInv(s: State) {
    s.Shaped() &&
    var y := s.sync;
    && 0 <= y.flag <= 2
    && (y.flag == 0 <==> y.finisher == NotCalled)
    && (y.flag == 2 <==> y.gc == Exited)
    && (y.finisher == Asleep(false) ==> y.flag == 1)
    && (y.finisher == Returned ==> y.flag == 2)
    && (y.gc == Waiting(false) ==> s.RootIdle() && y.flag == 0)
    && (y.gc.Waiting? && s.RootIdle() ==> y.stableAsleep == 0)
  }

  lemma {:induction false} RelrefKeepsSync(s: State, o: Addr)
    requires SyncInv(s) && o in s.objs
    ensures SyncInv(Relref(s, o)) && Relref(s, o).sync.gc.Sweep? == s.sync.gc.Sweep?
  {
  }

  lemma {:induction false} SyncPreserved(s: State, a: Action)
    requires SyncInv(s) && Enabled(s, a)
    ensures SyncInv(Next(s, a))
  {
    if ByCollector(a) { CollectorKeepsSync(s, a); } else { ClientKeepsSync(s, a); }
  }

  lemma {:induction false} ClientKeepsSync(s: State, a: Action)
    requires SyncInv(s) && Enabled(s, a) && !ByCollector(a)
    ensures SyncInv(Next(s, a))
  {
    if a.Release? {
      RelrefKeepsSync(s.(objs := s.objs[a.o := s.objs[a.o].(handles := s.objs[a.o].handles - 1)]), a.o);
    }
  }

  lemma {:induction false} CollectorKeepsSync(s: State, a: Action)
    requires SyncInv(s) && Enabled(s, a) && ByCollector(a)
    ensures SyncInv(Next(s, a))
  {
    if a.GcOwed? {
      var f, below := s.Frames().top, s.Frames().below;
      RelrefKeepsSync(WithFrames(s, Push(f.(owed := None), below)), f.owed.value);
    }
  }

  // ---------------------------------------------------------------- reference accounting

  function DelsIn(bs: seq<Bucket>, o: Addr): nat {
    if bs == [] then 0 else multiset(bs[0].dels)[o] + DelsIn(bs[1..], o)
  }

  function EvsIn(bs: seq<Bucket>, o: Addr): nat {
    if bs == [] then 0 else multiset(bs[0].evs)[o] + EvsIn(bs[1..], o)
  }

  function DelsOf(st: Stack, o: Addr): nat {
    match st
    case Empty => 0
    case Push(f, below) => (if f.Body? then multiset(f.target)[o] else 0) + DelsOf(below, o)
  }

  function EvsOf(st: Stack, o: Addr): nat {
    match st
    case Empty => 0
    case Push(f, below) => (if f.Body? then multiset(f.ev)[o] else 0) + EvsOf(below, o)
  }

  function OwedOf(st: Stack, o: Addr): nat {
    match st
    case Empty => 0
    case Push(f, below) => (if f.Body? && f.owed == Some(o) then 1 else 0) + OwedOf(below, o)
  }

  /** Places of o in delete lists, in refEvent queues, and refEvent callbacks of o in progress. */
  function Doomed(s: State, o: Addr): nat { DelsIn(s.buckets, o) + DelsOf(s.Frames(), o) }
  function Queued(s: State, o: Addr): nat { EvsIn(s.buckets, o) + EvsOf(s.Frames(), o) }
  function Firing(s: State, o: Addr): nat { OwedOf(s.Frames(), o) }

  /** An object of which d delete-list places, q queued refEvents and p running refEvents exist. */
  predicate ObjInv(x: Obj, d: nat, q: nat, p: nat) {
    && x.watch >= -1
    && (if x.ref == -1 then x.handles == 0 && d == q == p == 0
        else x.ref == x.handles + q + p && q + p <= 1 && d == (if x.ref == 0 then 1 else 0))
    && x.fired <= 1
    && (x.fired == 1 ==> x.armed)
    && (x.watch >= 0 ==> x.armed && x.fired == 0 && q == p == 0)
    && (q == 1 ==> x.armed && x.fired == 0)
    && (p == 1 ==> x.fired == 1)
  }

  predicate ObjOk(s: State, o: Addr) {
    var d, q, p := Doomed(s, o), Queued(s, o), Firing(s, o);
    if o in s.objs then ObjInv(s.objs[o], d, q, p) else d == q == p == 0
  }

  ghost predicate RefInv(s: State) {
    s.Shaped() && !s.panic && forall o: Addr :: ObjOk(s, o)
  }

  lemma {:induction false} BucketUpdate(bs: seq<Bucket>, i: nat, nb: Bucket, o: Addr)
    requires i < |bs|
    ensures DelsIn(bs[i := nb], o) + multiset(bs[i].dels)[o] == DelsIn(bs, o) + multiset(nb.dels)[o]
    ensures EvsIn(bs[i := nb], o) + multiset(bs[i].evs)[o] == EvsIn(bs, o) + multiset(nb.evs)[o]
    decreases |bs|
  {
    var bs' := bs[i := nb];
    if i == 0 {
      assert bs'[1..] == bs[1..];
    } else {
      BucketUpdate(bs[1..], i - 1, nb, o);
      assert bs'[1..] == bs[1..][i - 1 := nb];
    }
  }

  lemma {:induction false} NoneInitially(bs: seq<Bucket>, o: Addr)
    requires forall b :: b in bs ==> b.dels == [] && b.evs == []
    ensures DelsIn(bs, o) == 0 && EvsIn(bs, o) == 0
  {
    if bs != [] {
      NoneInitially(bs[1..], o);
    }
  }

  lemma {:induction false} QueueCounts(s: State, b: nat, nb: Bucket, objs: map<Addr, Obj>, t: Addr)
    requires s.Shaped() && b < BUCKETS
    ensures var s' := Notify(s.(objs := objs, buckets := s.buckets[b := nb]), b);
            && s'.Shaped() && s'.panic == s.panic && s'.objs == objs && Firing(s', t) == Firing(s, t)
            && Queued(s', t) == Queued(s, t) - multiset(s.buckets[b].evs)[t] + multiset(nb.evs)[t]
            && Doomed(s', t) == Doomed(s, t) - multiset(s.buckets[b].dels)[t] + multiset(nb.dels)[t]
  {
    var s' := Notify(s.(objs := objs, buckets := s.buckets[b := nb]), b);
    assert s'.buckets == s.buckets[b := nb] && s'.Frames() == s.Frames();
    BucketUpdate(s.buckets, b, nb, t);
  }

  /** What one relref of o does to the counts of t. */
  lemma {:induction false} RelrefCounts(s: State, o: Addr, t: Addr)
    requires s.Shaped() && o in s.objs && s.objs[o].ref > 0
    ensures var s', x := Relref(s, o), s.objs[o];
            var fires, dies := x.ref <= x.watch + 1, x.ref == 1 && x.ref > x.watch + 1;
            && s'.Shaped() && s'.panic == s.panic
            && s'.objs == s.objs[o := if fires then x.(watch := -1) else x.(ref := x.ref - 1)]
            && Firing(s', t) == Firing(s, t)
            && Queued(s', t) == Queued(s, t) + (if fires && t == o then 1 else 0)
            && Doomed(s', t) == Doomed(s, t) + (if dies && t == o then 1 else 0)
  {
    var x, b := s.objs[o], Home(o);
    var B := s.buckets[b];
    if x.ref <= x.watch + 1 {
      QueueCounts(s, b, B.(evs := B.evs + [o]), s.objs[o := x.(watch := -1)], t);
    } else if x.ref == 1 {
      QueueCounts(s, b, B.(dels := [o] + B.dels), s.objs[o := x.(ref := 0)], t);
    }
  }

  /** An object that was given one more reference than its holders and lists account for: a release of
      it is due. */
  predicate ReleaseDue(s: State, o: Addr) {
    o in s.objs &&
    var x, q, p := s.objs[o], Queued(s, o), Firing(s, o);
    && Doomed(s, o) == 0 && x.ref == x.handles + q + p + 1 && q + p <= 1
    && x.watch >= -1 && x.fired <= 1 && (x.fired == 1 ==> x.armed)
    && (x.watch >= 0 ==> x.armed && x.fired == 0 && q == p == 0)
    && (q == 1 ==> x.armed && x.fired == 0) && (p == 1 ==> x.fired == 1)
  }

  /** relref settles it and leaves the other objects alone. */
  lemma {:induction false} RelrefSettles(s: State, o: Addr, t: Addr)
    requires s.Shaped() && !s.panic && ReleaseDue(s, o) && (t != o ==> ObjOk(s, t))
    ensures var s' := Relref(s, o); s'.Shaped() && !s'.panic && ObjOk(s', t)
  {
    RelrefCounts(s, o, t);
  }

  lemma {:induction false} ReleaseKeepsRefs(s: State, o: Addr)
    requires RefInv(s) && Enabled(s, Release(o))
    ensures RefInv(Next(s, Release(o)))
  {
    var x := s.objs[o];
    var s1 := s.(objs := s.objs[o := x.(handles := x.handles - 1)]);
    assert ObjOk(s, o);
    assert ReleaseDue(s1, o);
    forall t: Addr ensures s1.Shaped() && var s' := Relref(s1, o); s'.Shaped() && !s'.panic && ObjOk(s', t) {
      assert ObjOk(s, t);
      RelrefSettles(s1, o, t);
    }
    assert Next(s, Release(o)) == Relref(s1, o);
    assert ObjOk(Relref(s1, o), o);
  }

  /** The counts of t before and after the collector lets go of the object it owes a release. */
  lemma {:induction false} OwedCounts(s: State, t: Addr)
    requires s.Shaped() && Enabled(s, GcOwed)
    ensures var f, below := s.Frames().top, s.Frames().below;
            var s1 := WithFrames(s, Push(f.(owed := None), below));
            && s1.Shaped() && s1.objs == s.objs && s1.panic == s.panic
            && Doomed(s1, t) == Doomed(s, t) && Queued(s1, t) == Queued(s, t)
            && Firing(s1, t) == Firing(s, t) - if f.owed == Some(t) then 1 else 0
  {
  }

  lemma {:induction false} OwedKeepsRefs(s: State)
    requires RefInv(s) && Enabled(s, GcOwed)
    ensures RefInv(Next(s, GcOwed))
  {
    var f, below := s.Frames().top, s.Frames().below;
    var o := f.owed.value;
    var s1 := WithFrames(s, Push(f.(owed := None), below));
    assert ObjOk(s, o);
    OwedCounts(s, o);
    assert ReleaseDue(s1, o);
    forall t: Addr ensures s1.Shaped() && var s' := Relref(s1, o); s'.Shaped() && !s'.panic && ObjOk(s', t) {
      assert ObjOk(s, t);
      OwedCounts(s, t);
      RelrefSettles(s1, o, t);
    }
    assert Next(s, GcOwed) == Relref(s1, o);
    assert ObjOk(Relref(s1, o), o);
  }

  /** Steps that touch no list: every object keeps its counts. */
  lemma {:induction false} SameLists(s: State, s': State)
    requires RefInv(s) && s'.buckets == s.buckets && s'.objs == s.objs && s'.panic == s.panic
    requires forall t: Addr {:trigger DelsOf(s'.Frames(), t)} :: DelsOf(s'.Frames(), t) == DelsOf(s.Frames(), t)
    requires forall t: Addr {:trigger EvsOf(s'.Frames(), t)} :: EvsOf(s'.Frames(), t) == EvsOf(s.Frames(), t)
    requires forall t: Addr {:trigger OwedOf(s'.Frames(), t)} :: OwedOf(s'.Frames(), t) == OwedOf(s.Frames(), t)
    ensures RefInv(s')
  {
    forall t: Addr ensures ObjOk(s', t) { assert ObjOk(s, t); }
  }

  /** Steps that change one object and no list. */
  lemma {:induction false} OneObject(s: State, o: Addr, x: Obj)
    requires RefInv(s) && ObjInv(x, Doomed(s, o), Queued(s, o), Firing(s, o))
    ensures RefInv(s.(objs := s.objs[o := x]))
  {
    var s' := s.(objs := s.objs[o := x]);
    forall t: Addr ensures ObjOk(s', t) { assert ObjOk(s, t); }
  }

  lemma {:induction false} ClientKeepsRefs(s: State, a: Action)
    requires RefInv(s) && Enabled(s, a) && (a.New? || a.AddRef? || a.Arm? || a.Disarm?)
    ensures RefInv(Next(s, a))
  {
    assert ObjOk(s, a.o);
    match a
    case New(o) => OneObject(s, o, Obj(1, -1, 1, false, 0));
    case AddRef(o) => OneObject(s, o, Next(s, a).objs[o]);
    case Arm(o, n) => OneObject(s, o, s.objs[o].(watch := n, armed := true));
    case Disarm(o) => OneObject(s, o, s.objs[o].(watch := -1));
  }

  lemma {:induction false} TakeKeepsRefs(s: State)
    requires RefInv(s) && Enabled(s, GcTake)
    ensures RefInv(Next(s, GcTake))
  {
    var id, s' := s.Frames().top.id, Next(s, GcTake);
    forall t: Addr ensures ObjOk(s', t) {
      assert ObjOk(s, t);
      BucketUpdate(s.buckets, id, Bucket([], [], false, false), t);
    }
  }

  lemma FirstOf(l: seq<Addr>, t: Addr)
    requires l != []
    ensures multiset(l)[t] == multiset(l[1..])[t] + if t == l[0] then 1 else 0
  {
    assert l == [l[0]] + l[1..];
  }

  lemma {:induction false} DeleteKeepsRefs(s: State)
    requires RefInv(s) && Enabled(s, GcDelete)
    ensures RefInv(Next(s, GcDelete))
  {
    var f, s' := s.Frames().top, Next(s, GcDelete);
    var o := f.target[0];
    assert ObjOk(s, o);
    FirstOf(f.target, o);
    forall t: Addr ensures ObjOk(s', t) {
      assert ObjOk(s, t);
      FirstOf(f.target, t);
    }
  }

  lemma {:induction false} FireKeepsRefs(s: State)
    requires RefInv(s) && Enabled(s, GcFire)
    ensures RefInv(Next(s, GcFire))
  {
    var f, s' := s.Frames().top, Next(s, GcFire);
    var o := f.ev[0];
    assert ObjOk(s, o);
    FirstOf(f.ev, o);
    forall t: Addr ensures ObjOk(s', t) {
      assert ObjOk(s, t);
      FirstOf(f.ev, t);
    }
  }

  /** Changing only the flag bits of one bucket. */
  lemma {:induction false} FlagsKeepRefs(s: State, p: nat, nb: Bucket, s': State)
    requires RefInv(s) && p < BUCKETS && nb.dels == s.buckets[p].dels && nb.evs == s.buckets[p].evs
    requires s'.buckets == s.buckets[p := nb] && s'.objs == s.objs && s'.panic == s.panic && s'.Frames() == s.Frames()
    ensures RefInv(s')
  {
    forall t: Addr ensures ObjOk(s', t) {
      assert ObjOk(s, t);
      BucketUpdate(s.buckets, p, nb, t);
    }
  }

  lemma {:induction false} ClimbKeepsRefs(s: State, id: nat)
    requires RefInv(s) && Enabled(s, ClimbStep(id))
    ensures RefInv(Next(s, ClimbStep(id)))
  {
    var p, s' := Parent(id), Next(s, ClimbStep(id));
    if s.buckets[p].Bit(IsLeft(id)) {
      FlagsKeepRefs(s, p, s.buckets[p], s');
    } else {
      FlagsKeepRefs(s, p, s.buckets[p].SetBit(IsLeft(id)), s');
    }
  }

  lemma {:induction false} CollectorKeepsRefs(s: State, a: Action)
    requires RefInv(s) && Enabled(s, a) && ByCollector(a)
    ensures RefInv(Next(s, a))
  {
    if a.GcTake? {
      TakeKeepsRefs(s);
    } else if a.GcDelete? {
      DeleteKeepsRefs(s);
    } else if a.GcFire? {
      FireKeepsRefs(s);
    } else if a.GcOwed? {
      OwedKeepsRefs(s);
    } else {
      SameLists(s, Next(s, a));
    }
  }

  lemma {:induction false} RefPreserved(s: State, a: Action)
    requires RefInv(s) && Enabled(s, a)
    ensures RefInv(Next(s, a))
  {
    if ByCollector(a) {
      CollectorKeepsRefs(s, a);
    } else if a.New? || a.AddRef? || a.Arm? || a.Disarm? {
      ClientKeepsRefs(s, a);
    } else if a.Release? {
      ReleaseKeepsRefs(s, a.o);
    } else if a.ClimbStep? {
      ClimbKeepsRefs(s, a.id);
    } else {
      SameLists(s, Next(s, a));
    }
  }

  // ---------------------------------------------------------------- the theorems, over every run

  ghost predicate Inv(s: State) { TreeInv(s) && SyncInv(s) && RefInv(s) }

  lemma {:induction false} InvPreserved(s: State, a: Action)
    requires Inv(s) && Enabled(s, a)
    ensures Inv(Next(s, a))
  {
    TreePreserved(s, a);
    SyncPreserved(s, a);
    RefPreserved(s, a);
  }

  lemma {:induction false} InvAlways(acts: seq<Action>)
    ensures Inv(Exec(acts))
  {
    if acts == [] {
      var s := Initial();
      forall o: Addr ensures ObjOk(s, o) { NoneInitially(s.buckets, o); }
    } else {
      var s, a := Exec(acts[..|acts| - 1]), acts[|acts| - 1];
      InvAlways(acts[..|acts| - 1]);
      ExecLast(acts);
      if Enabled(s, a) { InvPreserved(s, a); }
    }
  }

  /** No work is ever stranded: in every run each non-root bucket with work has its parent's bit
      set, a climber standing at it, or is claimed by the collector and not yet visited.  So when the
      root is idle, nobody climbs and nothing is claimed, all 101 buckets are idle. */
  lemma NothingStranded(acts: seq<Action>)
    ensures var s := Exec(acts);
            && s.Shaped()
            && (forall i :: 0 < i < BUCKETS && !s.buckets[i].Idle() ==> Reported(s, i))
            && (s.RootIdle() && s.climbers == multiset{} && Unclaimed(s.Frames()) ==>
                  forall i :: 0 <= i < BUCKETS ==> s.buckets[i].Idle())
  {
    InvAlways(acts);
    var s := Exec(acts);
    if s.RootIdle() && s.climbers == multiset{} && Unclaimed(s.Frames()) {
      forall i | 0 <= i < BUCKETS ensures s.buckets[i].Idle() { QuiescentBucket(s, i); }
    }
  }

  ghost predicate Reachable(s: State) { exists acts :: Exec(acts) == s }

  lemma {:induction false} ReachStep(s: State, a: Action)
    requires Reachable(s) && Enabled(s, a)
    ensures Reachable(Next(s, a))
  {
    var acts :| Exec(acts) == s;
    ExecSnoc(acts, a);
    assert Exec(acts + [a]) == Next(s, a);
  }

  /** An object of bucket 1 has been released and reported to the root. */
  lemma {:induction false} ReachReported() returns (s: State)
    ensures Reachable(s) && s.Shaped() && !s.panic && s.climbers == multiset{} && s.sync.gc == Top
    ensures s.buckets[1].dels == [1] && s.buckets[0] == Bucket([], [], true, false)
  {
    s := Initial();
    assert Exec([]) == s;
    ReachStep(s, New(1));
    s := Next(s, New(1));
    ReachStep(s, Release(1));
    s := Next(s, Release(1));
    ReachStep(s, ClimbStep(1));
    s := Next(s, ClimbStep(1));
  }

  /** An idle root alone is not quiescence: gc(0) empties the root before it visits the children. */
  lemma {:induction false} RootIdleIsNotEnough() returns (acts: seq<Action>)
    ensures var s := Exec(acts); s.Shaped() && s.RootIdle() && s.climbers == multiset{} && s.buckets[1].dels == [1]
  {
    var s := ReachReported();
    ReachStep(s, GcLoop(false));
    s := Next(s, GcLoop(false));
    ReachStep(s, GcTake);
    s := Next(s, GcTake);
    acts :| Exec(acts) == s;
  }

  /** Shutdown never reaches mutual sleep.  While the collector lives, a finish() or wait_stable()
      that sleeps un-notified means that the collector is awake or already notified; once it has
      exited, finish() is not left asleep. */
  lemma NoMutualSleep(acts: seq<Action>)
    ensures var y := Exec(acts).sync;
            && (y.gc != Exited && (y.finisher == Asleep(false) || y.stableAsleep > 0) ==> y.gc != Waiting(false))
            && (y.gc == Exited ==> y.finisher == Asleep(true) || y.finisher == Returned)
  {
    InvAlways(acts);
  }

  /** The single signal at the collector's exit has no other taker: whoever the scheduler would
      prefer, the outcome is the same, and finish() does not stay asleep. */
  lemma ExitSignalReachesFinish(acts: seq<Action>, a: Action, b: Action)
    requires (a.GcLoop? && b.GcLoop?) || (a.GcWake? && b.GcWake?)
    requires Enabled(Exec(acts), a) && Next(Exec(acts), a).sync.gc == Exited
    ensures Next(Exec(acts), a) == Next(Exec(acts), b)
    ensures Next(Exec(acts), a).sync.finisher != Asleep(false)
  {
    InvAlways(acts);
    SyncPreserved(Exec(acts), a);
  }

  /** In every run the counts are exact: ref is the number of handles plus the one decrement owed
      to a queued or running refEvent, an object is in at most one place of the collector's lists,
      refEvent runs at most once, an object is on its way to deletion exactly when ref is zero, and
      neither panic of the source is reached. */
  lemma CountsExact(acts: seq<Action>)
    ensures var s := Exec(acts);
            && !s.panic
            && forall o :: o in s.objs ==>
                 var x := s.objs[o];
                 && Doomed(s, o) + Queued(s, o) + Firing(s, o) <= 1
                 && x.fired <= 1
                 && (x.ref != -1 ==> x.ref == x.handles + Queued(s, o) + Firing(s, o) && (x.ref == 0 <==> Doomed(s, o) == 1))
                 && (x.ref == -1 ==> x.handles == 0 && Doomed(s, o) == Queued(s, o) == Firing(s, o) == 0)
                 && (Queued(s, o) == 1 ==> x.fired == 0)
                 && (Firing(s, o) == 1 ==> x.fired == 1)
  {
    InvAlways(acts);
    var s := Exec(acts);
    forall o | o in s.objs ensures ObjOk(s, o) { }
  }

  /** Deletion is final: a deleted object is never touched again, so it is deleted once. */
  lemma {:induction false} DeletedForever(acts: seq<Action>, more: seq<Action>, o: Addr)
    requires o in Exec(acts).objs && Exec(acts).objs[o].ref == -1
    ensures o in Exec(acts + more).objs && Exec(acts + more).objs[o] == Exec(acts).objs[o]
    decreases |more|
  {
    if more == [] {
      assert acts + more == acts;
    } else {
      var m := more[..|more| - 1];
      assert (acts + more)[..|acts + more| - 1] == acts + m;
      DeletedForever(acts, m, o);
      InvAlways(acts + m);
      ExecLast(acts + more);
      DeadUntouched(Exec(acts + m), more[|more| - 1], o);
      assert Exec(acts + more) == Try(Exec(acts + m), more[|more| - 1]);
    }
  }

  lemma {:induction false} DeadUntouched(s: State, a: Action, o: Addr)
    requires Inv(s) && o in s.objs && s.objs[o].ref == -1
    ensures o in Try(s, a).objs && Try(s, a).objs[o] == s.objs[o]
  {
    assert ObjOk(s, o);
    if Enabled(s, a) {
      if a.Release? {
        RelrefTouches(s.(objs := s.objs[a.o := s.objs[a.o].(handles := s.objs[a.o].handles - 1)]), a.o, o);
      } else if a.GcOwed? {
        var f, below := s.Frames().top, s.Frames().below;
        RelrefTouches(WithFrames(s, Push(f.(owed := None), below)), f.owed.value, o);
      } else if a.GcDelete? {
        FirstOf(s.Frames().top.target, o);
      } else if a.GcFire? {
        FirstOf(s.Frames().top.ev, o);
      }
    }
  }

  lemma {:induction false} RelrefTouches(s: State, t: Addr, o: Addr)
    requires s.Shaped() && t in s.objs && o in s.objs && t != o
    ensures o in Relref(s, t).objs && Relref(s, t).objs[o] == s.objs[o]
  {
  }
}
