/**
  stdLimitSemaphore.  A caller that finds no slot is queued and yields; a slot that comes free wakes
  the head of the queue, which then calls get() again.  Runs interleave any number of callers with
  changes of the limit.
 */
module LimitSemaphore {
  import opened WaitQueue
  import opened WaitQueues

  /** holders: who has a slot.  wants: callers whose last get() was not granted.  woken: callers taken
      off the queue that have not called again yet. */
  datatype State = State(
    count: int, limit: int, prio: bool, neq: bool, wait: seq<Waiter>,
    holders: multiset<nat>, wants: set<nat>, woken: set<nat>)

  function Initial(limit: int): State { State(0, limit, false, true, [], multiset{}, {}, {}) }

  function Waiting(s: State): (r: set<nat>)
    ensures r == Ids(s.wait)
  {
    set i | 0 <= i < |s.wait| :: s.wait[i].id
  }

  /** get() by c, whose priority is pri. */
  function GetStep(s: State, c: nat, pri: int): State {
    var s' := s.(woken := s.woken - {c}, wants := s.wants + {c});
    if s.count < s.limit then s'.(count := s.count + 1, holders := s.holders + multiset{c}, wants := s.wants - {c})
    else if c in Waiting(s) then s'
    else s'.(wait := Ins(s.wait, Waiter(if s.prio then pri else MAX_INTEGER64, c), s.neq))
  }

  /** The head of the queue is woken. */
  function Wake(s: State): State {
    if s.wait == [] then s else s.(wait := s.wait[1..], woken := s.woken + {s.wait[0].id})
  }

  function WakeMany(s: State, n: nat): State
    decreases n
  {
    if n == 0 || s.wait == [] then s else WakeMany(Wake(s), n - 1)
  }

  function ReleaseStep(s: State, c: nat): State {
    var s' := s.(count := s.count - 1, holders := s.holders - multiset{c});
    if s'.count >= s.limit then s' else Wake(s')
  }

  function LimitStep(s: State, lim: int): State {
    if lim < 1 || s.limit == lim then s
    else if s.limit > lim then s.(limit := lim)
    else WakeMany(s.(limit := lim), lim - s.limit)
  }

  datatype Action =
    | DoGet(c: nat, pri: int)
    | DoRelease(c: nat)
    | DoLimit(lim: int)
    | DoPrio(v: bool)
    | DoNeq(v: bool)

  /** ready: callers keep to is_ready, that is, they call get() only while not queued. */
  predicate Enabled(ready: bool, s: State, a: Action) {
    match a
    case DoGet(c, pri) => pri <= MAX_INTEGER64 && (ready ==> c !in Waiting(s))
    case DoRelease(c) => c in s.holders
    case _ => true
  }

  function Next(ready: bool, s: State, a: Action): State
    requires Enabled(ready, s, a)
  {
    match a
    case DoGet(c, pri) => GetStep(s, c, pri)
    case DoRelease(c) => ReleaseStep(s, c)
    case DoLimit(lim) => LimitStep(s, lim)
    case DoPrio(v) => s.(prio := v)
    case DoNeq(v) => s.(neq := v)
  }

  function Exec(ready: bool, limit: int, acts: seq<Action>): State {
    if acts == [] then Initial(limit)
    else
      var s := Exec(ready, limit, acts[..|acts| - 1]);
      if Enabled(ready, s, acts[|acts| - 1]) then Next(ready, s, acts[|acts| - 1]) else s
  }

  // ---------------------------------------------------------------- what every call keeps

  ghost predicate Inv(s: State) {
    s.count == |s.holders| && Sorted(s.wait) && Distinct(s.wait)
  }

  /** No free slot is stranded: while callers wait, there are no more free slots than woken callers
      about to try again. */
  ghost predicate NoneStranded(s: State) {
    s.wait != [] ==> s.limit - s.count <= |s.woken * s.wants|
  }

  /** Whoever wants a slot is queued or woken, not both. */
  ghost predicate Parted(s: State) {
    s.woken !! Ids(s.wait) && s.wants == s.woken + Ids(s.wait)
  }

  ghost predicate Served(s: State) {
    Parted(s) && (s.wait != [] ==> s.limit - s.count <= |s.woken|)
  }

  lemma {:induction false} InsKeeps(l: seq<Waiter>, w: Waiter, neq: bool)
    requires Sorted(l) && w.key <= MAX_INTEGER64
    ensures var r := Ins(l, w, neq);
      Sorted(r) && Ids(r) == Ids(l) + {w.id} && (Distinct(l) && w.id !in Ids(l) ==> Distinct(r))
  {
    if w.key == MAX_INTEGER64 {
      TailIsLast(l, w);
      InsAtKeeps(l, w, true);
    } else {
      InsAtKeeps(l, w, neq);
    }
  }

  /** A call of get() takes a slot only below the limit. */
  lemma {:induction false} GetKeeps(s: State, c: nat, pri: int)
    requires Inv(s) && pri <= MAX_INTEGER64
    ensures Inv(GetStep(s, c, pri))
    ensures var s' := GetStep(s, c, pri); s'.count != s.count ==> s'.count == s.count + 1 <= s.limit && s'.holders == s.holders + multiset{c}
  {
    InsKeeps(s.wait, Waiter(if s.prio then pri else MAX_INTEGER64, c), s.neq);
  }

  /** The bookkeeping of one caller that is not queued. */
  lemma CallerMoves(woken: set<nat>, queued: set<nat>, wants: set<nat>, c: nat)
    requires woken !! queued && wants == woken + queued && c !in queued
    ensures (woken - {c}) !! queued && wants - {c} == (woken - {c}) + queued
    ensures (woken - {c}) !! (queued + {c}) && wants + {c} == (woken - {c}) + (queued + {c})
    ensures |woken - {c}| >= |woken| - 1
  {
  }

  lemma {:induction false} GetServes(s: State, c: nat, pri: int)
    requires Inv(s) && Served(s) && pri <= MAX_INTEGER64 && c !in Waiting(s)
    ensures Served(GetStep(s, c, pri))
  {
    var w := Waiter(if s.prio then pri else MAX_INTEGER64, c);
    var q := Ids(s.wait);
    CallerMoves(s.woken, q, s.wants, c);
    if s.count < s.limit {
      assert GetStep(s, c, pri).wait == s.wait;
    } else {
      InsKeeps(s.wait, w, s.neq);
      assert GetStep(s, c, pri).wait == Ins(s.wait, w, s.neq);
    }
  }

  lemma {:induction false} TailKeeps(l: seq<Waiter>)
    requires l != [] && Sorted(l) && Distinct(l)
    ensures Sorted(l[1..]) && Distinct(l[1..])
  {
    var r := l[1..];
    assert forall i :: 0 <= i < |r| ==> r[i] == l[i + 1];
  }

  lemma {:induction false} HeadOut(l: seq<Waiter>)
    requires l != [] && Distinct(l)
    ensures Ids(l) == Ids(l[1..]) + {l[0].id} && l[0].id !in Ids(l[1..])
  {
    forall x | x in Ids(l) && x != l[0].id ensures x in Ids(l[1..]) {
      var i :| 0 <= i < |l| && l[i].id == x;
      assert l[1..][i - 1].id == x;
    }
    forall x | x in Ids(l[1..]) ensures x in Ids(l) && x != l[0].id {
      var i :| 0 <= i < |l[1..]| && l[1..][i].id == x;
      assert l[i + 1].id == x;
    }
    assert l[0].id in Ids(l);
  }

  lemma HeadMoves(woken: set<nat>, queued: set<nat>, rest: set<nat>, wants: set<nat>, c: nat)
    requires woken !! queued && wants == woken + queued && queued == rest + {c} && c !in rest
    ensures (woken + {c}) !! rest && wants == (woken + {c}) + rest && |woken + {c}| == |woken| + 1
  {
  }

  /** Waking the head takes it off the queue and adds it to the woken. */
  lemma {:induction false} WakeKeeps(s: State, t: State)
    requires Inv(s) && Parted(s) && t == Wake(s)
    ensures Inv(t) && Parted(t) && t.count == s.count && t.limit == s.limit
    ensures s.wait != [] ==> |t.woken| == |s.woken| + 1
  {
    if s.wait != [] {
      TailKeeps(s.wait);
      HeadOut(s.wait);
      assert t.wait == s.wait[1..] && t.woken == s.woken + {s.wait[0].id};
      HeadMoves(s.woken, Ids(s.wait), Ids(s.wait[1..]), s.wants, s.wait[0].id);
    }
  }

  lemma {:induction false} WakeManyEnds(s: State, n: nat)
    requires n == 0 || s.wait == []
    ensures WakeMany(s, n) == s
  {
  }

  lemma {:induction false} WakeManyGoesOn(s: State, n: nat)
    requires n > 0 && s.wait != []
    ensures WakeMany(s, n) == WakeMany(Wake(s), n - 1)
  {
  }

  /** r is s after n wakeups. */
  lemma {:induction false} WakeManyKeeps(s: State, n: nat, r: State)
    requires Inv(s) && Parted(s) && r == WakeMany(s, n)
    ensures Inv(r) && Parted(r) && r.count == s.count && r.limit == s.limit
    ensures r.wait != [] ==> |r.woken| == |s.woken| + n
    decreases n
  {
    if n == 0 || s.wait == [] {
      WakeManyEnds(s, n);
    } else {
      var t := Wake(s);
      WakeManyGoesOn(s, n);
      WakeKeeps(s, t);
      WakeManyKeeps(t, n - 1, r);
    }
  }

  lemma {:induction false} WakeInv(s: State, n: nat)
    requires Inv(s)
    ensures Inv(Wake(s)) && Inv(WakeMany(s, n))
    decreases n
  {
    if n > 0 && s.wait != [] { WakeInv(Wake(s), n - 1); }
  }

  lemma {:induction false} StepKeeps(ready: bool, s: State, a: Action)
    requires Inv(s) && Enabled(ready, s, a)
    ensures Inv(Next(ready, s, a))
  {
    if a.DoGet? {
      GetKeeps(s, a.c, a.pri);
    } else if a.DoRelease? {
      WakeInv(s.(count := s.count - 1, holders := s.holders - multiset{a.c}), 0);
    } else if a.DoLimit? && s.limit < a.lim {
      WakeInv(s.(limit := a.lim), a.lim - s.limit);
    }
  }

  lemma {:induction false} ReleaseServes(s: State, c: nat)
    requires Inv(s) && Served(s) && c in s.holders
    ensures Served(ReleaseStep(s, c))
  {
    var s' := s.(count := s.count - 1, holders := s.holders - multiset{c});
    assert Inv(s');
    WakeKeeps(s', Wake(s'));
  }

  lemma {:induction false} LimitServes(s: State, lim: int)
    requires Inv(s) && Served(s)
    ensures Served(LimitStep(s, lim))
  {
    if lim >= 1 && s.limit < lim {
      WakeManyKeeps(s.(limit := lim), lim - s.limit, LimitStep(s, lim));
    }
  }

  lemma {:induction false} StepServes(s: State, a: Action)
    requires Inv(s) && Served(s) && Enabled(true, s, a)
    ensures Served(Next(true, s, a))
  {
    if a.DoGet? {
      GetServes(s, a.c, a.pri);
    } else if a.DoRelease? {
      ReleaseServes(s, a.c);
    } else if a.DoLimit? {
      LimitServes(s, a.lim);
    }
  }

  // ---------------------------------------------------------------- every run

  /** count is the number of holders, whatever the callers do. */
  lemma {:induction false} CountIsHolders(ready: bool, limit: int, acts: seq<Action>)
    ensures var s := Exec(ready, limit, acts); Inv(s) && s.count == |s.holders|
  {
    if acts != [] {
      CountIsHolders(ready, limit, acts[..|acts| - 1]);
      var s, a := Exec(ready, limit, acts[..|acts| - 1]), acts[|acts| - 1];
      if Enabled(ready, s, a) { StepKeeps(ready, s, a); }
    }
  }

  lemma {:induction false} AlwaysServed(limit: int, acts: seq<Action>)
    ensures Served(Exec(true, limit, acts)) && NoneStranded(Exec(true, limit, acts))
  {
    if acts != [] {
      AlwaysServed(limit, acts[..|acts| - 1]);
      CountIsHolders(true, limit, acts[..|acts| - 1]);
      var s, a := Exec(true, limit, acts[..|acts| - 1]), acts[|acts| - 1];
      if Enabled(true, s, a) { StepServes(s, a); }
    }
    var s := Exec(true, limit, acts);
    assert s.woken * s.wants == s.woken;
  }

  /** In this run nobody calls get() while queued. */
  ghost predicate KeepsReady(limit: int, acts: seq<Action>) {
    forall i :: 0 <= i < |acts| && acts[i].DoGet? ==> acts[i].c !in Waiting(Exec(false, limit, acts[..i]))
  }

  lemma {:induction false} ReadyRun(limit: int, acts: seq<Action>)
    requires KeepsReady(limit, acts)
    ensures Exec(true, limit, acts) == Exec(false, limit, acts)
  {
    if acts != [] {
      var pre := acts[..|acts| - 1];
      assert forall i :: 0 <= i < |pre| ==> pre[i] == acts[i] && pre[..i] == acts[..i];
      ReadyRun(limit, pre);
    }
  }

  /** A run that keeps to is_ready strands no slot, at its end or anywhere on the way. */
  lemma {:induction false} ReadyRunServes(limit: int, acts: seq<Action>, n: nat)
    requires KeepsReady(limit, acts) && n <= |acts|
    ensures NoneStranded(Exec(false, limit, acts[..n]))
  {
    var pre := acts[..n];
    assert forall i :: 0 <= i < |pre| ==> pre[i] == acts[i] && pre[..i] == acts[..i];
    ReadyRun(limit, pre);
    AlwaysServed(limit, pre);
  }

  ghost predicate Reachable(ready: bool, limit: int, s: State) { exists acts :: Exec(ready, limit, acts) == s }

  lemma {:induction false} ReachStep(ready: bool, limit: int, s: State, a: Action)
    requires Reachable(ready, limit, s) && Enabled(ready, s, a)
    ensures Reachable(ready, limit, Next(ready, s, a))
  {
    var acts :| Exec(ready, limit, acts) == s;
    assert (acts + [a])[..|acts|] == acts;
    assert Exec(ready, limit, acts + [a]) == Next(ready, s, a);
  }

  /** One slot taken by 0, with 1 and 2 waiting. */
  lemma {:induction false} ReachTwoWaiting() returns (s: State)
    ensures Reachable(false, 1, s)
    ensures s.count == 1 && s.limit == 1 && !s.prio && s.wait == [Waiter(MAX_INTEGER64, 1), Waiter(MAX_INTEGER64, 2)]
    ensures s.holders == multiset{0} && s.wants == {1, 2} && s.woken == {}
  {
    s := Initial(1);
    assert Exec(false, 1, []) == s;
    ReachStep(false, 1, s, DoGet(0, 0));
    s := Next(false, s, DoGet(0, 0));
    ReachStep(false, 1, s, DoGet(1, 0));
    s := Next(false, s, DoGet(1, 0));
    ReachStep(false, 1, s, DoGet(2, 0));
    s := Next(false, s, DoGet(2, 0));
  }

  /** The limit is raised, which wakes 1; but 2 calls again while queued and takes the slot. */
  lemma {:induction false} ReachStaleEntry() returns (s: State)
    ensures Reachable(false, 1, s)
    ensures s.count == 2 && s.limit == 2 && !s.prio && s.wait == [Waiter(MAX_INTEGER64, 2)]
    ensures s.holders == multiset{0, 2} && s.wants == {1} && s.woken == {1}
  {
    s := ReachTwoWaiting();
    ReachStep(false, 1, s, DoLimit(2));
    var t := Next(false, s, DoLimit(2));
    assert t == WakeMany(Wake(s.(limit := 2)), 0) == Wake(s.(limit := 2));
    ReachStep(false, 1, t, DoGet(2, 0));
    s := Next(false, t, DoGet(2, 0));
  }

  /** Without the discipline the entry of 2 stays behind and absorbs the wakeup of the next release, while
      1 waits and a slot is free. */
  lemma {:induction false} StaleEntryStrands() returns (acts: seq<Action>)
    ensures var s := Exec(false, 1, acts); s.wait == [Waiter(MAX_INTEGER64, 1)] && s.count == 1 && s.limit == 2 && !NoneStranded(s)
  {
    var s := ReachStaleEntry();
    ReachStep(false, 1, s, DoGet(1, 0));
    s := Next(false, s, DoGet(1, 0));
    assert s.wait == [Waiter(MAX_INTEGER64, 2), Waiter(MAX_INTEGER64, 1)] && s.woken == {} && s.wants == {1};
    ReachStep(false, 1, s, DoRelease(0));
    s := Next(false, s, DoRelease(0));
    assert s.woken * s.wants == {};
    acts :| Exec(false, 1, acts) == s;
  }

  ghost predicate NeverStrands(ready: bool) {
    forall limit, acts :: NoneStranded(Exec(ready, limit, acts))
  }

  /** No slot is ever stranded exactly when callers keep to is_ready. */
  lemma {:induction false} ServedIffReady(ready: bool)
    ensures NeverStrands(ready) <==> ready
  {
    if ready {
      forall limit, acts ensures NoneStranded(Exec(ready, limit, acts)) { AlwaysServed(limit, acts); }
    } else {
      var acts := StaleEntryStrands();
    }
  }

  // ---------------------------------------------------------------- the object

  class Semaphore {
    var count: int
    var vLimit: int
    var enablePriority: bool
    const wait: Buckets
    ghost var holders: multiset<nat>
    ghost var wants: set<nat>
    ghost var woken: set<nat>

    ghost predicate Valid()
      reads this, wait
    {
      wait.Valid()
    }

    ghost function View(): State
      reads this, wait
    {
      State(count, vLimit, enablePriority, wait.insNeq, wait.line, holders, wants, woken)
    }

    constructor (lim: int)
      ensures Valid() && View() == Initial(lim) && fresh(wait)
    {
      count, vLimit, enablePriority := 0, lim, false;
      var w := new Buckets();
      w.insNeq := true;
      wait := w;
      holders, wants, woken := multiset{}, {}, {};
    }

    /** get(): true when a slot was taken, false when the caller must wait (the source throws). */
    method Get(me: nat, priority: int) returns (granted: bool)
      requires Valid() && priority <= MAX_INTEGER64
      modifies this, wait
      ensures Valid() && View() == GetStep(old(View()), me, priority)
      ensures granted <==> old(count) < vLimit
      ensures granted || me in old(Ids(wait.line)) ==> wait.line == old(wait.line)
      ensures !granted && me !in old(Ids(wait.line)) ==>
        wait.line == Ins(old(wait.line), Waiter(if enablePriority then priority else MAX_INTEGER64, me), wait.insNeq)
    {
      woken := woken - {me};
      if count < vLimit {
        count := count + 1;
        holders, wants := holders + multiset{me}, wants - {me};
        return true;
      }
      wants := wants + {me};
      var has := wait.WHas(me);
      if !has {
        wait.WIns(if enablePriority then priority else MAX_INTEGER64, me);
      }
      return false;
    }

    method WakeHead() returns (some: bool)
      requires Valid()
      modifies this`woken, wait
      ensures Valid() && View() == Wake(old(View())) && (some <==> old(wait.line) != [])
    {
      var obj := wait.WDel();
      some := obj.Some?;
      if some { woken := woken + {obj.value}; }
    }

    /** release(): false is the panic of releasing what nobody holds. */
    method Release(me: nat) returns (ok: bool)
      requires Valid()
      modifies this, wait
      ensures Valid() && (ok <==> old(count) > 0)
      ensures View() == if ok then ReleaseStep(old(View()), me) else old(View())
    {
      if count <= 0 { return false; }
      count := count - 1;
      holders := holders - multiset{me};
      if count < vLimit {
        var some := WakeHead();
      }
      return true;
    }

    /** limit(lim): a raise wakes one waiter for each new slot. */
    method Limit(lim: int)
      requires Valid()
      modifies this, wait
      ensures Valid() && View() == LimitStep(old(View()), lim)
    {
      if lim < 1 || vLimit == lim { return; }
      if vLimit > lim {
        vLimit := lim;
        return;
      }
      var l := vLimit;
      vLimit := lim;
      ghost var goal := WakeMany(View(), lim - l);
      while l < lim
        invariant l <= lim && Valid() && WakeMany(View(), lim - l) == goal
      {
        var some := WakeHead();
        if !some { break; }
        l := l + 1;
      }
    }
  }
}
