/**
  One object's event dispatcher (tinyState_::eventHandler) together with the thread-pool tokens
  that concern it.  Any number of threads enter the handler; a step is what a thread does between
  taking the object mutex lm and letting it go, or one move inside that stretch.  lm is let go only
  around a filter call and around a state function, whose results are arbitrary.
 */
module Dispatcher {
  import opened Common

  const TSE_THREAD: nat := 17

  datatype Event = Event(kind: nat, id: nat)

  /** A state as eventHandler sees it: runs on a worker (C_THR), zombie phase (C_ZOM), and whether a
      function is registered for it. */
  datatype St = St(id: nat, thr: bool, zom: bool, func: bool)

  const ERROR: St := St(0, false, false, true)
  const ZOMBIE: St := St(1, false, true, true)

  /** mask: the once-only event types.  filtered: the class overrides filter().  zombieThreads: the
      class has thread states in the zombie phase. */
  datatype Config = Config(mask: set<nat>, filtered: bool, zombieThreads: bool)

  /** What a state function returns (an exception counts as Stay or Now(ERROR)).  Zom may throw the
      event queue away, as the base class's last state does. */
  datatype Ret = Stay | Goto(st: St) | Now(st: St) | Again | Zom(discard: bool)

  /** Where the owner of state_lock is; lm is held at Deq, Dispatch and Check. */
  datatype Pc = Deq | Filtering(ev: Event) | Dispatch(ev: Event) | Running(ev: Event) | Check

  /** A thread in eventHandler: before its lock, owning state_lock, or past the lock with do_ins.
      `token` marks a pool dispatch whose claim thrQueueing_flag still records. */
  datatype Frame =
    | Entering(ev: Event, worker: bool)
    | Inside(pc: Pc, worker: bool, token: bool, doIns: bool)
    | Leaving(doIns: bool)
  {
    predicate Carries() {
      match this
      case Entering(_, worker) => worker
      case Inside(_, _, token, doIns) => token || doIns
      case Leaving(doIns) => doIns
    }
  }

  datatype State = State(
    st: St, que: seq<Event>, gone: bool, occur: set<nat>, lock: bool, flag: bool,
    frames: map<nat, Frame>, ready: nat,
    owner: Option<nat>, starved: bool, accepted: seq<Event>, taken: seq<Event>, dropped: seq<Event>)
  {
    /** lm is not held by anybody. */
    predicate LmFree() {
      owner.Some? && owner.value in frames && frames[owner.value].Inside? ==>
        frames[owner.value].pc.Filtering? || frames[owner.value].pc.Running?
    }
    predicate At(t: nat) { t in frames && frames[t].Inside? }
  }

  function Initial(st: St): State {
    State(st, [], false, {}, false, false, map[], 0, None, false, [], [], [])
  }

  // ---------------------------------------------------------------- the steps

  function InsEvent(c: Config, s: State, ev: Event): State {
    if ev.kind !in c.mask then s.(que := s.que + [ev], accepted := s.accepted + [ev])
    else if ev.kind !in s.occur then
      s.(que := s.que + [ev], accepted := s.accepted + [ev], occur := s.occur + {ev.kind})
    else s
  }

  function DelEvent(s: State): State
    requires s.que != []
  {
    s.(que := s.que[1..], occur := s.occur - {s.que[0].kind}, taken := s.taken + [s.que[0]])
  }

  function SetPc(s: State, t: nat, pc: Pc): State
    requires s.At(t)
  {
    s.(frames := s.frames[t := s.frames[t].(pc := pc)])
  }

  /** eventHandler from its lock to the first decision. */
  function Enter(c: Config, s: State, t: nat): State
    requires t in s.frames && s.frames[t].Entering?
  {
    var f := s.frames[t];
    if s.st.zom then s.(frames := s.frames - {t})
    else
      var s' := InsEvent(c, s, f.ev);
      if s.lock then s'.(flag := if f.worker then false else s.flag, frames := s.frames - {t})
      else s'.(lock := true, owner := Some(t), frames := s.frames[t := Inside(Deq, f.worker, f.worker, false)])
  }

  /** The evaluation of the current state for event ev. */
  function Evaluate(s: State, t: nat, ev: Event): State
    requires s.At(t)
  {
    var f := s.frames[t];
    if !s.st.func then s.(st := ERROR)
    else if !s.st.thr then
      s.(flag := false, frames := s.frames[t := f.(pc := Running(ev), token := false)])
    else if !f.worker then
      s.(flag := true, starved := true, frames := s.frames[t := f.(pc := Deq, doIns := f.doIns || !s.flag)])
    else
      s.(flag := false, starved := false, frames := s.frames[t := f.(pc := Running(ev), token := false)])
  }

  /** One move of the owner while it holds lm. */
  function Move(c: Config, s: State, t: nat): State
    requires s.At(t)
  {
    var f := s.frames[t];
    match f.pc
    case Deq =>
      if s.que == [] then SetPc(s, t, Check)
      else SetPc(DelEvent(s), t, if c.filtered then Filtering(s.que[0]) else Dispatch(s.que[0]))
    case Dispatch(ev) => Evaluate(s, t, ev)
    case Check =>
      if s.gone || s.que == [] then
        s.(lock := false, owner := None, frames := s.frames[t := Leaving(f.doIns)])
      else SetPc(s, t, Deq)
    case Filtering(_) => s
    case Running(_) => s
  }

  function FuncReturn(s: State, t: nat, r: Ret): State
    requires s.At(t) && s.frames[t].pc.Running?
  {
    match r
    case Stay => SetPc(s, t, Deq)
    case Goto(st) => SetPc(s.(st := st), t, Deq)
    case Now(st) => SetPc(s.(st := st), t, Dispatch(s.frames[t].pc.ev))
    case Again => SetPc(s, t, Dispatch(s.frames[t].pc.ev))
    case Zom(discard) =>
      var s' := SetPc(s.(st := ZOMBIE), t, Check);
      if discard then s'.(gone := true, que := [], dropped := s.que) else s'
  }

  datatype Action =
    | Send(t: nat, ev: Event)              // a thread calls eventHandler(ev)
    | PoolTake(t: nat)                     // a worker takes the object from the ready queue
    | EnterStep(t: nat)
    | MoveStep(t: nat)
    | FilterReturn(t: nat, out: Option<Event>)
    | FuncReturnStep(t: nat, r: Ret)
    | UserDel(t: nat)                      // delEvent() called by the running state function
    | Leave(t: nat)                        // after lm: tsThread::ins when do_ins is set

  predicate Enabled(c: Config, s: State, a: Action) {
    match a
    case Send(t, _) => t !in s.frames
    case PoolTake(t) => t !in s.frames && s.ready > 0
    case EnterStep(t) => t in s.frames && s.frames[t].Entering? && s.LmFree()
    case MoveStep(t) => s.At(t) && !s.frames[t].pc.Filtering? && !s.frames[t].pc.Running?
    case FilterReturn(t, out) =>
      && s.At(t) && s.frames[t].pc.Filtering? && s.LmFree()
      && (s.frames[t].pc.ev.kind == TSE_THREAD ==> out.Some? && out.value.kind == TSE_THREAD)
    case FuncReturnStep(t, r) =>
      && s.At(t) && s.frames[t].pc.Running? && s.LmFree()
      && (r.Goto? || r.Now? ==> r.st != ZOMBIE && (c.zombieThreads || !(r.st.thr && r.st.zom)))
    case UserDel(t) => s.At(t) && s.frames[t].pc.Running? && s.LmFree() && !s.gone && s.que != []
    case Leave(t) => t in s.frames && s.frames[t].Leaving?
  }

  function Next(c: Config, s: State, a: Action): State
    requires Enabled(c, s, a)
  {
    match a
    case Send(t, ev) => s.(frames := s.frames[t := Entering(ev, false)])
    case PoolTake(t) => s.(ready := s.ready - 1, frames := s.frames[t := Entering(Event(TSE_THREAD, 0), true)])
    case EnterStep(t) => Enter(c, s, t)
    case MoveStep(t) => Move(c, s, t)
    case FilterReturn(t, out) => SetPc(s, t, if out == None then Check else Dispatch(out.value))
    case FuncReturnStep(t, r) => FuncReturn(s, t, r)
    case UserDel(t) => DelEvent(s)
    case Leave(t) => s.(ready := s.ready + (if s.frames[t].doIns then 1 else 0), frames := s.frames - {t})
  }

  /** An action that is not enabled is skipped. */
  function Try(c: Config, s: State, a: Action): State { if Enabled(c, s, a) then Next(c, s, a) else s }

  /** Every run from a fresh object in state st.  (It is split in three so that a proof looks into it
      only where it calls ExecLast.) */
  function Exec(c: Config, st: St, acts: seq<Action>): State
    decreases |acts|, 2
  {
    if acts == [] then Initial(st) else After(c, st, acts)
  }

  function After(c: Config, st: St, acts: seq<Action>): State
    requires acts != []
    decreases |acts|, 1
  {
    Then(c, st, acts[..|acts| - 1], acts[|acts| - 1])
  }

  function Then(c: Config, st: St, acts: seq<Action>, a: Action): State
    decreases |acts| + 1, 0
  {
    Try(c, Exec(c, st, acts), a)
  }

  lemma {:induction false} ExecLast(c: Config, st: St, acts: seq<Action>)
    requires acts != []
    ensures Exec(c, st, acts) == Try(c, Exec(c, st, acts[..|acts| - 1]), acts[|acts| - 1])
  {
    assert Exec(c, st, acts) == After(c, st, acts);
    assert After(c, st, acts) == Then(c, st, acts[..|acts| - 1], acts[|acts| - 1]);
  }

  lemma {:induction false} ExecSnoc(c: Config, st: St, acts: seq<Action>, a: Action)
    ensures Exec(c, st, acts + [a]) == Try(c, Exec(c, st, acts), a)
  {
    ExecLast(c, st, acts + [a]);
    assert (acts + [a])[..|acts|] == acts;
  }

  // ---------------------------------------------------------------- ownership and the queue

  /** state_lock has exactly one owner, and it is the only thread past the lock. */
  ghost predicate OwnerInv(s: State) {
    && s.lock == s.owner.Some?
    && (forall t :: t in s.frames ==> (s.frames[t].Inside? <==> s.owner == Some(t)))
    && (s.owner.Some? ==> s.owner.value in s.frames)
  }

  function KindCount(q: seq<Event>, k: nat): nat {
    if q == [] then 0 else (if q[0].kind == k then 1 else 0) + KindCount(q[1..], k)
  }

  /** What was accepted is what was taken, in order, followed by what waits (or was thrown away with
      the zombie's queue); an unlocked object has nothing waiting; the occur bits are exact. */
  ghost predicate QueueInv(c: Config, s: State) {
    && s.taken + s.que + s.dropped == s.accepted
    && (!s.lock ==> s.que == [])
    && (s.gone ==> s.que == [] && s.st == ZOMBIE)
    && (!s.gone ==> s.dropped == [] && forall k :: k in c.mask ==> KindCount(s.que, k) == if k in s.occur then 1 else 0)
  }

  lemma {:induction false} CountAppend(q: seq<Event>, e: Event, k: nat)
    ensures KindCount(q + [e], k) == KindCount(q, k) + if e.kind == k then 1 else 0
  {
    if q == [] {
      assert q + [e] == [e] && [e][1..] == [];
    } else {
      CountAppend(q[1..], e, k);
      assert (q + [e])[1..] == q[1..] + [e];
    }
  }

  /** The invariant that only the owner holds lm also says that a zombie's owner no longer dequeues. */
  ghost predicate GoneInv(s: State) {
    s.gone && s.owner.Some? && s.owner.value in s.frames && s.frames[s.owner.value].Inside? ==>
      s.frames[s.owner.value].pc.Check?
  }

  lemma {:induction false} InsKeepsQueue(c: Config, s: State, ev: Event)
    requires QueueInv(c, s.(lock := true)) && !s.gone
    ensures QueueInv(c, InsEvent(c, s, ev).(lock := true))
  {
    var s' := InsEvent(c, s, ev);
    forall k | k in c.mask ensures KindCount(s'.que, k) == if k in s'.occur then 1 else 0 {
      CountAppend(s.que, ev, k);
    }
    assert s.taken + (s.que + [ev]) + [] == s.taken + s.que + [] + [ev];
  }

  lemma {:induction false} DelKeepsQueue(c: Config, s: State)
    requires QueueInv(c, s) && !s.gone && s.que != []
    ensures QueueInv(c, DelEvent(s))
  {
    assert s.taken + [s.que[0]] + s.que[1..] == s.taken + s.que;
  }

  // ---------------------------------------------------------------- pool tokens

  /** Thread t carries a pool token: it owes an insertion, or is the pool's dispatch on its way in. */
  predicate Carries(s: State, t: nat) { t in s.frames && s.frames[t].Carries() }

  /** thrQueueing_flag is set exactly when one token is out, and there is never a second one. */
  ghost predicate OneToken(s: State) {
    && s.ready <= 1
    && (s.flag <==> s.ready == 1 || exists t :: Carries(s, t))
    && (s.ready == 1 ==> forall t :: !Carries(s, t))
    && (forall t, u :: Carries(s, t) && Carries(s, u) ==> t == u)
  }

  predicate HasThread(q: seq<Event>) { exists i :: 0 <= i < |q| && q[i].kind == TSE_THREAD }

  predicate ThreadInHand(pc: Pc) {
    (pc.Filtering? || pc.Dispatch?) && pc.ev.kind == TSE_THREAD
  }

  /** An event that met the thread state with no worker there has a token out, or the owner still has
      the retracted token's TSE_THREAD event before it and will issue one on meeting it. */
  ghost predicate StarvedServed(s: State) {
    s.starved ==>
      s.flag || (s.owner.Some? && s.At(s.owner.value) && (HasThread(s.que) || ThreadInHand(s.frames[s.owner.value].pc)))
  }

  /** What the owner's place in the loop says about the token. */
  ghost predicate OwnerToken(s: State) {
    s.owner.Some? && s.At(s.owner.value) ==>
      var f := s.frames[s.owner.value];
      && (f.pc.Running? ==> !s.flag && !s.starved)
      && (f.doIns ==> !f.worker)
      && (f.worker && s.flag ==> f.token)
      && (f.token ==> f.worker && (f.pc.Dispatch? || ThreadInHand(f.pc) || (f.pc.Deq? && s.que != [] && s.que[0].kind == TSE_THREAD)))
  }

  ghost predicate TokenInv(s: State) {
    && OneToken(s) && StarvedServed(s) && OwnerToken(s)
    && (s.flag || s.starved ==> s.st.thr && s.st.func)
    && (forall t :: t in s.frames && s.frames[t].Entering? && s.frames[t].worker ==> s.frames[t].ev.kind == TSE_THREAD)
  }

  // ---------------------------------------------------------------- every step keeps the invariants

  ghost predicate Inv(c: Config, s: State) {
    OwnerInv(s) && QueueInv(c, s) && GoneInv(s)
  }

  /** A change of the owner's frame alone. */
  lemma {:induction false} OwnerStays(s: State, s': State, t: nat)
    requires OwnerInv(s) && s.At(t) && s'.At(t)
    requires s'.lock == s.lock && s'.owner == s.owner && s'.frames == s.frames[t := s'.frames[t]]
    ensures OwnerInv(s')
  {
  }

  lemma {:induction false} EnterKeeps(c: Config, s: State, t: nat)
    requires Inv(c, s) && t in s.frames && s.frames[t].Entering? && s.LmFree()
    ensures Inv(c, Enter(c, s, t))
  {
    if !s.st.zom {
      InsKeepsQueue(c, s, s.frames[t].ev);
    }
  }

  lemma {:induction false} LeaveKeeps(c: Config, s: State, t: nat)
    requires Inv(c, s) && s.At(t) && s.frames[t].pc.Check? && (s.gone || s.que == [])
    ensures Inv(c, Move(c, s, t))
  {
  }

  lemma {:induction false} DeqKeeps(c: Config, s: State, t: nat)
    requires Inv(c, s) && s.At(t) && s.frames[t].pc.Deq?
    ensures Inv(c, Move(c, s, t))
  {
    OwnerStays(s, Move(c, s, t), t);
    if s.que != [] { DelKeepsQueue(c, s); }
  }

  lemma {:induction false} EvaluateKeeps(c: Config, s: State, t: nat)
    requires Inv(c, s) && s.At(t) && s.frames[t].pc.Dispatch?
    ensures Inv(c, Move(c, s, t))
  {
    OwnerStays(s, Move(c, s, t), t);
  }

  lemma {:induction false} MoveKeeps(c: Config, s: State, t: nat)
    requires Inv(c, s) && s.At(t) && !s.frames[t].pc.Filtering? && !s.frames[t].pc.Running?
    ensures Inv(c, Move(c, s, t))
  {
    var pc := s.frames[t].pc;
    if pc.Deq? {
      DeqKeeps(c, s, t);
    } else if pc.Dispatch? {
      EvaluateKeeps(c, s, t);
    } else if s.gone || s.que == [] {
      LeaveKeeps(c, s, t);
    } else {
      OwnerStays(s, Move(c, s, t), t);
    }
  }

  lemma {:induction false} ReturnKeeps(c: Config, s: State, t: nat, r: Ret)
    requires Inv(c, s) && s.At(t) && s.frames[t].pc.Running?
    ensures Inv(c, FuncReturn(s, t, r))
  {
    OwnerStays(s, FuncReturn(s, t, r), t);
  }

  lemma {:induction false} StepKeeps(c: Config, s: State, a: Action)
    requires Inv(c, s) && Enabled(c, s, a)
    ensures Inv(c, Next(c, s, a))
  {
    if a.EnterStep? {
      EnterKeeps(c, s, a.t);
    } else if a.MoveStep? {
      MoveKeeps(c, s, a.t);
    } else if a.FuncReturnStep? {
      ReturnKeeps(c, s, a.t, a.r);
    } else if a.FilterReturn? {
      OwnerStays(s, Next(c, s, a), a.t);
    } else if a.UserDel? {
      DelKeepsQueue(c, s);
    }
  }

  // ---------------------------------------------------------------- every step keeps the tokens

  /** Nothing that concerns tokens changes but the frame of t, which carries as before. */
  lemma {:induction false} TokensStay(s: State, s': State, t: nat)
    requires OneToken(s) && s'.ready == s.ready && s'.flag == s.flag
    requires forall u :: u != t ==> (u in s'.frames <==> u in s.frames) && (u in s.frames ==> s'.frames[u] == s.frames[u])
    requires Carries(s', t) == Carries(s, t)
    ensures OneToken(s')
  {
    forall u ensures Carries(s', u) == Carries(s, u) {
      if u != t { assert u in s.frames <==> u in s'.frames; }
    }
    assert (exists u :: Carries(s', u)) <==> (exists u :: Carries(s, u));
  }

  /** The token carried by t is retracted together with the flag. */
  lemma {:induction false} TokenEnds(s: State, s': State, t: nat)
    requires OneToken(s) && s'.ready == s.ready && !s'.flag
    requires forall u :: u != t ==> (u in s'.frames <==> u in s.frames) && (u in s.frames ==> s'.frames[u] == s.frames[u])
    requires Carries(s, t) || !s.flag
    requires !Carries(s', t)
    ensures OneToken(s')
  {
    forall u ensures !Carries(s', u) {
      if u != t { assert u in s.frames <==> u in s'.frames; assert Carries(s, u) == Carries(s', u); }
    }
  }

  /** Thread t is given a token that nobody had. */
  lemma {:induction false} TokenBegins(s: State, s': State, t: nat)
    requires OneToken(s) && !s.flag && s'.ready == s.ready && s'.flag
    requires forall u :: u != t ==> (u in s'.frames <==> u in s.frames) && (u in s.frames ==> s'.frames[u] == s.frames[u])
    requires Carries(s', t)
    ensures OneToken(s')
  {
    forall u | u != t ensures !Carries(s', u) {
      assert u in s.frames <==> u in s'.frames; assert Carries(s, u) == Carries(s', u);
    }
  }

  /** A worker comes in with its token and meets the zombie test. */
  predicate TurnedAway(s: State, a: Action) {
    a.EnterStep? && a.t in s.frames && s.frames[a.t].Entering? && s.frames[a.t].worker && s.st.zom
  }

  lemma {:induction false} EnterToken(c: Config, s: State, t: nat)
    requires Inv(c, s) && TokenInv(s) && t in s.frames && s.frames[t].Entering? && s.LmFree() && TSE_THREAD !in c.mask
    requires !TurnedAway(s, EnterStep(t))
    ensures TokenInv(Enter(c, s, t))
  {
    var f, s' := s.frames[t], Enter(c, s, t);
    assert Carries(s, t) == f.worker;
    if s.st.zom {
      TokensStay(s, s', t);
    } else if s.lock {
      QueuedToken(c, s, t);
    } else {
      TokensStay(s, s', t);
    }
  }

  /** Behind the owner: the event is queued, and a worker's token ends with it. */
  lemma {:induction false} QueuedToken(c: Config, s: State, t: nat)
    requires Inv(c, s) && TokenInv(s) && t in s.frames && s.frames[t].Entering? && TSE_THREAD !in c.mask && !s.st.zom && s.lock
    ensures TokenInv(Enter(c, s, t))
  {
    var f, s' := s.frames[t], Enter(c, s, t);
    assert Carries(s, t) == f.worker;
    if f.worker {
      TokenEnds(s, s', t);
      assert s'.que[|s.que|].kind == TSE_THREAD;
    } else {
      TokensStay(s, s', t);
    }
    if HasThread(s.que) {
      var i :| 0 <= i < |s.que| && s.que[i].kind == TSE_THREAD;
      assert s'.que[i] == s.que[i];
    }
  }

  lemma {:induction false} DeqToken(c: Config, s: State, t: nat)
    requires Inv(c, s) && TokenInv(s) && s.At(t) && s.frames[t].pc.Deq?
    ensures TokenInv(Move(c, s, t))
  {
    var s' := Move(c, s, t);
    assert Carries(s', t) == Carries(s, t);
    TokensStay(s, s', t);
    if HasThread(s.que) && s.que[0].kind != TSE_THREAD {
      var i :| 0 <= i < |s.que| && s.que[i].kind == TSE_THREAD;
      assert s'.que[i - 1] == s.que[i];
    }
  }

  lemma {:induction false} EvaluateToken(c: Config, s: State, t: nat)
    requires Inv(c, s) && TokenInv(s) && s.At(t) && s.frames[t].pc.Dispatch?
    ensures TokenInv(Move(c, s, t))
  {
    var f, s' := s.frames[t], Move(c, s, t);
    assert Carries(s, t) == (f.token || f.doIns);
    if !s.st.func {
      TokensStay(s, s', t);
    } else if !s.st.thr {
      TokenEnds(s, s', t);
    } else if f.worker {
      TokenEnds(s, s', t);
    } else if s.flag {
      TokensStay(s, s', t);
    } else {
      TokenBegins(s, s', t);
    }
  }

  lemma {:induction false} CheckToken(c: Config, s: State, t: nat)
    requires Inv(c, s) && TokenInv(s) && s.At(t) && s.frames[t].pc.Check?
    ensures TokenInv(Move(c, s, t))
  {
    var s' := Move(c, s, t);
    assert Carries(s', t) == Carries(s, t);
    TokensStay(s, s', t);
  }

  lemma {:induction false} ReturnToken(c: Config, s: State, t: nat, r: Ret)
    requires Inv(c, s) && TokenInv(s) && s.At(t) && s.frames[t].pc.Running?
    ensures TokenInv(FuncReturn(s, t, r))
  {
    var s' := FuncReturn(s, t, r);
    assert Carries(s', t) == Carries(s, t);
    TokensStay(s, s', t);
  }

  lemma {:induction false} FilterToken(c: Config, s: State, t: nat, out: Option<Event>)
    requires Inv(c, s) && TokenInv(s) && Enabled(c, s, FilterReturn(t, out))
    ensures TokenInv(Next(c, s, FilterReturn(t, out)))
  {
    var s' := Next(c, s, FilterReturn(t, out));
    assert Carries(s', t) == Carries(s, t);
    TokensStay(s, s', t);
  }

  /** The ready queue hands its token to a worker, or receives it from the thread that owed it. */
  lemma {:induction false} PoolToken(c: Config, s: State, t: nat, take: bool)
    requires Inv(c, s) && TokenInv(s) && Enabled(c, s, if take then PoolTake(t) else Leave(t))
    ensures TokenInv(Next(c, s, if take then PoolTake(t) else Leave(t)))
  {
    var s' := Next(c, s, if take then PoolTake(t) else Leave(t));
    forall u | u != t ensures Carries(s', u) == Carries(s, u) {}
    if take {
      assert Carries(s', t);
    } else if s.frames[t].doIns {
      assert Carries(s, t) && !Carries(s', t);
    } else {
      assert !Carries(s, t) && !Carries(s', t);
      TokensStay(s, s', t);
    }
  }

  lemma {:induction false} StepToken(c: Config, s: State, a: Action)
    requires Inv(c, s) && TokenInv(s) && Enabled(c, s, a) && TSE_THREAD !in c.mask && !TurnedAway(s, a)
    ensures TokenInv(Next(c, s, a))
  {
    if a.EnterStep? {
      EnterToken(c, s, a.t);
    } else if a.MoveStep? {
      var pc := s.frames[a.t].pc;
      if pc.Deq? { DeqToken(c, s, a.t); } else if pc.Dispatch? { EvaluateToken(c, s, a.t); } else { CheckToken(c, s, a.t); }
    } else if a.FuncReturnStep? {
      ReturnToken(c, s, a.t, a.r);
    } else if a.FilterReturn? {
      FilterToken(c, s, a.t, a.out);
    } else if a.PoolTake? {
      PoolToken(c, s, a.t, true);
    } else if a.Leave? {
      PoolToken(c, s, a.t, false);
    } else if a.Send? {
      TokensStay(s, Next(c, s, a), a.t);
    } else {
      TokensStay(s, Next(c, s, a), a.t);
    }
  }

  // ---------------------------------------------------------------- every run

  lemma {:induction false} Always(c: Config, st: St, acts: seq<Action>)
    ensures Inv(c, Exec(c, st, acts))
  {
    if acts != [] {
      Always(c, st, acts[..|acts| - 1]);
      ExecLast(c, st, acts);
      var s, a := Exec(c, st, acts[..|acts| - 1]), acts[|acts| - 1];
      if Enabled(c, s, a) { StepKeeps(c, s, a); }
    }
  }

  /** Two threads are never inside state functions of the object at once, nor past its lock. */
  lemma {:induction false} NeverOverlap(c: Config, st: St, acts: seq<Action>, t: nat, u: nat)
    ensures var s := Exec(c, st, acts); s.At(t) && s.At(u) ==> t == u && s.lock
  {
    Always(c, st, acts);
  }

  /** Unlocked means nothing is waiting; events leave in the order they were accepted, each once; a
      once-only bit is set exactly while one event of its type waits. */
  lemma {:induction false} QueueExact(c: Config, st: St, acts: seq<Action>)
    ensures var s := Exec(c, st, acts);
      && (!s.lock ==> s.que == [])
      && (!s.gone ==> s.accepted == s.taken + s.que)
      && s.taken <= s.accepted
      && (!s.gone ==> forall k :: k in c.mask ==> (k in s.occur <==> KindCount(s.que, k) == 1) && KindCount(s.que, k) <= 1)
  {
    Always(c, st, acts);
    var s := Exec(c, st, acts);
    assert s.accepted == s.taken + (s.que + s.dropped);
    if !s.gone { assert s.que + s.dropped == s.que; }
  }

  /** What the pool hand-off promises of one state. */
  ghost predicate TokensExact(s: State) {
    OneToken(s) && (s.starved && !s.lock ==> s.flag)
  }

  lemma {:induction false} InvTokensExact(c: Config, s: State)
    requires Inv(c, s) && TokenInv(s)
    ensures TokensExact(s)
  {
  }

  /** Turning a worker away loses its token: the flag stays up and nobody carries it. */
  lemma {:induction false} TurningAwayLoses(c: Config, s: State, a: Action)
    requires Inv(c, s) && TokenInv(s) && Enabled(c, s, a) && TurnedAway(s, a)
    ensures !TokensExact(Next(c, s, a))
  {
    var r := Next(c, s, a);
    assert Carries(s, a.t);
    forall u ensures !Carries(r, u) {
      assert u != a.t ==> Carries(r, u) == Carries(s, u);
    }
  }

  /** In this run a worker was turned away. */
  ghost predicate SomeoneTurnedAway(c: Config, st: St, acts: seq<Action>) {
    exists i :: 0 <= i < |acts| && TurnedAwayAt(c, st, acts, i)
  }

  ghost predicate TurnedAwayAt(c: Config, st: St, acts: seq<Action>, i: nat)
    requires i < |acts|
  {
    var s := Exec(c, st, acts[..i]);
    Enabled(c, s, acts[i]) && TurnedAway(s, acts[i])
  }

  lemma {:induction false} TokenUntil(c: Config, st: St, acts: seq<Action>, n: nat)
    requires TSE_THREAD !in c.mask && n <= |acts| && forall i :: 0 <= i < n ==> !TurnedAwayAt(c, st, acts, i)
    ensures Inv(c, Exec(c, st, acts[..n])) && TokenInv(Exec(c, st, acts[..n]))
  {
    Always(c, st, acts[..n]);
    if n > 0 {
      TokenUntil(c, st, acts, n - 1);
      ExecSnoc(c, st, acts[..n - 1], acts[n - 1]);
      assert acts[..n] == acts[..n - 1] + [acts[n - 1]];
      var s := Exec(c, st, acts[..n - 1]);
      assert !TurnedAwayAt(c, st, acts, n - 1);
      if Enabled(c, s, acts[n - 1]) { StepToken(c, s, acts[n - 1]); }
    }
  }

  ghost predicate ExactThroughout(c: Config, st: St, acts: seq<Action>) {
    forall i :: 0 <= i <= |acts| ==> TokensExact(Exec(c, st, acts[..i]))
  }

  lemma {:induction false} FirstTurnedAway(c: Config, st: St, acts: seq<Action>, i: nat) returns (j: nat)
    requires i < |acts| && TurnedAwayAt(c, st, acts, i)
    ensures j <= i && TurnedAwayAt(c, st, acts, j) && forall k :: 0 <= k < j ==> !TurnedAwayAt(c, st, acts, k)
    decreases i
  {
    if k :| 0 <= k < i && TurnedAwayAt(c, st, acts, k) {
      j := FirstTurnedAway(c, st, acts, k);
    } else {
      j := i;
    }
  }

  /** A run hands off exactly at every moment if and only if no worker is turned away in it. */
  lemma {:induction false} HandOffInRun(c: Config, st: St, acts: seq<Action>)
    requires TSE_THREAD !in c.mask
    ensures ExactThroughout(c, st, acts) <==> !SomeoneTurnedAway(c, st, acts)
  {
    if SomeoneTurnedAway(c, st, acts) {
      var i :| 0 <= i < |acts| && TurnedAwayAt(c, st, acts, i);
      var j := FirstTurnedAway(c, st, acts, i);
      TokenUntil(c, st, acts, j);
      TurningAwayLoses(c, Exec(c, st, acts[..j]), acts[j]);
      ExecSnoc(c, st, acts[..j], acts[j]);
      assert acts[..j + 1] == acts[..j] + [acts[j]];
    } else {
      forall i | 0 <= i <= |acts| ensures TokensExact(Exec(c, st, acts[..i])) {
        TokenUntil(c, st, acts, i);
        InvTokensExact(c, Exec(c, st, acts[..i]));
      }
    }
  }

  predicate Starts(c: Config, st: St) { c.zombieThreads || !(st.thr && st.zom) }

  lemma {:induction false} NoZombieThread(c: Config, st: St, acts: seq<Action>)
    requires !c.zombieThreads && Starts(c, st)
    ensures var s := Exec(c, st, acts); !(s.st.thr && s.st.zom)
  {
    if acts != [] {
      NoZombieThread(c, st, acts[..|acts| - 1]);
      ExecLast(c, st, acts);
      StaysPlain(c, Exec(c, st, acts[..|acts| - 1]), acts[|acts| - 1]);
    }
  }

  lemma {:induction false} StaysPlain(c: Config, s: State, a: Action)
    requires !c.zombieThreads && !(s.st.thr && s.st.zom)
    ensures var r := Try(c, s, a); !(r.st.thr && r.st.zom)
  {
    if Enabled(c, s, a) {
      if a.MoveStep? {
        MoveState(c, s, a.t);
      } else if a.FuncReturnStep? {
        ReturnState(s, a.t, a.r);
      } else if a.EnterStep? {
        assert Enter(c, s, a.t).st == s.st;
      }
    }
  }

  lemma {:induction false} MoveState(c: Config, s: State, t: nat)
    requires s.At(t)
    ensures Move(c, s, t).st == s.st || Move(c, s, t).st == ERROR
  {
  }

  lemma {:induction false} ReturnState(s: State, t: nat, r: Ret)
    requires s.At(t) && s.frames[t].pc.Running?
    ensures var st := FuncReturn(s, t, r).st; st == s.st || st == ZOMBIE || ((r.Goto? || r.Now?) && st == r.st)
  {
  }

  lemma {:induction false} TokenAlways(c: Config, st: St, acts: seq<Action>)
    requires TSE_THREAD !in c.mask && !c.zombieThreads && Starts(c, st)
    ensures TokenInv(Exec(c, st, acts)) && TokensExact(Exec(c, st, acts))
  {
    Always(c, st, acts);
    if acts != [] {
      var before, a := acts[..|acts| - 1], acts[|acts| - 1];
      TokenAlways(c, st, before);
      Always(c, st, before);
      NoZombieThread(c, st, before);
      ExecLast(c, st, acts);
      var s := Exec(c, st, before);
      if Enabled(c, s, a) {
        assert TurnedAway(s, a) ==> Carries(s, a.t) && s.flag;
        StepToken(c, s, a);
      }
    }
    InvTokensExact(c, Exec(c, st, acts));
  }

  const ZTHREAD: St := St(3, true, true, true)
  const ACT: St := St(2, false, false, true)
  const PING: Event := Event(1, 0)

  ghost predicate Reachable(c: Config, st: St, s: State) { exists acts :: Exec(c, st, acts) == s }

  lemma {:induction false} ReachStep(c: Config, st: St, s: State, a: Action)
    requires Reachable(c, st, s) && Enabled(c, s, a)
    ensures Reachable(c, st, Next(c, s, a))
  {
    var acts :| Exec(c, st, acts) == s;
    ExecSnoc(c, st, acts, a);
    assert Exec(c, st, acts + [a]) == Next(c, s, a);
  }

  /** A plain state function that has just received an event. */
  lemma {:induction false} ReachRunning(c: Config) returns (s: State)
    ensures Reachable(c, ACT, s)
    ensures s.frames == map[0 := Inside(Running(PING), false, false, false)] && s.owner == Some(0) && s.lock
    ensures s.st == ACT && !s.flag && s.ready == 0 && s.que == [] && !s.gone
  {
    s := Initial(ACT);
    assert Exec(c, ACT, []) == s;
    ReachStep(c, ACT, s, Send(0, PING));
    s := Next(c, s, Send(0, PING));
    ReachStep(c, ACT, s, EnterStep(0));
    s := Next(c, s, EnterStep(0));
    ReachStep(c, ACT, s, MoveStep(0));
    s := Next(c, s, MoveStep(0));
    if c.filtered {
      ReachStep(c, ACT, s, FilterReturn(0, Some(PING)));
      s := Next(c, s, FilterReturn(0, Some(PING)));
    }
    ReachStep(c, ACT, s, MoveStep(0));
    s := Next(c, s, MoveStep(0));
  }

  /** It moves on to a thread state of the zombie phase, which asks the pool for a worker. */
  lemma {:induction false} ReachZombieThread(c: Config) returns (s: State)
    requires c.zombieThreads
    ensures Reachable(c, ACT, s) && s.frames == map[] && s.owner == None && !s.lock
    ensures s.st == ZTHREAD && s.flag && s.starved && s.ready == 1
  {
    s := ReachRunning(c);
    ReachStep(c, ACT, s, FuncReturnStep(0, Now(ZTHREAD)));
    s := Next(c, s, FuncReturnStep(0, Now(ZTHREAD)));
    ReachStep(c, ACT, s, MoveStep(0));
    s := Next(c, s, MoveStep(0));
    ReachStep(c, ACT, s, MoveStep(0));
    s := Next(c, s, MoveStep(0));
    ReachStep(c, ACT, s, MoveStep(0));
    s := Next(c, s, MoveStep(0));
    ReachStep(c, ACT, s, Leave(0));
    s := Next(c, s, Leave(0));
    assert s.frames == map[];
  }

  /** The worker that comes is turned away at the zombie test with the flag left up: the object waits
      for a token that nobody holds. */
  lemma {:induction false} ZombieThreadStrands(c: Config) returns (acts: seq<Action>)
    requires c.zombieThreads
    ensures var s := Exec(c, ACT, acts); s.flag && s.starved && s.ready == 0 && s.frames == map[] && !TokensExact(s)
  {
    var s := ReachZombieThread(c);
    ReachStep(c, ACT, s, PoolTake(0));
    s := Next(c, s, PoolTake(0));
    ReachStep(c, ACT, s, EnterStep(0));
    s := Next(c, s, EnterStep(0));
    assert s.frames == map[];
    acts :| Exec(c, ACT, acts) == s;
  }

  ghost predicate AlwaysExact(c: Config) {
    forall st, acts :: Starts(c, st) ==> TokensExact(Exec(c, st, acts))
  }

  /** The hand-off is exact in every run of a class if and only if the class has no thread state in
      the zombie phase. */
  lemma {:induction false} HandOffExact(c: Config)
    requires TSE_THREAD !in c.mask
    ensures AlwaysExact(c) <==> !c.zombieThreads
  {
    if c.zombieThreads {
      var acts := ZombieThreadStrands(c);
      assert Starts(c, ACT);
    } else {
      forall st, acts | Starts(c, st) ensures TokensExact(Exec(c, st, acts)) {
        TokenAlways(c, st, acts);
      }
    }
  }
}
