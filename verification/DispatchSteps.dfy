/**
  What eventHandler does to the object's state and to its events, over whole runs of the dispatcher:
  the state is the last one asked for, a function is called with the event the loop last took, and
  every step does what its place in the loop promises.
 */
module DispatchSteps {
  import opened Common
  import opened Dispatcher

  // ---------------------------------------------------------------- the state is the last one asked for

  /** The transition a step asks of an object in state st: what the state function answered, or the
      error state when an event meets a state without a function. */
  function Target(st: St, s: State, a: Action): Option<St> {
    if a.FuncReturnStep? then (if a.r.Goto? || a.r.Now? then Some(a.r.st) else if a.r.Zom? then Some(ZOMBIE) else None)
    else if a.MoveStep? && s.At(a.t) && s.frames[a.t].pc.Dispatch? && !st.func then Some(ERROR)
    else None
  }

  /** The last transition asked for in a run, or the state it started with. */
  function LastAsked(c: Config, st: St, acts: seq<Action>): St {
    if acts == [] then st
    else
      var before, a := acts[..|acts| - 1], acts[|acts| - 1];
      var s, last := Exec(c, st, before), LastAsked(c, st, before);
      if Enabled(c, s, a) && Target(last, s, a).Some? then Target(last, s, a).value else last
  }

  lemma {:induction false} StateMoves(c: Config, s: State, a: Action)
    requires Enabled(c, s, a)
    ensures Next(c, s, a).st == var g := Target(s.st, s, a); if g.Some? then g.value else s.st
  {
    if a.EnterStep? {
      assert Enter(c, s, a.t).st == s.st;
    } else if a.MoveStep? {
      assert Move(c, s, a.t).st == if s.frames[a.t].pc.Dispatch? && !s.st.func then ERROR else s.st;
    }
  }

  /** In every run the object is in the state last asked for; nothing else moves it. */
  lemma {:induction false} StateIsLastAsked(c: Config, st: St, acts: seq<Action>)
    ensures Exec(c, st, acts).st == LastAsked(c, st, acts)
  {
    if acts != [] {
      StateIsLastAsked(c, st, acts[..|acts| - 1]);
      ExecLast(c, st, acts);
      var s, a := Exec(c, st, acts[..|acts| - 1]), acts[|acts| - 1];
      if Enabled(c, s, a) { StateMoves(c, s, a); }
    }
  }

  // ---------------------------------------------------------------- which event a function is given

  /** The event the loop is left with by a step: the one it takes off the queue, or what the filter
      makes of it. */
  function Handed(s: State, a: Action): Option<Event> {
    if a.MoveStep? && s.At(a.t) && s.frames[a.t].pc.Deq? && s.que != [] then Some(s.que[0])
    else if a.FilterReturn? then a.out
    else None
  }

  function LastHanded(c: Config, st: St, acts: seq<Action>): Option<Event> {
    if acts == [] then None
    else
      var before, a := acts[..|acts| - 1], acts[|acts| - 1];
      var s := Exec(c, st, before);
      if Enabled(c, s, a) && Handed(s, a).Some? then Handed(s, a) else LastHanded(c, st, before)
  }

  predicate HasEvent(pc: Pc) { pc.Filtering? || pc.Dispatch? || pc.Running? }

  ghost predicate InHand(s: State, ev: Option<Event>) {
    forall t :: s.At(t) && HasEvent(s.frames[t].pc) ==> ev == Some(s.frames[t].pc.ev)
  }

  /** A function runs only where there is one, and that of a thread state only on a worker. */
  ghost predicate RunsRightly(s: State) {
    forall t :: s.At(t) && s.frames[t].pc.Running? ==> s.st.func && (s.st.thr ==> s.frames[t].worker)
  }

  /** What an owner's step leaves it with. */
  ghost predicate HandsOn(s: State, r: State, t: nat, ev: Option<Event>) {
    r.At(t) && HasEvent(r.frames[t].pc) ==>
      && ev == Some(r.frames[t].pc.ev)
      && (r.frames[t].pc.Running? ==> r.st.func && (r.st.thr ==> r.frames[t].worker))
  }

  lemma {:induction false} EvaluateHands(s: State, t: nat, ev: Event)
    requires s.At(t) && s.frames[t].pc == Dispatch(ev)
    ensures HandsOn(s, Evaluate(s, t, ev), t, Some(ev))
  {
  }

  lemma {:induction false} MoveHands(c: Config, s: State, t: nat, ev: Option<Event>)
    requires Enabled(c, s, MoveStep(t)) && (HasEvent(s.frames[t].pc) ==> ev == Some(s.frames[t].pc.ev))
    ensures HandsOn(s, Move(c, s, t), t, if Handed(s, MoveStep(t)).Some? then Handed(s, MoveStep(t)) else ev)
  {
    if s.frames[t].pc.Dispatch? {
      EvaluateHands(s, t, s.frames[t].pc.ev);
      assert Move(c, s, t) == Evaluate(s, t, s.frames[t].pc.ev);
    }
  }

  /** Where the loop goes on after an answer. */
  function GoesOn(r: Ret, ev: Event): Pc {
    if r.Now? || r.Again? then Dispatch(ev) else if r.Zom? then Check else Deq
  }

  /** The fields after an answer. */
  lemma {:induction false} ReturnFields(s: State, t: nat, ret: Ret)
    requires s.At(t) && s.frames[t].pc.Running?
    ensures var r := FuncReturn(s, t, ret);
      && r.st == (if ret.Goto? || ret.Now? then ret.st else if ret.Zom? then ZOMBIE else s.st)
      && r.que == (if ret.Zom? && ret.discard then [] else s.que) && r.gone == (s.gone || (ret.Zom? && ret.discard))
      && r.occur == s.occur && r.lock == s.lock && r.flag == s.flag
      && r.frames == s.frames[t := s.frames[t].(pc := GoesOn(ret, s.frames[t].pc.ev))]
  {
  }

  lemma {:induction false} ReturnHands(s: State, t: nat, ret: Ret, ev: Option<Event>)
    requires s.At(t) && s.frames[t].pc.Running? && ev == Some(s.frames[t].pc.ev)
    ensures HandsOn(s, FuncReturn(s, t, ret), t, ev)
  {
    ReturnFields(s, t, ret);
    var pc := FuncReturn(s, t, ret).frames[t].pc;
    assert pc == GoesOn(ret, s.frames[t].pc.ev);
    assert !pc.Running?;
  }

  lemma {:induction false} EnterHands(c: Config, s: State, t: nat, ev: Option<Event>)
    requires Inv(c, s) && InHand(s, ev) && RunsRightly(s) && Enabled(c, s, EnterStep(t))
    ensures InHand(Enter(c, s, t), ev) && RunsRightly(Enter(c, s, t))
  {
    var r := Enter(c, s, t);
    forall u | r.At(u) && HasEvent(r.frames[u].pc) ensures u != t && s.At(u) && r.frames[u] == s.frames[u] {}
    assert r.st == s.st;
  }

  /** A step of the owner touches nobody else's frame. */
  lemma {:induction false} OwnerHands(c: Config, s: State, r: State, t: nat, ev: Option<Event>)
    requires OwnerInv(s) && s.At(t) && HandsOn(s, r, t, ev)
    requires forall u :: u != t && r.At(u) ==> s.At(u)
    ensures InHand(r, ev) && RunsRightly(r)
  {
  }

  lemma {:induction false} StepHands(c: Config, s: State, a: Action, ev: Option<Event>)
    requires Inv(c, s) && InHand(s, ev) && RunsRightly(s) && Enabled(c, s, a)
    ensures InHand(Next(c, s, a), if Handed(s, a).Some? then Handed(s, a) else ev) && RunsRightly(Next(c, s, a))
  {
    var r := Next(c, s, a);
    var ev' := if Handed(s, a).Some? then Handed(s, a) else ev;
    if a.EnterStep? {
      EnterHands(c, s, a.t, ev);
    } else if a.MoveStep? {
      MoveHands(c, s, a.t, ev);
      OwnerHands(c, s, r, a.t, ev');
    } else if a.FuncReturnStep? {
      ReturnHands(s, a.t, a.r, ev);
      OwnerHands(c, s, r, a.t, ev);
    } else if a.FilterReturn? {
      OwnerHands(c, s, r, a.t, ev');
    }
  }

  /** In every run the event at the filter, under evaluation or in a running function is the one the
      loop last took or the filter last made; and a function runs only in a state that has one, that of
      a thread state only on a worker of the pool. */
  lemma {:induction false} RunsTheEventTaken(c: Config, st: St, acts: seq<Action>)
    ensures InHand(Exec(c, st, acts), LastHanded(c, st, acts)) && RunsRightly(Exec(c, st, acts))
  {
    if acts != [] {
      RunsTheEventTaken(c, st, acts[..|acts| - 1]);
      Always(c, st, acts[..|acts| - 1]);
      ExecLast(c, st, acts);
      var s, a := Exec(c, st, acts[..|acts| - 1]), acts[|acts| - 1];
      if Enabled(c, s, a) { StepHands(c, s, a, LastHanded(c, st, acts[..|acts| - 1])); }
    }
  }

  // ---------------------------------------------------------------- coming in

  predicate Waits(s: State, kind: nat) { exists i :: 0 <= i < |s.que| && s.que[i].kind == kind }

  lemma {:induction false} WaitsIsCount(q: seq<Event>, kind: nat)
    ensures KindCount(q, kind) > 0 <==> exists i :: 0 <= i < |q| && q[i].kind == kind
  {
    if q != [] {
      WaitsIsCount(q[1..], kind);
      if i :| 0 <= i < |q[1..]| && q[1..][i].kind == kind { assert q[i + 1].kind == kind; }
      if i :| 0 < i < |q| && q[i].kind == kind { assert q[1..][i - 1].kind == kind; }
    }
  }

  /** An event is dropped at the door if the object is a zombie, or if it is of a once-only type of which
      one waits already. */
  predicate Refused(c: Config, s: State, ev: Event) { s.st.zom || (ev.kind in c.mask && Waits(s, ev.kind)) }

  /** Everybody but t is left alone. */
  ghost predicate OthersKept(s: State, r: State, t: nat) {
    forall u :: u != t ==> (u in r.frames <==> u in s.frames) && (u in s.frames ==> r.frames[u] == s.frames[u])
  }

  /** The event goes behind those that wait; the caller becomes the owner if there is none and the
      object is alive, and else goes away, a worker taking the flag down with it. */
  ghost predicate Entered(c: Config, s: State, r: State, t: nat)
    requires t in s.frames && s.frames[t].Entering?
  {
    var f := s.frames[t];
    && r.que == (if Refused(c, s, f.ev) then s.que else s.que + [f.ev])
    && r.accepted == (if Refused(c, s, f.ev) then s.accepted else s.accepted + [f.ev])
    && OthersKept(s, r, t) && r.ready == s.ready
    && (if s.st.zom || s.owner.Some? then t !in r.frames && r.owner == s.owner && r.lock == s.lock
        else r.lock && r.owner == Some(t) && t in r.frames && r.frames[t] == Inside(Deq, f.worker, f.worker, false))
    && r.flag == (s.flag && !(f.worker && !s.st.zom && s.owner.Some?))
  }

  lemma {:induction false} EnterDoes(c: Config, s: State, t: nat)
    requires Inv(c, s) && Enabled(c, s, EnterStep(t))
    ensures Entered(c, s, Try(c, s, EnterStep(t)), t)
  {
    WaitsIsCount(s.que, s.frames[t].ev.kind);
  }

  lemma {:induction false} EnterMeans(c: Config, st: St, acts: seq<Action>, t: nat)
    requires Enabled(c, Exec(c, st, acts), EnterStep(t))
    ensures Entered(c, Exec(c, st, acts), Exec(c, st, acts + [EnterStep(t)]), t)
  {
    Always(c, st, acts);
    ExecSnoc(c, st, acts, EnterStep(t));
    EnterDoes(c, Exec(c, st, acts), t);
  }

  // ---------------------------------------------------------------- the loop of the owner

  /** The owner's frame after a step that leaves everything else about it. */
  ghost predicate MovedTo(s: State, r: State, t: nat, pc: Pc) {
    s.At(t) && OthersKept(s, r, t) && t in r.frames && r.frames[t] == s.frames[t].(pc := pc) && r.ready == s.ready && r.lock
  }

  /** The oldest accepted event that was not taken yet is taken. */
  ghost predicate TookNext(s: State, r: State) {
    && s.que != [] && |s.taken| < |s.accepted|
    && r.taken == s.taken + [s.accepted[|s.taken|]]
    && r.accepted == r.taken + r.que
  }

  ghost predicate Dequeued(c: Config, s: State, r: State, t: nat) {
    if s.que == [] then MovedTo(s, r, t, Check) && r.taken == s.taken
    else
      && TookNext(s, r)
      && MovedTo(s, r, t, if c.filtered then Filtering(s.accepted[|s.taken|]) else Dispatch(s.accepted[|s.taken|]))
  }

  /** What an event under evaluation meets: no function, a thread state away from the pool, or a function
      to be called with it. */
  ghost predicate Evaluated(s: State, r: State, t: nat, ev: Event)
    requires s.At(t)
  {
    var f := s.frames[t];
    && OthersKept(s, r, t) && t in r.frames && r.ready == s.ready && r.que == s.que && r.lock
    && (if !s.st.func then r.frames[t] == f && r.st == ERROR
        else if s.st.thr && !f.worker then
          r.flag && r.st == s.st && r.frames[t] == Inside(Deq, false, f.token, f.doIns || !s.flag)
        else !r.flag && r.st == s.st && r.frames[t] == Inside(Running(ev), f.worker, false, f.doIns))
  }

  /** state_lock is given up exactly when nothing waits; otherwise the loop starts again. */
  ghost predicate Checked(s: State, r: State, t: nat)
    requires s.At(t)
  {
    if s.que == [] then
      !r.lock && r.owner == None && OthersKept(s, r, t) && t in r.frames && r.frames[t] == Leaving(s.frames[t].doIns) && r.ready == s.ready
    else MovedTo(s, r, t, Deq) && r.que == s.que
  }

  ghost predicate Moved(c: Config, s: State, r: State, t: nat)
    requires s.At(t)
  {
    var pc := s.frames[t].pc;
    if pc.Deq? then Dequeued(c, s, r, t)
    else if pc.Dispatch? then Evaluated(s, r, t, pc.ev)
    else Checked(s, r, t)
  }

  lemma {:induction false} NextAccepted(c: Config, s: State)
    requires QueueInv(c, s) && !s.gone && s.que != []
    ensures |s.taken| < |s.accepted| && s.accepted[|s.taken|] == s.que[0]
    ensures s.accepted == (s.taken + [s.que[0]]) + s.que[1..]
  {
    assert s.accepted == s.taken + s.que;
    assert s.que == [s.que[0]] + s.que[1..];
  }

  lemma {:induction false} MoveDoes(c: Config, s: State, t: nat)
    requires Inv(c, s) && Enabled(c, s, MoveStep(t))
    ensures Moved(c, s, Try(c, s, MoveStep(t)), t)
  {
    if s.frames[t].pc.Deq? && s.que != [] { NextAccepted(c, s); }
  }

  lemma {:induction false} MoveMeans(c: Config, st: St, acts: seq<Action>, t: nat)
    requires Enabled(c, Exec(c, st, acts), MoveStep(t))
    ensures Moved(c, Exec(c, st, acts), Exec(c, st, acts + [MoveStep(t)]), t)
  {
    Always(c, st, acts);
    ExecSnoc(c, st, acts, MoveStep(t));
    MoveDoes(c, Exec(c, st, acts), t);
  }

  // ---------------------------------------------------------------- filter and function

  /** The answer decides where the loop goes on and in which state; only the last one may give up what
      waits. */
  ghost predicate Answered(s: State, r: State, t: nat, ret: Ret)
    requires s.At(t) && s.frames[t].pc.Running?
  {
    && MovedTo(s, r, t, GoesOn(ret, s.frames[t].pc.ev))
    && r.st == (if ret.Goto? || ret.Now? then ret.st else if ret.Zom? then ZOMBIE else s.st)
    && (if ret.Zom? && ret.discard then r.gone && r.que == [] && r.dropped == s.que else r.gone == s.gone && r.que == s.que)
    && r.taken == s.taken && r.flag == s.flag
  }

  lemma {:induction false} ReturnDoes(c: Config, s: State, t: nat, ret: Ret)
    requires Inv(c, s) && Enabled(c, s, FuncReturnStep(t, ret))
    ensures Answered(s, Try(c, s, FuncReturnStep(t, ret)), t, ret)
  {
  }

  lemma {:induction false} ReturnMeans(c: Config, st: St, acts: seq<Action>, t: nat, ret: Ret)
    requires Enabled(c, Exec(c, st, acts), FuncReturnStep(t, ret))
    ensures Answered(Exec(c, st, acts), Exec(c, st, acts + [FuncReturnStep(t, ret)]), t, ret)
  {
    Always(c, st, acts);
    ExecSnoc(c, st, acts, FuncReturnStep(t, ret));
    ReturnDoes(c, Exec(c, st, acts), t, ret);
  }

  /** A swallowed event ends the inner loop; what the filter makes of another is evaluated. */
  lemma {:induction false} FilterMeans(c: Config, st: St, acts: seq<Action>, t: nat, out: Option<Event>)
    requires Enabled(c, Exec(c, st, acts), FilterReturn(t, out))
    ensures var s, r := Exec(c, st, acts), Exec(c, st, acts + [FilterReturn(t, out)]);
      MovedTo(s, r, t, if out.Some? then Dispatch(out.value) else Check) && r.que == s.que && r.taken == s.taken && r.flag == s.flag
  {
    Always(c, st, acts);
    ExecSnoc(c, st, acts, FilterReturn(t, out));
  }

  /** delEvent() called by the running function takes the oldest event that waits, and the function runs on. */
  lemma {:induction false} UserDelMeans(c: Config, st: St, acts: seq<Action>, t: nat)
    requires Enabled(c, Exec(c, st, acts), UserDel(t))
    ensures var s, r := Exec(c, st, acts), Exec(c, st, acts + [UserDel(t)]); TookNext(s, r) && r.frames == s.frames
  {
    Always(c, st, acts);
    ExecSnoc(c, st, acts, UserDel(t));
    NextAccepted(c, Exec(c, st, acts));
  }

  // ---------------------------------------------------------------- to and from the pool

  /** A leaving thread puts the object in the pool's queue exactly if it owes that. */
  lemma {:induction false} LeaveMeans(c: Config, st: St, acts: seq<Action>, t: nat)
    requires Enabled(c, Exec(c, st, acts), Leave(t))
    ensures var s, r := Exec(c, st, acts), Exec(c, st, acts + [Leave(t)]);
      t !in r.frames && OthersKept(s, r, t) && r.ready == s.ready + (if s.frames[t].doIns then 1 else 0) && r.que == s.que && r.lock == s.lock
  {
    ExecSnoc(c, st, acts, Leave(t));
  }

  /** A worker comes with a TSE_THREAD event of its own, any other caller with the event it sends. */
  lemma {:induction false} CallMeans(c: Config, st: St, acts: seq<Action>, a: Action)
    requires (a.Send? || a.PoolTake?) && Enabled(c, Exec(c, st, acts), a)
    ensures var s, r := Exec(c, st, acts), Exec(c, st, acts + [a]);
      && OthersKept(s, r, a.t) && a.t in r.frames && r.que == s.que && r.lock == s.lock
      && r.ready == s.ready - (if a.PoolTake? then 1 else 0)
      && r.frames[a.t] == if a.Send? then Entering(a.ev, false) else Entering(Event(TSE_THREAD, 0), true)
  {
    ExecSnoc(c, st, acts, a);
  }
}
