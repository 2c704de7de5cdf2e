/**
  tinyState_::eventHandler as it is written: nested loops over the object's own fields.  `world` is
  the dispatcher's state as the other threads see it; Valid() says that it was reached by the steps
  in `trace` and that the fields agree with it, so every theorem about runs of the dispatcher holds
  of the object whenever a method returns.  The code of a method uses the fields; only what the other
  threads do, an arbitrary script, is carried out on `world`.
 */
module TinyState {
  import opened Common
  import opened Dispatcher
  import opened DispatchSteps

  /** One stretch with lm released: what the other threads do meanwhile, and what the filter or the
      state function then returns. */
  datatype Round = Round(acts: seq<Action>, out: Option<Event>, res: Ret)

  /** Nobody else acts, the event passes the filter and the function stays where it is. */
  function Quiet(ev: Event): Round { Round([], Some(ev), Stay) }

  predicate Allowed(c: Config, r: Ret) {
    r.Goto? || r.Now? ==> r.st != ZOMBIE && (c.zombieThreads || !(r.st.thr && r.st.zom))
  }

  /** While t owns state_lock the others can only come in, queue their event and go. */
  lemma {:induction false} OthersCannot(c: Config, s: State, a: Action, t: nat)
    requires OwnerInv(s) && s.At(t) && Enabled(c, s, a) && a.t != t
    ensures var s' := Next(c, s, a); s'.At(t) && s'.frames[t] == s.frames[t] && s'.st == s.st && s'.gone == s.gone
  {
    assert s.owner == Some(t);
  }

  class Object {
    const cfg: Config
    const start: St
    var state: St
    var que: seq<Event>
    var queGone: bool
    var occur: set<nat>
    var stateLock: bool
    var thrQueueing: bool
    var world: State
    ghost var trace: seq<Action>

    ghost predicate Reached()
      reads this
    {
      world == Exec(cfg, start, trace)
    }

    ghost predicate Valid()
      reads this
    {
      && Reached()
      && state == world.st && que == world.que && queGone == world.gone && occur == world.occur
      && stateLock == world.lock && thrQueueing == world.flag
    }

    constructor (cfg: Config, start: St)
      ensures Valid() && this.cfg == cfg && this.start == start && trace == []
    {
      this.cfg, this.start := cfg, start;
      state, que, queGone, occur, stateLock, thrQueueing := start, [], false, {}, false, false;
      world, trace := Initial(start), [];
    }

    /** The model takes one step with the object. */
    method Advance(a: Action)
      requires Reached() && Enabled(cfg, world, a)
      modifies this`world, this`trace
      ensures Reached() && trace == old(trace) + [a] && world == Next(cfg, old(world), a)
    {
      ExecSnoc(cfg, start, trace, a);
      trace := trace + [a];
      world := Next(cfg, world, a);
    }

    /** _insEvent */
    method InsEvent(ev: Event)
      modifies this`que, this`occur
      requires que == world.que && occur == world.occur
      ensures que == Dispatcher.InsEvent(cfg, world, ev).que && occur == Dispatcher.InsEvent(cfg, world, ev).occur
    {
      if ev.kind !in cfg.mask {
        que := que + [ev];
      } else if ev.kind !in occur {
        occur := occur + {ev.kind};
        que := que + [ev];
      }
    }

    /** _delEvent */
    method DelEvent() returns (ev: Option<Event>)
      modifies this`que, this`occur
      ensures old(que) == [] ==> ev == None && que == [] && occur == old(occur)
      ensures old(que) != [] ==>
        ev == Some(old(que)[0]) && que == old(que)[1..] && occur == old(occur) - {old(que)[0].kind}
    {
      if que == [] { return None; }
      ev := Some(que[0]);
      occur := occur - {que[0].kind};
      que := que[1..];
    }

    /** One step of another thread while lm is free, or a deletion by the running function itself. */
    method Other(t: nat, a: Action)
      requires Valid() && world.At(t) && Enabled(cfg, world, a)
      requires a.t != t || (a.UserDel? && world.frames[t].pc.Running?)
      modifies this
      ensures Valid() && trace == old(trace) + [a]
      ensures world.At(t) && world.frames[t] == old(world.frames[t]) && state == old(state) && queGone == old(queGone)
    {
      if a.t != t {
        Always(cfg, start, trace);
        OthersCannot(cfg, world, a, t);
      }
      Advance(a);
      que, occur, stateLock, thrQueueing := world.que, world.occur, world.lock, world.flag;
    }

    method Others(t: nat, acts: seq<Action>)
      requires Valid() && world.At(t) && (world.frames[t].pc.Running? || world.frames[t].pc.Filtering?)
      modifies this
      ensures Valid() && old(trace) <= trace
      ensures world.At(t) && world.frames[t] == old(world.frames[t]) && state == old(state) && queGone == old(queGone)
      ensures acts == [] ==> que == old(que)
    {
      for i := 0 to |acts|
        invariant Valid() && old(trace) <= trace
        invariant world.At(t) && world.frames[t] == old(world.frames[t]) && state == old(state) && queGone == old(queGone)
        invariant acts == [] ==> que == old(que)
      {
        if Enabled(cfg, world, acts[i]) && (acts[i].t != t || (acts[i].UserDel? && world.frames[t].pc.Running?)) {
          Other(t, acts[i]);
        }
      }
    }

    /** From taking lm to the first decision; true when the caller now owns state_lock. */
    method Enter(t: nat, ev: Event, thrInfo: bool) returns (mine: bool)
      requires Valid() && t in world.frames && world.frames[t] == Entering(ev, thrInfo) && world.LmFree()
      modifies this
      ensures Valid() && trace == old(trace) + [EnterStep(t)]
      ensures mine <==> world.At(t)
      ensures mine ==> world.frames[t] == Inside(Deq, thrInfo, thrInfo, false)
      ensures !mine ==> t !in world.frames
      ensures mine == (!old(state).zom && !old(stateLock)) && (stateLock <==> old(stateLock) || mine) && state == old(state)
      ensures old(state).zom || (ev.kind in cfg.mask && ev.kind in old(occur)) ==> que == old(que)
      ensures !old(state).zom && (ev.kind !in cfg.mask || ev.kind !in old(occur)) ==> que == old(que) + [ev]
      ensures thrQueueing == (old(thrQueueing) && !(thrInfo && !old(state).zom && old(stateLock)))
    {
      mine := false;
      if !state.zom {
        InsEvent(ev);
        if stateLock {
          if thrInfo { thrQueueing := false; }
        } else {
          stateLock := true;
          mine := true;
        }
      }
      Advance(EnterStep(t));
    }

    /** The head of the inner loop: take an event under lm. */
    method Take(t: nat) returns (ev: Option<Event>)
      requires Valid() && world.At(t) && world.frames[t].pc.Deq?
      modifies this
      ensures Valid() && trace == old(trace) + [MoveStep(t)] && world.At(t)
      ensures if old(que) == [] then ev == None && que == [] else ev == Some(old(que)[0]) && que == old(que)[1..]
      ensures world.frames[t] == old(world.frames[t]).(pc :=
        if ev == None then Check else if cfg.filtered then Filtering(ev.value) else Dispatch(ev.value))
    {
      ev := DelEvent();
      Advance(MoveStep(t));
    }

    method Pass(t: nat, out: Option<Event>)
      requires Valid() && world.At(t) && Enabled(cfg, world, FilterReturn(t, out))
      modifies this`world, this`trace
      ensures Valid() && trace == old(trace) + [FilterReturn(t, out)] && world.At(t)
      ensures world.frames[t] == old(world.frames[t]).(pc := if out == None then Check else Dispatch(out.value))
    {
      Advance(FilterReturn(t, out));
    }

    /** The filter call, with lm released. */
    method CallFilter(t: nat, ev: Event, round: Round) returns (out: Option<Event>)
      requires Valid() && world.At(t) && world.frames[t].pc == Filtering(ev)
      modifies this
      ensures Valid() && old(trace) <= trace && world.At(t)
      ensures world.frames[t] == old(world.frames[t]).(pc := if out == None then Check else Dispatch(out.value))
      ensures round == Quiet(ev) ==> out == Some(ev) && que == old(que)
    {
      Others(t, round.acts);
      out := if ev.kind == TSE_THREAD && (round.out == None || round.out.value.kind != TSE_THREAD) then Some(ev) else round.out;
      Always(cfg, start, trace);
      Pass(t, out);
    }

    /** invoke_check: the new state is stored; the last one of all may also throw the queue away. */
    method Store(r: Ret)
      modifies this`state, this`que, this`queGone
      ensures state == (if r.Goto? || r.Now? then r.st else if r.Zom? then ZOMBIE else old(state))
      ensures que == (if r.Zom? && r.discard then [] else old(que))
      ensures queGone == (old(queGone) || (r.Zom? && r.discard))
    {
      if r.Goto? || r.Now? {
        state := r.st;
      } else if r.Zom? {
        state := ZOMBIE;
        if r.discard { que, queGone := [], true; }
      }
    }

    /** What the result of a state function does, lm being held again. */
    method Apply(t: nat, ev: Event, r: Ret) returns (again: bool, zom: bool)
      requires Valid() && world.At(t) && world.frames[t].pc == Running(ev) && Allowed(cfg, r) && world.owner == Some(t)
      modifies this
      ensures Valid() && trace == old(trace) + [FuncReturnStep(t, r)] && world.At(t)
      ensures again == (r.Now? || r.Again?) && zom == r.Zom?
      ensures world.frames[t] == old(world.frames[t]).(pc := GoesOn(r, ev))
      ensures state == (if r.Goto? || r.Now? then r.st else if r.Zom? then ZOMBIE else old(state))
      ensures que == (if r.Zom? && r.discard then [] else old(que))
      ensures queGone == (old(queGone) || (r.Zom? && r.discard))
    {
      again, zom := r.Now? || r.Again?, r.Zom?;
      Store(r);
      ReturnFields(world, t, r);
      Advance(FuncReturnStep(t, r));
    }

    /** The state function call, with lm released. */
    method CallFunction(t: nat, ev: Event, round: Round) returns (again: bool, zom: bool)
      requires Valid() && world.At(t) && world.frames[t].pc == Running(ev)
      modifies this
      ensures Valid() && old(trace) <= trace && world.At(t)
      ensures world.frames[t] == old(world.frames[t]).(pc := if again then Dispatch(ev) else if zom then Check else Deq)
      ensures again ==> !zom
      ensures var r := if Allowed(cfg, round.res) then round.res else Stay;
        && again == (r.Now? || r.Again?) && zom == r.Zom?
        && state == if r.Goto? || r.Now? then r.st else if r.Zom? then ZOMBIE else old(state)
      ensures round == Quiet(ev) ==> !again && !zom && que == old(que)
    {
      Others(t, round.acts);
      Always(cfg, start, trace);
      again, zom := Apply(t, ev, if Allowed(cfg, round.res) then round.res else Stay);
    }

    /** The call with what the next round of the script holds; a script that is used up is quiet. */
    method CallNext(t: nat, ev: Event, script: seq<Round>) returns (rest: seq<Round>, again: bool, zom: bool)
      requires Valid() && world.At(t) && world.frames[t].pc == Running(ev)
      modifies this
      ensures Valid() && old(trace) <= trace && world.At(t)
      ensures world.frames[t] == old(world.frames[t]).(pc := if again then Dispatch(ev) else if zom then Check else Deq)
      ensures again ==> !zom
      ensures if script == [] then rest == script && !again && !zom && que == old(que) else rest == script[1..]
    {
      if script == [] {
        again, zom := CallFunction(t, ev, Quiet(ev));
        rest := script;
      } else {
        again, zom := CallFunction(t, ev, script[0]);
        rest := script[1..];
      }
    }

    /** The decision for one event in the current state; true when the function is to be called. */
    method Decide(t: nat, ev: Event, thrInfo: bool, doIns0: bool) returns (call: bool, doIns: bool)
      requires Valid() && state.func && world.At(t) && world.frames[t].pc == Dispatch(ev)
      requires world.frames[t].worker == thrInfo && world.frames[t].doIns == doIns0
      modifies this
      ensures Valid() && trace == old(trace) + [MoveStep(t)] && world.At(t) && que == old(que) && state == old(state)
      ensures world.frames[t].worker == thrInfo && world.frames[t].doIns == doIns
      ensures world.frames[t].pc == if call then Running(ev) else Deq
      ensures call == (!state.thr || thrInfo) && thrQueueing == !call
      ensures doIns == (doIns0 || (!call && !old(thrQueueing)))
    {
      doIns := doIns0;
      call := true;
      if !state.thr || thrInfo {
        thrQueueing := false;
      } else {
        if !thrQueueing { thrQueueing, doIns := true, true; }
        call := false;
      }
      Advance(MoveStep(t));
    }

    /** The current state has no function: the object goes into the error state. */
    method Miss(t: nat, ev: Event)
      requires Valid() && !state.func && world.At(t) && world.frames[t].pc == Dispatch(ev)
      modifies this
      ensures Valid() && trace == old(trace) + [MoveStep(t)] && world.At(t)
      ensures state == ERROR && que == old(que) && world.frames[t] == old(world.frames[t])
    {
      state := ERROR;
      Advance(MoveStep(t));
    }

    /** The current state has a function: it is called, unless it needs a worker that is not there. */
    method Attempt(t: nat, ev: Event, thrInfo: bool, doIns0: bool, script: seq<Round>) returns (rest: seq<Round>, doIns: bool, again: bool, zom: bool)
      requires Valid() && state.func && world.At(t) && world.frames[t].pc == Dispatch(ev)
      requires world.frames[t].worker == thrInfo && world.frames[t].doIns == doIns0
      modifies this
      ensures Valid() && old(trace) <= trace && world.At(t)
      ensures world.frames[t].worker == thrInfo && world.frames[t].doIns == doIns
      ensures world.frames[t].pc == (if again then Dispatch(ev) else if zom then Check else Deq) && (zom ==> !again)
      ensures |rest| < |script| || (rest == script && !again && !zom && que == old(que))
    {
      rest, again, zom := script, false, false;
      var call;
      call, doIns := Decide(t, ev, thrInfo, doIns0);
      if call { rest, again, zom := CallNext(t, ev, script); }
    }

    /** The innermost loop: evaluate states until one does not ask to go on with the same event. */
    method Evaluate(t: nat, ev: Event, thrInfo: bool, doIns0: bool, script: seq<Round>) returns (rest: seq<Round>, doIns: bool, zom: bool)
      requires Valid() && world.At(t) && world.frames[t].pc == Dispatch(ev)
      requires world.frames[t].worker == thrInfo && world.frames[t].doIns == doIns0
      modifies this
      ensures Valid() && old(trace) <= trace && world.At(t)
      ensures world.frames[t].worker == thrInfo && world.frames[t].doIns == doIns
      ensures world.frames[t].pc == (if zom then Check else Deq) && (zom ==> |rest| < |script|)
      ensures |rest| < |script| || (rest == script && que == old(que))
    {
      rest, doIns, zom := script, doIns0, false;
      var again := true;
      while again
        invariant Valid() && old(trace) <= trace && world.At(t)
        invariant world.frames[t].worker == thrInfo && world.frames[t].doIns == doIns
        invariant |rest| < |script| || (rest == script && que == old(que))
        invariant world.frames[t].pc == (if again then Dispatch(ev) else if zom then Check else Deq) && (zom ==> !again && |rest| < |script|)
        decreases again, |rest|, !state.func
      {
        if state.func {
          rest, doIns, again, zom := Attempt(t, ev, thrInfo, doIns, rest);
        } else {
          Miss(t, ev);
        }
      }
    }

    /** The inner loop: one event after another until none is left, the filter swallows one, or ZOM. */
    method Drain(t: nat, thrInfo: bool, doIns0: bool, script: seq<Round>) returns (rest: seq<Round>, doIns: bool)
      requires Valid() && world.At(t) && world.frames[t].pc.Deq?
      requires world.frames[t].worker == thrInfo && world.frames[t].doIns == doIns0
      modifies this
      ensures Valid() && old(trace) <= trace && world.At(t) && world.frames[t].pc.Check?
      ensures world.frames[t].worker == thrInfo && world.frames[t].doIns == doIns
      ensures |rest| < |script| || (rest == script && que == [])
    {
      rest, doIns := script, doIns0;
      var going := true;
      while going
        invariant Valid() && old(trace) <= trace && world.At(t)
        invariant world.frames[t].worker == thrInfo && world.frames[t].doIns == doIns
        invariant world.frames[t].pc == (if going then Deq else Check) && (going || |rest| < |script| || que == [])
        invariant |rest| < |script| || rest == script
        decreases |rest|, |que|, going
      {
        var ev := Take(t);
        if ev.Some? && cfg.filtered {
          if rest == [] {
            ev := CallFilter(t, ev.value, Quiet(ev.value));
          } else {
            ev := CallFilter(t, ev.value, rest[0]);
            rest := rest[1..];
          }
        }
        if ev.Some? {
          var zom;
          rest, doIns, zom := Evaluate(t, ev.value, thrInfo, doIns, rest);
          going := !zom;
        } else {
          going := false;
        }
      }
    }

    /** The owner lets go of state_lock and of lm, then hands the object to the pool if it must. */
    method Finish(t: nat)
      requires Valid() && world.At(t) && world.frames[t].pc.Check? && (queGone || que == [])
      modifies this
      ensures Valid() && trace == old(trace) + [MoveStep(t)] + [Leave(t)] && t !in world.frames
      ensures !stateLock && state == old(state) && que == old(que)
    {
      stateLock := false;
      Advance(MoveStep(t));
      Advance(Leave(t));
    }

    method Resume(t: nat)
      requires Valid() && world.At(t) && world.frames[t].pc.Check? && !queGone && que != []
      modifies this
      ensures Valid() && trace == old(trace) + [MoveStep(t)] && world.At(t)
      ensures world.frames[t] == old(world.frames[t]).(pc := Deq)
    {
      Advance(MoveStep(t));
    }

    /** eventHandler from its lock to its return, whatever happens while lm is released. */
    method EventHandler(t: nat, ev: Event, thrInfo: bool, script: seq<Round>)
      requires Valid() && t in world.frames && world.frames[t] == Entering(ev, thrInfo) && world.LmFree()
      modifies this
      ensures Valid() && old(trace) <= trace && t !in world.frames
    {
      var mine := Enter(t, ev, thrInfo);
      if mine {
        var rest, doIns := Drain(t, thrInfo, false, script);
        while !queGone && que != []
          invariant Valid() && old(trace) <= trace && world.At(t) && world.frames[t].pc.Check?
          invariant world.frames[t].worker == thrInfo && world.frames[t].doIns == doIns
          decreases |rest|, |que|
        {
          Resume(t);
          rest, doIns := Drain(t, thrInfo, doIns, rest);
        }
        Finish(t);
      }
    }
  }
}
