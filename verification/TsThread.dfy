/**
  The pool object (tsThread_): its fields and the methods that change them, the worker loop and
  finish().  `world` is the pool's state as the steps of Pool see it, reached by the steps in `trace`;
  Valid() says the fields agree with it.  The code of a method uses the fields; only what the other
  threads do, an arbitrary script, is carried out on `world`.
 */
module TsThread {
  import opened Common
  import opened Pool

  /** What others do before a worker's next step, and whether its wait timed out. */
  datatype Turn = Turn(acts: seq<Action>, timeout: bool)

  /** The steps of worker w. */
  predicate Of(a: Action, w: nat) {
    (a.DoHead? && a.w == w) || (a.DoPut? && a.w == w) || (a.DoWake? && a.w == w) || (a.DoDone? && a.w == w)
  }

  /** How many steps of worker w a list of actions holds. */
  ghost function Own(acts: seq<Action>, w: nat): nat {
    if acts == [] then 0 else Own(acts[..|acts| - 1], w) + if Of(acts[|acts| - 1], w) then 1 else 0
  }

  lemma {:induction false} OwnSnoc(acts: seq<Action>, a: Action, w: nat)
    ensures Own(acts + [a], w) == Own(acts, w) + if Of(a, w) then 1 else 0
  {
    assert (acts + [a])[..|acts|] == acts;
  }

  /** Where another thread's step leaves worker w: at its place and, if it has the mutex, with it. */
  lemma {:induction false} OthersLeave(s: State, a: Action, w: nat)
    requires Inv(s) && Enabled(s, a) && !Of(a, w) && w in s.workers
    ensures var r := Next(s, a); w in r.workers && r.workers[w] == s.workers[w] && (s.mtx == Some(w) ==> r.mtx == s.mtx)
  {
    if a.DoRunThreads? {
      StaffedBy(s, a.num);
    } else if a.DoLimit? {
      LimitStaffs(s, a.lim);
    } else if a.DoDrain? {
      StaffedBy(s, 0);
    }
  }

  /** What a worker does with the mutex in hand next. */
  function Proceed(s: State, u: nat): Action
    requires u in s.workers
  {
    if s.workers[u].Holding? then DoPut(u) else DoHead(u)
  }

  class TsThread {
    var ready: seq<nat>
    var run: seq<nat>
    var refio: bool
    var targetRunThreads: int
    var limitThreadsNumber: int
    var currentRunThreads: int
    var finishFlag: bool
    var folded: bool
    var world: State
    ghost var trace: seq<Action>

    ghost predicate Reached()
      reads this
    {
      world == Exec(trace)
    }

    ghost predicate Valid()
      reads this
    {
      && Reached()
      && ready == world.ready && run == world.run && refio == world.refio
      && targetRunThreads == world.target && limitThreadsNumber == world.limit && currentRunThreads == world.current
      && finishFlag == world.latched && folded == (world.phase == Folded)
    }

    /** INI_START */
    constructor ()
      ensures Valid() && trace == []
    {
      ready, run, refio, finishFlag, folded := [], [], false, false, false;
      limitThreadsNumber := MAX_INTEGER;
      targetRunThreads := THREAD_MAX_IDLE_THREADS;
      currentRunThreads := THREAD_MAX_IDLE_THREADS;
      world, trace := Initial(), [];
    }

    method Advance(a: Action)
      requires Reached() && Enabled(world, a)
      modifies this`world, this`trace
      ensures Reached() && trace == old(trace) + [a] && world == Next(old(world), a)
    {
      ExecSnoc(trace, a);
      trace := trace + [a];
      world := Next(world, a);
    }

    /** ins() */
    method Ins()
      requires Valid() && world.mtx == None
      modifies this
      ensures Valid() && trace == old(trace) + [DoIns]
    {
      if !folded {
        ready := ready + [world.nextJob];
        refio := true;
      }
      Advance(DoIns);
    }

    /** create(): start the threads one by one, then count them. */
    method Create(num: nat)
      modifies this`world, this`currentRunThreads
      ensures world == Pool.Create(old(world), num) && currentRunThreads == old(currentRunThreads) + num
    {
      var workers, id := world.workers, world.nextWorker;
      for i := 0 to num
        invariant id == old(world.nextWorker) + i
        invariant Spawned(workers, id, num - i) == Spawned(old(world.workers), old(world.nextWorker), num)
      {
        workers, id := workers[id := Head], id + 1;
      }
      world := world.(workers := workers, nextWorker := id, current := world.current + num);
      currentRunThreads := currentRunThreads + num;
    }

    /** _runThreads_nolock() */
    method RunThreadsNolock(num: int)
      requires limitThreadsNumber == world.limit && currentRunThreads == world.current
      modifies this`world, this`currentRunThreads, this`targetRunThreads
      ensures world == Pool.RunThreads(old(world), num)
      ensures targetRunThreads == world.target && currentRunThreads == world.current
    {
      targetRunThreads := if num > limitThreadsNumber then limitThreadsNumber else num;
      world := world.(target := targetRunThreads);
      if currentRunThreads < targetRunThreads {
        Create(targetRunThreads - currentRunThreads);
      }
    }

    /** runThreads(num) while the pool is not being torn down */
    method RunThreads(num: int)
      requires Valid() && Enabled(world, DoRunThreads(num))
      modifies this
      ensures Valid() && trace == old(trace) + [DoRunThreads(num)]
    {
      ExecSnoc(trace, DoRunThreads(num));
      RunThreadsNolock(num);
      trace := trace + [DoRunThreads(num)];
    }

    /** limitThreadsNumber(lim) */
    method LimitThreads(lim: int)
      requires Valid() && world.mtx == None
      modifies this
      ensures Valid() && trace == old(trace) + [DoLimit(lim)]
    {
      ExecSnoc(trace, DoLimit(lim));
      limitThreadsNumber := if lim < THREAD_MAX_IDLE_THREADS then THREAD_MAX_IDLE_THREADS else lim;
      world := world.(limit := limitThreadsNumber);
      RunThreadsNolock(targetRunThreads);
      trace := trace + [DoLimit(lim)];
    }

    /** finish(): reads ready->count, run->count and is_stable() one after the other, without the pool
        mutex; the others act in between. */
    method Finish(stable: bool, a: seq<Action>, b: seq<Action>, c: seq<Action>) returns (done: bool)
      requires Valid() && world.finisher == NotReading
      modifies this
      ensures Valid() && old(trace) <= trace && world.finisher == NotReading && done == finishFlag
      ensures old(trace) + [DoFinReady] <= trace
      ensures !old(finishFlag) && done ==> old(ready) == [] && world.readAt == old(world.nextJob) && stable
    {
      done := finishFlag;
      var go := ReadReady();
      if !go { return; }
      OthersButFinish(a);
      go := ReadRun();
      if !go { return; }
      OthersButFinish(b);
      Advance(DoFinStable(stable));
      if !stable { return; }
      OthersButFinish(c);
      SetFlag();
      done := true;
    }

    method ReadReady() returns (empty: bool)
      requires Valid() && world.finisher == NotReading
      modifies this`world, this`trace
      ensures Valid() && trace == old(trace) + [DoFinReady] && (empty <==> !finishFlag && ready == [])
      ensures world.finisher == if empty then SawReady else NotReading
      ensures empty ==> world.readAt == old(world.nextJob)
    {
      empty := !finishFlag && ready == [];
      Advance(DoFinReady);
    }

    method ReadRun() returns (empty: bool)
      requires Valid() && world.finisher == SawReady
      modifies this`world, this`trace
      ensures Valid() && trace == old(trace) + [DoFinRun] && (empty <==> run == [])
      ensures world.finisher == (if empty then SawRun else NotReading) && world.readAt == old(world.readAt)
    {
      empty := run == [];
      Advance(DoFinRun);
    }

    method SetFlag()
      requires Valid() && world.finisher == SawStable
      modifies this
      ensures Valid() && trace == old(trace) + [DoFinLatch] && finishFlag
      ensures world.finisher == NotReading && world.readAt == old(world.readAt)
    {
      finishFlag := true;
      Advance(DoFinLatch);
    }

    /** What the others do between two reads of finish(). */
    method OthersButFinish(acts: seq<Action>)
      requires Valid()
      modifies this
      ensures Valid() && old(trace) <= trace
      ensures world.finisher == old(world.finisher) && world.latched == old(world.latched)
      ensures world.finisher != NotReading ==> world.readAt == old(world.readAt)
    {
      for i := 0 to |acts|
        invariant Valid() && old(trace) <= trace
        invariant world.finisher == old(world.finisher) && world.latched == old(world.latched) && world.readAt == old(world.readAt)
      {
        if Enabled(world, acts[i]) && !Fin(acts[i]) {
          OtherButFinish(acts[i]);
        }
      }
    }

    method OtherButFinish(a: Action)
      requires Valid() && Enabled(world, a) && !Fin(a)
      modifies this
      ensures Valid() && trace == old(trace) + [a]
      ensures world.finisher == old(world.finisher) && world.latched == old(world.latched) && world.readAt == old(world.readAt)
    {
      FinishAlone(world, a);
      Follow(a);
    }

    /** FIN_DRAINED */
    method FinDrained()
      requires Valid() && Enabled(world, DoDrain)
      modifies this
      ensures Valid() && trace == old(trace) + [DoDrain]
    {
      ExecSnoc(trace, DoDrain);
      RunThreadsNolock(0);
      world := world.(phase := Drained);
      trace := trace + [DoDrain];
    }

    /** FIN_WAIT: wait for the workers, then fold; the queued jobs are given up. */
    method FinWait() returns (done: bool, doomed: seq<nat>)
      requires Valid() && world.phase == Drained && world.mtx == None
      modifies this
      ensures Valid() && (done <==> old(currentRunThreads) == 0)
      ensures trace == old(trace) + if done then [DoFold] else []
      ensures doomed == if done then old(ready) else []
    {
      if currentRunThreads != 0 { return false, []; }
      NothingRuns(trace);
      doomed := ready + run;
      refio := false;
      ready, run := [], [];
      folded := true;
      Advance(DoFold);
      done := true;
    }

    /** Another thread's step, seen from the fields. */
    method Follow(a: Action)
      requires Valid() && Enabled(world, a)
      modifies this
      ensures Valid() && trace == old(trace) + [a] && world == Next(old(world), a)
    {
      Advance(a);
      ready, run, refio := world.ready, world.run, world.refio;
      targetRunThreads, limitThreadsNumber, currentRunThreads := world.target, world.limit, world.current;
      finishFlag, folded := world.latched, world.phase == Folded;
    }

    method Other(w: nat, a: Action)
      requires Valid() && w in world.workers && Enabled(world, a) && !Of(a, w)
      modifies this
      ensures Valid() && old(trace) <= trace && Own(trace, w) == old(Own(trace, w))
      ensures w in world.workers && world.workers[w] == old(world.workers[w])
      ensures old(world.mtx) == Some(w) ==> world.mtx == Some(w)
      ensures world == Next(old(world), a)
    {
      Always(trace);
      OthersLeave(world, a, w);
      OwnSnoc(trace, a, w);
      Follow(a);
    }

    /** Whatever the others do leaves worker w where it is, and they let go of the mutex in the end. */
    method Others(w: nat, acts: seq<Action>)
      requires Valid() && w in world.workers
      modifies this
      ensures Valid() && old(trace) <= trace && Own(trace, w) == old(Own(trace, w))
      ensures w in world.workers && world.workers[w] == old(world.workers[w])
      ensures world.mtx == None || world.mtx == Some(w)
      ensures old(world.mtx) == Some(w) ==> world.mtx == Some(w)
    {
      for i := 0 to |acts|
        invariant Valid() && old(trace) <= trace && Own(trace, w) == old(Own(trace, w))
        invariant w in world.workers && world.workers[w] == old(world.workers[w])
        invariant old(world.mtx) == Some(w) ==> world.mtx == Some(w)
      {
        if Enabled(world, acts[i]) && !Of(acts[i], w) {
          Other(w, acts[i]);
        }
      }
      YieldMutex(w);
    }

    /** A worker that has the mutex lets go of it after at most two steps. */
    method YieldMutex(w: nat)
      requires Valid() && w in world.workers
      modifies this
      ensures Valid() && old(trace) <= trace && Own(trace, w) == old(Own(trace, w))
      ensures w in world.workers && world.workers[w] == old(world.workers[w])
      ensures world.mtx == None || world.mtx == Some(w)
      ensures old(world.mtx) == Some(w) ==> world.mtx == Some(w)
    {
      Always(trace);
      if world.mtx.Some? && world.mtx != Some(w) {
        var u := world.mtx.value;
        Other(w, Proceed(world, u));
        Always(trace);
        if world.mtx.Some? {
          Other(w, Proceed(world, u));
        }
      }
    }

    /** The head of the worker loop: leave, take the oldest job, or go to sleep. */
    method LoopHead(w: nat) returns (at: Option<Pc>)
      requires Valid() && Enabled(world, DoHead(w))
      modifies this
      ensures Valid() && trace == old(trace) + [DoHead(w)]
      ensures at == if old(targetRunThreads < currentRunThreads) then None else Some(if old(ready) != [] then Holding(old(ready)[0]) else Sleeping)
      ensures ready == if at.Some? && at.value.Holding? then old(ready)[1..] else old(ready)
      ensures if at == None then w !in world.workers else At(world, w, at.value) && !at.value.Running?
    {
      if targetRunThreads < currentRunThreads {
        currentRunThreads := currentRunThreads - 1;
        at := None;
      } else if ready != [] {
        at := Some(Holding(ready[0]));
        ready := ready[1..];
      } else {
        at := Some(Sleeping);
      }
      Advance(DoHead(w));
    }

    /** The job taken goes on the run queue; then the mutex is released. */
    method PutOnRun(w: nat, job: nat)
      requires Valid() && At(world, w, Holding(job))
      modifies this
      ensures Valid() && trace == old(trace) + [DoPut(w)] && At(world, w, Running(job))
    {
      run := run + [job];
      Advance(DoPut(w));
    }

    /** After the timed wait: around again, or one last look at the ready queue. */
    method AfterWait(w: nat, timeout: bool) returns (at: Option<Pc>)
      requires Valid() && Enabled(world, DoWake(w, timeout))
      modifies this
      ensures Valid() && trace == old(trace) + [DoWake(w, timeout)]
      ensures at == if !timeout then Some(Head) else if old(ready) != [] then Some(Holding(old(ready)[0])) else None
      ensures ready == if at.Some? && at.value.Holding? then old(ready)[1..] else old(ready)
      ensures if at == None then w !in world.workers else At(world, w, at.value) && !at.value.Running?
    {
      if !timeout {
        at := Some(Head);
      } else if ready != [] {
        at := Some(Holding(ready[0]));
        ready := ready[1..];
      } else {
        currentRunThreads := currentRunThreads - 1;
        at := None;
      }
      Advance(DoWake(w, timeout));
    }

    /** The job has returned: take it off the run queue and drop the keep-alive bit if it was the last. */
    method AfterJob(w: nat, job: nat)
      requires Valid() && At(world, w, Running(job)) && world.mtx == None
      modifies this
      ensures Valid() && trace == old(trace) + [DoDone(w)] && At(world, w, Head)
    {
      run := Without(run, job);
      if run == [] && ready == [] { refio := false; }
      Advance(DoDone(w));
    }

    /** One step of worker w, after what the others did. */
    method BodyStep(w: nat, pc: Pc, turn: Turn) returns (at: Option<Pc>)
      requires Valid() && At(world, w, pc)
      modifies this
      ensures Valid() && old(trace) <= trace && Own(trace, w) == old(Own(trace, w)) + 1
      ensures if at == None then w !in world.workers else At(world, w, at.value)
    {
      Others(w, turn.acts);
      Always(trace);
      match pc
      case Head =>
        OwnSnoc(trace, DoHead(w), w);
        at := LoopHead(w);
      case Holding(job) =>
        OwnSnoc(trace, DoPut(w), w);
        PutOnRun(w, job);
        at := Some(Running(job));
      case Sleeping =>
        OwnSnoc(trace, DoWake(w, turn.timeout), w);
        at := AfterWait(w, turn.timeout);
      case Running(job) =>
        OwnSnoc(trace, DoDone(w), w);
        AfterJob(w, job);
        at := Some(Head);
    }

    /** __tsThread_body(): the worker steps on, one step a turn of the other threads' script, until it
        leaves. */
    method Body(w: nat, script: seq<Turn>)
      requires Valid() && At(world, w, Head)
      modifies this
      ensures Valid() && old(trace) <= trace
      ensures w in world.workers ==> Own(trace, w) == old(Own(trace, w)) + |script|
      ensures w !in world.workers ==> old(Own(trace, w)) < Own(trace, w) <= old(Own(trace, w)) + |script|
    {
      var pc := Head;
      for i := 0 to |script|
        invariant Valid() && old(trace) <= trace && At(world, w, pc) && Own(trace, w) == old(Own(trace, w)) + i
      {
        var at := BodyStep(w, pc, script[i]);
        if at == None { return; }
        pc := at.value;
      }
    }
  }
}
