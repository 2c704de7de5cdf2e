/**
  The worker pool (tsThread): jobs wait in `ready`, the jobs being worked on are in `run`, one bit
  (refio) keeps the reactor loop alive, and the number of workers follows a target.  Everything but
  finish() works under the pool mutex; a worker keeps the mutex over several steps, so that what
  finish() reads without it can fall between them.  Jobs are numbered as they are submitted.
 */
module Pool {
  import opened Common

  const THREAD_MAX_IDLE_THREADS: int := 2
  const MAX_INTEGER: int := 0x7fff_ffff

  /** Where a worker body is: at the head of its loop, in the timed wait, between taking a job off
      `ready` and putting it on `run`, or in the job. */
  datatype Pc = Head | Sleeping | Holding(job: nat) | Running(job: nat)

  datatype Phase = Active | Drained | Folded

  /** How far a call of finish() has come: nothing read, `ready` read as empty, `run` read as empty,
      the collector found stable. */
  datatype Finisher = NotReading | SawReady | SawRun | SawStable

  /** mtx: the worker that holds the pool mutex between two steps.  readAt, latchAt: how many jobs had
      been submitted when finish() last read `ready` as empty, and when it set its flag. */
  datatype State = State(
    ready: seq<nat>, run: seq<nat>, refio: bool,
    target: int, limit: int, current: int,
    phase: Phase, latched: bool, finisher: Finisher, mtx: Option<nat>, workers: map<nat, Pc>,
    nextWorker: nat, nextJob: nat, readAt: nat, latchAt: nat,
    completed: seq<nat>, discarded: seq<nat>, dropped: seq<nat>)

  /** The job a worker has taken off `ready` and not yet put on `run`. */
  function Hand(s: State): seq<nat> {
    if s.mtx.Some? && s.mtx.value in s.workers && s.workers[s.mtx.value].Holding? then [s.workers[s.mtx.value].job] else []
  }

  // ---------------------------------------------------------------- the steps

  /** n new workers, numbered from base. */
  function Spawned(workers: map<nat, Pc>, base: nat, n: nat): map<nat, Pc>
    decreases n
  {
    if n == 0 then workers else Spawned(workers[base := Head], base + 1, n - 1)
  }

  function Create(s: State, n: nat): State {
    s.(workers := Spawned(s.workers, s.nextWorker, n), nextWorker := s.nextWorker + n, current := s.current + n)
  }

  /** _runThreads_nolock: the only place that writes the target. */
  function RunThreads(s: State, num: int): State {
    var num' := if num > s.limit then s.limit else num;
    var s' := s.(target := num');
    if s'.current < num' then Create(s', num' - s'.current) else s'
  }

  function LimitThreads(s: State, lim: int): State {
    var lim' := if lim < THREAD_MAX_IDLE_THREADS then THREAD_MAX_IDLE_THREADS else lim;
    RunThreads(s.(limit := lim'), s.target)
  }

  function Blank(): State {
    State([], [], false, 0, MAX_INTEGER, 0, Active, false, NotReading, None, map[], 0, 0, 0, 0, [], [], [])
  }

  /** The pool once it has started its two workers. */
  function Initial(): State {
    Blank().(target := 2, current := 2, workers := map[0 := Head, 1 := Head], nextWorker := 2)
  }

  /** ins() */
  function Ins(s: State): State {
    var s' := s.(nextJob := s.nextJob + 1);
    if s.phase == Folded then s'.(dropped := s.dropped + [s.nextJob])
    else s'.(ready := s.ready + [s.nextJob], refio := true)
  }

  /** A worker takes the oldest ready job, still under the mutex. */
  function Take(s: State, w: nat): State
    requires s.ready != []
  {
    s.(ready := s.ready[1..], workers := s.workers[w := Holding(s.ready[0])], mtx := Some(w))
  }

  function Exit(s: State, w: nat): State {
    s.(workers := s.workers - {w}, current := s.current - 1, mtx := None)
  }

  /** The worker moves to a place where it holds no job. */
  function Idle(s: State, w: nat, pc: Pc, mtx: Option<nat>): State {
    s.(workers := s.workers[w := pc], mtx := mtx)
  }

  /** The head of the worker loop. */
  function HeadStep(s: State, w: nat): State {
    if s.target < s.current then Exit(s, w)
    else if s.ready != [] then Take(s, w)
    else Idle(s, w, Sleeping, None)
  }

  /** The job goes on `run` and the mutex is released for the job. */
  function PutStep(s: State, w: nat, j: nat): State {
    s.(run := s.run + [j], workers := s.workers[w := Running(j)], mtx := None)
  }

  /** Back from the timed wait, with the mutex. */
  function WakeStep(s: State, w: nat, timeout: bool): State {
    if !timeout then Idle(s, w, Head, Some(w))
    else if s.ready != [] then Take(s, w)
    else Exit(s, w)
  }

  /** The job's eventHandler has returned.  The mutex is released only around the wakeup() that follows
      the last job; otherwise the worker goes on to the head of its loop with it. */
  function DoneStep(s: State, w: nat, j: nat): State {
    var s' := s.(run := Without(s.run, j), completed := s.completed + [j], workers := s.workers[w := Head]);
    if s'.run == [] && s'.ready == [] then s'.(refio := false, mtx := None) else s'.(mtx := Some(w))
  }

  /** finish() reads ready->count. */
  function FinReady(s: State): State {
    if s.latched || s.ready != [] then s else s.(finisher := SawReady, readAt := s.nextJob)
  }

  /** finish() reads run->count. */
  function FinRun(s: State): State { s.(finisher := if s.run == [] then SawRun else NotReading) }

  /** finish() asks is_stable(). */
  function FinStable(s: State, stable: bool): State { s.(finisher := if stable then SawStable else NotReading) }

  /** finish() sets its flag. */
  function FinLatch(s: State): State { s.(latched := true, latchAt := s.nextJob, finisher := NotReading) }

  /** FIN_DRAINED */
  function Drain(s: State): State { RunThreads(s, 0).(phase := Drained) }

  /** FIN_WAIT with no worker left */
  function Fold(s: State): State {
    s.(phase := Folded, refio := false, ready := [], run := [], discarded := s.discarded + s.ready + s.run)
  }

  datatype Action =
    | DoIns
    | DoRunThreads(num: int)
    | DoLimit(lim: int)
    | DoHead(w: nat)
    | DoPut(w: nat)
    | DoWake(w: nat, timeout: bool)
    | DoDone(w: nat)
    | DoFinReady
    | DoFinRun
    | DoFinStable(stable: bool)
    | DoFinLatch
    | DoDrain
    | DoFold

  predicate At(s: State, w: nat, pc: Pc) { w in s.workers && s.workers[w] == pc }

  predicate Enabled(s: State, a: Action) {
    match a
    case DoIns => s.mtx == None
    case DoRunThreads(_) => s.phase == Active && s.mtx == None
    case DoLimit(_) => s.mtx == None
    case DoHead(w) => At(s, w, Head) && (s.mtx == None || s.mtx == Some(w))
    case DoPut(w) => w in s.workers && s.workers[w].Holding?
    case DoWake(w, _) => At(s, w, Sleeping) && s.mtx == None
    case DoDone(w) => w in s.workers && s.workers[w].Running? && s.mtx == None
    case DoFinReady => s.finisher == NotReading
    case DoFinRun => s.finisher == SawReady
    case DoFinStable(_) => s.finisher == SawRun
    case DoFinLatch => s.finisher == SawStable
    case DoDrain => s.phase == Active && s.latched && s.mtx == None
    case DoFold => s.phase == Drained && s.current == 0 && s.mtx == None
  }

  function Next(s: State, a: Action): State
    requires Enabled(s, a)
  {
    match a
    case DoIns => Ins(s)
    case DoRunThreads(num) => RunThreads(s, num)
    case DoLimit(lim) => LimitThreads(s, lim)
    case DoHead(w) => HeadStep(s, w)
    case DoPut(w) => PutStep(s, w, s.workers[w].job)
    case DoWake(w, timeout) => WakeStep(s, w, timeout)
    case DoDone(w) => DoneStep(s, w, s.workers[w].job)
    case DoFinReady => FinReady(s)
    case DoFinRun => FinRun(s)
    case DoFinStable(stable) => FinStable(s, stable)
    case DoFinLatch => FinLatch(s)
    case DoDrain => Drain(s)
    case DoFold => Fold(s)
  }

  /** An action that is not enabled is skipped. */
  function Try(s: State, a: Action): State { if Enabled(s, a) then Next(s, a) else s }

  /** The state after any list of actions.  (It is split in three so that a proof looks into it only
      where it calls ExecLast.) */
  function Exec(acts: seq<Action>): State
    decreases |acts|, 2
  {
    if acts == [] then Initial() else After(acts)
  }

  function After(acts: seq<Action>): State
    requires acts != []
    decreases |acts|, 1
  {
    Then(acts[..|acts| - 1], acts[|acts| - 1])
  }

  function Then(acts: seq<Action>, a: Action): State
    decreases |acts| + 1, 0
  {
    Try(Exec(acts), a)
  }

  lemma {:induction false} ExecLast(acts: seq<Action>)
    requires acts != []
    ensures Exec(acts) == Try(Exec(acts[..|acts| - 1]), acts[|acts| - 1])
  {
    assert Exec(acts) == After(acts);
    assert After(acts) == Then(acts[..|acts| - 1], acts[|acts| - 1]);
  }

  lemma {:induction false} ExecSnoc(acts: seq<Action>, a: Action)
    ensures Exec(acts + [a]) == Try(Exec(acts), a)
  {
    ExecLast(acts + [a]);
    assert (acts + [a])[..|acts|] == acts;
  }

  // ---------------------------------------------------------------- where a job is

  /** In how many places job j is: ready, in a worker's hand, running, completed, discarded at the
      fold, or dropped. */
  function Places(s: State, j: nat): nat {
    Occ(s.ready, j) + Occ(Hand(s), j) + Occ(s.run, j) + Occ(s.completed, j) + Occ(s.discarded, j) + Occ(s.dropped, j)
  }

  /** Every submitted job is in exactly one place, and nothing else is anywhere. */
  ghost predicate JobsInv(s: State) {
    forall j: nat :: Places(s, j) == if j < s.nextJob then 1 else 0
  }

  /** `run` holds exactly the jobs of the running workers, each worker its own. */
  ghost predicate RunInv(s: State) {
    && (forall w, j :: At(s, w, Running(j)) ==> Occ(s.run, j) == 1)
    && (forall w, u, j :: At(s, w, Running(j)) && At(s, u, Running(j)) ==> w == u)
    && (forall j: nat :: Occ(s.run, j) > 0 ==> exists w :: At(s, w, Running(j)))
  }

  /** Only the worker that holds the mutex has a job in hand. */
  ghost predicate MutexInv(s: State) {
    && (forall w :: w in s.workers && s.workers[w].Holding? ==> s.mtx == Some(w))
    && (s.mtx.Some? ==> s.mtx.value in s.workers && (s.workers[s.mtx.value].Head? || s.workers[s.mtx.value].Holding?))
  }

  ghost predicate PoolInv(s: State) {
    && (s.refio <==> s.ready != [] || s.run != [] || Hand(s) != [])
    && s.target <= s.limit && s.current == |s.workers|
    && (s.phase != Active ==> s.latched && s.target <= 0)
    && (s.phase == Folded ==> s.workers == map[] && s.ready == [] && s.run == [])
    && (s.phase != Folded ==> s.discarded == [] && s.dropped == [])
    && (forall w :: w in s.workers ==> w < s.nextWorker)
  }

  /** A job submitted before finish() read `ready` as empty never waits or gets lost again. */
  ghost predicate FinishInv(s: State) {
    && (s.latched ==> s.finisher == NotReading && s.readAt <= s.latchAt <= s.nextJob)
    && (s.latched || s.finisher != NotReading ==>
      s.readAt <= s.nextJob && forall j: nat :: j < s.readAt ==> Occ(s.ready, j) == Occ(s.discarded, j) == Occ(s.dropped, j) == 0)
  }

  ghost predicate Inv(s: State) { JobsInv(s) && RunInv(s) && MutexInv(s) && PoolInv(s) && FinishInv(s) }

  // ---------------------------------------------------------------- every step keeps them

  lemma {:induction false} SpawnedIs(workers: map<nat, Pc>, base: nat, n: nat)
    requires forall w :: w in workers ==> w < base
    ensures var r := Spawned(workers, base, n);
      && |r| == |workers| + n
      && (forall w :: w in r ==> w < base + n)
      && (forall w :: w in workers ==> w in r && r[w] == workers[w])
      && (forall w :: w in r && w !in workers ==> r[w] == Head)
    decreases n
  {
    if n > 0 {
      assert |workers[base := Head]| == |workers| + 1;
      SpawnedIs(workers[base := Head], base + 1, n - 1);
    }
  }

  /** Workers that come or go without a job leave the rest as it was. */
  lemma {:induction false} RunStays(s: State, r: State)
    requires RunInv(s) && r.run == s.run
    requires forall w :: w in s.workers && s.workers[w].Running? ==> w in r.workers && r.workers[w] == s.workers[w]
    requires forall w :: w in r.workers && r.workers[w].Running? ==> w in s.workers && r.workers[w] == s.workers[w]
    ensures RunInv(r)
  {
    forall w, j | At(r, w, Running(j)) ensures At(s, w, Running(j)) {}
    forall j: nat | Occ(r.run, j) > 0 ensures exists w :: At(r, w, Running(j)) {
      var w :| At(s, w, Running(j));
      assert At(r, w, Running(j));
    }
  }

  /** The jobs and the finisher's reading do not change. */
  lemma {:induction false} JobsStay(s: State, r: State)
    requires JobsInv(s) && FinishInv(s)
    requires r.ready == s.ready && r.run == s.run && Hand(r) == Hand(s) && r.completed == s.completed
    requires r.discarded == s.discarded && r.dropped == s.dropped && r.nextJob == s.nextJob
    requires r.latched == s.latched && r.finisher == s.finisher && r.readAt == s.readAt && r.latchAt == s.latchAt
    ensures JobsInv(r) && FinishInv(r)
  {
    forall j: nat ensures Places(r, j) == Places(s, j) {}
  }

  lemma {:induction false} TargetKeeps(s: State, target: int)
    requires Inv(s) && target <= s.limit && (s.phase == Active || target <= 0)
    ensures Inv(s.(target := target))
  {
    RunStays(s, s.(target := target));
    JobsStay(s, s.(target := target));
  }

  lemma {:induction false} CreateKeeps(s: State, n: nat)
    requires Inv(s) && s.phase == Active
    ensures Inv(Create(s, n))
  {
    SpawnedIs(s.workers, s.nextWorker, n);
    RunStays(s, Create(s, n));
    JobsStay(s, Create(s, n));
  }

  lemma {:induction false} RunThreadsKeeps(s: State, num: int)
    requires Inv(s) && (s.phase == Active || num <= 0)
    ensures var r := RunThreads(s, num); Inv(r) && r.target == if num > s.limit then s.limit else num
  {
    var target := if num > s.limit then s.limit else num;
    var t := s.(target := target);
    TargetKeeps(s, target);
    if t.current < target {
      CreateKeeps(t, target - t.current);
      assert RunThreads(s, num) == Create(t, target - t.current);
    } else {
      assert RunThreads(s, num) == t;
    }
  }

  lemma {:induction false} LimitOnly(s: State, s': State, lim: int)
    requires Inv(s) && lim >= 0 && s' == s.(limit := lim, target := if s.target > lim then lim else s.target)
    ensures Inv(s')
  {
    RunStays(s, s');
    JobsStay(s, s');
  }

  lemma {:induction false} LimitKeeps(s: State, lim: int)
    requires Inv(s)
    ensures Inv(LimitThreads(s, lim))
  {
    var lim' := if lim < THREAD_MAX_IDLE_THREADS then THREAD_MAX_IDLE_THREADS else lim;
    var s' := s.(limit := lim', target := if s.target > lim' then lim' else s.target);
    LimitOnly(s, s', lim');
    RunThreadsKeeps(s', s.target);
    assert LimitThreads(s, lim) == RunThreads(s', s.target);
  }

  lemma {:induction false} InsKeeps(s: State)
    requires Inv(s)
    ensures Inv(Ins(s))
  {
    var r := Ins(s);
    forall j: nat ensures Occ(r.ready, j) + Occ(r.dropped, j) == Occ(s.ready, j) + Occ(s.dropped, j) + if j == s.nextJob then 1 else 0 {
      OccConcat(s.ready, [s.nextJob], j);
      OccConcat(s.dropped, [s.nextJob], j);
    }
    assert Hand(r) == Hand(s);
    forall j: nat ensures Places(r, j) == Places(s, j) + if j == s.nextJob then 1 else 0 {}
    RunStays(s, r);
  }

  lemma {:induction false} TakeKeeps(s: State, w: nat)
    requires Inv(s) && s.ready != [] && w in s.workers && (s.workers[w].Head? || s.workers[w].Sleeping?)
    requires s.mtx == None || s.mtx == Some(w)
    ensures Inv(Take(s, w))
  {
    var r := Take(s, w);
    assert Hand(s) == [] && Hand(r) == [s.ready[0]];
    forall j: nat ensures Places(r, j) == Places(s, j) && Occ(r.ready, j) <= Occ(s.ready, j) {
      OccConcat([s.ready[0]], r.ready, j);
      assert s.ready == [s.ready[0]] + r.ready;
    }
    RunStays(s, r);
    assert r.workers.Keys == s.workers.Keys;
  }

  lemma {:induction false} IdleKeeps(s: State, w: nat, pc: Pc, mtx: Option<nat>)
    requires Inv(s) && w in s.workers && (s.workers[w].Head? || s.workers[w].Sleeping?) && (s.mtx == None || s.mtx == Some(w))
    requires (pc == Sleeping && mtx == None) || (pc == Head && mtx == Some(w))
    ensures Inv(Idle(s, w, pc, mtx))
  {
    var r := Idle(s, w, pc, mtx);
    RunStays(s, r);
    JobsStay(s, r);
    assert r.workers.Keys == s.workers.Keys;
  }

  lemma {:induction false} ExitKeeps(s: State, w: nat)
    requires Inv(s) && w in s.workers && (s.workers[w].Head? || s.workers[w].Sleeping?) && (s.mtx == None || s.mtx == Some(w))
    ensures Inv(Exit(s, w))
  {
    var r := Exit(s, w);
    RunStays(s, r);
    JobsStay(s, r);
    assert r.workers.Keys == s.workers.Keys - {w};
  }

  lemma {:induction false} PutRun(s: State, w: nat, j: nat)
    requires RunInv(s) && At(s, w, Holding(j)) && Occ(s.run, j) == 0
    ensures RunInv(PutStep(s, w, j))
  {
    var r := PutStep(s, w, j);
    forall k: nat ensures Occ(r.run, k) == Occ(s.run, k) + if k == j then 1 else 0 { OccConcat(s.run, [j], k); }
    forall u, k | At(r, u, Running(k)) ensures if u == w then k == j else k != j && At(s, u, Running(k)) {
      if u != w { assert At(s, u, Running(k)); }
    }
    forall k: nat | Occ(r.run, k) > 0 ensures exists u :: At(r, u, Running(k)) {
      if k == j {
        assert At(r, w, Running(k));
      } else {
        var u :| At(s, u, Running(k));
        assert At(r, u, Running(k));
      }
    }
  }

  lemma {:induction false} PutKeeps(s: State, w: nat, j: nat)
    requires Inv(s) && At(s, w, Holding(j))
    ensures Inv(PutStep(s, w, j))
  {
    var r := PutStep(s, w, j);
    assert Hand(s) == [j] && Hand(r) == [];
    assert Places(s, j) == 1;
    PutRun(s, w, j);
    forall k: nat ensures Places(r, k) == Places(s, k) { OccConcat(s.run, [j], k); }
    assert r.workers.Keys == s.workers.Keys;
  }

  lemma {:induction false} DoneJobs(s: State, w: nat, j: nat, k: nat)
    requires Occ(s.run, j) == 1 && Hand(s) == []
    ensures var r := DoneStep(s, w, j);
      && Occ(r.run, k) == Occ(s.run, k) - (if k == j then 1 else 0)
      && Places(r, k) == Places(s, k)
  {
    OccWithout(s.run, j, k);
    OccConcat(s.completed, [j], k);
    assert Hand(DoneStep(s, w, j)) == [];
  }

  lemma {:induction false} DoneRun(s: State, w: nat, j: nat)
    requires RunInv(s) && At(s, w, Running(j)) && Hand(s) == []
    ensures RunInv(DoneStep(s, w, j))
  {
    var r := DoneStep(s, w, j);
    forall k: nat ensures Occ(r.run, k) == Occ(s.run, k) - if k == j then 1 else 0 { DoneJobs(s, w, j, k); }
    forall u, k | At(r, u, Running(k)) ensures k != j && At(s, u, Running(k)) {
      assert At(s, u, Running(k));
    }
    forall k: nat | Occ(r.run, k) > 0 ensures exists u :: At(r, u, Running(k)) {
      var u :| At(s, u, Running(k));
      assert At(r, u, Running(k));
    }
  }

  lemma {:induction false} DoneKeeps(s: State, w: nat, j: nat)
    requires Inv(s) && At(s, w, Running(j)) && s.mtx == None
    ensures Inv(DoneStep(s, w, j))
  {
    var r := DoneStep(s, w, j);
    DoneRun(s, w, j);
    forall k: nat ensures Places(r, k) == Places(s, k) { DoneJobs(s, w, j, k); }
    assert r.workers.Keys == s.workers.Keys;
  }

  /** The reading of `ready` as empty is what counts: from there on the early jobs can only move on. */
  lemma {:induction false} FinKeeps(s: State, a: Action)
    requires Inv(s) && Enabled(s, a) && (a.DoFinReady? || a.DoFinRun? || a.DoFinStable? || a.DoFinLatch?)
    ensures Inv(Next(s, a))
  {
    var r := Next(s, a);
    assert Hand(r) == Hand(s);
    forall j: nat ensures Places(r, j) == Places(s, j) {}
    RunStays(s, r);
    if a.DoFinReady? && r != s { EarlyIsPlaced(s); }
  }

  lemma {:induction false} EarlyIsPlaced(s: State)
    requires Inv(s) && !s.latched && s.ready == []
    ensures forall j: nat :: Occ(s.ready, j) == Occ(s.discarded, j) == Occ(s.dropped, j) == 0
  {
  }

  lemma {:induction false} DrainKeeps(s: State)
    requires Inv(s) && s.phase == Active && s.latched
    ensures Inv(Drain(s))
  {
    RunThreadsKeeps(s, 0);
    var r := RunThreads(s, 0);
    RunStays(r, Drain(s));
    JobsStay(r, Drain(s));
  }

  /** With no worker left nothing is running. */
  lemma {:induction false} FoldKeeps(s: State)
    requires Inv(s) && s.phase == Drained && s.current == 0
    ensures Inv(Fold(s)) && s.run == []
  {
    var r := Fold(s);
    if s.run != [] { OccIn(s.run, s.run[0]); }
    assert s.discarded + s.ready + s.run == s.ready;
    forall j: nat ensures Places(r, j) == Places(s, j) {}
  }

  lemma {:induction false} StepKeeps(s: State, a: Action)
    requires Inv(s) && Enabled(s, a)
    ensures Inv(Next(s, a))
  {
    if a.DoIns? {
      InsKeeps(s);
    } else if a.DoRunThreads? {
      RunThreadsKeeps(s, a.num);
    } else if a.DoLimit? {
      LimitKeeps(s, a.lim);
    } else if a.DoHead? {
      if s.target < s.current { ExitKeeps(s, a.w); } else if s.ready != [] { TakeKeeps(s, a.w); } else { IdleKeeps(s, a.w, Sleeping, None); }
    } else if a.DoPut? {
      PutKeeps(s, a.w, s.workers[a.w].job);
    } else if a.DoWake? {
      if !a.timeout { IdleKeeps(s, a.w, Head, Some(a.w)); } else if s.ready != [] { TakeKeeps(s, a.w); } else { ExitKeeps(s, a.w); }
    } else if a.DoDone? {
      DoneKeeps(s, a.w, s.workers[a.w].job);
    } else if a.DoDrain? {
      DrainKeeps(s);
    } else if a.DoFold? {
      FoldKeeps(s);
    } else {
      FinKeeps(s, a);
    }
  }

  // ---------------------------------------------------------------- every run

  /** That is what asking for THREAD_MAX_IDLE_THREADS workers makes of a blank pool. */
  lemma {:induction false} InitialStarts(s: State)
    requires s == Blank()
    ensures RunThreads(s, THREAD_MAX_IDLE_THREADS) == Initial()
  {
    assert Spawned(s.workers, 0, 2) == Spawned(s.workers[0 := Head], 1, 1) == Spawned(s.workers[0 := Head][1 := Head], 2, 0);
    assert s.workers[0 := Head][1 := Head] == map[0 := Head, 1 := Head];
  }

  lemma {:induction false} InitialInv()
    ensures Inv(Initial())
  {
    BlankInv(Blank());
    InitialStarts(Blank());
    RunThreadsKeeps(Blank(), THREAD_MAX_IDLE_THREADS);
  }

  lemma {:induction false} BlankInv(s: State)
    requires s == Blank()
    ensures Inv(s)
  {
    forall j: nat ensures Places(s, j) == 0 {}
  }

  lemma {:induction false} Always(acts: seq<Action>)
    ensures Inv(Exec(acts))
  {
    if acts == [] {
      InitialInv();
    } else {
      Always(acts[..|acts| - 1]);
      ExecLast(acts);
      var s, a := Exec(acts[..|acts| - 1]), acts[|acts| - 1];
      if Enabled(s, a) { StepKeeps(s, a); }
    }
  }

  /** The keep-alive bit is set exactly while a job waits or runs, and every submitted job is in exactly
      one of ready, run, completed, discarded and dropped. */
  ghost predicate Settled(s: State) {
    && (s.refio <==> s.ready != [] || s.run != [])
    && forall j: nat :: Outside(s, j) == if j < s.nextJob then 1 else 0
  }

  function Outside(s: State, j: nat): nat {
    Occ(s.ready, j) + Occ(s.run, j) + Occ(s.completed, j) + Occ(s.discarded, j) + Occ(s.dropped, j)
  }

  lemma {:induction false} InvSays(s: State)
    requires Inv(s)
    ensures s.mtx == None ==> Settled(s)
    ensures s.target <= s.limit && s.current == |s.workers|
  {
    if s.mtx == None {
      assert Hand(s) == [];
      forall j: nat ensures Outside(s, j) == Places(s, j) {}
    }
  }

  lemma {:induction false} KeepAliveAndConservation(acts: seq<Action>)
    ensures var s := Exec(acts); (s.mtx == None ==> Settled(s)) && s.target <= s.limit && s.current == |s.workers|
  {
    Always(acts);
    InvSays(Exec(acts));
  }

  /** No worker is live, nothing is queued and the bit is off. */
  ghost predicate Quiet(s: State) {
    s.phase == Folded && s.workers == map[] && !s.refio && s.ready == [] && s.run == []
  }

  lemma {:induction false} QuietStays(s: State, a: Action)
    requires Inv(s) && Quiet(s) && Enabled(s, a)
    ensures Quiet(Next(s, a))
  {
  }

  /** Once folded it stays so, whatever is still called. */
  lemma {:induction false} FoldedForGood(acts: seq<Action>, more: seq<Action>)
    requires Exec(acts).phase == Folded
    ensures Quiet(Exec(acts + more))
  {
    if more == [] {
      assert acts + more == acts;
      Always(acts);
    } else {
      var all, pre := acts + more, acts + more[..|more| - 1];
      FoldedForGood(acts, more[..|more| - 1]);
      assert all[..|all| - 1] == pre;
      Always(pre);
      var s, a := Exec(pre), all[|all| - 1];
      ExecLast(all);
      if Enabled(s, a) { QuietStays(s, a); }
    }
  }

  // ---------------------------------------------------------------- what teardown can lose

  /** A pool whose workers have all left runs nothing. */
  lemma {:induction false} NothingRuns(acts: seq<Action>)
    requires Exec(acts).phase == Drained && Exec(acts).current == 0
    ensures Exec(acts).run == []
  {
    Always(acts);
    FoldKeeps(Exec(acts));
  }

  lemma {:induction false} LostIsLate(s: State, j: nat)
    requires Inv(s) && (j in s.discarded || j in s.dropped)
    ensures s.latched && j >= s.readAt
  {
    OccIn(s.discarded, j);
    OccIn(s.dropped, j);
  }

  /** What teardown discards or drops was submitted after finish() read `ready` as empty. */
  lemma {:induction false} LostCameAfterTheRead(acts: seq<Action>, j: nat)
    requires var s := Exec(acts); j in s.discarded || j in s.dropped
    ensures var s := Exec(acts); s.latched && j >= s.readAt
  {
    Always(acts);
    LostIsLate(Exec(acts), j);
  }

  lemma {:induction false} EarlyIsDone(s: State, j: nat)
    requires Inv(s) && s.phase == Folded && j < s.readAt
    ensures Occ(s.completed, j) == 1
  {
    assert Hand(s) == [];
    assert Places(s, j) == 1;
  }

  /** Every job submitted before that reading has been completed by the time the pool is folded. */
  lemma {:induction false} EarlyJobsComplete(acts: seq<Action>, j: nat)
    requires var s := Exec(acts); s.phase == Folded && j < s.readAt
    ensures Occ(Exec(acts).completed, j) == 1
  {
    Always(acts);
    EarlyIsDone(Exec(acts), j);
  }

  /** Where finish() read `ready` as empty, then `run` as empty, then found the collector stable: as far as
      its call has come, or as the call that set the flag had. */
  ghost predicate Read(acts: seq<Action>, s: State, i: nat, j: nat, k: nat) {
    && (s.latched || s.finisher != NotReading ==>
        i < |acts| && acts[i] == DoFinReady && Exec(acts[..i]).ready == [] && s.readAt == Exec(acts[..i]).nextJob)
    && (s.latched || s.finisher == SawRun || s.finisher == SawStable ==>
        i < j < |acts| && acts[j] == DoFinRun && Exec(acts[..j]).run == [])
    && (s.latched || s.finisher == SawStable ==> j < k < |acts| && acts[k] == DoFinStable(true))
  }

  /** What was read stays read when an action is added that asks for no more than has been read. */
  lemma {:induction false} ReadStays(pre: seq<Action>, a: Action, s: State, t: State, i: nat, j: nat, k: nat)
    requires Read(pre, s, i, j, k) && (t.latched || t.finisher != NotReading ==> t.readAt == s.readAt)
    requires t.latched || t.finisher != NotReading ==> s.latched || s.finisher != NotReading
    requires t.latched || t.finisher == SawRun || t.finisher == SawStable ==> s.latched || s.finisher == SawRun || s.finisher == SawStable
    requires t.latched || t.finisher == SawStable ==> s.latched || s.finisher == SawStable
    ensures Read(pre + [a], t, i, j, k)
  {
    var acts := pre + [a];
    assert forall n :: 0 <= n < |pre| ==> acts[n] == pre[n] && acts[..n] == pre[..n];
  }

  /** The new action is the reading itself. */
  lemma {:induction false} ReadReady(pre: seq<Action>, s: State, t: State)
    requires s == Exec(pre) && s.ready == [] && t.finisher == SawReady && !t.latched && t.readAt == s.nextJob
    ensures Read(pre + [DoFinReady], t, |pre|, 0, 0)
  {
    assert (pre + [DoFinReady])[..|pre|] == pre;
  }

  lemma {:induction false} ReadRun(pre: seq<Action>, s: State, t: State, i: nat, j: nat, k: nat)
    requires Read(pre, s, i, j, k) && s == Exec(pre) && s.finisher == SawReady && s.run == []
    requires t.finisher == SawRun && !t.latched && t.readAt == s.readAt
    ensures Read(pre + [DoFinRun], t, i, |pre|, k)
  {
    var acts := pre + [DoFinRun];
    assert acts[..|pre|] == pre && acts[i] == pre[i] && acts[..i] == pre[..i];
  }

  lemma {:induction false} ReadStable(pre: seq<Action>, s: State, t: State, i: nat, j: nat, k: nat)
    requires Read(pre, s, i, j, k) && s.finisher == SawRun && t.finisher == SawStable && !t.latched && t.readAt == s.readAt
    ensures Read(pre + [DoFinStable(true)], t, i, j, |pre|)
  {
    var acts := pre + [DoFinStable(true)];
    assert acts[i] == pre[i] && acts[..i] == pre[..i] && acts[j] == pre[j] && acts[..j] == pre[..j];
  }

  lemma {:induction false} TracedStep(pre: seq<Action>, a: Action, s: State, t: State, i0: nat, j0: nat, k0: nat) returns (i: nat, j: nat, k: nat)
    requires Read(pre, s, i0, j0, k0) && s == Exec(pre) && t == Try(s, a) && (s.latched ==> s.finisher == NotReading)
    ensures Read(pre + [a], t, i, j, k)
  {
    i, j, k := i0, j0, k0;
    if Enabled(s, a) && a.DoFinReady? && t != s {
      ReadReady(pre, s, t);
      i, j, k := |pre|, 0, 0;
    } else if Enabled(s, a) && a.DoFinRun? && s.run == [] {
      ReadRun(pre, s, t, i, j, k);
      j := |pre|;
    } else if Enabled(s, a) && a == DoFinStable(true) {
      ReadStable(pre, s, t, i, j, k);
      k := |pre|;
    } else {
      if Enabled(s, a) && !Fin(a) { FinishAlone(s, a); }
      ReadStays(pre, a, s, t, i, j, k);
    }
  }

  lemma {:induction false} LatchedRests(acts: seq<Action>)
    ensures Exec(acts).latched ==> Exec(acts).finisher == NotReading
  {
    Always(acts);
  }

  /** The step that ends a run. */
  lemma {:induction false} TracedLast(acts: seq<Action>, i0: nat, j0: nat, k0: nat) returns (i: nat, j: nat, k: nat)
    requires acts != [] && Read(acts[..|acts| - 1], Exec(acts[..|acts| - 1]), i0, j0, k0)
    ensures Read(acts, Exec(acts), i, j, k)
  {
    var pre, a := acts[..|acts| - 1], acts[|acts| - 1];
    ExecLast(acts);
    LatchedRests(pre);
    assert acts == pre + [a];
    i, j, k := TracedStep(pre, a, Exec(pre), Exec(acts), i0, j0, k0);
  }

  lemma {:induction false} Traced(acts: seq<Action>) returns (i: nat, j: nat, k: nat)
    ensures Read(acts, Exec(acts), i, j, k)
  {
    i, j, k := 0, 0, 0;
    if acts == [] {
      assert !Initial().latched && Initial().finisher == NotReading;
    } else {
      i, j, k := Traced(acts[..|acts| - 1]);
      i, j, k := TracedLast(acts, i, j, k);
    }
  }

  /** Only finish() moves its reading on. */
  predicate Fin(a: Action) { a.DoFinReady? || a.DoFinRun? || a.DoFinStable? || a.DoFinLatch? }

  lemma {:induction false} FinishAlone(s: State, a: Action)
    requires Enabled(s, a) && !Fin(a)
    ensures Next(s, a).finisher == s.finisher && Next(s, a).latched == s.latched && Next(s, a).readAt == s.readAt
  {
    if a.DoRunThreads? {
      assert RunThreads(s, a.num).finisher == s.finisher;
    } else if a.DoLimit? {
      assert LimitThreads(s, a.lim).finisher == s.finisher;
    } else if a.DoDrain? {
      assert Drain(s).finisher == s.finisher;
    }
  }

  /** The flag is set only by a call that read `ready` as empty, then `run` as empty, and then found the
      collector stable. */
  lemma {:induction false} FlagHasReasons(acts: seq<Action>) returns (i: nat, j: nat, k: nat)
    requires Exec(acts).latched
    ensures i < j < k < |acts| && acts[i] == DoFinReady && acts[j] == DoFinRun && acts[k] == DoFinStable(true)
    ensures Exec(acts[..i]).ready == [] && Exec(acts[..j]).run == [] && Exec(acts).readAt == Exec(acts[..i]).nextJob
  {
    i, j, k := Traced(acts);
  }

  /** And a call that finds both queues empty and the collector stable, undisturbed, does set it. */
  lemma {:induction false} QuietFinishLatches(acts: seq<Action>)
    requires var s := Exec(acts); s.ready == [] && s.run == [] && s.finisher == NotReading
    ensures Exec(acts + [DoFinReady] + [DoFinRun] + [DoFinStable(true)] + [DoFinLatch]).latched
  {
    ExecSnoc(acts, DoFinReady);
    ExecSnoc(acts + [DoFinReady], DoFinRun);
    ExecSnoc(acts + [DoFinReady] + [DoFinRun], DoFinStable(true));
    ExecSnoc(acts + [DoFinReady] + [DoFinRun] + [DoFinStable(true)], DoFinLatch);
  }

  ghost predicate Reachable(s: State) { exists acts :: Exec(acts) == s }

  lemma {:induction false} ReachStep(s: State, a: Action)
    requires Reachable(s) && Enabled(s, a)
    ensures Reachable(Next(s, a))
  {
    var acts :| Exec(acts) == s;
    ExecSnoc(acts, a);
    assert Exec(acts + [a]) == Next(s, a);
  }

  lemma {:induction false} ReachInitial() returns (s: State)
    ensures Reachable(s) && s == Blank().(target := 2, current := 2, workers := map[0 := Head, 1 := Head], nextWorker := 2)
  {
    s := Initial();
    assert Exec([]) == s;
  }

  /** finish() reads `ready`, a job is submitted, finish() reads `run` and goes on to set its flag. */
  lemma {:induction false} ReachLateLatch() returns (s: State)
    ensures Reachable(s) && s.latched && s.ready == [0] && s.run == [] && s.discarded == [] && s.readAt == 0 && s.latchAt == 1
    ensures s.workers == map[0 := Head, 1 := Head] && s.current == 2 && s.limit == MAX_INTEGER && s.phase == Active && s.mtx == None
  {
    s := ReachInitial();
    ReachStep(s, DoFinReady);
    s := Next(s, DoFinReady);
    ReachStep(s, DoIns);
    s := Next(s, DoIns);
    ReachStep(s, DoFinRun);
    s := Next(s, DoFinRun);
    ReachStep(s, DoFinStable(true));
    s := Next(s, DoFinStable(true));
    ReachStep(s, DoFinLatch);
    s := Next(s, DoFinLatch);
  }

  /** The time of the flag would be too late a line: here job 0, submitted before finish() set its flag,
      is discarded, because the target falls to zero before a worker gets to it. */
  lemma {:induction false} LatchedJobDiscarded() returns (acts: seq<Action>)
    ensures var s := Exec(acts); s.phase == Folded && s.discarded == [0] && s.readAt == 0 < s.latchAt
  {
    var s := ReachLateLatch();
    ReachStep(s, DoDrain);
    s := Next(s, DoDrain);
    ReachStep(s, DoHead(0));
    s := Next(s, DoHead(0));
    ReachStep(s, DoHead(1));
    s := Next(s, DoHead(1));
    ReachStep(s, DoFold);
    s := Next(s, DoFold);
    acts :| Exec(acts) == s;
  }

  /** finish() may set its flag while a worker has a job between the two queues. */
  lemma {:induction false} LatchedWithJobInHand() returns (acts: seq<Action>)
    ensures var s := Exec(acts); s.latched && Hand(s) == [0] && 0 < s.readAt && s.completed == []
  {
    var s := ReachInitial();
    ReachStep(s, DoIns);
    s := Next(s, DoIns);
    ReachStep(s, DoHead(0));
    s := Next(s, DoHead(0));
    ReachStep(s, DoFinReady);
    s := Next(s, DoFinReady);
    ReachStep(s, DoFinRun);
    s := Next(s, DoFinRun);
    ReachStep(s, DoFinStable(true));
    s := Next(s, DoFinStable(true));
    ReachStep(s, DoFinLatch);
    s := Next(s, DoFinLatch);
    acts :| Exec(acts) == s;
  }

  // ---------------------------------------------------------------- first in, first out

  /** `ready` holds the youngest jobs, all of them, oldest first. */
  ghost predicate Fifo(s: State) {
    |s.ready| <= s.nextJob && forall i :: 0 <= i < |s.ready| ==> s.ready[i] == s.nextJob - |s.ready| + i
  }

  lemma {:induction false} StepFifo(s: State, a: Action)
    requires Fifo(s) && Enabled(s, a) && PoolInv(s)
    ensures Fifo(Next(s, a))
  {
    ReadyMoves(s, a);
  }

  /** The queue stays, loses its head, gains the newest job, or is given up. */
  lemma {:induction false} ReadyMoves(s: State, a: Action)
    requires Enabled(s, a) && PoolInv(s)
    ensures var t := Next(s, a);
      || (t.ready == s.ready && t.nextJob == s.nextJob)
      || (s.ready != [] && t.ready == s.ready[1..] && t.nextJob == s.nextJob)
      || (t.ready == s.ready + [s.nextJob] && t.nextJob == s.nextJob + 1)
      || (t.ready == [] && t.nextJob >= s.nextJob)
  {
    if a.DoRunThreads? {
      assert RunThreads(s, a.num).ready == s.ready;
    } else if a.DoLimit? {
      assert LimitThreads(s, a.lim).ready == s.ready;
    } else if a.DoDrain? {
      assert Drain(s).ready == s.ready;
    }
  }

  /** In every run the jobs that wait are the last ones submitted, in order: none is overtaken, and while
      a job waits no younger one has been taken. */
  lemma {:induction false} FirstInFirstOut(acts: seq<Action>)
    ensures Fifo(Exec(acts))
    ensures var s := Exec(acts);
      forall j, k: nat :: j in s.ready && j < k < s.nextJob ==> k in s.ready
  {
    if acts != [] {
      FirstInFirstOut(acts[..|acts| - 1]);
      Always(acts[..|acts| - 1]);
      ExecLast(acts);
      var s, a := Exec(acts[..|acts| - 1]), acts[|acts| - 1];
      if Enabled(s, a) { StepFifo(s, a); }
    }
    var s := Exec(acts);
    forall j, k: nat | j in s.ready && j < k < s.nextJob ensures k in s.ready {
      assert s.ready[k - (s.nextJob - |s.ready|)] == k;
    }
  }

  /** A worker holds the oldest of the jobs that waited, and no other left the queue. */
  predicate TookOldest(s: State, t: State, w: nat) {
    && s.ready != [] && At(t, w, Holding(s.ready[0])) && t.ready == s.ready[1..] && t.current == s.current
    && forall j :: j in s.ready ==> s.ready[0] <= j
  }

  predicate Left(s: State, t: State, w: nat) {
    w !in t.workers && t.current == s.current - 1 && t.ready == s.ready
  }

  /** At the head of its loop a worker leaves exactly when there are more workers than the target asks
      for; else it takes the oldest job that waits, and sleeps only when none does. */
  ghost predicate HeadDone(s: State, t: State, w: nat) {
    if s.target < |s.workers| then Left(s, t, w)
    else if s.ready != [] then TookOldest(s, t, w)
    else At(t, w, Sleeping) && t.ready == [] && t.current == s.current
  }

  lemma {:induction false} HeadDoes(s: State, w: nat)
    requires Fifo(s) && PoolInv(s) && Enabled(s, DoHead(w))
    ensures HeadDone(s, Try(s, DoHead(w)), w)
  {
  }

  lemma {:induction false} HeadMeans(acts: seq<Action>, w: nat)
    requires Enabled(Exec(acts), DoHead(w))
    ensures HeadDone(Exec(acts), Exec(acts + [DoHead(w)]), w)
  {
    ExecSnoc(acts, DoHead(w));
    Always(acts);
    FirstInFirstOut(acts);
    HeadDoes(Exec(acts), w);
  }

  /** A woken worker goes round again; one whose wait timed out takes the oldest job that waits, and
      leaves only when none does. */
  ghost predicate WakeDone(s: State, t: State, w: nat, timeout: bool) {
    if !timeout then At(t, w, Head) && t.mtx == Some(w) && t.ready == s.ready && t.current == s.current
    else if s.ready != [] then TookOldest(s, t, w)
    else Left(s, t, w)
  }

  lemma {:induction false} WakeDoes(s: State, w: nat, timeout: bool)
    requires Fifo(s) && Enabled(s, DoWake(w, timeout))
    ensures WakeDone(s, Try(s, DoWake(w, timeout)), w, timeout)
  {
  }

  lemma {:induction false} WakeMeans(acts: seq<Action>, w: nat, timeout: bool)
    requires Enabled(Exec(acts), DoWake(w, timeout))
    ensures WakeDone(Exec(acts), Exec(acts + [DoWake(w, timeout)]), w, timeout)
  {
    ExecSnoc(acts, DoWake(w, timeout));
    FirstInFirstOut(acts);
    WakeDoes(Exec(acts), w, timeout);
  }

  /** A submitted job waits, behind all others, unless the pool is folded. */
  ghost predicate InsDone(s: State, t: State) {
    && t.nextJob == s.nextJob + 1
    && if s.phase == Folded then t.dropped == s.dropped + [s.nextJob] else t.ready == s.ready + [s.nextJob] && t.refio
  }

  lemma {:induction false} InsDoes(s: State)
    requires s.mtx == None
    ensures InsDone(s, Try(s, DoIns))
  {
  }

  lemma {:induction false} InsMeans(acts: seq<Action>)
    requires Exec(acts).mtx == None
    ensures InsDone(Exec(acts), Exec(acts + [DoIns]))
  {
    ExecSnoc(acts, DoIns);
    InsDoes(Exec(acts));
  }

  /** A job taken is run by its worker, and the mutex is free meanwhile. */
  lemma {:induction false} PutDoes(s: State, w: nat, j: nat)
    requires Inv(s) && At(s, w, Holding(j))
    ensures var t := Try(s, DoPut(w)); At(t, w, Running(j)) && Occ(t.run, j) == 1 && t.mtx == None
  {
    PutKeeps(s, w, j);
    assert At(PutStep(s, w, j), w, Running(j));
  }

  /** A job that returned is completed, and its worker goes on. */
  lemma {:induction false} DoneDoes(s: State, w: nat, j: nat)
    requires Inv(s) && At(s, w, Running(j)) && s.mtx == None
    ensures var t := Try(s, DoDone(w)); At(t, w, Head) && t.completed == s.completed + [j] && Occ(t.run, j) == 0
  {
    OccWithout(s.run, j, j);
  }

  lemma {:induction false} JobMeans(acts: seq<Action>, w: nat, j: nat)
    ensures var t := Exec(acts + [DoPut(w)]);
      At(Exec(acts), w, Holding(j)) ==> At(t, w, Running(j)) && Occ(t.run, j) == 1 && t.mtx == None
    ensures var s, t := Exec(acts), Exec(acts + [DoDone(w)]);
      At(s, w, Running(j)) && s.mtx == None ==> At(t, w, Head) && t.completed == s.completed + [j] && Occ(t.run, j) == 0
  {
    ExecSnoc(acts, DoPut(w));
    ExecSnoc(acts, DoDone(w));
    Always(acts);
    var s := Exec(acts);
    if At(s, w, Holding(j)) { PutDoes(s, w, j); }
    if At(s, w, Running(j)) && s.mtx == None { DoneDoes(s, w, j); }
  }

  // ---------------------------------------------------------------- the number of workers

  ghost predicate Staffed(s: State, t: State) {
    && |t.workers| == (if t.target > |s.workers| then t.target else |s.workers|)
    && (forall w :: w in s.workers ==> w in t.workers && t.workers[w] == s.workers[w])
    && (forall w :: w in t.workers && w !in s.workers ==> t.workers[w] == Head)
  }

  lemma {:induction false} StaffedBy(s: State, num: int)
    requires Inv(s)
    ensures Staffed(s, RunThreads(s, num)) && RunThreads(s, num).limit == s.limit
    ensures RunThreads(s, num).target == if num > s.limit then s.limit else num
  {
    var target := if num > s.limit then s.limit else num;
    SpawnedIs(s.workers, s.nextWorker, if s.current < target then target - s.current else 0);
  }

  lemma {:induction false} LimitStaffs(s: State, lim: int)
    requires Inv(s)
    ensures var t := LimitThreads(s, lim);
      t.limit == (if lim < 2 then 2 else lim) && t.target == (if s.target > t.limit then t.limit else s.target) && Staffed(s, t)
  {
    var lim' := if lim < 2 then 2 else lim;
    SpawnedIs(s.workers, s.nextWorker, if s.current < s.target && s.current < lim' then (if s.target > lim' then lim' else s.target) - s.current else 0);
  }

  /** The target follows the last request as far as the limit goes, and workers are made up to it; they
      start at the head of their loop, and nobody is stopped. */
  lemma {:induction false} RunThreadsMeans(acts: seq<Action>, num: int)
    requires Enabled(Exec(acts), DoRunThreads(num))
    ensures var s, t := Exec(acts), Exec(acts + [DoRunThreads(num)]);
      t.limit == s.limit && t.target == (if num > s.limit then s.limit else num) && Staffed(s, t)
  {
    ExecSnoc(acts, DoRunThreads(num));
    Always(acts);
    var s := Exec(acts);
    assert Try(s, DoRunThreads(num)) == RunThreads(s, num);
    StaffedBy(s, num);
  }

  /** The limit has a floor of two, and the target is cut down to it. */
  lemma {:induction false} LimitMeans(acts: seq<Action>, lim: int)
    requires Exec(acts).mtx == None
    ensures var s, t := Exec(acts), Exec(acts + [DoLimit(lim)]);
      && t.limit == (if lim < 2 then 2 else lim)
      && t.target == (if s.target > t.limit then t.limit else s.target) && Staffed(s, t)
  {
    ExecSnoc(acts, DoLimit(lim));
    Always(acts);
    var s := Exec(acts);
    assert Try(s, DoLimit(lim)) == LimitThreads(s, lim);
    LimitStaffs(s, lim);
  }

  /** Draining asks for no workers and loses nothing. */
  lemma {:induction false} DrainMeans(acts: seq<Action>)
    requires Enabled(Exec(acts), DoDrain)
    ensures var s, t := Exec(acts), Exec(acts + [DoDrain]);
      t.phase == Drained && t.target <= 0 && Staffed(s, t) && t.ready == s.ready
  {
    ExecSnoc(acts, DoDrain);
    Always(acts);
    var s := Exec(acts);
    StaffedBy(s, 0);
    assert Try(s, DoDrain) == RunThreads(s, 0).(phase := Drained);
    assert RunThreads(s, 0).ready == s.ready;
  }

  /** Folding gives up exactly the jobs that still wait, in order, and lowers the bit. */
  lemma {:induction false} FoldMeans(acts: seq<Action>)
    requires Enabled(Exec(acts), DoFold)
    ensures var s, t := Exec(acts), Exec(acts + [DoFold]);
      t.phase == Folded && t.discarded == s.ready && t.ready == [] && !t.refio
  {
    ExecSnoc(acts, DoFold);
    Always(acts);
    NothingRuns(acts);
    var s := Exec(acts);
    assert Try(s, DoFold) == Fold(s);
  }
}
