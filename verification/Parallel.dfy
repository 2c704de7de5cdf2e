/**
  A fork/join group (ts2Parallel).  The root keeps the body (org) that siblings copy, and the head of
  the chain of unfinished siblings; a worker that finishes unlinks itself, and the last one wakes the
  root.  A step is one state function under the application mutex.
 */
module Parallel {
  import opened Common

  /** The root: in its body, done with it and waiting for siblings, or finished. */
  datatype RootPc = InBody | Waiting | Finished

  /** The root's number is 0.  live: siblings whose body has not finished.  empty: siblings that were
      given no body.  wakeup: a wakeup of the root is on its way.  sent: TSE_RETURNs sent. */
  datatype State = State(
    chain: seq<nat>, org: bool, root: RootPc, wakeup: bool, sent: nat,
    live: set<nat>, empty: set<nat>, spawned: nat)

  function Initial(): State { State([], true, InBody, false, 0, {}, {}, 0) }

  /** INI_START of a new sibling: in front of the chain, with the root's body. */
  function Spawn(s: State): State {
    var id := s.spawned + 1;
    s.(chain := [id] + s.chain, spawned := id, live := s.live + {id}, empty := if s.org then s.empty else s.empty + {id})
  }

  /** FIN_START of the root */
  function RootFin(s: State): State {
    if s.chain != [] then s.(root := Waiting)
    else s.(root := Finished, org := false, sent := s.sent + 1)
  }

  /** FIN_START of a sibling */
  function SiblingFin(s: State, w: nat): State {
    var chain := Without(s.chain, w);
    s.(chain := chain, live := s.live - {w}, wakeup := s.wakeup || chain == [])
  }

  datatype Action =
    | DoSpawn(from: nat)        // called from the body of worker `from`
    | BodyDone(w: nat)        // the body of w returned non-zero
    | RootEvent(wake: bool)   // an event reaches the root; wake: it is the pending wakeup

  predicate Works(s: State, w: nat) { if w == 0 then s.root == InBody else w in s.live }

  predicate Enabled(s: State, a: Action) {
    match a
    case DoSpawn(from) => Works(s, from)
    case BodyDone(w) => Works(s, w)
    case RootEvent(wake) => wake ==> s.wakeup
  }

  function Next(s: State, a: Action): State {
    match a
    case DoSpawn(_) => Spawn(s)
    case BodyDone(w) => if w == 0 then RootFin(s) else SiblingFin(s, w)
    case RootEvent(wake) =>
      var s' := if wake then s.(wakeup := false) else s;
      if s.root == Waiting then RootFin(s') else s'
  }

  /** An action that is not enabled is skipped. */
  function Try(s: State, a: Action): State { if Enabled(s, a) then Next(s, a) else s }

  function Exec(acts: seq<Action>): State {
    if acts == [] then Initial() else Try(Exec(acts[..|acts| - 1]), acts[|acts| - 1])
  }

  lemma {:induction false} ExecSnoc(acts: seq<Action>, a: Action)
    ensures Exec(acts + [a]) == Try(Exec(acts), a)
  {
    assert (acts + [a])[..|acts|] == acts;
  }

  // ---------------------------------------------------------------- what every step keeps

  /** The chain holds exactly the unfinished siblings, each once. */
  ghost predicate ChainInv(s: State) {
    && (forall x: nat :: Occ(s.chain, x) == if x in s.live then 1 else 0)
    && (forall x: nat :: x in s.live ==> 0 < x <= s.spawned)
  }

  ghost predicate RootInv(s: State) {
    && (s.org <==> s.root != Finished) && s.empty == {}
    && s.sent == (if s.root == Finished then 1 else 0)
    && (s.root == Finished ==> s.live == {} && s.chain == [])
    && (s.root == Waiting ==> s.chain != [] || s.wakeup)
  }

  lemma {:induction false} ChainEmpty(s: State)
    requires ChainInv(s)
    ensures s.chain == [] <==> s.live == {}
  {
    if s.chain != [] {
      assert Occ(s.chain, s.chain[0]) > 0;
    } else {
      assert forall x: nat :: Occ(s.chain, x) == 0;
    }
  }

  lemma {:induction false} SpawnKeeps(s: State, from: nat)
    requires ChainInv(s) && RootInv(s) && Works(s, from)
    ensures ChainInv(Spawn(s)) && RootInv(Spawn(s))
  {
    var r := Spawn(s);
    forall x: nat ensures Occ(r.chain, x) == Occ(s.chain, x) + if x == s.spawned + 1 then 1 else 0 {
      assert r.chain[1..] == s.chain;
    }
  }

  lemma {:induction false} SiblingKeeps(s: State, w: nat)
    requires ChainInv(s) && RootInv(s) && w in s.live
    ensures ChainInv(SiblingFin(s, w)) && RootInv(SiblingFin(s, w))
  {
    var r := SiblingFin(s, w);
    forall x: nat ensures Occ(r.chain, x) == if x in r.live then 1 else 0 { OccWithout(s.chain, w, x); }
  }

  lemma {:induction false} RootKeeps(s: State)
    requires ChainInv(s) && s.root != Finished && s.org && s.empty == {} && s.sent == 0
    ensures ChainInv(RootFin(s)) && RootInv(RootFin(s))
  {
    ChainEmpty(s);
  }

  lemma {:induction false} StepKeeps(s: State, a: Action)
    requires ChainInv(s) && RootInv(s) && Enabled(s, a)
    ensures ChainInv(Next(s, a)) && RootInv(Next(s, a))
  {
    ChainEmpty(s);
    if a.DoSpawn? {
      SpawnKeeps(s, a.from);
    } else if a.BodyDone? {
      if a.w == 0 { RootKeeps(s); } else { SiblingKeeps(s, a.w); }
    } else if s.root == Waiting {
      RootKeeps(if a.wake then s.(wakeup := false) else s);
    }
  }

  lemma {:induction false} Always(acts: seq<Action>)
    ensures ChainInv(Exec(acts)) && RootInv(Exec(acts))
  {
    if acts != [] {
      Always(acts[..|acts| - 1]);
      var s, a := Exec(acts[..|acts| - 1]), acts[|acts| - 1];
      if Enabled(s, a) { StepKeeps(s, a); }
    }
  }

  // ---------------------------------------------------------------- every run

  /** TSE_RETURN is sent at most once, never before the root's body and every sibling have finished;
      and when they have and no wakeup is pending, it has been sent. */
  lemma {:induction false} ReturnsOnceAtTheEnd(acts: seq<Action>)
    ensures var s := Exec(acts);
      && s.sent <= 1
      && (s.sent == 1 ==> s.root == Finished && s.live == {})
      && (s.root != InBody && s.live == {} && !s.wakeup ==> s.sent == 1)
  {
    Always(acts);
    ChainEmpty(Exec(acts));
  }

  /** Every sibling was given a body, and a waiting root has a sibling left or a wakeup on its way. */
  lemma {:induction false} NobodyForgotten(acts: seq<Action>)
    ensures var s := Exec(acts);
      && s.empty == {}
      && (s.root == Waiting ==> s.live != {} || s.wakeup)
      && (forall x: nat :: Occ(s.chain, x) == if x in s.live then 1 else 0)
  {
    Always(acts);
    ChainEmpty(Exec(acts));
  }

  // ---------------------------------------------------------------- who is at work

  /** Siblings that a run has started, and workers whose body has finished in it. */
  function Started(acts: seq<Action>): nat {
    if acts == [] then 0
    else
      var before, a := acts[..|acts| - 1], acts[|acts| - 1];
      Started(before) + if Enabled(Exec(before), a) && a.DoSpawn? then 1 else 0
  }

  function Ended(acts: seq<Action>): set<nat> {
    if acts == [] then {}
    else
      var before, a := acts[..|acts| - 1], acts[|acts| - 1];
      Ended(before) + if Enabled(Exec(before), a) && a.BodyDone? then {a.w} else {}
  }

  /** In every run the siblings at work are those that were started and have not finished, and the root
      is in its body until that has finished. */
  lemma {:induction false} WhoIsAtWork(acts: seq<Action>)
    ensures var s := Exec(acts);
      && s.spawned == Started(acts)
      && (forall w: nat :: w in s.live <==> 0 < w <= Started(acts) && w !in Ended(acts))
      && (forall w: nat :: w in Ended(acts) ==> w <= Started(acts))
      && (s.root == InBody <==> 0 !in Ended(acts))
  {
    if acts != [] {
      var before, a := acts[..|acts| - 1], acts[|acts| - 1];
      WhoIsAtWork(before);
      Always(before);
    }
  }

  /** The group answers once everybody's body has finished and the wakeup has come through. */
  lemma {:induction false} AnsweredWhen(acts: seq<Action>)
    ensures var s := Exec(acts);
      && (s.sent == 1 ==> forall w: nat :: w <= Started(acts) ==> w in Ended(acts))
      && ((forall w: nat :: w <= Started(acts) ==> w in Ended(acts)) && !s.wakeup ==> s.sent == 1)
  {
    WhoIsAtWork(acts);
    ReturnsOnceAtTheEnd(acts);
    var s := Exec(acts);
    if (forall w: nat :: w <= Started(acts) ==> w in Ended(acts)) && !s.wakeup {
      assert 0 in Ended(acts);
      forall w: nat ensures w !in s.live {}
      assert s.live == {};
    }
  }

  /** An event that reaches the waiting root finishes the group if no sibling is left, and a wakeup is
      used up by it. */
  lemma {:induction false} EventMeans(acts: seq<Action>, wake: bool)
    requires Enabled(Exec(acts), RootEvent(wake))
    ensures var s, t := Exec(acts), Exec(acts + [RootEvent(wake)]);
      && (t.root == Finished <==> s.root == Finished || (s.root == Waiting && s.live == {}))
      && t.wakeup == (s.wakeup && !wake) && t.live == s.live
  {
    ExecSnoc(acts, RootEvent(wake));
    Always(acts);
    ChainEmpty(Exec(acts));
  }
}
