/**
  The depth cap on nested eventHandler() calls.  An entry that would run deeper than the cap is put,
  with its event, on the collector's queue (tsGC::exe) and delivered again later from the collector's
  own depth.  A send is a tree: the event, and the sends its handling makes when it runs.
 */
module Nesting {

  /** Why an entry may be exempt from the cap: a construction (INI) dispatch, the collector itself, or
      a dispatch by the thread pool. */
  datatype Kind = Plain | Ini | Collector | Pool

  datatype Send = Send(obj: nat, ev: nat, kind: Kind, nested: seq<Send>)

  /** One handled entry and the depth it ran at. */
  datatype Entry = Entry(obj: nat, ev: nat, kind: Kind, depth: nat)

  /** cap: the configured limit.  collector: an application with a collector is still there. */
  datatype Config = Config(cap: nat, collector: bool)

  // ---------------------------------------------------------------- unbounded nesting: the reference

  /** The (object, event) pairs of a tree in the order unbounded nesting handles them. */
  function Preorder(s: Send): (r: seq<(nat, nat)>)
    decreases s
  {
    [(s.obj, s.ev)] + PreorderAll(s.nested)
  }

  function PreorderAll(l: seq<Send>): seq<(nat, nat)>
    decreases l
  {
    if l == [] then [] else Preorder(l[0]) + PreorderAll(l[1..])
  }

  function Height(s: Send): nat
    decreases s
  {
    1 + HeightAll(s.nested)
  }

  function HeightAll(l: seq<Send>): nat
    decreases l
  {
    if l == [] then 0 else
    var (a, b) := (Height(l[0]), HeightAll(l[1..]));
    if a < b then b else a
  }

  // ---------------------------------------------------------------- one capped dispatch

  /** The escape test of eventHandler for a call at depth d. */
  predicate Escapes(c: Config, s: Send, d: nat) {
    s.kind != Pool && d > 1 && d > c.cap && s.kind != Ini && c.collector && s.kind != Collector
  }

  /** What a dispatch at depth d handles before it returns. */
  function Direct(c: Config, s: Send, d: nat): seq<Entry>
    decreases s
  {
    if Escapes(c, s, d) then [] else [Entry(s.obj, s.ev, s.kind, d)] + DirectAll(c, s.nested, d + 1)
  }

  function DirectAll(c: Config, l: seq<Send>, d: nat): seq<Entry>
    decreases l
  {
    if l == [] then [] else Direct(c, l[0], d) + DirectAll(c, l[1..], d)
  }

  /** What it leaves on the collector's queue. */
  function Late(c: Config, s: Send, d: nat): seq<Send>
    decreases s
  {
    if Escapes(c, s, d) then [s] else LateAll(c, s.nested, d + 1)
  }

  function LateAll(c: Config, l: seq<Send>, d: nat): seq<Send>
    decreases l
  {
    if l == [] then [] else Late(c, l[0], d) + LateAll(c, l[1..], d)
  }

  function Pairs(l: seq<Entry>): seq<(nat, nat)> {
    seq(|l|, i requires 0 <= i < |l| => (l[i].obj, l[i].ev))
  }

  lemma PairsConcat(a: seq<Entry>, b: seq<Entry>)
    ensures Pairs(a + b) == Pairs(a) + Pairs(b)
  {
  }

  lemma Assoc<T>(a: seq<T>, b: seq<T>, c: seq<T>)
    ensures a + (b + c) == a + b + c
  {
  }

  lemma {:induction false} PreorderConcat(a: seq<Send>, b: seq<Send>)
    ensures PreorderAll(a + b) == PreorderAll(a) + PreorderAll(b)
  {
    if a == [] {
      assert a + b == b;
    } else {
      PreorderConcat(a[1..], b);
      assert (a + b)[0] == a[0] && (a + b)[1..] == a[1..] + b;
      Assoc(Preorder(a[0]), PreorderAll(a[1..]), PreorderAll(b));
    }
  }

  /** Nothing is lost or doubled by one dispatch: handled now plus left for later is the whole tree. */
  lemma {:induction false} Conserved(c: Config, s: Send, d: nat)
    ensures multiset(Pairs(Direct(c, s, d))) + multiset(PreorderAll(Late(c, s, d))) == multiset(Preorder(s))
    decreases s
  {
    if Escapes(c, s, d) {
      assert PreorderAll([s]) == Preorder(s) + [] == Preorder(s);
    } else {
      ConservedAll(c, s.nested, d + 1);
      PairsConcat([Entry(s.obj, s.ev, s.kind, d)], DirectAll(c, s.nested, d + 1));
      assert Pairs([Entry(s.obj, s.ev, s.kind, d)]) == [(s.obj, s.ev)];
    }
  }

  lemma {:induction false} ConservedAll(c: Config, l: seq<Send>, d: nat)
    ensures multiset(Pairs(DirectAll(c, l, d))) + multiset(PreorderAll(LateAll(c, l, d))) == multiset(PreorderAll(l))
    decreases l
  {
    if l != [] {
      Conserved(c, l[0], d);
      ConservedAll(c, l[1..], d);
      PairsConcat(Direct(c, l[0], d), DirectAll(c, l[1..], d));
      PreorderConcat(Late(c, l[0], d), LateAll(c, l[1..], d));
    }
  }

  predicate WithinCap(c: Config, e: Entry) {
    e.kind == Plain && c.collector && e.depth > 1 ==> e.depth <= c.cap
  }

  /** No plain entry is handled deeper than the cap (the outermost call, depth 1, always runs). */
  lemma {:induction false} Capped(c: Config, s: Send, d: nat)
    ensures forall e :: e in Direct(c, s, d) ==> WithinCap(c, e) && e.depth >= d
    decreases s
  {
    if !Escapes(c, s, d) { CappedAll(c, s.nested, d + 1); }
  }

  lemma {:induction false} CappedAll(c: Config, l: seq<Send>, d: nat)
    ensures forall e :: e in DirectAll(c, l, d) ==> WithinCap(c, e) && e.depth >= d
    decreases l
  {
    if l != [] { Capped(c, l[0], d); CappedAll(c, l[1..], d); }
  }

  /** A tree that fits under the cap is handled at once and in the order of unbounded nesting. */
  lemma {:induction false} FitsUnderCap(c: Config, s: Send, d: nat)
    requires d + Height(s) <= c.cap + 1
    ensures Late(c, s, d) == [] && Pairs(Direct(c, s, d)) == Preorder(s)
    decreases s
  {
    FitsAll(c, s.nested, d + 1);
    PairsConcat([Entry(s.obj, s.ev, s.kind, d)], DirectAll(c, s.nested, d + 1));
  }

  lemma {:induction false} FitsAll(c: Config, l: seq<Send>, d: nat)
    requires d + HeightAll(l) <= c.cap + 1
    ensures LateAll(c, l, d) == [] && Pairs(DirectAll(c, l, d)) == PreorderAll(l)
    decreases l
  {
    if l != [] {
      FitsUnderCap(c, l[0], d);
      FitsAll(c, l[1..], d);
      PairsConcat(Direct(c, l[0], d), DirectAll(c, l[1..], d));
    }
  }

  lemma {:induction false} DirectConcat(c: Config, a: seq<Send>, b: seq<Send>, d: nat)
    ensures DirectAll(c, a + b, d) == DirectAll(c, a, d) + DirectAll(c, b, d)
    ensures LateAll(c, a + b, d) == LateAll(c, a, d) + LateAll(c, b, d)
  {
    if a == [] {
      assert a + b == b;
    } else {
      DirectConcat(c, a[1..], b, d);
      assert (a + b)[0] == a[0] && (a + b)[1..] == a[1..] + b;
      Assoc(Direct(c, a[0], d), DirectAll(c, a[1..], d), DirectAll(c, b, d));
      Assoc(Late(c, a[0], d), LateAll(c, a[1..], d), LateAll(c, b, d));
    }
  }

  lemma {:induction false} DirectSnoc(c: Config, l: seq<Send>, i: nat, d: nat)
    requires i < |l|
    ensures DirectAll(c, l[..i + 1], d) == DirectAll(c, l[..i], d) + Direct(c, l[i], d)
    ensures LateAll(c, l[..i + 1], d) == LateAll(c, l[..i], d) + Late(c, l[i], d)
  {
    assert l[..i + 1] == l[..i] + [l[i]];
    DirectConcat(c, l[..i], [l[i]], d);
    assert DirectAll(c, [l[i]], d) == Direct(c, l[i], d) + [];
    assert LateAll(c, [l[i]], d) == Late(c, l[i], d) + [];
  }

  lemma {:induction false} PreorderSnoc(l: seq<Send>, i: nat)
    requires i < |l|
    ensures PreorderAll(l[..i + 1]) == PreorderAll(l[..i]) + Preorder(l[i])
  {
    assert l[..i + 1] == l[..i] + [l[i]];
    PreorderConcat(l[..i], [l[i]]);
    assert PreorderAll([l[i]]) == Preorder(l[i]) + [];
  }

  // ---------------------------------------------------------------- what is handled and what is deferred

  /** An entry at depth d is deferred: a plain one below the outermost and beyond the cap, with a collector
      to take it. */
  predicate Deferred(c: Config, s: Send, d: nat) { s.kind == Plain && c.collector && d > 1 && d > c.cap }

  /** p leads into the tree, choosing among the sends of one entry after the other. */
  predicate InTree(s: Send, p: seq<nat>)
    decreases |p|
  {
    p == [] || (p[0] < |s.nested| && InTree(s.nested[p[0]], p[1..]))
  }

  function NodeAt(s: Send, p: seq<nat>): Send
    requires InTree(s, p)
    decreases |p|
  {
    if p == [] then s else NodeAt(s.nested[p[0]], p[1..])
  }

  /** Nothing on the way to p is deferred. */
  predicate Reached(c: Config, s: Send, d: nat, p: seq<nat>)
    requires InTree(s, p)
    decreases |p|
  {
    p == [] || (!Deferred(c, s, d) && Reached(c, s.nested[p[0]], d + 1, p[1..]))
  }

  function EntryOf(s: Send, d: nat): Entry { Entry(s.obj, s.ev, s.kind, d) }

  lemma {:induction false} InAll(c: Config, l: seq<Send>, i: nat, d: nat)
    requires i < |l|
    ensures forall e :: e in Direct(c, l[i], d) ==> e in DirectAll(c, l, d)
    ensures forall x :: x in Late(c, l[i], d) ==> x in LateAll(c, l, d)
  {
    if i > 0 { InAll(c, l[1..], i - 1, d); }
  }

  /** Where it comes to by an open way is handled at the depth of the way, or deferred there. */
  lemma {:induction false} ReachedIsMet(c: Config, s: Send, d: nat, p: seq<nat>)
    requires InTree(s, p) && Reached(c, s, d, p)
    ensures var x := NodeAt(s, p);
      if Deferred(c, x, d + |p|) then x in Late(c, s, d) else EntryOf(x, d + |p|) in Direct(c, s, d)
    decreases |p|
  {
    if p != [] {
      ReachedIsMet(c, s.nested[p[0]], d + 1, p[1..]);
      InAll(c, s.nested, p[0], d + 1);
    }
  }

  lemma {:induction false} HandledIsReached(c: Config, s: Send, d: nat, e: Entry) returns (p: seq<nat>)
    requires e in Direct(c, s, d)
    ensures InTree(s, p) && Reached(c, s, d, p) && !Deferred(c, NodeAt(s, p), d + |p|) && e == EntryOf(NodeAt(s, p), d + |p|)
    decreases s
  {
    if e == EntryOf(s, d) {
      p := [];
    } else {
      var i, q := HandledInOne(c, s.nested, d + 1, e);
      p := [i] + q;
      assert p[1..] == q;
    }
  }

  lemma {:induction false} HandledInOne(c: Config, l: seq<Send>, d: nat, e: Entry) returns (i: nat, p: seq<nat>)
    requires e in DirectAll(c, l, d)
    ensures i < |l| && InTree(l[i], p) && Reached(c, l[i], d, p)
    ensures !Deferred(c, NodeAt(l[i], p), d + |p|) && e == EntryOf(NodeAt(l[i], p), d + |p|)
    decreases l
  {
    if e in Direct(c, l[0], d) {
      i := 0;
      p := HandledIsReached(c, l[0], d, e);
    } else {
      i, p := HandledInOne(c, l[1..], d, e);
      i := i + 1;
    }
  }

  lemma {:induction false} LateIsReached(c: Config, s: Send, d: nat, x: Send) returns (p: seq<nat>)
    requires x in Late(c, s, d)
    ensures InTree(s, p) && Reached(c, s, d, p) && Deferred(c, x, d + |p|) && x == NodeAt(s, p)
    decreases s
  {
    if Escapes(c, s, d) {
      p := [];
    } else {
      var i, q := LateInOne(c, s.nested, d + 1, x);
      p := [i] + q;
      assert p[1..] == q;
    }
  }

  lemma {:induction false} LateInOne(c: Config, l: seq<Send>, d: nat, x: Send) returns (i: nat, p: seq<nat>)
    requires x in LateAll(c, l, d)
    ensures i < |l| && InTree(l[i], p) && Reached(c, l[i], d, p) && Deferred(c, x, d + |p|) && x == NodeAt(l[i], p)
    decreases l
  {
    if x in Late(c, l[0], d) {
      i := 0;
      p := LateIsReached(c, l[0], d, x);
    } else {
      i, p := LateInOne(c, l[1..], d, x);
      i := i + 1;
    }
  }

  ghost predicate HandledSomewhere(c: Config, s: Send, d: nat, e: Entry) {
    exists p :: InTree(s, p) && Reached(c, s, d, p) && !Deferred(c, NodeAt(s, p), d + |p|) && e == EntryOf(NodeAt(s, p), d + |p|)
  }

  ghost predicate DeferredSomewhere(c: Config, s: Send, d: nat, x: Send) {
    exists p :: InTree(s, p) && Reached(c, s, d, p) && Deferred(c, NodeAt(s, p), d + |p|) && x == NodeAt(s, p)
  }

  /** What a dispatch handles and what it leaves, told from the ways through the tree: an entry is handled,
      at the depth of its way, exactly if neither it nor any entry above it is deferred; the first on a
      way that is deferred is left for the collector, with everything below it. */
  lemma {:induction false} HandledExactly(c: Config, s: Send, d: nat)
    ensures forall e :: e in Direct(c, s, d) <==> HandledSomewhere(c, s, d, e)
    ensures forall x :: x in Late(c, s, d) <==> DeferredSomewhere(c, s, d, x)
  {
    forall e ensures e in Direct(c, s, d) <==> HandledSomewhere(c, s, d, e) {
      if e in Direct(c, s, d) {
        var p := HandledIsReached(c, s, d, e);
      }
      if HandledSomewhere(c, s, d, e) {
        var p :| InTree(s, p) && Reached(c, s, d, p) && !Deferred(c, NodeAt(s, p), d + |p|) && e == EntryOf(NodeAt(s, p), d + |p|);
        ReachedIsMet(c, s, d, p);
      }
    }
    forall x ensures x in Late(c, s, d) <==> DeferredSomewhere(c, s, d, x) {
      if x in Late(c, s, d) {
        var p := LateIsReached(c, s, d, x);
      }
      if DeferredSomewhere(c, s, d, x) {
        var p :| InTree(s, p) && Reached(c, s, d, p) && Deferred(c, NodeAt(s, p), d + |p|) && x == NodeAt(s, p);
        ReachedIsMet(c, s, d, p);
      }
    }
  }

  // ---------------------------------------------------------------- the code

  /** The per-thread nesting counter (sCallSection::depth). */
  class CallSection {
    var depth: nat
    constructor () ensures depth == 0 { depth := 0; }
  }

  class Runtime {
    const cfg: Config
    var que: seq<Send>
    var log: seq<Entry>

    constructor (cfg: Config)
      ensures this.cfg == cfg && que == [] && log == []
    {
      this.cfg := cfg;
      que, log := [], [];
    }

    /** eventHandler: count the call in, escape or handle it and everything it sends, count it out. */
    method EventHandler(cs: CallSection, s: Send)
      modifies cs, this
      ensures cs.depth == old(cs.depth)
      ensures log == old(log) + Direct(cfg, s, old(cs.depth) + 1)
      ensures que == old(que) + Late(cfg, s, old(cs.depth) + 1)
      decreases s
    {
      cs.depth := cs.depth + 1;
      if s.kind != Pool && cs.depth > 1 {
        if cs.depth > cfg.cap && s.kind == Ini {
          // reported once, never deferred
        } else if cs.depth > cfg.cap {
          if cfg.collector && s.kind != Collector {
            que := que + [s];
            cs.depth := cs.depth - 1;
            return;
          }
        }
      }
      log := log + [Entry(s.obj, s.ev, s.kind, cs.depth)];
      SendAll(cs, s.nested);
      cs.depth := cs.depth - 1;
    }

    /** The sends made while handling one entry, in order. */
    method SendAll(cs: CallSection, l: seq<Send>)
      modifies cs, this
      ensures cs.depth == old(cs.depth)
      ensures log == old(log) + DirectAll(cfg, l, old(cs.depth) + 1)
      ensures que == old(que) + LateAll(cfg, l, old(cs.depth) + 1)
      decreases l
    {
      for i := 0 to |l|
        invariant cs.depth == old(cs.depth)
        invariant log == old(log) + DirectAll(cfg, l[..i], cs.depth + 1)
        invariant que == old(que) + LateAll(cfg, l[..i], cs.depth + 1)
      {
        EventHandler(cs, l[i]);
        DirectSnoc(cfg, l, i, cs.depth + 1);
      }
      assert l[..|l|] == l;
    }

    /** Everything handled so far and everything still owed by the queue. */
    ghost function Total(): multiset<(nat, nat)>
      reads this
    {
      multiset(Pairs(log)) + multiset(PreorderAll(que))
    }

    /** What holds between any two calls: only capped entries were handled, only plain ones wait. */
    ghost predicate Valid()
      reads this
    {
      (forall e :: e in log ==> WithinCap(cfg, e)) && (forall s :: s in que ==> s.kind == Plain)
    }

    /** eventHandler seen as accounting. */
    method Dispatch(cs: CallSection, s: Send)
      requires Valid()
      modifies cs, this
      ensures Valid() && cs.depth == old(cs.depth)
      ensures Total() == old(Total()) + multiset(Preorder(s))
      ensures |log| >= |old(log)| + if Escapes(cfg, s, cs.depth + 1) then 0 else 1
      ensures Escapes(cfg, s, cs.depth + 1) ==> log == old(log) && que == old(que) + [s]
    {
      EventHandler(cs, s);
      ghost var d := cs.depth + 1;
      Capped(cfg, s, d);
      Conserved(cfg, s, d);
      LateIsPlain(cfg, s, d);
      PairsConcat(old(log), Direct(cfg, s, d));
      PreorderConcat(old(que), Late(cfg, s, d));
    }

    /** Take some entry off the collector's queue (all have the same priority). */
    method Pick() returns (s: Send)
      requires que != []
      modifies this`que
      ensures exists i :: 0 <= i < |old(que)| && s == old(que)[i] && que == old(que)[..i] + old(que)[i + 1..]
      ensures multiset(PreorderAll(old(que))) == multiset(PreorderAll(que)) + multiset(Preorder(s))
      ensures multiset(old(que)) == multiset(que) + multiset{s} && s in old(que)
    {
      var i :| 0 <= i < |que|;
      s := que[i];
      ghost var l := que;
      que := que[..i] + que[i + 1..];
      RemoveOne(l, i);
    }

    /** ACT_EXE, running in the collector's own eventHandler at depth cs.depth: refuse a cap that a
        delivery from here could not pass, else deliver one entry. */
    method ActExe(cs: CallSection) returns (panic: bool)
      requires Valid()
      modifies cs, this
      ensures Valid() && cs.depth == old(cs.depth) && Total() == old(Total())
      ensures panic <==> cfg.cap <= cs.depth
      ensures panic || old(que) == [] ==> que == old(que) && log == old(log)
      ensures !panic && old(que) != [] ==> |log| > |old(log)|
    {
      if cfg.cap <= cs.depth { return true; }
      panic := false;
      if que != [] {
        var s := Pick();
        Dispatch(cs, s);
      }
    }

    /** The collector's ACT_START / ACT_RET / ACT_EXE cycle until nothing waits.  It gives the thread
        back whenever its time is up (any moment between two deliveries). */
    method Act(cs: CallSection) returns (panic: bool)
      requires Valid()
      modifies cs, this
      ensures Valid() && cs.depth == old(cs.depth) && Total() == old(Total())
      ensures panic ==> cfg.cap <= cs.depth
      ensures !panic ==> que == []
    {
      panic := false;
      while que != [] && !panic
        invariant Valid() && cs.depth == old(cs.depth) && Total() == old(Total())
        invariant panic ==> cfg.cap <= cs.depth
        decreases |old(Total())| - |log|, !panic
      {
        var overBudget := false;
        ghost var n := |log|;
        while !overBudget && !panic && que != []
          invariant Valid() && cs.depth == old(cs.depth) && Total() == old(Total())
          invariant panic ==> cfg.cap <= cs.depth
          invariant |log| >= n && (panic || |log| > n || (!overBudget && que != []))
          decreases |old(Total())| - |log|, !panic
        {
          assert |Total()| == |log| + |PreorderAll(que)|;
          panic := ActExe(cs);
          if * { overBudget := true; }
        }
      }
    }

    method SpinOnce(cs: CallSection)
      requires Valid() && que != [] && cfg.collector && cfg.cap <= cs.depth && cs.depth >= 1
      modifies cs, this
      ensures Valid() && log == old(log) && que != [] && multiset(que) == multiset(old(que)) && cs.depth == old(cs.depth)
    {
      var s := Pick();
      ghost var rest := que;
      assert s.kind == Plain;
      Dispatch(cs, s);
      assert que == rest + [s] && multiset(que) == multiset(rest) + multiset{s};
    }

    /** Without the test at its head ACT_EXE would, under too small a cap, hand the same entries round
        for ever: n deliveries handle nothing and leave the queue as it was. */
    method Spin(cs: CallSection, n: nat)
      requires Valid() && que != [] && cfg.collector && cfg.cap <= cs.depth && cs.depth >= 1
      modifies cs, this
      ensures log == old(log) && multiset(que) == old(multiset(que)) && cs.depth == old(cs.depth)
    {
      for i := 0 to n
        invariant Valid() && que != [] && cs.depth == old(cs.depth) && log == old(log) && multiset(que) == old(multiset(que))
      {
        SpinOnce(cs);
      }
    }
  }

  lemma {:induction false} LateIsPlain(c: Config, s: Send, d: nat)
    ensures forall x :: x in Late(c, s, d) ==> x.kind == Plain
    decreases s
  {
    if !Escapes(c, s, d) { LateAllPlain(c, s.nested, d + 1); }
  }

  lemma {:induction false} LateAllPlain(c: Config, l: seq<Send>, d: nat)
    ensures forall x :: x in LateAll(c, l, d) ==> x.kind == Plain
    decreases l
  {
    if l != [] { LateIsPlain(c, l[0], d); LateAllPlain(c, l[1..], d); }
  }

  lemma {:induction false} RemoveOne(l: seq<Send>, i: nat)
    requires i < |l|
    ensures multiset(PreorderAll(l)) == multiset(PreorderAll(l[..i] + l[i + 1..])) + multiset(Preorder(l[i]))
    ensures multiset(l) == multiset(l[..i] + l[i + 1..]) + multiset{l[i]}
  {
    assert l == l[..i] + [l[i]] + l[i + 1..];
    PreorderConcat(l[..i] + [l[i]], l[i + 1..]);
    PreorderConcat(l[..i], [l[i]]);
    PreorderConcat(l[..i], l[i + 1..]);
    assert PreorderAll([l[i]]) == Preorder(l[i]);
  }

  /** A whole run: root sends arrive on threads of any depth, the collector works whenever it likes
      and at the end.  With a cap above the collector's depth every entry of every tree has been
      handled exactly once, and no plain one below the cap. */
  method Run(cfg: Config, gcDepth: nat, roots: seq<Send>, bases: seq<nat>) returns (panic: bool, log: seq<Entry>)
    requires |bases| == |roots|
    ensures cfg.cap > gcDepth ==> !panic
    ensures !panic ==> multiset(Pairs(log)) == multiset(PreorderAll(roots))
    ensures forall e :: e in log ==> WithinCap(cfg, e)
  {
    var rt := new Runtime(cfg);
    var gc := new CallSection();
    gc.depth := gcDepth;
    panic := false;
    var i := 0;
    while i < |roots| && !panic
      invariant 0 <= i <= |roots| && rt.cfg == cfg
      invariant rt.Valid() && gc.depth == gcDepth && rt.Total() == multiset(PreorderAll(roots[..i]))
      invariant panic ==> cfg.cap <= gcDepth
    {
      var cs := new CallSection();
      cs.depth := bases[i];
      rt.Dispatch(cs, roots[i]);
      PreorderSnoc(roots, i);
      i := i + 1;
      if * { panic := rt.Act(gc); }
    }
    if !panic {
      assert roots[..|roots|] == roots;
      panic := rt.Act(gc);
    }
    log := rt.log;
  }
}
