/**
  Who is served next by the limit semaphore, told from the history of calls alone: what each waiting
  caller asked for when it was queued, and how the settings stood then.
 */
module LimitOrder {
  import opened WaitQueue
  import opened LimitSemaphore

  // ---------------------------------------------------------------- the settings, from the history

  function PrioSetting(acts: seq<Action>): bool {
    if acts == [] then false
    else if acts[|acts| - 1].DoPrio? then acts[|acts| - 1].v
    else PrioSetting(acts[..|acts| - 1])
  }

  function NeqSetting(acts: seq<Action>): bool {
    if acts == [] then true
    else if acts[|acts| - 1].DoNeq? then acts[|acts| - 1].v
    else NeqSetting(acts[..|acts| - 1])
  }

  /** A limit below one is not accepted. */
  function LimitSetting(limit: int, acts: seq<Action>): int {
    if acts == [] then limit
    else if acts[|acts| - 1].DoLimit? && acts[|acts| - 1].lim >= 1 then acts[|acts| - 1].lim
    else LimitSetting(limit, acts[..|acts| - 1])
  }

  lemma {:induction false} SettingsKept(ready: bool, limit: int, acts: seq<Action>)
    ensures var s := Exec(ready, limit, acts);
      s.prio == PrioSetting(acts) && s.neq == NeqSetting(acts) && s.limit == LimitSetting(limit, acts)
  {
    if acts != [] {
      var pre, a := acts[..|acts| - 1], acts[|acts| - 1];
      SettingsKept(ready, limit, pre);
      StepSettings(ready, Exec(ready, limit, pre), a);
    }
  }

  lemma {:induction false} StepSettings(ready: bool, s: State, a: Action)
    ensures var t := if Enabled(ready, s, a) then Next(ready, s, a) else s;
      && t.prio == (if a.DoPrio? then a.v else s.prio)
      && t.neq == (if a.DoNeq? then a.v else s.neq)
      && t.limit == (if a.DoLimit? && a.lim >= 1 then a.lim else s.limit)
  {
    if a.DoLimit? && a.lim >= 1 && s.limit < a.lim {
      WakeManyIs(s.(limit := a.lim), a.lim - s.limit);
    }
  }

  /** Waking n takes the first n off the line and nothing else. */
  lemma {:induction false} WakeManyIs(s: State, n: nat)
    ensures var k := if n < |s.wait| then n else |s.wait|;
      WakeMany(s, n) == s.(wait := s.wait[k..], woken := s.woken + Ids(s.wait[..k]))
    decreases n
  {
    if n > 0 && s.wait != [] {
      var t := Wake(s);
      WakeManyIs(t, n - 1);
      var k := if n < |s.wait| then n else |s.wait|;
      assert s.wait[..k] == [s.wait[0]] + t.wait[..k - 1];
      IdsCons(s.wait[0], t.wait[..k - 1]);
      assert t.wait[k - 1..] == s.wait[k..];
    } else {
      assert s.wait[..0] == [];
    }
  }

  lemma {:induction false} IdsCons(w: Waiter, l: seq<Waiter>)
    ensures Ids([w] + l) == {w.id} + Ids(l)
  {
    var r := [w] + l;
    forall x | x in Ids(l) ensures x in Ids(r) {
      var i :| 0 <= i < |l| && l[i].id == x;
      assert r[i + 1].id == x;
    }
    assert r[0].id == w.id;
  }

  // ---------------------------------------------------------------- what a waiter asked for

  /** key: the priority given, if enablePriority was on, and the largest key otherwise.  neq: insNeq at
      that moment.  when: the number of the call. */
  datatype Asked = Asked(key: int, neq: bool, when: nat)

  /** c's last call that put it in the line. */
  function LastAsked(ready: bool, limit: int, acts: seq<Action>, c: nat): Asked {
    if acts == [] then Asked(0, true, 0)
    else
      var pre, a := acts[..|acts| - 1], acts[|acts| - 1];
      if a.DoGet? && a.c == c && c !in Waiting(Exec(ready, limit, pre)) && c in Waiting(Exec(ready, limit, acts))
      then Asked(if PrioSetting(pre) then a.pri else MAX_INTEGER64, NeqSetting(pre), |acts|)
      else LastAsked(ready, limit, pre, c)
  }

  /** x is served before y: a smaller key first; among equal keys the later caller stands behind the
      earlier one if insNeq was on when it came, or if it has the largest key, and before it otherwise. */
  predicate Precedes(x: Asked, y: Asked) {
    x.key < y.key ||
    (x.key == y.key && if x.when < y.when then y.neq || y.key == MAX_INTEGER64 else !x.neq && x.key != MAX_INTEGER64)
  }

  /** The line holds every waiter under the key it asked for, in the order of service. */
  ghost predicate InOrder(ready: bool, limit: int, acts: seq<Action>, l: seq<Waiter>) {
    && (forall i :: 0 <= i < |l| ==> l[i].key == LastAsked(ready, limit, acts, l[i].id).key)
    && (forall i, j :: 0 <= i < j < |l| ==> Precedes(LastAsked(ready, limit, acts, l[i].id), LastAsked(ready, limit, acts, l[j].id)))
  }

  lemma {:induction false} CameBefore(ready: bool, limit: int, acts: seq<Action>, c: nat)
    ensures LastAsked(ready, limit, acts, c).when <= |acts|
  {
    if acts != [] { CameBefore(ready, limit, acts[..|acts| - 1], c); }
  }

  /** A call that does not queue leaves everybody's last call as it was. */
  lemma {:induction false} AskedStays(ready: bool, limit: int, acts: seq<Action>, a: Action, c: nat)
    requires !(a.DoGet? && a.c == c && c !in Waiting(Exec(ready, limit, acts)) && c in Waiting(Exec(ready, limit, acts + [a])))
    ensures LastAsked(ready, limit, acts + [a], c) == LastAsked(ready, limit, acts, c)
  {
    assert (acts + [a])[..|acts|] == acts;
  }

  lemma {:induction false} ExecSnoc(ready: bool, limit: int, acts: seq<Action>, a: Action)
    ensures var s := Exec(ready, limit, acts);
      Exec(ready, limit, acts + [a]) == if Enabled(ready, s, a) then Next(ready, s, a) else s
  {
    assert (acts + [a])[..|acts|] == acts;
  }

  // ---------------------------------------------------------------- every step keeps the order

  /** A line shortened at its head, with nobody's last call changed. */
  lemma {:induction false} ShorterInOrder(ready: bool, limit: int, acts: seq<Action>, a: Action, l: seq<Waiter>, k: nat)
    requires InOrder(ready, limit, acts, l) && k <= |l|
    requires forall i :: 0 <= i < |l| ==> LastAsked(ready, limit, acts + [a], l[i].id) == LastAsked(ready, limit, acts, l[i].id)
    ensures InOrder(ready, limit, acts + [a], l[k..])
  {
    assert forall i :: 0 <= i < |l[k..]| ==> l[k..][i] == l[i + k];
  }

  /** The new waiter stands where its key and insNeq put it. */
  lemma {:induction false} InsertedInOrder(ready: bool, limit: int, acts: seq<Action>, a: Action, l: seq<Waiter>, w: Waiter, neq: bool, i: nat)
    requires InOrder(ready, limit, acts, l) && i <= |l| && w.id !in Ids(l)
    requires forall j :: 0 <= j < |l| ==> LastAsked(ready, limit, acts + [a], l[j].id) == LastAsked(ready, limit, acts, l[j].id)
    requires LastAsked(ready, limit, acts + [a], w.id) == Asked(w.key, neq, |acts| + 1)
    requires forall j :: 0 <= j < i ==> l[j].key < w.key || (l[j].key == w.key && (neq || w.key == MAX_INTEGER64))
    requires forall j :: i <= j < |l| ==> w.key < l[j].key || (w.key == l[j].key && !neq && w.key != MAX_INTEGER64)
    ensures InOrder(ready, limit, acts + [a], Middle(l, i, w))
  {
    var r := Middle(l, i, w);
    var all := acts + [a];
    assert forall j :: 0 <= j < |r| ==> r[j] == if j < i then l[j] else if j == i then w else l[j - 1];
    forall j | 0 <= j < |l| ensures LastAsked(ready, limit, all, l[j].id).when < |acts| + 1 { CameBefore(ready, limit, acts, l[j].id); }
    forall j, k | 0 <= j < k < |r| ensures Precedes(LastAsked(ready, limit, all, r[j].id), LastAsked(ready, limit, all, r[k].id)) {
      if j == i {
        assert r[k] == l[k - 1];
      } else if k == i {
        assert r[j] == l[j];
      } else {
        var x, y := if j < i then j else j - 1, if k < i then k else k - 1;
        assert r[j] == l[x] && r[k] == l[y] && x < y;
      }
    }
  }

  /** Where Ins puts a waiter, whichever of its two ways it takes. */
  lemma {:induction false} InsPlace(l: seq<Waiter>, w: Waiter, neq: bool) returns (i: nat)
    requires Sorted(l) && w.key <= MAX_INTEGER64
    ensures i <= |l| && Ins(l, w, neq) == Middle(l, i, w)
    ensures forall j :: 0 <= j < i ==> l[j].key < w.key || (l[j].key == w.key && (neq || w.key == MAX_INTEGER64))
    ensures forall j :: i <= j < |l| ==> w.key < l[j].key || (w.key == l[j].key && !neq && w.key != MAX_INTEGER64)
  {
    if w.key == MAX_INTEGER64 {
      i := |l|;
      assert l[..i] + [w] + l[i..] == l + [w];
    } else {
      i := Place(l, w.key, neq);
      InsAtIsMiddle(l, w, neq);
      forall j | i <= j < |l| ensures w.key < l[j].key || (w.key == l[j].key && !neq) {
        assert l[i].key <= l[j].key;
      }
    }
  }

  lemma {:induction false} GetInOrder(ready: bool, limit: int, acts: seq<Action>, c: nat, pri: int)
    requires var s := Exec(ready, limit, acts); Inv(s) && InOrder(ready, limit, acts, s.wait) && Enabled(ready, s, DoGet(c, pri))
    ensures InOrder(ready, limit, acts + [DoGet(c, pri)], Exec(ready, limit, acts + [DoGet(c, pri)]).wait)
  {
    var s, a := Exec(ready, limit, acts), DoGet(c, pri);
    var all := acts + [a];
    var t := Exec(ready, limit, all);
    ExecSnoc(ready, limit, acts, a);
    SettingsKept(ready, limit, acts);
    forall x | x in Waiting(s) ensures LastAsked(ready, limit, all, x) == LastAsked(ready, limit, acts, x) {
      AskedStays(ready, limit, acts, a, x);
    }
    if t.wait == s.wait {
      ShorterInOrder(ready, limit, acts, a, s.wait, 0);
      assert s.wait[0..] == s.wait;
    } else {
      var w := Waiter(if s.prio then pri else MAX_INTEGER64, c);
      var i := InsPlace(s.wait, w, s.neq);
      MiddleKeeps(s.wait, i, w);
      assert all[..|acts|] == acts;
      assert LastAsked(ready, limit, all, c) == Asked(w.key, s.neq, |all|);
      InsertedInOrder(ready, limit, acts, a, s.wait, w, s.neq, i);
    }
  }

  /** The other steps take waiters off the head, or leave the line alone. */
  lemma {:induction false} StepShortens(ready: bool, s: State, a: Action) returns (k: nat)
    requires Enabled(ready, s, a) && !a.DoGet?
    ensures k <= |s.wait| && Next(ready, s, a).wait == s.wait[k..] && Next(ready, s, a).woken == s.woken + Ids(s.wait[..k])
  {
    k := 0;
    assert s.wait[0..] == s.wait && s.wait[..0] == [];
    if a.DoRelease? {
      var s' := s.(count := s.count - 1, holders := s.holders - multiset{a.c});
      if s'.count < s.limit && s.wait != [] {
        k := 1;
        assert s.wait[..1] == [s.wait[0]] + [];
        IdsCons(s.wait[0], []);
      }
    } else if a.DoLimit? && a.lim >= 1 && s.limit < a.lim {
      WakeManyIs(s.(limit := a.lim), a.lim - s.limit);
      k := if a.lim - s.limit < |s.wait| then a.lim - s.limit else |s.wait|;
    }
  }

  // ---------------------------------------------------------------- every run

  /** In every run the line holds each waiter under the key it asked for when it was queued, in the order
      of service. */
  lemma {:induction false} LineInOrder(ready: bool, limit: int, acts: seq<Action>)
    ensures InOrder(ready, limit, acts, Exec(ready, limit, acts).wait)
  {
    if acts != [] {
      var pre, a := acts[..|acts| - 1], acts[|acts| - 1];
      var s := Exec(ready, limit, pre);
      assert acts == pre + [a];
      LineInOrder(ready, limit, pre);
      CountIsHolders(ready, limit, pre);
      if Enabled(ready, s, a) && a.DoGet? {
        GetInOrder(ready, limit, pre, a.c, a.pri);
      } else {
        var k := 0;
        assert s.wait[0..] == s.wait;
        if Enabled(ready, s, a) { k := StepShortens(ready, s, a); }
        ShorterInOrder(ready, limit, pre, a, s.wait, k);
      }
    }
  }

  /** get() takes a slot exactly when fewer hold one than the limit last set allows; otherwise its caller
      waits, once, under what it asks for now if it did not wait before. */
  lemma {:induction false} GetMeans(ready: bool, limit: int, acts: seq<Action>, c: nat, pri: int)
    requires Enabled(ready, Exec(ready, limit, acts), DoGet(c, pri))
    ensures var all := acts + [DoGet(c, pri)];
      var s, t := Exec(ready, limit, acts), Exec(ready, limit, all);
      && t.woken == s.woken - {c}
      && if |s.holders| < LimitSetting(limit, acts) then t.holders == s.holders + multiset{c} && t.wait == s.wait
         else
           && t.holders == s.holders && Waiting(t) == Waiting(s) + {c}
           && LastAsked(ready, limit, all, c) ==
              if c in Waiting(s) then LastAsked(ready, limit, acts, c)
              else Asked(if PrioSetting(acts) then pri else MAX_INTEGER64, NeqSetting(acts), |all|)
  {
    var a := DoGet(c, pri);
    var s := Exec(ready, limit, acts);
    ExecSnoc(ready, limit, acts, a);
    SettingsKept(ready, limit, acts);
    CountIsHolders(ready, limit, acts);
    InsKeeps(s.wait, Waiter(if s.prio then pri else MAX_INTEGER64, c), s.neq);
    assert (acts + [a])[..|acts|] == acts;
    if c in Waiting(s) { AskedStays(ready, limit, acts, a, c); }
  }

  /** The first in line, and nobody behind it is served before it. */
  ghost predicate First(ready: bool, limit: int, acts: seq<Action>, s: State, c: nat) {
    s.wait != [] && s.wait[0].id == c &&
    forall x :: x in Waiting(s) && x != c ==> Precedes(LastAsked(ready, limit, acts, c), LastAsked(ready, limit, acts, x))
  }

  /** A release gives up one slot; if that leaves one free, the waiter first in the order of service is
      woken, and nobody else. */
  lemma {:induction false} ReleaseWakesFirst(ready: bool, limit: int, acts: seq<Action>, c: nat)
    requires c in Exec(ready, limit, acts).holders
    ensures var s, t := Exec(ready, limit, acts), Exec(ready, limit, acts + [DoRelease(c)]);
      && t.holders == s.holders - multiset{c}
      && if |s.holders| - 1 < LimitSetting(limit, acts) && s.wait != [] then
           && t.wait == s.wait[1..] && t.woken == s.woken + {s.wait[0].id}
           && First(ready, limit, acts, s, s.wait[0].id)
         else t.wait == s.wait && t.woken == s.woken
  {
    var s := Exec(ready, limit, acts);
    ExecSnoc(ready, limit, acts, DoRelease(c));
    SettingsKept(ready, limit, acts);
    CountIsHolders(ready, limit, acts);
    LineInOrder(ready, limit, acts);
    if s.wait != [] {
      forall x | x in Waiting(s) && x != s.wait[0].id
        ensures Precedes(LastAsked(ready, limit, acts, s.wait[0].id), LastAsked(ready, limit, acts, x))
      {
        var i :| 0 <= i < |s.wait| && s.wait[i].id == x;
      }
    }
  }

  /** Raising the limit wakes the first in line, one for each new slot while there are any; no other
      change of the limit wakes anybody, and none touches the holders. */
  lemma {:induction false} RaiseWakes(ready: bool, limit: int, acts: seq<Action>, lim: int)
    ensures var s, t := Exec(ready, limit, acts), Exec(ready, limit, acts + [DoLimit(lim)]);
      var slots := lim - LimitSetting(limit, acts);
      var k := if lim < 1 || slots < 0 then 0 else if slots < |s.wait| then slots else |s.wait|;
      && t.holders == s.holders && t.wait == s.wait[k..] && t.woken == s.woken + Ids(s.wait[..k])
      && LimitSetting(limit, acts + [DoLimit(lim)]) == (if lim < 1 then LimitSetting(limit, acts) else lim)
      && t.limit == LimitSetting(limit, acts + [DoLimit(lim)])
  {
    var s, a := Exec(ready, limit, acts), DoLimit(lim);
    ExecSnoc(ready, limit, acts, a);
    SettingsKept(ready, limit, acts);
    SettingsKept(ready, limit, acts + [a]);
    assert (acts + [a])[..|acts|] == acts;
    assert s.wait[0..] == s.wait && s.wait[..0] == [];
    if lim >= 1 && s.limit < lim { WakeManyIs(s.(limit := lim), lim - s.limit); }
  }
}
