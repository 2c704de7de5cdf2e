/** Definitions that several parts share. */
module Common {

  datatype Option<+T> = None | Some(value: T)

  function Pow2(b: nat): (r: nat)
    ensures r >= 1
  {
    if b == 0 then 1 else 2 * Pow2(b - 1)
  }

  /** How often x occurs in l. */
  function Occ(l: seq<nat>, x: nat): nat {
    if l == [] then 0 else (if l[0] == x then 1 else 0) + Occ(l[1..], x)
  }

  /** l without its first x. */
  function Without(l: seq<nat>, x: nat): seq<nat> {
    if l == [] then [] else if l[0] == x then l[1..] else [l[0]] + Without(l[1..], x)
  }

  lemma {:induction false} OccConcat(a: seq<nat>, b: seq<nat>, x: nat)
    ensures Occ(a + b, x) == Occ(a, x) + Occ(b, x)
  {
    if a == [] {
      assert a + b == b;
    } else {
      OccConcat(a[1..], b, x);
      assert (a + b)[1..] == a[1..] + b;
    }
  }

  lemma {:induction false} OccWithout(l: seq<nat>, w: nat, x: nat)
    ensures Occ(Without(l, w), x) == Occ(l, x) - if x == w && Occ(l, x) > 0 then 1 else 0
  {
    if l != [] && l[0] != w {
      OccWithout(l[1..], w, x);
      assert ([l[0]] + Without(l[1..], w))[1..] == Without(l[1..], w);
    }
  }

  lemma {:induction false} OccIn(l: seq<nat>, x: nat)
    ensures Occ(l, x) > 0 <==> x in l
  {
    if l != [] { OccIn(l[1..], x); }
  }
}
