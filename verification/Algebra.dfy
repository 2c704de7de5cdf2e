/**
  Exact arithmetic for the numeric classes.  A coefficient domain is passed as a record of
  operations; the laws are stated once, quantified, and are only used where a proof asks for
  them at chosen elements (`Laws`), which keeps the solver away from rewriting loops.
 */
module Algebra {

  datatype Ring<!T> = Ring(zero: T, one: T, add: (T, T) -> T, neg: T -> T, mul: (T, T) -> T)
  {
    function Sub(a: T, b: T): T { add(a, neg(b)) }
  }

  ghost predicate LawsAt<T>(R: Ring<T>, a: T, b: T, c: T) {
    && R.add(a, b) == R.add(b, a)
    && R.add(R.add(a, b), c) == R.add(a, R.add(b, c))
    && R.add(a, R.zero) == a
    && R.add(a, R.neg(a)) == R.zero
    && R.mul(a, b) == R.mul(b, a)
    && R.mul(R.mul(a, b), c) == R.mul(a, R.mul(b, c))
    && R.mul(a, R.one) == a
    && R.mul(a, R.add(b, c)) == R.add(R.mul(a, b), R.mul(a, c))
  }

  /** Commutative ring with unit. */
  ghost predicate IsRing<T(!new)>(R: Ring<T>) {
    forall a: T, b: T, c: T :: LawsAt(R, a, b, c)
  }

  lemma Laws<T(!new)>(R: Ring<T>, a: T, b: T, c: T)
    requires IsRing(R)
    ensures LawsAt(R, a, b, c)
  {
    assert LawsAt(R, a, b, c);
  }

  lemma Cancel<T(!new)>(R: Ring<T>, a: T, b: T, c: T)
    requires IsRing(R)
    requires R.add(a, c) == R.add(b, c)
    ensures a == b
  {
    Laws(R, a, c, R.neg(c));
    Laws(R, b, c, R.neg(c));
    Laws(R, c, c, c);
  }

  lemma MulZero<T(!new)>(R: Ring<T>, a: T)
    requires IsRing(R)
    ensures R.mul(a, R.zero) == R.zero && R.mul(R.zero, a) == R.zero
  {
    Laws(R, a, R.zero, R.zero);
    Laws(R, R.zero, R.zero, R.zero);
    Laws(R, R.mul(a, R.zero), R.zero, R.zero);
    Laws(R, R.zero, R.mul(a, R.zero), R.zero);
    Cancel(R, R.mul(a, R.zero), R.zero, R.mul(a, R.zero));
  }

  lemma NegUnique<T(!new)>(R: Ring<T>, a: T, b: T)
    requires IsRing(R)
    requires R.add(a, b) == R.zero
    ensures b == R.neg(a)
  {
    Laws(R, a, b, a);
    Laws(R, a, R.neg(a), a);
    Cancel(R, b, R.neg(a), a);
  }

  lemma NegMul<T(!new)>(R: Ring<T>, a: T, b: T)
    requires IsRing(R)
    ensures R.mul(a, R.neg(b)) == R.neg(R.mul(a, b))
    ensures R.mul(R.neg(a), b) == R.neg(R.mul(a, b))
    ensures R.neg(R.neg(a)) == a
  {
    MulZero(R, a);
    MulZero(R, b);
    Laws(R, a, b, R.neg(b));
    Laws(R, b, a, R.neg(a));
    Laws(R, R.neg(a), b, a);
    Laws(R, a, R.neg(a), a);
    NegUnique(R, R.mul(a, b), R.mul(a, R.neg(b)));
    NegUnique(R, R.mul(a, b), R.mul(R.neg(a), b));
    NegUnique(R, R.neg(a), a);
  }

  lemma NegAdd<T(!new)>(R: Ring<T>, a: T, b: T)
    requires IsRing(R)
    ensures R.neg(R.add(a, b)) == R.add(R.neg(a), R.neg(b))
    ensures R.neg(R.zero) == R.zero
  {
    var na, nb := R.neg(a), R.neg(b);
    AddSwap(R, a, b, na, nb);
    Laws(R, a, a, a);
    Laws(R, b, b, b);
    Laws(R, R.zero, R.zero, R.zero);
    NegUnique(R, R.add(a, b), R.add(na, nb));
    NegUnique(R, R.zero, R.zero);
  }

  /** (a+b)+(c+d) = (a+c)+(b+d) */
  lemma AddSwap<T(!new)>(R: Ring<T>, a: T, b: T, c: T, d: T)
    requires IsRing(R)
    ensures R.add(R.add(a, b), R.add(c, d)) == R.add(R.add(a, c), R.add(b, d))
  {
    Laws(R, a, b, R.add(c, d));
    Laws(R, b, c, d);
    Laws(R, c, b, d);
    Laws(R, a, c, R.add(b, d));
  }

  // ---- powers ----

  function Pow<T>(R: Ring<T>, w: T, k: nat): T {
    if k == 0 then R.one else R.mul(w, Pow(R, w, k - 1))
  }

  lemma {:induction false} PowAdd<T(!new)>(R: Ring<T>, w: T, a: nat, b: nat)
    requires IsRing(R)
    ensures Pow(R, w, a + b) == R.mul(Pow(R, w, a), Pow(R, w, b))
  {
    if a == 0 {
      Laws(R, Pow(R, w, b), R.one, R.one);
    } else {
      PowAdd(R, w, a - 1, b);
      Laws(R, w, Pow(R, w, a - 1), Pow(R, w, b));
    }
  }

  lemma {:induction false} PowMul<T(!new)>(R: Ring<T>, w: T, a: nat, b: nat)
    requires IsRing(R)
    ensures Pow(R, Pow(R, w, a), b) == Pow(R, w, a * b)
  {
    if b == 0 {
    } else {
      PowMul(R, w, a, b - 1);
      PowAdd(R, w, a, a * (b - 1));
      assert a + a * (b - 1) == a * b;
    }
  }

  lemma {:induction false} PowProduct<T(!new)>(R: Ring<T>, u: T, v: T, k: nat)
    requires IsRing(R)
    ensures Pow(R, R.mul(u, v), k) == R.mul(Pow(R, u, k), Pow(R, v, k))
  {
    if k == 0 {
      Laws(R, R.one, R.one, R.one);
    } else {
      var p, q := Pow(R, u, k - 1), Pow(R, v, k - 1);
      PowProduct(R, u, v, k - 1);
      Laws(R, u, v, R.mul(p, q));
      Laws(R, v, p, q);
      Laws(R, p, v, q);
      Laws(R, u, p, R.mul(v, q));
    }
  }

  lemma {:induction false} PowOne<T(!new)>(R: Ring<T>, k: nat)
    requires IsRing(R)
    ensures Pow(R, R.one, k) == R.one
  {
    if k > 0 {
      PowOne(R, k - 1);
      Laws(R, R.one, R.one, R.one);
    }
  }

  /** (-1)^k is -1 for odd k. */
  lemma {:induction false} PowMinusOne<T(!new)>(R: Ring<T>, k: nat)
    requires IsRing(R)
    ensures Pow(R, R.neg(R.one), k) == if k % 2 == 0 then R.one else R.neg(R.one)
  {
    if k > 0 {
      PowMinusOne(R, k - 1);
      NegMul(R, R.one, R.one);
      NegMul(R, R.one, R.neg(R.one));
      Laws(R, R.one, R.one, R.one);
      Laws(R, R.neg(R.one), R.one, R.one);
    }
  }

  // ---- finite sums ----

  function Sum<T>(R: Ring<T>, n: nat, f: int -> T): T {
    if n == 0 then R.zero else R.add(Sum(R, n - 1, f), f(n - 1))
  }

  lemma {:induction false} SumCong<T(!new)>(R: Ring<T>, n: nat, f: int -> T, g: int -> T)
    requires forall i :: 0 <= i < n ==> f(i) == g(i)
    ensures Sum(R, n, f) == Sum(R, n, g)
  {
    if n > 0 {
      SumCong(R, n - 1, f, g);
    }
  }

  lemma {:induction false} SumZero<T(!new)>(R: Ring<T>, n: nat, f: int -> T)
    requires IsRing(R)
    requires forall i :: 0 <= i < n ==> f(i) == R.zero
    ensures Sum(R, n, f) == R.zero
  {
    if n > 0 {
      SumZero(R, n - 1, f);
      Laws(R, R.zero, R.zero, R.zero);
    }
  }

  lemma {:induction false} SumAdd<T(!new)>(R: Ring<T>, n: nat, f: int -> T, g: int -> T, h: int -> T)
    requires IsRing(R)
    requires forall i :: 0 <= i < n ==> h(i) == R.add(f(i), g(i))
    ensures Sum(R, n, h) == R.add(Sum(R, n, f), Sum(R, n, g))
  {
    if n == 0 {
      Laws(R, R.zero, R.zero, R.zero);
    } else {
      SumAdd(R, n - 1, f, g, h);
      AddSwap(R, Sum(R, n - 1, f), Sum(R, n - 1, g), f(n - 1), g(n - 1));
    }
  }

  lemma {:induction false} SumScale<T(!new)>(R: Ring<T>, n: nat, c: T, f: int -> T, h: int -> T)
    requires IsRing(R)
    requires forall i :: 0 <= i < n ==> h(i) == R.mul(c, f(i))
    ensures Sum(R, n, h) == R.mul(c, Sum(R, n, f))
  {
    if n == 0 {
      MulZero(R, c);
    } else {
      SumScale(R, n - 1, c, f, h);
      Laws(R, c, Sum(R, n - 1, f), f(n - 1));
    }
  }

  lemma {:induction false} SumNeg<T(!new)>(R: Ring<T>, n: nat, f: int -> T, h: int -> T)
    requires IsRing(R)
    requires forall i :: 0 <= i < n ==> h(i) == R.neg(f(i))
    ensures Sum(R, n, h) == R.neg(Sum(R, n, f))
  {
    if n == 0 {
      NegAdd(R, R.zero, R.zero);
    } else {
      SumNeg(R, n - 1, f, h);
      NegAdd(R, Sum(R, n - 1, f), f(n - 1));
    }
  }

  lemma {:induction false} SumConcat<T(!new)>(R: Ring<T>, m: nat, n: nat, f: int -> T)
    requires IsRing(R)
    ensures Sum(R, m + n, f) == R.add(Sum(R, m, f), Sum(R, n, k => f(m + k)))
  {
    var g := k => f(m + k);
    if n == 0 {
      Laws(R, Sum(R, m, f), R.zero, R.zero);
    } else {
      SumConcat(R, m, n - 1, f);
      Laws(R, Sum(R, m, f), Sum(R, n - 1, g), g(n - 1));
    }
  }

  /** Exchange of two finite sums. */
  lemma {:induction false} SumSwap<T(!new)>(R: Ring<T>, m: nat, n: nat, f: (int, int) -> T)
    requires IsRing(R)
    ensures Sum(R, m, i => Sum(R, n, j => f(i, j))) == Sum(R, n, j => Sum(R, m, i => f(i, j)))
  {
    if m == 0 {
      SumZero(R, n, j => Sum(R, 0, i => f(i, j)));
    } else {
      SumSwap(R, m - 1, n, f);
      SumAdd(R, n, j => Sum(R, m - 1, i => f(i, j)), j => f(m - 1, j), j => Sum(R, m, i => f(i, j)));
    }
  }

  /** A sum whose only non-zero term is the one at k. */
  lemma {:induction false} SumSingle<T(!new)>(R: Ring<T>, n: nat, f: int -> T, k: nat)
    requires IsRing(R)
    requires k < n
    requires forall i :: 0 <= i < n && i != k ==> f(i) == R.zero
    ensures Sum(R, n, f) == f(k)
  {
    if k == n - 1 {
      SumZero(R, n - 1, f);
      Laws(R, f(k), R.zero, R.zero);
    } else {
      SumSingle(R, n - 1, f, k);
      Laws(R, f(k), f(k), f(k));
    }
  }
}
