/**
  The radix-2 transform of mthFFT: bit reversal followed by in-place butterflies.
  Coefficients come from any commutative ring; `w` stands for exp(sign*2*pi*i/size), of which
  only w^(size/2) = -1 is used, and the table holds its powers.
 */
module Fft {
  import opened Algebra
  import opened Common

  // ---------------------------------------------------------------- bit reversal

  /** The b low bits of a, read backwards. */
  function Rev(a: nat, b: nat): nat {
    if b == 0 then 0 else (if a % 2 == 1 then Pow2(b - 1) else 0) + Rev(a / 2, b - 1)
  }

  lemma {:induction false} RevBound(a: nat, b: nat)
    ensures Rev(a, b) < Pow2(b)
  {
    if b > 0 {
      RevBound(a / 2, b - 1);
      assert a % 2 == 0 || a % 2 == 1;
    }
  }

  lemma {:induction false} RevTop(top: nat, low: nat, b: nat)
    requires b >= 1 && top < 2 && low < Pow2(b - 1)
    ensures Rev((if top == 1 then Pow2(b - 1) else 0) + low, b) == 2 * Rev(low, b - 1) + top
  {
    if b > 1 {
      RevTop(top, low / 2, b - 1);
    }
  }

  /** Reversal permutes [0, 2^b) and is its own inverse there. */
  lemma {:induction false} RevInvolutive(a: nat, b: nat)
    requires a < Pow2(b)
    ensures Rev(a, b) < Pow2(b) && Rev(Rev(a, b), b) == a
  {
    RevBound(a, b);
    if b > 0 {
      RevInvolutive(a / 2, b - 1);
      RevTop(a % 2, Rev(a / 2, b - 1), b);
    }
  }

  /** Moving one bit from the rest to the accumulated reversal. */
  lemma RevShift(acc: nat, rest: nat, n: nat)
    requires n >= 1
    ensures acc * Pow2(n) + Rev(rest, n) == (2 * acc + rest % 2) * Pow2(n - 1) + Rev(rest / 2, n - 1)
  {
    var p := Pow2(n - 1);
    assert acc * (2 * p) == 2 * acc * p;
    assert (2 * acc + 1) * p == 2 * acc * p + p;
  }

  // ---------------------------------------------------------------- reference transform

  function Coef<T>(R: Ring<T>, x: seq<T>, j: int): T {
    if 0 <= j < |x| then x[j] else R.zero
  }

  function Power<T>(R: Ring<T>, w: T, k: int): T {
    if k >= 0 then Pow(R, w, k) else R.zero
  }

  /** Entry k of the naive transform: the sum over j of x[j] * w^(j*k). */
  function Dft<T>(R: Ring<T>, x: seq<T>, w: T, k: nat): T {
    Sum(R, |x|, j => R.mul(Coef(R, x, j), Power(R, w, j * k)))
  }

  function Transform<T>(R: Ring<T>, x: seq<T>, w: T): seq<T> {
    seq(|x|, k requires 0 <= k => Dft(R, x, w, k))
  }

  /** Horner value at u of the polynomial with the n coefficients x[off], x[off+st], ... */
  function Eval<T>(R: Ring<T>, x: seq<T>, off: nat, st: nat, n: nat, u: T): T
    decreases n
  {
    if n == 0 then R.zero else R.add(Coef(R, x, off), R.mul(u, Eval(R, x, off + st, st, n - 1, u)))
  }

  lemma {:induction false} SumShift<T(!new)>(R: Ring<T>, n: nat, f: int -> T)
    requires IsRing(R) && n >= 1
    ensures Sum(R, n, f) == R.add(f(0), Sum(R, n - 1, j => f(j + 1)))
  {
    var g := j => f(j + 1);
    if n == 1 {
      Laws(R, f(0), R.zero, R.zero);
      assert Sum(R, 1, f) == R.add(Sum(R, 0, f), f(0));
    } else {
      SumShift(R, n - 1, f);
      Laws(R, f(0), Sum(R, n - 2, g), g(n - 2));
    }
  }

  lemma EvalTerm<T(!new)>(R: Ring<T>, x: seq<T>, i: int, u: T, j: nat)
    requires IsRing(R)
    ensures R.mul(Coef(R, x, i), Pow(R, u, j + 1)) == R.mul(u, R.mul(Coef(R, x, i), Pow(R, u, j)))
  {
    var c, p := Coef(R, x, i), Pow(R, u, j);
    Laws(R, c, u, p);
    Laws(R, u, c, p);
  }

  lemma {:induction false} EvalIsSum<T(!new)>(R: Ring<T>, x: seq<T>, off: nat, n: nat, u: T)
    requires IsRing(R)
    ensures Eval(R, x, off, 1, n, u) == Sum(R, n, j => R.mul(Coef(R, x, off + j), Power(R, u, j)))
    decreases n
  {
    if n > 0 {
      var f := j => R.mul(Coef(R, x, off + j), Power(R, u, j));
      var g := j => R.mul(Coef(R, x, off + 1 + j), Power(R, u, j));
      EvalIsSum(R, x, off + 1, n - 1, u);
      PullOut(R, x, off, n, u, f, g);
    }
  }

  /** The factor u common to all terms but the first. */
  lemma {:induction false} PullOut<T(!new)>(R: Ring<T>, x: seq<T>, off: nat, n: nat, u: T, f: int -> T, g: int -> T)
    requires IsRing(R) && n > 0
    requires forall j :: f(j) == R.mul(Coef(R, x, off + j), Power(R, u, j))
    requires forall j :: g(j) == R.mul(Coef(R, x, off + 1 + j), Power(R, u, j))
    ensures Sum(R, n, f) == R.add(Coef(R, x, off), R.mul(u, Sum(R, n - 1, g)))
  {
    var f' := j => f(j + 1);
    forall j | 0 <= j < n - 1 ensures f'(j) == R.mul(u, g(j)) {
      EvalTerm(R, x, off + 1 + j, u, j);
    }
    SumScale(R, n - 1, u, g, f');
    SumShift(R, n, f);
    Laws(R, Coef(R, x, off), R.one, R.one);
  }

  lemma {:induction false} DftIsEval<T(!new)>(R: Ring<T>, x: seq<T>, w: T, k: nat)
    requires IsRing(R)
    ensures Dft(R, x, w, k) == Eval(R, x, 0, 1, |x|, Pow(R, w, k))
  {
    var u := Pow(R, w, k);
    EvalIsSum(R, x, 0, |x|, u);
    var f := j => R.mul(Coef(R, x, 0 + j), Power(R, u, j));
    var g := j => R.mul(Coef(R, x, j), Power(R, w, j * k));
    forall j | 0 <= j < |x| ensures f(j) == g(j) {
      var c := Coef(R, x, j);
      PowMul(R, w, k, j);
      assert k * j == j * k >= 0;
      assert f(j) == R.mul(c, Power(R, u, j));
      assert g(j) == R.mul(c, Power(R, w, j * k));
    }
    SumCong(R, |x|, f, g);
  }

  // ---------------------------------------------------------------- recursive splitting

  /** Entry k of the transform of x[off], x[off+st], ... (2^m terms), by decimation in time:
      the halves with even and odd positions joined by one butterfly. */
  function Split<T>(R: Ring<T>, x: seq<T>, off: nat, st: nat, m: nat, w: T, k: nat): T
    requires k < Pow2(m)
    decreases m
  {
    if m == 0 then Coef(R, x, off)
    else
      var h := Pow2(m - 1);
      var k' := if k < h then k else k - h;
      var e := Split(R, x, off, 2 * st, m - 1, R.mul(w, w), k');
      var o := Split(R, x, off + st, 2 * st, m - 1, R.mul(w, w), k');
      var a := R.mul(o, Pow(R, w, k'));
      if k < h then R.add(e, a) else R.Sub(e, a)
  }

  lemma {:induction false} EvalSplit<T(!new)>(R: Ring<T>, x: seq<T>, off: nat, st: nat, n: nat, u: T)
    requires IsRing(R)
    ensures Eval(R, x, off, st, 2 * n, u)
         == R.add(Eval(R, x, off, 2 * st, n, R.mul(u, u)), R.mul(u, Eval(R, x, off + st, 2 * st, n, R.mul(u, u))))
    decreases n
  {
    if n == 0 {
      MulZero(R, u);
      Laws(R, R.zero, R.zero, R.zero);
    } else {
      var v := R.mul(u, u);
      EvalSplit(R, x, off + 2 * st, st, n - 1, u);
      var e, o := Eval(R, x, off + 2 * st, 2 * st, n - 1, v), Eval(R, x, off + 3 * st, 2 * st, n - 1, v);
      var a, b := Coef(R, x, off), Coef(R, x, off + st);
      calc {
        Eval(R, x, off, st, 2 * n, u);
        R.add(a, R.mul(u, Eval(R, x, off + st, st, 2 * n - 1, u)));
        R.add(a, R.mul(u, R.add(b, R.mul(u, R.add(e, R.mul(u, o))))));
        { Laws(R, u, b, R.mul(u, R.add(e, R.mul(u, o)))); Laws(R, u, u, R.add(e, R.mul(u, o))); }
        R.add(a, R.add(R.mul(u, b), R.mul(v, R.add(e, R.mul(u, o)))));
        { Laws(R, v, e, R.mul(u, o)); Laws(R, v, u, o); Laws(R, u, v, o); }
        R.add(a, R.add(R.mul(u, b), R.add(R.mul(v, e), R.mul(u, R.mul(v, o)))));
        { Laws(R, R.mul(u, b), R.mul(v, e), R.mul(u, R.mul(v, o)));
          Laws(R, R.mul(v, e), R.mul(u, b), R.mul(u, R.mul(v, o)));
          Laws(R, a, R.mul(v, e), R.add(R.mul(u, b), R.mul(u, R.mul(v, o)))); }
        R.add(R.add(a, R.mul(v, e)), R.add(R.mul(u, b), R.mul(u, R.mul(v, o))));
        { Laws(R, u, b, R.mul(v, o)); }
        R.add(R.add(a, R.mul(v, e)), R.mul(u, R.add(b, R.mul(v, o))));
      }
    }
  }

  /** w is a root for size 2^m: w^(2^m / 2) = -1 (nothing is asked for m = 0). */
  ghost predicate Root<T>(R: Ring<T>, m: nat, w: T) {
    m >= 1 ==> Pow(R, w, Pow2(m - 1)) == R.neg(R.one)
  }

  lemma {:induction false} RootSquare<T(!new)>(R: Ring<T>, m: nat, w: T)
    requires IsRing(R) && m >= 1 && Root(R, m, w)
    ensures Root(R, m - 1, R.mul(w, w))
  {
    if m >= 2 {
      PowProduct(R, w, w, Pow2(m - 2));
      PowAdd(R, w, Pow2(m - 2), Pow2(m - 2));
    }
  }

  /** Half a turn negates: w^(h+k) = -(w^k). */
  lemma {:induction false} HalfTurn<T(!new)>(R: Ring<T>, w: T, h: nat, k: nat)
    requires IsRing(R) && Pow(R, w, h) == R.neg(R.one)
    ensures Pow(R, w, h + k) == R.neg(Pow(R, w, k))
  {
    var p := Pow(R, w, k);
    PowAdd(R, w, h, k);
    NegMul(R, R.one, p);
    Laws(R, p, R.one, R.one);
  }

  lemma {:induction false} EvalButterfly<T(!new)>(R: Ring<T>, x: seq<T>, off: nat, st: nat, n: nat, p: T, e: T, o: T)
    requires IsRing(R)
    requires e == Eval(R, x, off, 2 * st, n, R.mul(p, p))
    requires o == Eval(R, x, off + st, 2 * st, n, R.mul(p, p))
    ensures Eval(R, x, off, st, 2 * n, p) == R.add(e, R.mul(o, p))
    ensures Eval(R, x, off, st, 2 * n, R.neg(p)) == R.Sub(e, R.mul(o, p))
  {
    var q := R.neg(p);
    NegMul(R, p, q);
    NegMul(R, p, p);
    NegMul(R, R.mul(p, p), p);
    NegMul(R, p, o);
    Laws(R, o, p, p);
    EvalSplit(R, x, off, st, n, p);
    EvalSplit(R, x, off, st, n, q);
  }

  lemma {:induction false} SplitIsEval<T(!new)>(R: Ring<T>, x: seq<T>, off: nat, st: nat, m: nat, w: T, k: nat)
    requires IsRing(R) && Root(R, m, w) && k < Pow2(m)
    ensures Split(R, x, off, st, m, w, k) == Eval(R, x, off, st, Pow2(m), Pow(R, w, k))
    decreases m
  {
    if m == 0 {
      MulZero(R, Pow(R, w, k));
      Laws(R, Coef(R, x, off), R.zero, R.zero);
      assert Eval(R, x, off + st, st, 0, Pow(R, w, k)) == R.zero;
    } else {
      var h, v := Pow2(m - 1), R.mul(w, w);
      var k' := if k < h then k else k - h;
      var p := Pow(R, w, k');
      RootSquare(R, m, w);
      SplitIsEval(R, x, off, 2 * st, m - 1, v, k');
      SplitIsEval(R, x, off + st, 2 * st, m - 1, v, k');
      SplitJoins(R, x, off, st, m, w, k, k', p);
    }
  }

  /** One butterfly joins the two halves to the value of the whole. */
  lemma {:induction false} SplitJoins<T(!new)>(R: Ring<T>, x: seq<T>, off: nat, st: nat, m: nat, w: T, k: nat, k': nat, p: T)
    requires IsRing(R) && m > 0 && Root(R, m, w) && k < Pow2(m) && p == Pow(R, w, k')
    requires k' == if k < Pow2(m - 1) then k else k - Pow2(m - 1)
    requires Split(R, x, off, 2 * st, m - 1, R.mul(w, w), k') == Eval(R, x, off, 2 * st, Pow2(m - 1), Pow(R, R.mul(w, w), k'))
    requires Split(R, x, off + st, 2 * st, m - 1, R.mul(w, w), k') == Eval(R, x, off + st, 2 * st, Pow2(m - 1), Pow(R, R.mul(w, w), k'))
    ensures Split(R, x, off, st, m, w, k) == Eval(R, x, off, st, Pow2(m), Pow(R, w, k))
  {
    var h := Pow2(m - 1);
    PowProduct(R, w, w, k');
    var e, o := Eval(R, x, off, 2 * st, h, R.mul(p, p)), Eval(R, x, off + st, 2 * st, h, R.mul(p, p));
    EvalButterfly(R, x, off, st, h, p, e, o);
    if k >= h {
      HalfTurn(R, w, h, k');
      assert Pow(R, w, k) == R.neg(p);
    }
  }

  // ---------------------------------------------------------------- the inverse

  /** 1 + u + ... + u^(n-1) */
  function Geom<T>(R: Ring<T>, u: T, n: nat): T {
    Sum(R, n, k => Power(R, u, k))
  }

  lemma {:induction false} GeomDouble<T(!new)>(R: Ring<T>, u: T, h: nat)
    requires IsRing(R)
    ensures Geom(R, u, 2 * h) == R.add(Geom(R, u, h), R.mul(Pow(R, u, h), Geom(R, u, h)))
  {
    var f := k => Power(R, u, k);
    var g := k => f(h + k);
    forall k | 0 <= k < h ensures g(k) == R.mul(Pow(R, u, h), f(k)) { PowAdd(R, u, h, k); }
    SumScale(R, h, Pow(R, u, h), f, g);
    SumConcat(R, h, h, f);
  }

  /** The powers of a non-trivial power of a root cancel over a full turn. */
  lemma {:induction false} GeomZero<T(!new)>(R: Ring<T>, m: nat, w: T, d: nat)
    requires IsRing(R) && Root(R, m, w) && 0 < d < Pow2(m)
    ensures Geom(R, Pow(R, w, d), Pow2(m)) == R.zero
    decreases m
  {
    var h, u := Pow2(m - 1), Pow(R, w, d);
    var g := Geom(R, u, h);
    GeomDouble(R, u, h);
    if d % 2 == 1 {
      assert Pow(R, u, h) == R.neg(R.one) by {
        PowMul(R, w, d, h);
        PowMul(R, w, h, d);
        assert d * h == h * d;
        PowMinusOne(R, d);
      }
      NegMul(R, R.one, g);
      Laws(R, g, R.one, g);
    } else {
      RootSquare(R, m, w);
      GeomZero(R, m - 1, R.mul(w, w), d / 2);
      PowProduct(R, w, w, d / 2);
      PowAdd(R, w, d / 2, d / 2);
      MulZero(R, Pow(R, u, h));
      Laws(R, R.zero, R.zero, R.zero);
    }
  }

  lemma {:induction false} RootInverse<T(!new)>(R: Ring<T>, m: nat, w: T, v: T)
    requires IsRing(R) && Root(R, m, w) && R.mul(w, v) == R.one
    ensures Root(R, m, v)
  {
    if m >= 1 {
      var h := Pow2(m - 1);
      var q := Pow(R, v, h);
      PowProduct(R, w, v, h);
      PowOne(R, h);
      NegMul(R, R.one, q);
      Laws(R, q, R.one, R.one);
      NegMul(R, q, q);
    }
  }

  /** w^j * v^l for inverse roots w and v: 1 if j = l, otherwise a non-trivial power of w or v. */
  lemma {:induction false} Ratio<T(!new)>(R: Ring<T>, w: T, v: T, j: nat, l: nat)
    requires IsRing(R) && R.mul(w, v) == R.one
    ensures R.mul(Pow(R, w, j), Pow(R, v, l)) == if j >= l then Pow(R, w, j - l) else Pow(R, v, l - j)
  {
    var c := if j >= l then l else j;
    PowProduct(R, w, v, c);
    PowOne(R, c);
    var a, b := Pow(R, w, c), Pow(R, v, c);
    if j >= l {
      var r := Pow(R, w, j - l);
      PowAdd(R, w, j - l, l);
      Laws(R, r, a, b);
      Laws(R, r, R.one, R.one);
    } else {
      var r := Pow(R, v, l - j);
      PowAdd(R, v, j, l - j);
      Laws(R, a, b, r);
      Laws(R, r, R.one, R.one);
    }
  }

  /** The ring element "size". */
  function SizeOf<T>(R: Ring<T>, m: nat): T { Geom(R, R.one, Pow2(m)) }

  lemma {:induction false} Orthogonal<T(!new)>(R: Ring<T>, m: nat, w: T, v: T, j: nat, l: nat)
    requires IsRing(R) && Root(R, m, w) && R.mul(w, v) == R.one && j < Pow2(m) && l < Pow2(m)
    ensures Geom(R, R.mul(Pow(R, w, j), Pow(R, v, l)), Pow2(m)) == if j == l then SizeOf(R, m) else R.zero
  {
    Ratio(R, w, v, j, l);
    if j > l {
      GeomZero(R, m, w, j - l);
    } else if j < l {
      RootInverse(R, m, w, v);
      GeomZero(R, m, v, l - j);
    }
  }

  lemma {:induction false} InverseTerm<T(!new)>(R: Ring<T>, c: T, w: T, v: T, j: nat, k: nat, l: nat)
    requires IsRing(R)
    ensures R.mul(R.mul(c, Pow(R, w, j * k)), Pow(R, v, k * l))
         == R.mul(c, Pow(R, R.mul(Pow(R, w, j), Pow(R, v, l)), k))
  {
    PowMul(R, w, j, k);
    PowMul(R, v, l, k);
    assert l * k == k * l;
    PowProduct(R, Pow(R, w, j), Pow(R, v, l), k);
    Laws(R, c, Pow(R, w, j * k), Pow(R, v, k * l));
  }

  /** Transforming back with the inverse root returns every entry, multiplied by the size. */
  lemma {:induction false} InverseEntry<T(!new)>(R: Ring<T>, m: nat, x: seq<T>, w: T, v: T, l: nat)
    requires IsRing(R) && Root(R, m, w) && R.mul(w, v) == R.one && |x| == Pow2(m) && l < Pow2(m)
    ensures Dft(R, Transform(R, x, w), v, l) == R.mul(x[l], SizeOf(R, m))
  {
    var n := Pow2(m);
    var y := Transform(R, x, w);
    var f := (k, j) => R.mul(R.mul(Coef(R, x, j), Power(R, w, j * k)), Power(R, v, k * l));
    var outer := k => R.mul(Coef(R, y, k), Power(R, v, k * l));
    forall k | 0 <= k < n ensures outer(k) == Sum(R, n, j => f(k, j)) {
      var g := j => R.mul(Coef(R, x, j), Power(R, w, j * k));
      var p := Power(R, v, k * l);
      forall j | 0 <= j < n ensures f(k, j) == R.mul(p, g(j)) { Laws(R, p, g(j), g(j)); }
      SumScale(R, n, p, g, j => f(k, j));
      assert Coef(R, y, k) == Dft(R, x, w, k) == Sum(R, n, g);
      Laws(R, p, y[k], p);
    }
    SumCong(R, n, outer, k => Sum(R, n, j => f(k, j)));
    SumSwap(R, n, n, f);
    var col := j => Sum(R, n, k => f(k, j));
    forall j | 0 <= j < n ensures col(j) == if j == l then R.mul(x[l], SizeOf(R, m)) else R.zero {
      assert Coef(R, x, j) == x[j];
      var h := k => f(k, j);
      forall k | 0 <= k < n ensures h(k) == R.mul(R.mul(x[j], Power(R, w, j * k)), Power(R, v, k * l)) { }
      InverseColumn(R, m, x, w, v, j, l, h);
    }
    SumSingle(R, n, col, l);
    SumCong(R, n, j => Sum(R, n, k => f(k, j)), col);
  }

  lemma {:induction false} InverseColumn<T(!new)>(R: Ring<T>, m: nat, x: seq<T>, w: T, v: T, j: nat, l: nat, h: int -> T)
    requires IsRing(R) && Root(R, m, w) && R.mul(w, v) == R.one && |x| == Pow2(m) && j < Pow2(m) && l < Pow2(m)
    requires forall k :: 0 <= k < Pow2(m) ==> h(k) == R.mul(R.mul(x[j], Power(R, w, j * k)), Power(R, v, k * l))
    ensures Sum(R, Pow2(m), h) == if j == l then R.mul(x[l], SizeOf(R, m)) else R.zero
  {
    var n := Pow2(m);
    var u := R.mul(Pow(R, w, j), Pow(R, v, l));
    var f := k => Power(R, u, k);
    forall k | 0 <= k < n ensures h(k) == R.mul(x[j], f(k)) {
      assert j * k >= 0 && k * l >= 0;
      InverseTerm(R, x[j], w, v, j, k, l);
    }
    SumScale(R, n, x[j], f, h);
    Orthogonal(R, m, w, v, j, l);
    MulZero(R, x[j]);
  }

  function Scaled<T>(R: Ring<T>, a: T, y: seq<T>): (z: seq<T>)
    ensures |z| == |y|
  {
    seq(|y|, k requires 0 <= k < |y| => R.mul(y[k], a))
  }

  lemma {:induction false} DftScaled<T(!new)>(R: Ring<T>, a: T, y: seq<T>, v: T, l: nat)
    requires IsRing(R)
    ensures Dft(R, Scaled(R, a, y), v, l) == R.mul(a, Dft(R, y, v, l))
  {
    var f := k => R.mul(Coef(R, y, k), Power(R, v, k * l));
    var h := k => R.mul(Coef(R, Scaled(R, a, y), k), Power(R, v, k * l));
    forall k | 0 <= k < |y| ensures h(k) == R.mul(a, f(k)) {
      var p := Power(R, v, k * l);
      assert f(k) == R.mul(Coef(R, y, k), Power(R, v, k * l));
      assert f(k) == R.mul(y[k], p);
      assert h(k) == R.mul(Coef(R, Scaled(R, a, y), k), Power(R, v, k * l));
      assert h(k) == R.mul(R.mul(y[k], a), p);
      Laws(R, a, y[k], p);
      Laws(R, y[k], a, a);
    }
    SumScale(R, |y|, a, f, h);
  }

  /** Scaled forward transform followed by the unscaled inverse one is the identity. */
  lemma {:induction false} RoundTrip<T(!new)>(R: Ring<T>, m: nat, x: seq<T>, w: T, v: T, a: T)
    requires IsRing(R) && Root(R, m, w) && R.mul(w, v) == R.one && |x| == Pow2(m)
    requires R.mul(a, SizeOf(R, m)) == R.one
    ensures Transform(R, Scaled(R, a, Transform(R, x, w)), v) == x
  {
    var y := Transform(R, x, w);
    forall l | 0 <= l < |x| ensures Dft(R, Scaled(R, a, y), v, l) == x[l] {
      DftScaled(R, a, y, v, l);
      InverseEntry(R, m, x, w, v, l);
      Laws(R, x[l], SizeOf(R, m), a);
      Laws(R, a, SizeOf(R, m), a);
      Laws(R, R.mul(x[l], SizeOf(R, m)), a, a);
      Laws(R, x[l], R.one, R.one);
    }
  }

  // ---------------------------------------------------------------- the butterfly levels

  /** Entry k of block b after s levels: the 2^s-point transform of the input positions whose
      low bits are b reversed, read with stride 2^(beki-s). */
  ghost function Block<T>(R: Ring<T>, x: seq<T>, beki: nat, w: T, s: nat, b: nat, k: nat): T
    requires s <= beki && k < Pow2(s)
  {
    Split(R, x, Rev(b, beki - s), Pow2(beki - s), s, Pow(R, w, Pow2(beki - s)), k)
  }

  /** What position q of the work array holds after s levels. */
  ghost function Level<T>(R: Ring<T>, x: seq<T>, beki: nat, w: T, s: nat, q: nat): T
    requires s <= beki
  {
    ModBound(q, Pow2(s));
    Block(R, x, beki, w, s, q / Pow2(s), q % Pow2(s))
  }

  lemma ModBound(q: nat, m: nat)
    requires m >= 1
    ensures 0 <= q / m && 0 <= q % m < m
  {
  }

  lemma DivMod(c: nat, m: nat, k: nat)
    requires k < m
    ensures (c * m + k) / m == c && (c * m + k) % m == k
  {
    var q := c * m + k;
    var d := q / m - c;
    assert q == m * (q / m) + q % m;
    assert k - q % m == m * d by { assert m * (q / m) == m * c + m * d; }
    assert d >= 1 ==> m * d >= m;
    assert d <= -1 ==> m * d <= 0 - m;
  }

  /** First position of block c at a level whose butterflies span i. */
  function Start(c: nat, i: nat): nat { c * (2 * i) }

  /** q is position k in the upper half of block c of level s+1. */
  ghost predicate Upper(s: nat, c: nat, k: nat, q: nat) {
    var i := Pow2(s);
    && k < i
    && q / i == 2 * c && q % i == k
    && (q + i) / i == 2 * c + 1 && (q + i) % i == k
    && q / Pow2(s + 1) == c && q % Pow2(s + 1) == k
    && (q + i) / Pow2(s + 1) == c && (q + i) % Pow2(s + 1) == k + i
  }

  lemma {:induction false} UpperAt(s: nat, c: nat, k: nat, q: nat)
    requires k < Pow2(s) && q == Start(c, Pow2(s)) + k
    ensures Upper(s, c, k, q)
  {
    var i := Pow2(s);
    DivMod(2 * c, i, k);
    assert q == 2 * c * i + k;
    DivMod(2 * c + 1, i, k);
    assert q + i == (2 * c + 1) * i + k;
    DivMod(c, 2 * i, k);
    DivMod(c, 2 * i, k + i);
  }

  /** One butterfly of level s is exactly what leads from level s to level s+1. */
  lemma {:induction false} BlockStep<T(!new)>(R: Ring<T>, x: seq<T>, beki: nat, w: T, s: nat, c: nat, k: nat, tw: T)
    requires IsRing(R) && s < beki && k < Pow2(s)
    requires tw == Pow(R, Pow(R, w, Pow2(beki - s - 1)), k)
    ensures var a := R.mul(Block(R, x, beki, w, s, 2 * c + 1, k), tw);
            && Block(R, x, beki, w, s + 1, c, k) == R.add(Block(R, x, beki, w, s, 2 * c, k), a)
            && Block(R, x, beki, w, s + 1, c, k + Pow2(s)) == R.Sub(Block(R, x, beki, w, s, 2 * c, k), a)
  {
    var kstep := Pow2(beki - s - 1);
    RevDouble(c, beki - s);
    PowAdd(R, w, kstep, kstep);
  }

  lemma {:induction false} RevDouble(c: nat, d: nat)
    requires d > 0
    ensures Rev(2 * c, d) == Rev(c, d - 1) && Rev(2 * c + 1, d) == Rev(c, d - 1) + Pow2(d - 1) && Pow2(d) == 2 * Pow2(d - 1)
  {
  }

  lemma {:induction false} Pow2Add(a: nat, b: nat)
    ensures Pow2(a + b) == Pow2(a) * Pow2(b)
  {
    if a > 0 {
      Pow2Add(a - 1, b);
      assert 2 * (Pow2(a - 1) * Pow2(b)) == 2 * Pow2(a - 1) * Pow2(b);
    }
  }

  lemma {:induction false} MulStep(c: nat, n: nat, m: nat)
    requires c < n
    ensures 0 <= c * m && c * m + m <= n * m
    decreases n
  {
    if n == c + 1 {
      assert n * m == c * m + m;
    } else {
      MulStep(c, n - 1, m);
      assert n * m == (n - 1) * m + m;
    }
  }

  ghost function LevelSeq<T>(R: Ring<T>, x: seq<T>, beki: nat, w: T, s: nat): (r: seq<T>)
    requires s <= beki
    ensures |r| == Pow2(beki)
  {
    seq(Pow2(beki), q requires 0 <= q => Level(R, x, beki, w, s, q))
  }

  ghost predicate JoinedAt<T>(R: Ring<T>, table: seq<T>, before: seq<T>, after: seq<T>, i: nat, q: nat, t: int) {
    && q + i < |before| == |after| && 0 <= t < |table|
    && after[q] == R.add(before[q], R.mul(before[q + i], table[t]))
    && after[q + i] == R.Sub(before[q], R.mul(before[q + i], table[t]))
  }

  /** The block of 2*i entries at j: `after` is the butterfly of `before` with the table's twiddles. */
  ghost predicate Joined<T>(R: Ring<T>, table: seq<T>, before: seq<T>, after: seq<T>, i: nat, j: nat, kstep: nat) {
    && |before| == |after| && j + 2 * i <= |before|
    && forall k: nat :: k < i ==> JoinedAt(R, table, before, after, i, j + k, k * kstep)
  }

  ghost predicate Table<T>(R: Ring<T>, table: seq<T>, w: T) {
    forall i :: 0 <= i < |table| ==> table[i] == Pow(R, w, i)
  }

  lemma {:induction false} LevelEntries<T>(R: Ring<T>, x: seq<T>, beki: nat, w: T, s: nat, c: nat, k: nat, q: nat)
    requires s < beki && Upper(s, c, k, q) && q + Pow2(s) < Pow2(beki)
    ensures LevelSeq(R, x, beki, w, s)[q] == Block(R, x, beki, w, s, 2 * c, k)
    ensures LevelSeq(R, x, beki, w, s)[q + Pow2(s)] == Block(R, x, beki, w, s, 2 * c + 1, k)
    ensures LevelSeq(R, x, beki, w, s + 1)[q] == Block(R, x, beki, w, s + 1, c, k)
    ensures LevelSeq(R, x, beki, w, s + 1)[q + Pow2(s)] == Block(R, x, beki, w, s + 1, c, k + Pow2(s))
  {
  }

  lemma {:induction false} TwiddleIndex(beki: nat, s: nat, k: nat)
    requires s < beki && k < Pow2(s)
    ensures 0 <= k * Pow2(beki - s - 1) < Pow2(beki)
  {
    Pow2Add(s, beki - s - 1);
    MulStep(k, Pow2(s), Pow2(beki - s - 1));
  }

  lemma {:induction false} Twiddle<T(!new)>(R: Ring<T>, w: T, table: seq<T>, kstep: nat, k: nat, t: nat)
    requires IsRing(R) && Table(R, table, w) && t < |table| && t == kstep * k
    ensures table[t] == Pow(R, Pow(R, w, kstep), k)
  {
    PowMul(R, w, kstep, k);
  }

  lemma {:induction false} LevelJoinedAt<T(!new)>(R: Ring<T>, x: seq<T>, beki: nat, w: T, s: nat, c: nat, k: nat, q: nat,
                                                  table: seq<T>, before: seq<T>, after: seq<T>, t: nat)
    requires IsRing(R) && s < beki && Upper(s, c, k, q) && q + Pow2(s) < Pow2(beki)
    requires before == LevelSeq(R, x, beki, w, s) && after == LevelSeq(R, x, beki, w, s + 1)
    requires t < |table| && table[t] == Pow(R, Pow(R, w, Pow2(beki - s - 1)), k)
    ensures JoinedAt(R, table, before, after, Pow2(s), q, t)
  {
    LevelEntries(R, x, beki, w, s, c, k, q);
    BlockStep(R, x, beki, w, s, c, k, table[t]);
  }

  lemma {:induction false} LevelJoinedK<T(!new)>(R: Ring<T>, x: seq<T>, beki: nat, w: T, s: nat, c: nat, k: nat, q: nat,
                                                 table: seq<T>, before: seq<T>, after: seq<T>, t: int)
    requires IsRing(R) && s < beki && |table| == Pow2(beki) && Table(R, table, w) && k < Pow2(s)
    requires before == LevelSeq(R, x, beki, w, s) && after == LevelSeq(R, x, beki, w, s + 1)
    requires q == Start(c, Pow2(s)) + k && q + Pow2(s) < Pow2(beki) && t == k * Pow2(beki - s - 1)
    ensures JoinedAt(R, table, before, after, Pow2(s), q, t)
  {
    UpperAt(s, c, k, q);
    TwiddleIndex(beki, s, k);
    Twiddle(R, w, table, Pow2(beki - s - 1), k, t);
    LevelJoinedAt(R, x, beki, w, s, c, k, q, table, before, after, t);
  }

  lemma StartBound(c: nat, n: nat, i: nat)
    requires c < n
    ensures Start(c, i) + 2 * i <= Start(n, i)
  {
    MulStep(c, n, 2 * i);
  }

  lemma {:induction false} LevelJoined<T(!new)>(R: Ring<T>, x: seq<T>, beki: nat, w: T, s: nat, c: nat, table: seq<T>)
    requires IsRing(R) && s < beki && |table| == Pow2(beki) && Table(R, table, w)
    requires c < Pow2(beki - s - 1)
    ensures Joined(R, table, LevelSeq(R, x, beki, w, s), LevelSeq(R, x, beki, w, s + 1),
                   Pow2(s), Start(c, Pow2(s)), Pow2(beki - s - 1))
  {
    var i, kstep := Pow2(s), Pow2(beki - s - 1);
    var before, after := LevelSeq(R, x, beki, w, s), LevelSeq(R, x, beki, w, s + 1);
    var j := Start(c, i);
    assert j + 2 * i <= Pow2(beki) by {
      Pow2Add(beki - s - 1, s + 1);
      StartBound(c, kstep, i);
    }
    forall k: nat | k < i ensures JoinedAt(R, table, before, after, i, j + k, k * kstep) {
      LevelJoinedK(R, x, beki, w, s, c, k, j + k, table, before, after, k * kstep);
    }
  }

  lemma {:induction false} TopLevel<T(!new)>(R: Ring<T>, x: seq<T>, beki: nat, w: T, q: nat)
    requires IsRing(R) && Root(R, beki, w) && |x| == Pow2(beki) && q < Pow2(beki)
    ensures Level(R, x, beki, w, beki, q) == Dft(R, x, w, q)
  {
    DivMod(0, Pow2(beki), q);
    assert Pow2(0) == 1 && Pow2(beki - beki) == 1;
    Laws(R, w, R.one, R.one);
    assert Pow(R, w, 1) == R.mul(w, Pow(R, w, 0)) == w;
    SplitIsEval(R, x, 0, 1, beki, w, q);
    DftIsEval(R, x, w, q);
  }

  lemma BottomLevel<T>(R: Ring<T>, x: seq<T>, beki: nat, w: T, y: seq<T>)
    requires |x| == |y| == Pow2(beki)
    requires forall q :: 0 <= q < |y| ==> Rev(q, beki) < |x| && y[q] == x[Rev(q, beki)]
    ensures y == LevelSeq(R, x, beki, w, 0)
  {
    forall q: nat | q < |y| ensures Level(R, x, beki, w, 0, q) == y[q] {
      assert Pow2(0) == 1 && q / 1 == q && q % 1 == 0;
    }
  }

  lemma TopLevels<T(!new)>(R: Ring<T>, x: seq<T>, beki: nat, w: T)
    requires IsRing(R) && Root(R, beki, w) && |x| == Pow2(beki)
    ensures LevelSeq(R, x, beki, w, beki) == Transform(R, x, w)
  {
    forall q: nat | q < |x| ensures LevelSeq(R, x, beki, w, beki)[q] == Transform(R, x, w)[q] {
      TopLevel(R, x, beki, w, q);
    }
  }

  /** mthFFT.  `scale` is the 1/size that the forward direction applies. */
  class Fft<T(!new)> {
    const R: Ring<T>
    const beki: nat
    const sign: int
    const wList: seq<T>
    const scale: T
    ghost const w: T

    ghost predicate Valid() {
      && IsRing(R) && beki >= 1 && Root(R, beki, w)
      && |wList| == Pow2(beki) && Table(R, wList, w)
    }

    constructor (R: Ring<T>, beki: nat, sign: int, wList: seq<T>, scale: T, ghost w: T)
      requires IsRing(R) && beki >= 1 && Root(R, beki, w)
      requires |wList| == Pow2(beki) && Table(R, wList, w)
      ensures Valid()
      ensures this.R == R && this.beki == beki && this.sign == sign && this.wList == wList
      ensures this.scale == scale && this.w == w
    {
      this.R, this.beki, this.sign, this.wList, this.scale, this.w := R, beki, sign, wList, scale, w;
    }

    static method UpsideDown(a: nat, b: nat) returns (ret: nat)
      ensures ret == Rev(a, b) && ret < Pow2(b)
    {
      ret := 0;
      var rest := a;
      for i := 0 to b
        invariant Rev(a, b) == ret * Pow2(b - i) + Rev(rest, b - i)
      {
        RevShift(ret, rest, b - i);
        ret := ret * 2;
        if rest % 2 == 1 {
          ret := ret + 1;
        }
        rest := rest / 2;
      }
      RevBound(a, b);
    }

    /** The innermost loop, on the block of 2*i positions at j. */
    method Butterflies(ret: array<T>, i: nat, j: nat, kstep: nat, ghost before: seq<T>, ghost after: seq<T>)
      requires ret.Length == |before| && Joined(R, wList, before, after, i, j, kstep)
      requires forall q :: j <= q < j + 2 * i ==> ret[q] == before[q]
      modifies ret
      ensures forall q :: 0 <= q < ret.Length ==> ret[q] == if j <= q < j + 2 * i then after[q] else old(ret[q])
    {
      for k := 0 to i
        invariant forall q :: 0 <= q < j || j + 2 * i <= q < ret.Length ==> ret[q] == old(ret[q])
        invariant forall q :: j <= q < j + k || j + i <= q < j + i + k ==> ret[q] == after[q]
        invariant forall q :: j + k <= q < j + i || j + i + k <= q < j + 2 * i ==> ret[q] == before[q]
      {
        assert JoinedAt(R, wList, before, after, i, j + k, k * kstep);
        var a := R.mul(ret[j + k + i], wList[k * kstep]);
        var b := R.add(ret[j + k], a);
        var c := R.Sub(ret[j + k], a);
        ret[j + k] := b;
        ret[j + k + i] := c;
      }
    }

    /** The middle loop: every block of one level. */
    method Pass(ret: array<T>, i: nat, kstep: nat, ghost n: nat, ghost before: seq<T>, ghost after: seq<T>)
      requires ret[..] == before && i >= 1 && ret.Length == |after| == Start(n, i)
      requires forall c: nat :: c < n ==> Joined(R, wList, before, after, i, Start(c, i), kstep)
      modifies ret
      ensures ret[..] == after
    {
      var j := 0;
      ghost var c := 0;
      while j < ret.Length
        invariant c <= n && j == Start(c, i) && j <= ret.Length
        invariant forall q :: 0 <= q < j ==> ret[q] == after[q]
        invariant forall q :: j <= q < ret.Length ==> ret[q] == before[q]
        decreases n - c
      {
        assert Joined(R, wList, before, after, i, Start(c, i), kstep);
        Butterflies(ret, i, j, kstep, before, after);
        assert Start(c + 1, i) == j + 2 * i;
        j := j + 2 * i;
        c := c + 1;
      }
    }

    method OneLevel(ret: array<T>, i: nat, kstep: nat, ghost x: seq<T>, ghost s: nat)
      requires Valid() && s < beki && i == Pow2(s) && kstep == Pow2(beki - s - 1)
      requires ret[..] == LevelSeq(R, x, beki, w, s)
      modifies ret
      ensures ret[..] == LevelSeq(R, x, beki, w, s + 1)
    {
      ghost var before, after := LevelSeq(R, x, beki, w, s), LevelSeq(R, x, beki, w, s + 1);
      forall c: nat | c < kstep ensures Joined(R, wList, before, after, i, Start(c, i), kstep) {
        LevelJoined(R, x, beki, w, s, c, wList);
      }
      Pow2Add(beki - s - 1, s + 1);
      Pass(ret, i, kstep, kstep, before, after);
    }

    /** Bit reversal: every input lands at its reversed index. */
    method Permute(ret: array<T>, list: array<T>)
      requires ret != list && ret.Length == list.Length == Pow2(beki)
      modifies ret
      ensures forall q :: 0 <= q < ret.Length ==> Rev(q, beki) < list.Length && ret[q] == list[Rev(q, beki)]
    {
      ghost var x := list[..];
      for n := 0 to ret.Length
        invariant list[..] == x
        invariant forall q :: 0 <= q < ret.Length && Rev(q, beki) < n ==> ret[q] == x[Rev(q, beki)]
      {
        var u := UpsideDown(n, beki);
        RevInvolutive(n, beki);
        forall q | 0 <= q < ret.Length && Rev(q, beki) == n ensures q == u { RevInvolutive(q, beki); }
        ret[u] := list[n];
      }
      forall q | 0 <= q < ret.Length ensures Rev(q, beki) < list.Length { RevBound(q, beki); }
    }

    /** After bit reversal and all levels the work array holds the naive transform of the input. */
    method FastFt(ret: array<T>, list: array<T>)
      requires Valid() && ret != list && ret.Length == list.Length == Pow2(beki)
      modifies ret
      ensures ret[..] == Transform(R, list[..], w)
    {
      ghost var x := list[..];
      Permute(ret, list);
      BottomLevel(R, x, beki, w, ret[..]);
      AllLevels(ret, x);
      TopLevels(R, x, beki, w);
    }

    /** The outer loop: block sizes double and the stride through the table halves. */
    method AllLevels(ret: array<T>, ghost x: seq<T>)
      requires Valid() && ret[..] == LevelSeq(R, x, beki, w, 0)
      modifies ret
      ensures ret[..] == LevelSeq(R, x, beki, w, beki)
    {
      var size := Pow2(beki);
      var i, kstep := 1, Pow2(beki - 1);
      ghost var s := 0;
      while i < size
        invariant s <= beki && i == Pow2(s) && (s < beki ==> kstep == Pow2(beki - s - 1))
        invariant ret[..] == LevelSeq(R, x, beki, w, s)
        decreases beki - s
      {
        OneLevel(ret, i, kstep, x, s);
        i := i * 2;
        kstep := kstep / 2;
        s := s + 1;
      }
      assert s == beki by { if s < beki { Pow2Grows(s, beki); } }
    }

    method Exe(ret: array<T>, list: array<T>)
      requires Valid() && ret != list && ret.Length == list.Length == Pow2(beki)
      modifies ret
      ensures ret[..] == if sign > 0 then Transform(R, list[..], w) else Scaled(R, scale, Transform(R, list[..], w))
    {
      FastFt(ret, list);
      if sign > 0 {
        return;
      }
      ghost var y := ret[..];
      for i := 0 to ret.Length
        invariant forall q :: 0 <= q < i ==> ret[q] == R.mul(y[q], scale)
        invariant forall q :: i <= q < ret.Length ==> ret[q] == y[q]
      {
        ret[i] := R.mul(ret[i], scale);
      }
    }
  }

  /** The two directions as the callers pair them: forward (scaled) into mid, inverse into out. */
  method ForwardThenInverse<T(!new)>(fwd: Fft<T>, inv: Fft<T>, list: array<T>, mid: array<T>, out: array<T>)
    requires fwd.Valid() && inv.Valid() && fwd.R == inv.R && fwd.beki == inv.beki
    requires fwd.sign <= 0 && inv.sign > 0
    requires fwd.R.mul(fwd.w, inv.w) == fwd.R.one
    requires fwd.R.mul(fwd.scale, SizeOf(fwd.R, fwd.beki)) == fwd.R.one
    requires list.Length == mid.Length == out.Length == Pow2(fwd.beki)
    requires list != mid && mid != out && out != list
    modifies mid, out
    ensures out[..] == list[..]
  {
    fwd.Exe(mid, list);
    inv.Exe(out, mid);
    RoundTrip(fwd.R, fwd.beki, list[..], fwd.w, inv.w, fwd.scale);
  }

  // ---------------------------------------------------------------- the complex numbers of mComplex

  datatype Complex = Complex(re: real, im: real)

  function ComplexProduct(a: Complex, b: Complex): Complex {
    Complex(a.re * b.re - a.im * b.im, a.re * b.im + a.im * b.re)
  }

  const ComplexOps: Ring<Complex> := Ring(
    Complex(0.0, 0.0), Complex(1.0, 0.0),
    (a: Complex, b: Complex) => Complex(a.re + b.re, a.im + b.im),
    (a: Complex) => Complex(-a.re, -a.im),
    (a: Complex, b: Complex) => ComplexProduct(a, b))

  /** Exact complex arithmetic is one of the rings the transform is proved for. */
  lemma ComplexIsRing()
    ensures IsRing(ComplexOps)
  {
    forall a: Complex, b: Complex, c: Complex ensures LawsAt(ComplexOps, a, b, c) {
      ComplexMul(a, b, c);
      ComplexDistributes(a, b, c);
    }
  }

  lemma ComplexMul(a: Complex, b: Complex, c: Complex)
    ensures ComplexProduct(ComplexProduct(a, b), c) == ComplexProduct(a, ComplexProduct(b, c))
    ensures ComplexProduct(a, b) == ComplexProduct(b, a)
  {
    ProductParts(a.re, b.re, a.im, b.im, c.re, c.im);
  }

  lemma ComplexDistributes(a: Complex, b: Complex, c: Complex)
    ensures ComplexProduct(a, ComplexOps.add(b, c)) == ComplexOps.add(ComplexProduct(a, b), ComplexProduct(a, c))
  {
    Distributes(a.re, b.re, c.re); Distributes(a.re, b.im, c.im);
    Distributes(a.im, b.re, c.re); Distributes(a.im, b.im, c.im);
  }

  lemma Distributes(a: real, b: real, c: real)
    ensures a * (b + c) == a * b + a * c
  {
  }

  lemma ProductParts(p: real, q: real, r: real, s: real, x: real, y: real)
    ensures (p * q - r * s) * x - (p * s + r * q) * y == p * (q * x - s * y) - r * (q * y + s * x)
    ensures (p * q - r * s) * y + (p * s + r * q) * x == p * (q * y + s * x) + r * (q * x - s * y)
  {
    assert p * (q * x - s * y) == p * (q * x) - p * (s * y);
    assert r * (q * y + s * x) == r * (q * y) + r * (s * x);
    assert p * (q * y + s * x) == p * (q * y) + p * (s * x);
    assert r * (q * x - s * y) == r * (q * x) - r * (s * y);
  }

  lemma {:induction false} Pow2Grows(a: nat, b: nat)
    requires a < b
    ensures Pow2(a) < Pow2(b)
  {
    if a + 1 < b { Pow2Grows(a, b - 1); }
  }
}
