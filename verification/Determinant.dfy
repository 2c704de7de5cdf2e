/**
  Determinants by first-row expansion, as mthMatrix::det computes them, over any commutative
  ring.  One entry function A(row, column) is fixed and a submatrix is named by its list of rows
  and its list of columns, so deleting, swapping or repeating lines are list operations.
 */
module Determinant {
  import opened Algebra

  type Entries<!T> = (int, int) -> T

  function Drop(s: seq<int>, k: int): (r: seq<int>)
    requires 0 <= k < |s|
    ensures |r| == |s| - 1
    ensures forall i :: 0 <= i < |r| ==> r[i] == s[if i < k then i else i + 1]
  {
    s[..k] + s[k + 1..]
  }

  function Signed<T>(R: Ring<T>, k: int, t: T): T {
    if k % 2 == 0 then t else R.neg(t)
  }

  function Det<T>(R: Ring<T>, A: Entries<T>, rows: seq<int>, cols: seq<int>): T
    requires |rows| == |cols|
    decreases |rows|, 1
  {
    if rows == [] then R.one else Sum(R, |cols|, k => Term(R, A, rows, cols, k))
  }

  /** Contribution of column position k to the expansion along the first row. */
  function Term<T>(R: Ring<T>, A: Entries<T>, rows: seq<int>, cols: seq<int>, k: int): T
    requires |rows| == |cols| > 0
    decreases |rows|, 0
  {
    if 0 <= k < |cols|
    then Signed(R, k, R.mul(A(rows[0], cols[k]), Det(R, A, rows[1..], Drop(cols, k))))
    else R.zero
  }

  /** Only the entries met by the listed rows and columns matter. */
  lemma {:induction false} DetCong<T(!new)>(R: Ring<T>, A: Entries<T>, rows: seq<int>, cols: seq<int>,
                                            B: Entries<T>, rows': seq<int>, cols': seq<int>)
    requires |rows| == |cols| == |rows'| == |cols'|
    requires forall i, j :: 0 <= i < |rows| && 0 <= j < |cols| ==> A(rows[i], cols[j]) == B(rows'[i], cols'[j])
    ensures Det(R, A, rows, cols) == Det(R, B, rows', cols')
    decreases |rows|
  {
    if rows != [] {
      forall k | 0 <= k < |cols| ensures Term(R, A, rows, cols, k) == Term(R, B, rows', cols', k) {
        DetCong(R, A, rows[1..], Drop(cols, k), B, rows'[1..], Drop(cols', k));
      }
      SumCong(R, |cols|, k => Term(R, A, rows, cols, k), k => Term(R, B, rows', cols', k));
    }
  }

  // ---------------------------------------------------------------- exchanging columns

  function SwapAt(s: seq<int>, k: int): (r: seq<int>)
    requires 0 <= k < |s| - 1
    ensures |r| == |s|
  {
    s[k := s[k + 1]][k + 1 := s[k]]
  }

  lemma {:induction false} SumSwapAdjacent<T(!new)>(R: Ring<T>, n: nat, f: int -> T, g: int -> T, k: nat)
    requires IsRing(R) && k + 1 < n
    requires g(k) == f(k + 1) && g(k + 1) == f(k)
    requires forall i :: 0 <= i < n && i != k && i != k + 1 ==> g(i) == f(i)
    ensures Sum(R, n, g) == Sum(R, n, f)
  {
    if n == k + 2 {
      SumCong(R, k, f, g);
      var s := Sum(R, k, f);
      assert Sum(R, k + 1, f) == R.add(s, f(k)) && Sum(R, k + 1, g) == R.add(s, f(k + 1));
      Laws(R, s, f(k), f(k + 1));
      Laws(R, s, f(k + 1), f(k));
      Laws(R, f(k), f(k + 1), s);
    } else {
      SumSwapAdjacent(R, n - 1, f, g, k);
    }
  }

  lemma SignedNeg<T(!new)>(R: Ring<T>, k: int, a: T, t: T)
    requires IsRing(R)
    ensures Signed(R, k + 1, t) == R.neg(Signed(R, k, t))
    ensures Signed(R, k, R.neg(t)) == R.neg(Signed(R, k, t))
    ensures R.mul(a, Signed(R, k, t)) == Signed(R, k, R.mul(a, t))
  {
    NegMul(R, t, t);
    NegMul(R, a, t);
  }

  /** Exchanging two neighbouring columns changes the sign. */
  lemma {:induction false} SwapColumns<T(!new)>(R: Ring<T>, A: Entries<T>, rows: seq<int>, cols: seq<int>, k: int)
    requires IsRing(R) && |rows| == |cols| && 0 <= k < |cols| - 1
    ensures Det(R, A, rows, SwapAt(cols, k)) == R.neg(Det(R, A, rows, cols))
    decreases |rows|
  {
    var sw, n := SwapAt(cols, k), |cols|;
    var f := x => Term(R, A, rows, cols, x);
    var g := x => Term(R, A, rows, sw, x);
    var h := x => R.neg(g(x));
    forall x | 0 <= x < n ensures h(x) == f(if x == k then k + 1 else if x == k + 1 then k else x) {
      SwapTerm(R, A, rows, cols, k, x);
    }
    SumSwapAdjacent(R, n, f, h, k);
    SumNeg(R, n, g, h);
    NegMul(R, Sum(R, n, g), R.zero);
  }

  lemma {:induction false} SwapTerm<T(!new)>(R: Ring<T>, A: Entries<T>, rows: seq<int>, cols: seq<int>, k: int, x: int)
    requires IsRing(R) && |rows| == |cols| && 0 <= k < |cols| - 1 && 0 <= x < |cols|
    ensures R.neg(Term(R, A, rows, SwapAt(cols, k), x))
         == Term(R, A, rows, cols, if x == k then k + 1 else if x == k + 1 then k else x)
    decreases |rows|, 0
  {
    var sw, rest := SwapAt(cols, k), rows[1..];
    var a := A(rows[0], sw[x]);
    if x == k {
      assert Drop(sw, x) == Drop(cols, k + 1);
      SignedNeg(R, k, a, R.mul(a, Det(R, A, rest, Drop(sw, x))));
    } else if x == k + 1 {
      assert Drop(sw, x) == Drop(cols, k);
      SignedNeg(R, k, a, R.mul(a, Det(R, A, rest, Drop(sw, x))));
      NegMul(R, Signed(R, k, R.mul(a, Det(R, A, rest, Drop(sw, x)))), a);
    } else {
      var k' := if x < k then k - 1 else k;
      var d := Det(R, A, rest, Drop(cols, x));
      assert Drop(sw, x) == SwapAt(Drop(cols, x), k');
      SwapColumns(R, A, rest, Drop(cols, x), k');
      NegMul(R, a, d);
      SignedNeg(R, x, a, R.mul(a, d));
      NegMul(R, Signed(R, x, R.mul(a, d)), a);
    }
  }

  /** Moving a column over the q columns to its right. */
  lemma {:induction false} MoveColumn<T(!new)>(R: Ring<T>, A: Entries<T>, rows: seq<int>, p: seq<int>, c: int, q: seq<int>)
    requires IsRing(R) && |rows| == |p| + 1 + |q|
    ensures Det(R, A, rows, p + q + [c]) == Signed(R, |q|, Det(R, A, rows, p + [c] + q))
    decreases |q|
  {
    if q == [] {
      assert p + q + [c] == p + [c] + q;
    } else {
      var p', cols := p + [q[0]], p + [c] + q;
      assert p' + q[1..] + [c] == p + q + [c];
      assert p' + [c] + q[1..] == SwapAt(cols, |p|);
      var d := Det(R, A, rows, cols);
      assert Det(R, A, rows, p + q + [c]) == Signed(R, |q| - 1, R.neg(d)) by {
        MoveColumn(R, A, rows, p', c, q[1..]);
        SwapColumns(R, A, rows, cols, |p|);
      }
      SignedNeg(R, |q| - 1, R.zero, d);
    }
  }

  // ---------------------------------------------------------------- exchanging rows

  function Drop2(s: seq<int>, x: int, j: int): (r: seq<int>)
    requires 0 <= x < |s| && 0 <= j < |s| && x != j
    ensures |r| == |s| - 2
  {
    Drop(Drop(s, x), if j < x then j else j - 1)
  }

  lemma Drop2Symmetric(s: seq<int>, x: int, j: int)
    requires 0 <= j < x < |s|
    ensures Drop2(s, x, j) == Drop2(s, j, x)
  {
  }

  /** Term of the double expansion along the first two rows a and b, at columns x and j. */
  function Pair<T>(R: Ring<T>, A: Entries<T>, a: int, b: int, rest: seq<int>, cols: seq<int>, x: int, j: int): T
    requires |cols| == |rest| + 2
  {
    if 0 <= x < |cols| && 0 <= j < |cols| && x != j
    then Signed(R, x + (if j < x then j else j - 1),
                R.mul(A(a, cols[x]), R.mul(A(b, cols[j]), Det(R, A, rest, Drop2(cols, x, j)))))
    else R.zero
  }

  lemma {:induction false} PairAntisymmetric<T(!new)>(R: Ring<T>, A: Entries<T>, a: int, b: int, rest: seq<int>, cols: seq<int>, x: int, j: int)
    requires IsRing(R) && |cols| == |rest| + 2
    ensures Pair(R, A, b, a, rest, cols, j, x) == R.neg(Pair(R, A, a, b, rest, cols, x, j))
  {
    if 0 <= x < |cols| && 0 <= j < |cols| && x != j {
      var p, q, d := A(a, cols[x]), A(b, cols[j]), Det(R, A, rest, Drop2(cols, x, j));
      assert Det(R, A, rest, Drop2(cols, j, x)) == d by {
        if j < x { Drop2Symmetric(cols, x, j); } else { Drop2Symmetric(cols, j, x); }
      }
      Laws(R, p, q, d);
      Laws(R, q, p, d);
      var t := R.mul(p, R.mul(q, d));
      SignedNeg(R, x + j - 1, p, t);
      NegMul(R, Signed(R, x + j, t), t);
      NegMul(R, Signed(R, x + j - 1, t), t);
    } else {
      NegAdd(R, R.zero, R.zero);
    }
  }

  /** Leaving out one zero term. */
  lemma {:induction false} SumSkip<T(!new)>(R: Ring<T>, n: nat, x: nat, h: int -> T, g: int -> T)
    requires IsRing(R) && x < n
    requires g(x) == R.zero
    requires forall j :: 0 <= j < n && j != x ==> g(j) == h(if j < x then j else j - 1)
    ensures Sum(R, n, g) == Sum(R, n - 1, h)
  {
    if n - 1 == x {
      SumCong(R, n - 1, g, h);
      Laws(R, Sum(R, n - 1, h), R.zero, R.zero);
    } else {
      SumSkip(R, n - 1, x, h, g);
    }
  }

  function PairOf<T>(R: Ring<T>, A: Entries<T>, a: int, b: int, rest: seq<int>, cols: seq<int>): (int, int) -> T
    requires |cols| == |rest| + 2
  {
    (x, j) => Pair(R, A, a, b, rest, cols, x, j)
  }

  function Square<T>(R: Ring<T>, n: nat, f: (int, int) -> T): T {
    Sum(R, n, x => Sum(R, n, j => f(x, j)))
  }

  lemma {:induction false} DoubleExpansion<T(!new)>(R: Ring<T>, A: Entries<T>, a: int, b: int, rest: seq<int>, cols: seq<int>)
    requires IsRing(R) && |cols| == |rest| + 2
    ensures Det(R, A, [a, b] + rest, cols) == Square(R, |cols|, PairOf(R, A, a, b, rest, cols))
  {
    var rows, n := [a, b] + rest, |cols|;
    var p := PairOf(R, A, a, b, rest, cols);
    var f := x => Term(R, A, rows, cols, x);
    var g := x => Sum(R, n, j => p(x, j));
    forall x | 0 <= x < n ensures f(x) == g(x) {
      DoubleTerm(R, A, a, b, rest, cols, x);
      SumCong(R, n, j => Pair(R, A, a, b, rest, cols, x, j), j => p(x, j));
    }
    SumCong(R, n, f, g);
  }

  lemma {:induction false} DoubleTermAt<T(!new)>(R: Ring<T>, A: Entries<T>, a: int, b: int, rest: seq<int>, cols: seq<int>, x: int, j: int)
    requires IsRing(R) && |cols| == |rest| + 2 && 0 <= x < |cols| && 0 <= j < |cols| && x != j
    ensures Pair(R, A, a, b, rest, cols, x, j)
         == Signed(R, x, R.mul(A(a, cols[x]), Term(R, A, [b] + rest, Drop(cols, x), if j < x then j else j - 1)))
  {
    var sub, j' := Drop(cols, x), if j < x then j else j - 1;
    assert ([b] + rest)[1..] == rest;
    assert sub[j'] == cols[j] && Drop(sub, j') == Drop2(cols, x, j);
    SignedProduct(R, x, j', A(a, cols[x]), R.mul(A(b, cols[j]), Det(R, A, rest, Drop2(cols, x, j))));
  }

  lemma {:induction false} SignedSum<T(!new)>(R: Ring<T>, n: nat, x: int, c: T, t: int -> T, h: int -> T)
    requires IsRing(R)
    requires forall j :: 0 <= j < n ==> h(j) == Signed(R, x, R.mul(c, t(j)))
    ensures Sum(R, n, h) == Signed(R, x, R.mul(c, Sum(R, n, t)))
  {
    var ct := j => R.mul(c, t(j));
    SumScale(R, n, c, t, ct);
    if x % 2 == 0 { SumCong(R, n, ct, h); } else { SumNeg(R, n, ct, h); }
  }

  lemma {:induction false} DoubleTerm<T(!new)>(R: Ring<T>, A: Entries<T>, a: int, b: int, rest: seq<int>, cols: seq<int>, x: int)
    requires IsRing(R) && |cols| == |rest| + 2 && 0 <= x < |cols|
    ensures Term(R, A, [a, b] + rest, cols, x) == Sum(R, |cols|, j => Pair(R, A, a, b, rest, cols, x, j))
  {
    var rows, n := [b] + rest, |cols|;
    var sub, c := Drop(cols, x), A(a, cols[x]);
    var t := j => Term(R, A, rows, sub, j);
    var h := j => Signed(R, x, R.mul(c, t(j)));
    var g := j => Pair(R, A, a, b, rest, cols, x, j);
    assert Term(R, A, [a, b] + rest, cols, x) == Signed(R, x, R.mul(c, Sum(R, n - 1, t))) by {
      assert ([a, b] + rest)[1..] == rows;
      assert Det(R, A, rows, sub) == Sum(R, n - 1, t);
    }
    SignedSum(R, n - 1, x, c, t, h);
    forall j | 0 <= j < n && j != x ensures g(j) == h(if j < x then j else j - 1) {
      DoubleTermAt(R, A, a, b, rest, cols, x, j);
    }
    SumSkip(R, n, x, h, g);
  }

  lemma SignedProduct<T(!new)>(R: Ring<T>, x: int, j: int, c: T, t: T)
    requires IsRing(R)
    ensures Signed(R, x + j, R.mul(c, t)) == Signed(R, x, R.mul(c, Signed(R, j, t)))
  {
    NegMul(R, c, t);
    NegMul(R, R.mul(c, t), t);
  }

  /** An antisymmetric square of terms with a zero diagonal adds up to zero. */
  lemma {:induction false} AntisymmetricSum<T(!new)>(R: Ring<T>, n: nat, f: (int, int) -> T)
    requires IsRing(R)
    requires forall x, j :: 0 <= x < n && 0 <= j < n ==> f(x, j) == R.neg(f(j, x))
    requires forall x :: 0 <= x < n ==> f(x, x) == R.zero
    ensures Square(R, n, f) == R.zero
  {
    if n > 0 {
      var m := n - 1;
      var inner := x => Sum(R, m, j => f(x, j));
      var last := x => f(x, m);
      var row := x => Sum(R, n, j => f(x, j));
      AntisymmetricSum(R, m, f);
      SumAdd(R, m, inner, last, row);
      SumNeg(R, m, last, j => f(m, j));
      var s := Sum(R, m, last);
      assert row(m) == R.add(R.neg(s), R.zero);
      Laws(R, R.neg(s), R.zero, R.zero);
      Laws(R, s, R.zero, R.zero);
      Laws(R, R.zero, s, R.zero);
      assert Sum(R, n, row) == R.add(Sum(R, m, row), row(m));
    }
  }

  lemma {:induction false} TransposedSum<T(!new)>(R: Ring<T>, n: nat, f: (int, int) -> T, g: (int, int) -> T)
    requires IsRing(R)
    requires forall x, j :: 0 <= x < n && 0 <= j < n ==> g(x, j) == R.neg(f(j, x))
    ensures Square(R, n, g) == R.neg(Square(R, n, f))
  {
    SumSwap(R, n, n, g);
    var gs := j => Sum(R, n, x => g(x, j));
    var fs := j => Sum(R, n, x => f(j, x));
    forall j | 0 <= j < n ensures gs(j) == R.neg(fs(j)) {
      SumNeg(R, n, x => f(j, x), x => g(x, j));
    }
    SumNeg(R, n, fs, gs);
  }

  /** Exchanging the first two rows changes the sign. */
  lemma {:induction false} SwapFirstRows<T(!new)>(R: Ring<T>, A: Entries<T>, a: int, b: int, rest: seq<int>, cols: seq<int>)
    requires IsRing(R) && |cols| == |rest| + 2
    ensures Det(R, A, [b, a] + rest, cols) == R.neg(Det(R, A, [a, b] + rest, cols))
  {
    var n := |cols|;
    var f := PairOf(R, A, a, b, rest, cols);
    var g := PairOf(R, A, b, a, rest, cols);
    forall x, j | 0 <= x < n && 0 <= j < n ensures g(x, j) == R.neg(f(j, x)) {
      PairAntisymmetric(R, A, a, b, rest, cols, j, x);
    }
    TransposedSum(R, n, f, g);
    DoubleExpansion(R, A, a, b, rest, cols);
    DoubleExpansion(R, A, b, a, rest, cols);
  }

  lemma {:induction false} EqualFirstRows<T(!new)>(R: Ring<T>, A: Entries<T>, a: int, rest: seq<int>, cols: seq<int>)
    requires IsRing(R) && |cols| == |rest| + 2
    ensures Det(R, A, [a, a] + rest, cols) == R.zero
  {
    var n := |cols|;
    var f := PairOf(R, A, a, a, rest, cols);
    forall x, j | 0 <= x < n && 0 <= j < n ensures f(x, j) == R.neg(f(j, x)) {
      PairAntisymmetric(R, A, a, a, rest, cols, j, x);
    }
    AntisymmetricSum(R, n, f);
    DoubleExpansion(R, A, a, a, rest, cols);
  }

  lemma {:induction false} SwapRows<T(!new)>(R: Ring<T>, A: Entries<T>, rows: seq<int>, cols: seq<int>, k: int)
    requires IsRing(R) && |rows| == |cols| && 0 <= k < |rows| - 1
    ensures Det(R, A, SwapAt(rows, k), cols) == R.neg(Det(R, A, rows, cols))
    decreases |rows|
  {
    var sw, n := SwapAt(rows, k), |cols|;
    if k == 0 {
      SwapFirstRows(R, A, rows[0], rows[1], rows[2..], cols);
      assert rows == [rows[0], rows[1]] + rows[2..] && sw == [rows[1], rows[0]] + rows[2..];
    } else {
      assert sw[1..] == SwapAt(rows[1..], k - 1);
      var f := x => Term(R, A, rows, cols, x);
      var g := x => Term(R, A, sw, cols, x);
      forall x | 0 <= x < n ensures g(x) == R.neg(f(x)) {
        var c, d := A(rows[0], cols[x]), Det(R, A, rows[1..], Drop(cols, x));
        SwapRows(R, A, rows[1..], Drop(cols, x), k - 1);
        NegMul(R, c, d);
        SignedNeg(R, x, c, R.mul(c, d));
      }
      SumNeg(R, n, f, g);
    }
  }

  /** A repeated row makes the determinant vanish. */
  lemma {:induction false} RepeatedRow<T(!new)>(R: Ring<T>, A: Entries<T>, r: int, p: seq<int>, q: seq<int>, cols: seq<int>)
    requires IsRing(R) && |cols| == |p| + |q| + 2
    ensures Det(R, A, [r] + p + [r] + q, cols) == R.zero
    decreases |p|
  {
    var rows := [r] + p + [r] + q;
    if p == [] {
      assert rows == [r, r] + q;
      EqualFirstRows(R, A, r, q, cols);
    } else {
      var last := p[|p| - 1];
      var rows' := [r] + p[..|p| - 1] + [r] + ([last] + q);
      RepeatedRow(R, A, r, p[..|p| - 1], [last] + q, cols);
      assert rows == SwapAt(rows', |p|);
      SwapRows(R, A, rows', cols, |p|);
      NegAdd(R, R.zero, R.zero);
    }
  }

  // ---------------------------------------------------------------- Cramer's rule

  function Range(n: nat): (r: seq<int>)
    ensures |r| == n && forall i :: 0 <= i < n ==> r[i] == i
  {
    seq(n, i => i)
  }

  /** Determinant of the n-by-n matrix whose column y is replaced by column n of A. */
  function Replaced<T>(R: Ring<T>, A: Entries<T>, n: nat, y: int): T
    requires 0 <= y < n
  {
    Det(R, A, Range(n), Range(n)[y := n])
  }

  lemma {:induction false} BorderTerm<T(!new)>(R: Ring<T>, A: Entries<T>, n: nat, r: int, y: int)
    requires IsRing(R) && 0 <= y < n
    ensures Term(R, A, [r] + Range(n), Range(n + 1), y) == Signed(R, n - 1, R.mul(A(r, y), Replaced(R, A, n, y)))
  {
    var rows, cols := [r] + Range(n), Range(n + 1);
    assert rows[1..] == Range(n);
    var p, q := Range(n)[..y], Range(n)[y + 1..];
    assert Drop(cols, y) == p + q + [n];
    assert p + [n] + q == Range(n)[y := n];
    MoveColumn(R, A, Range(n), p, n, q);
    SignedProduct(R, y, |q|, A(r, y), Replaced(R, A, n, y));
  }

  /** For every row r of the first n columns: sum over y of A(r,y) * det(A, column y := v) = v(r) * det A,
      where v is column n. */
  lemma {:induction false} Cramer<T(!new)>(R: Ring<T>, A: Entries<T>, n: nat, r: int)
    requires IsRing(R) && 0 <= r < n
    ensures Sum(R, n, y => if 0 <= y < n then R.mul(A(r, y), Replaced(R, A, n, y)) else R.zero)
         == R.mul(A(r, n), Det(R, A, Range(n), Range(n)))
  {
    var rows, cols := [r] + Range(n), Range(n + 1);
    var f := y => Term(R, A, rows, cols, y);
    var g := y => if 0 <= y < n then R.mul(A(r, y), Replaced(R, A, n, y)) else R.zero;
    var vd := R.mul(A(r, n), Det(R, A, Range(n), Range(n)));
    assert Sum(R, n + 1, f) == R.zero by {
      assert rows == [r] + Range(n)[..r] + [r] + Range(n)[r + 1..];
      RepeatedRow(R, A, r, Range(n)[..r], Range(n)[r + 1..], cols);
    }
    assert Sum(R, n, f) == Signed(R, n - 1, Sum(R, n, g)) by {
      forall y | 0 <= y < n ensures f(y) == Signed(R, n - 1, g(y)) { BorderTerm(R, A, n, r, y); }
      SumSigned(R, n, n - 1, g, f);
    }
    assert f(n) == Signed(R, n, vd) by {
      assert rows[1..] == Range(n) && Drop(cols, n) == Range(n);
    }
    assert R.add(Sum(R, n, f), f(n)) == R.zero;
    Balanced(R, n, Sum(R, n, g), vd);
  }

  lemma {:induction false} SumSigned<T(!new)>(R: Ring<T>, n: nat, x: int, t: int -> T, h: int -> T)
    requires IsRing(R)
    requires forall j :: 0 <= j < n ==> h(j) == Signed(R, x, t(j))
    ensures Sum(R, n, h) == Signed(R, x, Sum(R, n, t))
  {
    if x % 2 == 0 { SumCong(R, n, t, h); } else { SumNeg(R, n, t, h); }
  }

  /** Opposite signs that cancel come from equal terms. */
  lemma Balanced<T(!new)>(R: Ring<T>, n: int, s: T, t: T)
    requires IsRing(R) && R.add(Signed(R, n - 1, s), Signed(R, n, t)) == R.zero
    ensures s == t
  {
    NegMul(R, s, s);
    NegMul(R, t, t);
    NegUnique(R, Signed(R, n - 1, s), Signed(R, n, t));
  }
}
