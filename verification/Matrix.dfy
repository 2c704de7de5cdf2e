/**
  mthMatrix: a dense matrix in one flat buffer, column index first (`elm(x,y)` is column x of
  row y), with determinant, product and the Cramer solver.
 */
module Matrix {
  import opened Algebra
  import opened Determinant

  /** Coefficient domain with division: `inv` inverts every element except zero. */
  datatype Field<!T> = Field(ring: Ring<T>, inv: T -> T)

  ghost predicate IsField<T(!new)>(F: Field<T>) {
    && IsRing(F.ring)
    && forall a: T :: a != F.ring.zero ==> F.ring.mul(a, F.inv(a)) == F.ring.one
  }

  lemma {:induction false} IndexUnique(x: nat, y: nat, x': nat, y': nat, w: nat)
    requires x < w && x' < w && x + y * w == x' + y' * w
    ensures x == x' && y == y'
    decreases y + y'
  {
    if y > 0 && y' > 0 {
      assert y * w == (y - 1) * w + w && y' * w == (y' - 1) * w + w;
      IndexUnique(x, y - 1, x', y' - 1, w);
    } else {
      assert y > 0 ==> y * w == (y - 1) * w + w >= w;
      assert y' > 0 ==> y' * w == (y' - 1) * w + w >= w;
    }
  }

  lemma {:induction false} IndexBound(x: nat, y: nat, w: nat, h: nat)
    requires x < w && y < h
    ensures 0 <= x + y * w < w * h
  {
    if y == 0 {
      assert w * h == w * (h - 1) + w && w * (h - 1) >= 0;
    } else {
      IndexBound(x, y - 1, w, h - 1);
      assert y * w == (y - 1) * w + w && w * h == w * (h - 1) + w;
    }
  }

  lemma NothingAdded<T(!new)>(R: Ring<T>, a: T, b: T)
    requires IsRing(R)
    ensures R.add(a, b) == a <==> b == R.zero
  {
    Laws(R, a, b, b);
    Laws(R, a, R.zero, R.zero);
    Laws(R, R.zero, a, a);
    if R.add(a, b) == a { Cancel(R, b, R.zero, a); }
  }

  class Mat<T(==, !new)> {
    const F: Field<T>
    var xlength: nat
    var ylength: nat
    var err: int
    var data: seq<T>

    ghost predicate Valid()
      reads this
    {
      IsField(F) && |data| == xlength * ylength
    }

    constructor Error(F: Field<T>, err: int)
      requires IsField(F)
      ensures Valid() && this.F == F && xlength == ylength == 0 && this.err == err
    {
      this.F, xlength, ylength, this.err, data := F, 0, 0, err, [];
    }

    constructor Sized(F: Field<T>, xlength: nat, ylength: nat)
      requires IsField(F)
      ensures Valid() && this.F == F && this.xlength == xlength && this.ylength == ylength && err == 0
      ensures forall x, y :: Elm(x, y) == F.ring.zero
    {
      this.F, this.xlength, this.ylength, err := F, xlength, ylength, 0;
      data := seq(xlength * ylength, _ => F.ring.zero);
      new;
      forall x, y ensures Elm(x, y) == F.ring.zero {
        if 0 <= x < xlength && 0 <= y < ylength { IndexBound(x, y, xlength, ylength); }
      }
    }

    constructor Copy(m: Mat<T>)
      requires m.Valid()
      ensures Valid() && F == m.F && xlength == m.xlength && ylength == m.ylength && err == m.err && data == m.data
    {
      F, xlength, ylength, err, data := m.F, m.xlength, m.ylength, m.err, m.data;
    }

    /** Out-of-range positions read as zero. */
    function Elm(x: int, y: int): T
      reads this
      requires Valid()
    {
      if 0 <= x < xlength && 0 <= y < ylength
      then IndexBound(x, y, xlength, ylength); data[x + y * xlength]
      else F.ring.zero
    }

    /** Out-of-range positions are refused with -1 and nothing changes. */
    method Set(x: int, y: int, v: T) returns (r: int)
      requires Valid()
      modifies this`data
      ensures Valid()
      ensures r == if 0 <= x < xlength && 0 <= y < ylength then 0 else -1
      ensures forall x', y' :: Elm(x', y') == if r == 0 && x' == x && y' == y then v else old(Elm(x', y'))
    {
      if x < 0 || x >= xlength || y < 0 || y >= ylength {
        return -1;
      }
      IndexBound(x, y, xlength, ylength);
      data := data[x + y * xlength := v];
      forall x', y' ensures Elm(x', y') == if x' == x && y' == y then v else old(Elm(x', y')) {
        if 0 <= x' < xlength && 0 <= y' < ylength {
          IndexBound(x', y', xlength, ylength);
          if x + y * xlength == x' + y' * xlength { IndexUnique(x, y, x', y', xlength); }
        }
      }
      return 0;
    }

    /** Entry function of the current contents, row first. */
    ghost function Entry(): Entries<T>
      reads this
      requires Valid()
    {
      var F, d, w, h := F, data, xlength, ylength;
      (r, c) => ElmOf(F, d, w, h, c, r)
    }

    static function ElmOf(F: Field<T>, d: seq<T>, w: nat, h: nat, x: int, y: int): T {
      if 0 <= x < w && 0 <= y < h && 0 <= x + y * w < |d| then d[x + y * w] else F.ring.zero
    }

    lemma EntryIsElm(r: int, c: int)
      requires Valid()
      ensures Entry()(r, c) == Elm(c, r)
    {
      if 0 <= c < xlength && 0 <= r < ylength { IndexBound(c, r, xlength, ylength); }
    }

    /** The determinant by expansion along the first row. */
    ghost function Determined(): T
      reads this
      requires Valid() && xlength == ylength
    {
      Det(F.ring, Entry(), Range(xlength), Range(xlength))
    }

    method Minor(x: nat) returns (m1: Mat<T>)
      requires Valid() && xlength == ylength && x < xlength
      ensures fresh(m1) && m1.Valid() && m1.F == F && m1.xlength == m1.ylength == xlength - 1
      ensures m1.Determined() == Det(F.ring, Entry(), Range(xlength)[1..], Drop(Range(xlength), x))
    {
      var n := xlength - 1;
      m1 := new Mat<T>.Sized(F, n, n);
      for xx := 0 to n
        invariant m1.Valid() && m1.xlength == m1.ylength == n && fresh(m1)
        invariant forall i, j :: 0 <= i < xx && 0 <= j < n ==> m1.Elm(i, j) == Elm(if i < x then i else i + 1, j + 1)
      {
        for yy := 0 to n
          invariant m1.Valid() && m1.xlength == m1.ylength == n && fresh(m1)
          invariant forall i, j :: 0 <= i < xx && 0 <= j < n ==> m1.Elm(i, j) == Elm(if i < x then i else i + 1, j + 1)
          invariant forall j :: 0 <= j < yy ==> m1.Elm(xx, j) == Elm(if xx < x then xx else xx + 1, j + 1)
        {
          if xx < x {
            var _ := m1.Set(xx, yy, Elm(xx, yy + 1));
          } else {
            var _ := m1.Set(xx, yy, Elm(xx + 1, yy + 1));
          }
        }
      }
      MinorEntries(m1, x);
    }

    lemma MinorEntries(m1: Mat<T>, x: nat)
      requires Valid() && m1.Valid() && m1.F == F && xlength == ylength && x < xlength && m1.xlength == m1.ylength == xlength - 1
      requires forall i, j :: 0 <= i < xlength - 1 && 0 <= j < xlength - 1 ==>
                 m1.Elm(i, j) == Elm(if i < x then i else i + 1, j + 1)
      ensures m1.Determined() == Det(F.ring, Entry(), Range(xlength)[1..], Drop(Range(xlength), x))
    {
      var n := xlength - 1;
      var rows, cols := Range(xlength)[1..], Drop(Range(xlength), x);
      forall i, j | 0 <= i < n && 0 <= j < n
        ensures m1.Entry()(Range(n)[i], Range(n)[j]) == Entry()(rows[i], cols[j])
      {
        m1.EntryIsElm(i, j);
        EntryIsElm(rows[i], cols[j]);
      }
      DetCong(F.ring, m1.Entry(), Range(n), Range(n), Entry(), rows, cols);
    }

    /** det(): zero unless the matrix is square and not empty. */
    method Determinant() returns (ret: T)
      requires Valid()
      ensures ret == if xlength == ylength && xlength > 0 then Determined() else F.ring.zero
      decreases xlength, 1
    {
      var R := F.ring;
      if xlength != ylength {
        return R.zero;
      }
      if xlength == 1 {
        SingleEntry();
        return data[0];
      }
      ret := R.zero;
      ghost var A := Entry();
      var sign := 1;
      for x := 0 to xlength
        invariant xlength == 0 ==> ret == R.zero
        invariant xlength > 0 ==> ret == Partial(A, xlength, x)
        invariant sign == Alternating(x)
      {
        var d := Cofactor(x);
        TermAt(A, xlength, x, Elm(x, 0), d);
        if sign == 1 {
          ret := R.add(ret, R.mul(Elm(x, 0), d));
        } else {
          ret := R.add(ret, R.neg(R.mul(Elm(x, 0), d)));
        }
        sign := -sign;
        Alternates(x);
      }
    }

    static ghost function Alternating(x: int): int {
      if x % 2 == 0 then 1 else -1
    }

    static lemma Alternates(x: int)
      ensures Alternating(x + 1) == -Alternating(x)
    {
    }

    method Cofactor(x: nat) returns (d: T)
      requires Valid() && xlength == ylength > 1 && x < xlength
      ensures d == Det(F.ring, Entry(), Range(xlength)[1..], Drop(Range(xlength), x))
      ensures Entry()(0, x) == Elm(x, 0)
      decreases xlength, 0
    {
      var m1 := Minor(x);
      EntryIsElm(0, x);
      d := m1.Determinant();
    }

    /** The first x terms of the expansion. */
    ghost function Partial(A: Entries<T>, n: nat, x: nat): T
      requires n > 0
    {
      var R, span := F.ring, Range(n);
      Sum(R, x, k => Term(R, A, span, span, k))
    }

    lemma TermAt(A: Entries<T>, n: nat, x: nat, a: T, d: T)
      requires x < n && a == A(0, x) && d == Det(F.ring, A, Range(n)[1..], Drop(Range(n), x))
      ensures Partial(A, n, x + 1) == F.ring.add(Partial(A, n, x), Signed(F.ring, x, F.ring.mul(a, d)))
    {
    }

    lemma SingleEntry()
      requires Valid() && xlength == ylength == 1
      ensures data[0] == Determined()
    {
      var R, A := F.ring, Entry();
      EntryIsElm(0, 0);
      var t := k => Term(R, A, Range(1), Range(1), k);
      assert Sum(R, 1, t) == R.add(Sum(R, 0, t), t(0));
      assert Range(1)[1..] == [];
      Laws(R, data[0], R.one, R.one);
      Laws(R, data[0], R.zero, R.zero);
      assert t(0) == R.mul(data[0], R.one);
    }

    /** This matrix with column y overwritten by column x of v, as far as v reaches. */
    ghost function Patched(v: Mat<T>, x: int, y: int): Entries<T>
      reads this, v
      requires Valid() && v.Valid()
    {
      var a, b, h := Entry(), v.Entry(), v.ylength;
      (r, c) => if c == y && 0 <= r < h then b(r, x) else a(r, c)
    }

    ghost function PatchedDet(v: Mat<T>, x: int, y: int): T
      reads this, v
      requires Valid() && v.Valid()
    {
      Det(F.ring, Patched(v, x, y), Range(xlength), Range(xlength))
    }

    method Patch(v: Mat<T>, x: nat, y: nat) returns (d: T)
      requires Valid() && v.Valid() && v.F == F && xlength == ylength > 0
      ensures d == PatchedDet(v, x, y)
    {
      var m1 := new Mat<T>.Copy(this);
      for i := 0 to v.ylength
        invariant fresh(m1) && m1.Valid() && m1.F == F && m1.xlength == m1.ylength == xlength
        invariant forall c, r :: 0 <= c < xlength && 0 <= r < xlength ==>
                    m1.Elm(c, r) == if c == y && r < i then v.Elm(x, r) else Elm(c, r)
      {
        var _ := m1.Set(y, i, v.Elm(x, i));
      }
      d := m1.Determinant();
      PatchedEntries(m1, v, x, y);
    }

    lemma PatchedEntries(m1: Mat<T>, v: Mat<T>, x: nat, y: nat)
      requires Valid() && v.Valid() && m1.Valid() && v.F == F == m1.F && m1.xlength == m1.ylength == xlength == ylength
      requires forall c, r :: 0 <= c < xlength && 0 <= r < xlength ==>
                 m1.Elm(c, r) == if c == y && r < v.ylength then v.Elm(x, r) else Elm(c, r)
      ensures m1.Determined() == PatchedDet(v, x, y)
    {
      var n, P := xlength, Patched(v, x, y);
      forall i, j | 0 <= i < n && 0 <= j < n ensures m1.Entry()(Range(n)[i], Range(n)[j]) == P(Range(n)[i], Range(n)[j]) {
        m1.EntryIsElm(i, j);
        EntryIsElm(i, j);
        v.EntryIsElm(i, x);
      }
      DetCong(F.ring, m1.Entry(), Range(n), Range(n), P, Range(n), Range(n));
    }

    /** A*x = v in every row that v has, column by column. */
    ghost predicate Solves(ret: Mat<T>, v: Mat<T>)
      reads this, ret, v
      requires Valid() && ret.Valid() && v.Valid()
    {
      forall x, r :: 0 <= x < v.xlength && 0 <= r < v.ylength ==> ProductAt(ret, x, r) == v.Elm(x, r)
    }

    /** The first k terms of entry (x, r) of the product of this matrix and m. */
    ghost function SumAt(m: Mat<T>, x: int, r: int, k: nat): T
      reads this, m
      requires Valid() && m.Valid()
    {
      var a, b, R := Entry(), m.Entry(), F.ring;
      Sum(R, k, i => R.mul(a(r, i), b(i, x)))
    }

    /** Entry (x, r) of the product of this matrix and m: one term for each column of this matrix. */
    ghost function ProductAt(m: Mat<T>, x: int, r: int): T
      reads this, m
      requires Valid() && m.Valid()
    {
      SumAt(m, x, r, xlength)
    }

    /** The terms of that entry from the k-th on. */
    ghost function RestAt(m: Mat<T>, x: int, r: int, k: nat): T
      reads this, m
      requires Valid() && m.Valid() && k <= xlength
    {
      var a, b, R := Entry(), m.Entry(), F.ring;
      Sum(R, xlength - k, i => R.mul(a(r, k + i), b(k + i, x)))
    }

    /** Summing over k columns gives the product when k covers them all, and otherwise exactly when the
        terms left out add up to zero. */
    lemma WhenProduct(m: Mat<T>, x: int, r: int, k: nat)
      requires Valid() && m.Valid() && m.F == F
      ensures k >= xlength ==> SumAt(m, x, r, k) == ProductAt(m, x, r)
      ensures k < xlength ==> (SumAt(m, x, r, k) == ProductAt(m, x, r) <==> RestAt(m, x, r, k) == F.ring.zero)
    {
      if k >= xlength {
        NoMoreTerms(m, x, r, k);
      } else {
        var a, b, R, n := Entry(), m.Entry(), F.ring, xlength - k;
        var f := i => R.mul(a(r, i), b(i, x));
        SumConcat(R, k, n, f);
        SumCong(R, n, i => f(k + i), i => R.mul(a(r, k + i), b(k + i, x)));
        NothingAdded(R, SumAt(m, x, r, k), RestAt(m, x, r, k));
      }
    }

    /** Beyond its columns this matrix reads as zero. */
    lemma NoMoreTerms(m: Mat<T>, x: int, r: int, k: nat)
      requires Valid() && m.Valid() && m.F == F && k >= xlength
      ensures SumAt(m, x, r, k) == ProductAt(m, x, r)
    {
      if k > xlength {
        var a, b, R := Entry(), m.Entry(), F.ring;
        NoMoreTerms(m, x, r, k - 1);
        EntryIsElm(r, k - 1);
        MulZero(R, b(k - 1, x));
        Laws(R, SumAt(m, x, r, k - 1), R.zero, R.zero);
      }
    }

    ghost predicate Singular()
      reads this
      requires Valid()
    {
      xlength != ylength || xlength == 0 || Determined() == F.ring.zero
    }

    /** Cramer's rule.  Singular systems give the error matrix.  Otherwise the result solves every row
        of this matrix as soon as v has that many rows; further rows of v get ones, and are solved
        only where v is zero.  For fewer rows the entries are the patched determinants still. */
    method Equation(v: Mat<T>) returns (ret: Mat<T>)
      requires Valid() && v.Valid() && v.F == F
      ensures fresh(ret) && ret.Valid() && ret.F == F
      ensures Singular() <==> ret.err == -1
      ensures Singular() ==> ret.xlength == ret.ylength == 0
      ensures !Singular() ==> ret.err == 0 && ret.xlength == v.xlength && ret.ylength == v.ylength
      ensures !Singular() ==> Cramered(ret, v, Determined(), v.xlength)
      ensures !Singular() && v.ylength >= xlength ==>
        forall x, r :: 0 <= x < v.xlength && 0 <= r < xlength ==> ProductAt(ret, x, r) == v.Elm(x, r)
      ensures !Singular() && v.ylength >= xlength ==>
        forall x, y :: 0 <= x < v.xlength && xlength <= y < v.ylength ==> ret.Elm(x, y) == F.ring.one
      ensures !Singular() && v.ylength >= xlength ==>
        (Solves(ret, v) <==> forall x, r :: 0 <= x < v.xlength && xlength <= r < v.ylength ==> v.Elm(x, r) == F.ring.zero)
    {
      if xlength != ylength || xlength == 0 {
        ret := new Mat<T>.Error(F, -1);
        return;
      }
      var d := Determinant();
      if d == F.ring.zero {
        ret := new Mat<T>.Error(F, -1);
        return;
      }
      ret := Solutions(v, d);
      if v.ylength >= xlength {
        AllSolved(ret, v, d);
      }
    }

    /** The double loop: every entry is a patched determinant over the determinant. */
    method Solutions(v: Mat<T>, d: T) returns (ret: Mat<T>)
      requires Valid() && v.Valid() && v.F == F && xlength == ylength > 0
      ensures fresh(ret) && ret.Valid() && ret.F == F && ret.err == 0 && ret.xlength == v.xlength && ret.ylength == v.ylength
      ensures Cramered(ret, v, d, v.xlength)
    {
      ret := new Mat<T>.Sized(F, v.xlength, v.ylength);
      for x := 0 to v.xlength
        invariant fresh(ret) && ret.Valid() && ret.F == F && ret.err == 0 && ret.xlength == v.xlength && ret.ylength == v.ylength
        invariant Cramered(ret, v, d, x)
      {
        SolveColumn(ret, v, d, x);
      }
    }

    /** The inner loop: one column of the result. */
    method SolveColumn(ret: Mat<T>, v: Mat<T>, d: T, x: nat)
      requires Valid() && v.Valid() && ret.Valid() && v.F == F == ret.F && xlength == ylength > 0
      requires ret != this && ret != v && x < v.xlength == ret.xlength && ret.ylength == v.ylength
      requires Cramered(ret, v, d, x)
      modifies ret`data
      ensures ret.Valid() && Cramered(ret, v, d, x + 1)
    {
      for y := 0 to v.ylength
        invariant ret.Valid() && Cramered(ret, v, d, x)
        invariant forall j :: 0 <= j < y ==> ret.Elm(x, j) == F.ring.mul(PatchedDet(v, x, j), F.inv(d))
      {
        var q := Patch(v, x, y);
        var _ := ret.Set(x, y, F.ring.mul(q, F.inv(d)));
      }
    }

    /** The first k columns of ret hold patched determinants over d. */
    ghost predicate Cramered(ret: Mat<T>, v: Mat<T>, d: T, k: nat)
      reads this, ret, v
      requires Valid() && ret.Valid() && v.Valid()
    {
      forall i, j :: 0 <= i < k && 0 <= j < v.ylength ==> ret.Elm(i, j) == F.ring.mul(PatchedDet(v, i, j), F.inv(d))
    }

    lemma AllSolved(ret: Mat<T>, v: Mat<T>, d: T)
      requires Valid() && v.Valid() && ret.Valid() && v.F == F == ret.F
      requires xlength == ylength <= v.ylength == ret.ylength && v.xlength == ret.xlength
      requires d == Determined() && d != F.ring.zero && Cramered(ret, v, d, v.xlength)
      ensures forall x, r :: 0 <= x < v.xlength && 0 <= r < xlength ==> ProductAt(ret, x, r) == v.Elm(x, r)
      ensures forall x, y :: 0 <= x < v.xlength && xlength <= y < v.ylength ==> ret.Elm(x, y) == F.ring.one
      ensures Solves(ret, v) <==> forall x, r :: 0 <= x < v.xlength && xlength <= r < v.ylength ==> v.Elm(x, r) == F.ring.zero
    {
      forall x, r | 0 <= x < v.xlength && 0 <= r < xlength ensures ProductAt(ret, x, r) == v.Elm(x, r) {
        SolvesAt(ret, v, d, x, r);
      }
      forall x, r | 0 <= x < v.xlength && xlength <= r < v.ylength ensures ProductAt(ret, x, r) == F.ring.zero && ret.Elm(x, r) == F.ring.one {
        BeyondAt(ret, v, d, x, r);
      }
    }

    /** Rows beyond this matrix: nothing is patched, and nothing multiplies. */
    lemma BeyondAt(ret: Mat<T>, v: Mat<T>, d: T, x: nat, r: nat)
      requires Valid() && v.Valid() && ret.Valid() && v.F == F == ret.F && xlength == ylength <= r < v.ylength
      requires d == Determined() && d != F.ring.zero && ret.Elm(x, r) == F.ring.mul(PatchedDet(v, x, r), F.inv(d))
      ensures ProductAt(ret, x, r) == F.ring.zero && ret.Elm(x, r) == F.ring.one
    {
      var R, n := F.ring, xlength;
      var a, b := Entry(), ret.Entry();
      DetCong(R, Patched(v, x, r), Range(n), Range(n), a, Range(n), Range(n));
      var g := i => R.mul(a(r, i), b(i, x));
      forall i | 0 <= i < n ensures g(i) == R.zero {
        EntryIsElm(r, i);
        MulZero(R, b(i, x));
      }
      SumZero(R, n, g);
    }

    lemma SolvesAt(ret: Mat<T>, v: Mat<T>, d: T, x: nat, r: nat)
      requires Valid() && v.Valid() && ret.Valid() && v.F == F == ret.F
      requires xlength == ylength <= v.ylength == ret.ylength && v.xlength == ret.xlength && x < v.xlength && r < ylength
      requires d == Determined() && d != F.ring.zero
      requires forall y :: 0 <= y < v.ylength ==> ret.Elm(x, y) == F.ring.mul(PatchedDet(v, x, y), F.inv(d))
      ensures ProductAt(ret, x, r) == v.Elm(x, r)
    {
      var R, n := F.ring, xlength;
      var a, b, b' := Entry(), v.Entry(), ret.Entry();
      var A: Entries<T> := (i, c) => if c == n then b(i, x) else a(i, c);
      var f := y => if 0 <= y < n then R.mul(A(r, y), Replaced(R, A, n, y)) else R.zero;
      var g := i => R.mul(a(r, i), b'(i, x));
      var e := F.inv(d);
      assert Det(R, A, Range(n), Range(n)) == d by { DetCong(R, A, Range(n), Range(n), a, Range(n), Range(n)); }
      Cramer(R, A, n, r);
      forall y | 0 <= y < n ensures g(y) == R.mul(e, f(y)) {
        assert Replaced(R, A, n, y) == PatchedDet(v, x, y) by {
          DetCong(R, A, Range(n), Range(n)[y := n], Patched(v, x, y), Range(n), Range(n));
        }
        ret.EntryIsElm(y, x);
        var p, q := a(r, y), Replaced(R, A, n, y);
        Laws(R, p, q, e);
        Laws(R, e, R.mul(p, q), e);
      }
      SumScale(R, n, e, f, g);
      var vr := b(r, x);
      v.EntryIsElm(r, x);
      Laws(R, e, R.mul(vr, d), e);
      Laws(R, vr, d, e);
      Laws(R, vr, R.one, R.one);
    }

    /** operator*: refused unless the shapes agree.  The inner loop runs over the rows of this matrix,
        so an entry is the product's when there are at least as many rows as columns, and otherwise
        exactly when the terms left out add up to zero. */
    method Times(m: Mat<T>) returns (ret: Mat<T>)
      requires Valid() && m.Valid() && m.F == F
      ensures fresh(ret) && ret.Valid() && ret.F == F
      ensures ret.err == if xlength == m.ylength then 0 else -1
      ensures ret.err == 0 ==> ret.xlength == m.xlength && ret.ylength == ylength
      ensures ret.err == 0 ==> Summed(ret, m, ylength)
      ensures ret.err == 0 ==> forall x, y :: 0 <= x < m.xlength && 0 <= y < ylength ==>
        (ret.Elm(x, y) == ProductAt(m, x, y) <==> ylength >= xlength || RestAt(m, x, y, ylength) == F.ring.zero)
    {
      if xlength != m.ylength {
        ret := new Mat<T>.Error(F, -1);
        return;
      }
      ret := new Mat<T>.Sized(F, m.xlength, ylength);
      for y := 0 to ylength
        invariant fresh(ret) && ret.Valid() && ret.F == F && ret.err == 0 && ret.xlength == m.xlength && ret.ylength == ylength
        invariant Summed(ret, m, y)
      {
        TimesRow(ret, m, y);
      }
      forall x, y | 0 <= x < m.xlength && 0 <= y < ylength
        ensures ret.Elm(x, y) == ProductAt(m, x, y) <==> ylength >= xlength || RestAt(m, x, y, ylength) == F.ring.zero
      {
        WhenProduct(m, x, y, ylength);
      }
    }

    method TimesRow(ret: Mat<T>, m: Mat<T>, y: nat)
      requires Valid() && m.Valid() && ret.Valid() && m.F == F == ret.F && ret != this && ret != m
      requires ret.xlength == m.xlength && y < ret.ylength == ylength && Summed(ret, m, y)
      modifies ret`data
      ensures ret.Valid() && Summed(ret, m, y + 1)
    {
      for x := 0 to m.xlength
        invariant ret.Valid() && Summed(ret, m, y)
        invariant forall i :: 0 <= i < x ==> ret.Elm(i, y) == SumAt(m, i, y, ylength)
      {
        var acc := Dot(m, x, y);
        var _ := ret.Set(x, y, acc);
      }
    }

    /** The first k rows of ret hold the sums over as many terms as this matrix has rows. */
    ghost predicate Summed(ret: Mat<T>, m: Mat<T>, k: nat)
      reads this, ret, m
      requires Valid() && ret.Valid() && m.Valid()
    {
      forall x, y :: 0 <= x < m.xlength && 0 <= y < k ==> ret.Elm(x, y) == SumAt(m, x, y, ylength)
    }

    method Dot(m: Mat<T>, x: nat, y: nat) returns (acc: T)
      requires Valid() && m.Valid() && m.F == F
      ensures acc == SumAt(m, x, y, ylength)
    {
      var R := F.ring;
      ghost var a, b := Entry(), m.Entry();
      acc := R.zero;
      for i := 0 to ylength
        invariant acc == Sum(R, i, k => R.mul(a(y, k), b(k, x)))
      {
        EntryIsElm(y, i);
        m.EntryIsElm(i, x);
        acc := R.add(acc, R.mul(Elm(i, y), m.Elm(x, i)));
      }
    }

    /** Solving and multiplying back: possible exactly when v has as many rows as this matrix, and then
        it returns v. */
    method SolveAndMultiply(v: Mat<T>) returns (x: Mat<T>, w: Mat<T>)
      requires Valid() && v.Valid() && v.F == F && !Singular()
      ensures x.Valid() && w.Valid() && (w.err == 0 <==> v.ylength == xlength)
      ensures w.err == 0 ==> w.xlength == v.xlength && w.ylength == v.ylength
      ensures w.err == 0 ==> forall i, j :: 0 <= i < v.xlength && 0 <= j < v.ylength ==> w.Elm(i, j) == v.Elm(i, j)
    {
      x := Equation(v);
      w := Times(x);
    }
  }
}
