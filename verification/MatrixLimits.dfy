/**
  Where mthMatrix's solver and product stop being what their names say: concrete systems over the real
  numbers.
 */
module MatrixLimits {
  import opened Algebra
  import opened Determinant
  import opened Matrix

  function Reals(): Ring<real> { Ring(0.0, 1.0, (a, b) => a + b, a => -a, (a, b) => a * b) }

  function RealField(): Field<real> { Field(Reals(), a => if a == 0.0 then 0.0 else 1.0 / a) }

  lemma RealIsField()
    ensures IsField(RealField())
  {
    forall a: real, b: real, c: real ensures LawsAt(Reals(), a, b, c) {
      assert a * (b + c) == a * b + a * c;
      assert a * b * c == a * (b * c);
    }
  }

  lemma {:induction false} Det1(A: Entries<real>, r: int, c: int)
    ensures Det(Reals(), A, [r], [c]) == A(r, c)
  {
    var R := Reals();
    var t := k => Term(R, A, [r], [c], k);
    assert [r][1..] == [] && Drop([c], 0) == [];
    assert Det(R, A, [], []) == 1.0;
    assert t(0) == A(r, c) * 1.0;
    assert Sum(R, 1, t) == Sum(R, 0, t) + t(0);
  }

  lemma {:induction false} Det2(A: Entries<real>)
    ensures Det(Reals(), A, Range(2), Range(2)) == A(0, 0) * A(1, 1) - A(0, 1) * A(1, 0)
  {
    var R := Reals();
    var two := Range(2);
    assert two == [0, 1] && two[1..] == [1] && Drop(two, 0) == [1] && Drop(two, 1) == [0];
    Det1(A, 1, 1);
    Det1(A, 1, 0);
    var t := k => Term(R, A, two, two, k);
    assert t(0) == A(0, 0) * A(1, 1);
    assert t(1) == -(A(0, 1) * A(1, 0));
    assert Sum(R, 2, t) == Sum(R, 0, t) + t(0) + t(1);
  }

  /** [1 1] times the column (1, 1): the code sums over the single row and answers 1. */
  method TimesLeavesTermsOut() returns (row: Mat<real>, col: Mat<real>, w: Mat<real>)
    ensures row.Valid() && col.Valid() && w.Valid() && w.err == 0
    ensures row.xlength == 2 && row.ylength == 1 && row.Elm(0, 0) == row.Elm(1, 0) == 1.0
    ensures col.xlength == 1 && col.ylength == 2 && col.Elm(0, 0) == col.Elm(0, 1) == 1.0
    ensures w.Elm(0, 0) == 1.0 && row.ProductAt(col, 0, 0) == 2.0
  {
    RealIsField();
    row := new Mat<real>.Sized(RealField(), 2, 1);
    var _ := row.Set(0, 0, 1.0);
    var _ := row.Set(1, 0, 1.0);
    col := new Mat<real>.Sized(RealField(), 1, 2);
    var _ := col.Set(0, 0, 1.0);
    var _ := col.Set(0, 1, 1.0);
    w := row.Times(col);
    row.EntryIsElm(0, 0);
    row.EntryIsElm(0, 1);
    col.EntryIsElm(0, 0);
    col.EntryIsElm(1, 0);
    assert row.SumAt(col, 0, 0, 0) == 0.0;
    assert row.SumAt(col, 0, 0, 1) == 1.0;
    assert row.SumAt(col, 0, 0, 2) == 2.0;
  }

  /** x = 0 over one column, asked with a second row 1: the answer leaves that row unsolved. */
  method LongSystem() returns (a: Mat<real>, v: Mat<real>, ret: Mat<real>)
    ensures a.Valid() && v.Valid() && ret.Valid() && !a.Singular() && ret.err == 0
    ensures a.xlength == 1 && v.ylength == 2 && ret.Elm(0, 1) == 1.0 && !a.Solves(ret, v)
  {
    RealIsField();
    a := new Mat<real>.Sized(RealField(), 1, 1);
    var _ := a.Set(0, 0, 1.0);
    v := new Mat<real>.Sized(RealField(), 1, 2);
    var _ := v.Set(0, 1, 1.0);
    a.EntryIsElm(0, 0);
    assert Range(1) == [0];
    Det1(a.Entry(), 0, 0);
    ret := a.Equation(v);
    assert v.Elm(0, 1) != 0.0;
  }

  /** The matrix with rows (1 1) and (1 0), asked with the single row 0: the answer is 1, and that row
      of the system gives 1 instead of 0. */
  method ShortSystem() returns (a: Mat<real>, v: Mat<real>, ret: Mat<real>)
    ensures a.Valid() && v.Valid() && ret.Valid() && !a.Singular() && ret.err == 0
    ensures a.xlength == 2 && v.ylength == 1 && v.Elm(0, 0) == 0.0 && ret.Elm(0, 0) == 1.0 && a.ProductAt(ret, 0, 0) == 1.0
    ensures !a.Solves(ret, v)
  {
    RealIsField();
    a := new Mat<real>.Sized(RealField(), 2, 2);
    var _ := a.Set(0, 0, 1.0);
    var _ := a.Set(1, 0, 1.0);
    var _ := a.Set(0, 1, 1.0);
    v := new Mat<real>.Sized(RealField(), 1, 1);
    ShortDeterminants(a, v);
    ret := a.Equation(v);
    ShortProduct(a, ret);
  }

  lemma ShortDeterminants(a: Mat<real>, v: Mat<real>)
    requires a.Valid() && v.Valid() && a.F == RealField() == v.F && a.xlength == a.ylength == 2 && v.ylength == 1
    requires a.Elm(0, 0) == a.Elm(1, 0) == a.Elm(0, 1) == 1.0 && a.Elm(1, 1) == 0.0 && v.Elm(0, 0) == 0.0
    ensures a.Determined() == -1.0 && a.PatchedDet(v, 0, 0) == -1.0
  {
    forall r, c | 0 <= r < 2 && 0 <= c < 2 ensures a.Entry()(r, c) == a.Elm(c, r) { a.EntryIsElm(r, c); }
    v.EntryIsElm(0, 0);
    Det2(a.Entry());
    Det2(a.Patched(v, 0, 0));
  }

  lemma ShortProduct(a: Mat<real>, ret: Mat<real>)
    requires a.Valid() && ret.Valid() && a.F == RealField() == ret.F && a.xlength == a.ylength == 2 && ret.ylength == 1
    requires a.Elm(0, 0) == 1.0 && ret.Elm(0, 0) == 1.0
    ensures a.ProductAt(ret, 0, 0) == 1.0
  {
    a.EntryIsElm(0, 0);
    a.EntryIsElm(0, 1);
    ret.EntryIsElm(0, 0);
    ret.EntryIsElm(1, 0);
    assert a.SumAt(ret, 0, 0, 0) == 0.0;
    assert a.SumAt(ret, 0, 0, 1) == 1.0;
    assert a.SumAt(ret, 0, 0, 2) == 1.0;
  }
}
