/**
 Linear algebra over the scalar field: rows, spans and linear independence.
 Nothing here knows about elimination; it is what elimination is judged against.
 */
module LinearSpan {
  import opened PrimeField

  type Row = seq<Fr>

  function Zero(k: nat): Row {
    seq(k, _ => 0)
  }

  /** u - f*v, the elimination step. */
  function Axpy(u: Row, f: Fr, v: Row): Row
    requires |u| == |v|
  {
    seq(|u|, c requires 0 <= c < |u| => Sub(u[c], Mul(v[c], f)))
  }

  /** Every row has k entries. */
  predicate Rect(rows: seq<Row>, k: nat) {
    forall i :: 0 <= i < |rows| ==> |rows[i]| == k
  }

  /** v is a linear combination of the rows; SpanIsCombinations states it with coefficients. */
  ghost predicate InSpan(v: Row, rows: seq<Row>)
    requires Rect(rows, |v|)
    decreases |rows|
  {
    if rows == [] then v == Zero(|v|)
    else exists a: Fr :: InSpan(Axpy(v, a, rows[0]), rows[1..])
  }

  ghost predicate SameSpan(xs: seq<Row>, ys: seq<Row>, k: nat)
    requires Rect(xs, k) && Rect(ys, k)
  {
    forall v: Row :: |v| == k ==> (InSpan(v, xs) <==> InSpan(v, ys))
  }

  // Row identities.

  lemma AxpyZero(u: Row, v: Row)
    requires |u| == |v|
    ensures Axpy(u, 0, v) == u
  {
    hide Add, Sub, Mul, Rep;
    forall c | 0 <= c < |u| ensures Axpy(u, 0, v)[c] == u[c] {
      Units(v[c]);
      Units(u[c]);
    }
  }

  lemma AxpySelf(u: Row)
    ensures Axpy(u, 1, u) == Zero(|u|)
  {
    hide Add, Sub, Mul, Rep;
    forall c | 0 <= c < |u| ensures Axpy(u, 1, u)[c] == 0 {
      Units(u[c]);
    }
  }

  lemma AxpyOfZero(u: Row, f: Fr)
    ensures Axpy(u, f, Zero(|u|)) == u
  {
    hide Add, Sub, Mul, Rep;
    forall c | 0 <= c < |u| ensures Axpy(u, f, Zero(|u|))[c] == u[c] {
      Units(f);
      Units(u[c]);
    }
  }

  lemma AxpyRegroup(u: Row, f: Fr, v: Row, a: Fr, b: Fr, x: Row)
    requires |u| == |v| == |x|
    ensures Axpy(Axpy(u, f, v), Sub(a, Mul(b, f)), x) == Axpy(Axpy(u, a, x), f, Axpy(v, b, x))
  {
    hide Add, Sub, Mul, Rep;
    var l, r := Axpy(Axpy(u, f, v), Sub(a, Mul(b, f)), x), Axpy(Axpy(u, a, x), f, Axpy(v, b, x));
    forall c | 0 <= c < |u| ensures l[c] == r[c] {
      Regroup(u[c], v[c], f, x[c], a, b);
    }
  }

  lemma AxpyUndo(v: Row, a: Fr, x: Row)
    requires |v| == |x|
    ensures Axpy(Axpy(v, a, x), Sub(0, a), x) == v
  {
    hide Add, Sub, Mul, Rep;
    forall c | 0 <= c < |v| ensures Axpy(Axpy(v, a, x), Sub(0, a), x)[c] == v[c] {
      AddBack(v[c], x[c], a);
    }
  }

  // A span is the least set of rows that holds its generators and is closed under elimination steps.

  lemma {:induction false} SpanZero(rows: seq<Row>, k: nat)
    requires Rect(rows, k)
    ensures InSpan(Zero(k), rows)
    decreases |rows|
  {
    if rows != [] {
      AxpyZero(Zero(k), rows[0]);
      SpanZero(rows[1..], k);
    }
  }

  lemma {:induction false} SpanMember(rows: seq<Row>, i: nat)
    requires i < |rows| && Rect(rows, |rows[i]|)
    ensures InSpan(rows[i], rows)
    decreases |rows|
  {
    if i == 0 {
      AxpySelf(rows[0]);
      SpanZero(rows[1..], |rows[0]|);
    } else {
      AxpyZero(rows[i], rows[0]);
      SpanMember(rows[1..], i - 1);
    }
  }

  lemma {:induction false} SpanAxpy(u: Row, f: Fr, v: Row, rows: seq<Row>)
    requires |u| == |v| && Rect(rows, |u|) && InSpan(u, rows) && InSpan(v, rows)
    ensures InSpan(Axpy(u, f, v), rows)
    decreases |rows|
  {
    hide Add, Sub, Mul, Rep;
    if rows == [] {
      AxpyOfZero(u, f);
    } else {
      var a: Fr :| InSpan(Axpy(u, a, rows[0]), rows[1..]);
      var b: Fr :| InSpan(Axpy(v, b, rows[0]), rows[1..]);
      SpanAxpy(Axpy(u, a, rows[0]), f, Axpy(v, b, rows[0]), rows[1..]);
      AxpyRegroup(u, f, v, a, b, rows[0]);
      assert InSpan(Axpy(Axpy(u, f, v), Sub(a, Mul(b, f)), rows[0]), rows[1..]);
    }
  }

  lemma {:induction false} SpanLeast(v: Row, xs: seq<Row>, ys: seq<Row>)
    requires Rect(xs, |v|) && Rect(ys, |v|) && InSpan(v, xs)
    requires forall i :: 0 <= i < |xs| ==> InSpan(xs[i], ys)
    ensures InSpan(v, ys)
    decreases |xs|
  {
    hide Add, Sub, Mul, Rep;
    if xs == [] {
      SpanZero(ys, |v|);
    } else {
      var a: Fr :| InSpan(Axpy(v, a, xs[0]), xs[1..]);
      var w := Axpy(v, a, xs[0]);
      SpanLeast(w, xs[1..], ys);
      assert InSpan(xs[0], ys);
      SpanAxpy(w, Sub(0, a), xs[0], ys);
      AxpyUndo(v, a, xs[0]);
    }
  }

  /** Lists whose rows lie in each other's span have the same span. */
  lemma SpanEqual(xs: seq<Row>, ys: seq<Row>, k: nat)
    requires Rect(xs, k) && Rect(ys, k)
    requires forall i :: 0 <= i < |xs| ==> InSpan(xs[i], ys)
    requires forall i :: 0 <= i < |ys| ==> InSpan(ys[i], xs)
    ensures SameSpan(xs, ys, k)
  {
    forall v: Row | |v| == k ensures InSpan(v, xs) <==> InSpan(v, ys) {
      if InSpan(v, xs) {
        SpanLeast(v, xs, ys);
      }
      if InSpan(v, ys) {
        SpanLeast(v, ys, xs);
      }
    }
  }

  /** A row and the row one elimination step away lie in the span together. */
  lemma SpanStep(u: Row, f: Fr, v: Row, rows: seq<Row>)
    requires |u| == |v| && Rect(rows, |u|) && InSpan(v, rows)
    ensures InSpan(u, rows) <==> InSpan(Axpy(u, f, v), rows)
  {
    hide Add, Sub, Mul, Rep;
    if InSpan(u, rows) {
      SpanAxpy(u, f, v, rows);
    }
    if InSpan(Axpy(u, f, v), rows) {
      SpanAxpy(Axpy(u, f, v), Sub(0, f), v, rows);
      AxpyUndo(u, f, v);
    }
  }

  lemma SpanGrows(v: Row, xs: seq<Row>, ys: seq<Row>)
    requires Rect(xs, |v|) && Rect(ys, |v|) && InSpan(v, xs)
    requires forall x :: x in xs ==> x in ys
    ensures InSpan(v, ys)
  {
    forall i | 0 <= i < |xs| ensures InSpan(xs[i], ys) {
      assert xs[i] in ys;
      var j :| 0 <= j < |ys| && ys[j] == xs[i];
      SpanMember(ys, j);
    }
    SpanLeast(v, xs, ys);
  }

  /** The span depends only on the set of generators. */
  lemma SpanOfSet(xs: seq<Row>, ys: seq<Row>, k: nat)
    requires Rect(xs, k) && Rect(ys, k)
    requires forall x :: x in xs <==> x in ys
    ensures SameSpan(xs, ys, k)
  {
    forall v: Row | |v| == k ensures InSpan(v, xs) <==> InSpan(v, ys) {
      if InSpan(v, xs) {
        SpanGrows(v, xs, ys);
      }
      if InSpan(v, ys) {
        SpanGrows(v, ys, xs);
      }
    }
  }

  /** Extending two lists of one span by one row each keeps the spans equal
      when the two rows differ by an element of the span, up to a factor. */
  lemma SpanExtend(xs: seq<Row>, ys: seq<Row>, x: Row, y: Row)
    requires |x| == |y| && Rect(xs, |x|) && Rect(ys, |x|) && SameSpan(xs, ys, |x|)
    requires InSpan(x, ys + [y]) && InSpan(y, xs + [x])
    ensures SameSpan(xs + [x], ys + [y], |x|)
  {
    var xs', ys' := xs + [x], ys + [y];
    forall i | 0 <= i < |xs'| ensures InSpan(xs'[i], ys') {
      if i < |xs| {
        SpanMember(xs, i);
        assert xs'[i] == xs[i];
        assert InSpan(xs[i], ys);
        SpanGrows(xs[i], ys, ys');
      }
    }
    forall i | 0 <= i < |ys'| ensures InSpan(ys'[i], xs') {
      if i < |ys| {
        SpanMember(ys, i);
        assert ys'[i] == ys[i];
        assert InSpan(ys[i], xs);
        SpanGrows(ys[i], xs, xs');
      }
    }
    SpanEqual(xs', ys', |x|);
  }

  // Coefficients.

  /** u + f*v */
  function Plus(u: Row, f: Fr, v: Row): Row
    requires |u| == |v|
  {
    seq(|u|, c requires 0 <= c < |u| => Add(u[c], Mul(v[c], f)))
  }

  /** The combination of the rows with the given coefficients. */
  function Comb(cs: seq<Fr>, rows: seq<Row>, k: nat): (r: Row)
    requires |cs| == |rows| && Rect(rows, k)
    ensures |r| == k
  {
    if rows == [] then Zero(k)
    else
      var n := |rows| - 1;
      Plus(Comb(cs[..n], rows[..n], k), cs[n], rows[n])
  }

  predicate Trivial(cs: seq<Fr>) {
    forall i :: 0 <= i < |cs| ==> cs[i] == 0
  }

  /** No combination but the trivial one is zero. */
  ghost predicate Independent(rows: seq<Row>, k: nat)
    requires Rect(rows, k)
  {
    forall cs: seq<Fr> :: |cs| == |rows| && Comb(cs, rows, k) == Zero(k) ==> Trivial(cs)
  }

  lemma PlusIsAxpy(u: Row, f: Fr, v: Row)
    requires |u| == |v|
    ensures Plus(u, f, v) == Axpy(u, Sub(0, f), v)
  {
    hide Add, Sub, Mul, Rep;
    forall c | 0 <= c < |u| ensures Plus(u, f, v)[c] == Axpy(u, Sub(0, f), v)[c] {
      AddIsSub(u[c], v[c], f);
    }
  }

  lemma {:induction false} CombInSpan(cs: seq<Fr>, rows: seq<Row>, k: nat, n: nat)
    requires n <= |cs| == |rows| && Rect(rows, k)
    ensures InSpan(Comb(cs[..n], rows[..n], k), rows)
  {
    hide Add, Sub, Mul, Rep;
    if n == 0 {
      SpanZero(rows, k);
    } else {
      CombInSpan(cs, rows, k, n - 1);
      SpanMember(rows, n - 1);
      assert cs[..n][..n - 1] == cs[..n - 1] && rows[..n][..n - 1] == rows[..n - 1];
      var u := Comb(cs[..n - 1], rows[..n - 1], k);
      PlusIsAxpy(u, cs[n - 1], rows[n - 1]);
      SpanAxpy(u, Sub(0, cs[n - 1]), rows[n - 1], rows);
    }
  }

  lemma PlusCommutes(u: Row, f: Fr, v: Row, g: Fr, w: Row)
    requires |u| == |v| == |w|
    ensures Plus(Plus(u, f, v), g, w) == Plus(Plus(u, g, w), f, v)
  {
    hide Add, Sub, Mul, Rep;
    var l, r := Plus(Plus(u, f, v), g, w), Plus(Plus(u, g, w), f, v);
    forall c | 0 <= c < |u| ensures l[c] == r[c] {
      AddSwaps(u[c], Mul(v[c], f), Mul(w[c], g));
    }
  }

  lemma AddSwaps(a: Fr, b: Fr, c: Fr)
    ensures Add(Add(a, b), c) == Add(Add(a, c), b)
  {
    RepOfFr(c);
    RepAdd(a + b, c);
    RepOfFr(b);
    RepAdd(a + c, b);
    assert a + b + c == a + c + b;
  }

  lemma {:induction false} CombCons(a: Fr, cs: seq<Fr>, x: Row, rows: seq<Row>)
    requires |cs| == |rows| && Rect(rows, |x|)
    ensures Comb([a] + cs, [x] + rows, |x|) == Plus(Comb(cs, rows, |x|), a, x)
    decreases |rows|
  {
    hide Add, Sub, Mul, Rep;
    if rows == [] {
      assert [a] + cs == [a] && [x] + rows == [x];
      assert [a][..0] == [] && [x][..0] == [];
      assert Comb([a], [x], |x|) == Plus(Comb([a][..0], [x][..0], |x|), a, x);
    } else {
      var n := |rows| - 1;
      CombCons(a, cs[..n], x, rows[..n]);
      assert ([a] + cs)[..n + 1] == [a] + cs[..n] && ([x] + rows)[..n + 1] == [x] + rows[..n];
      PlusCommutes(Comb(cs[..n], rows[..n], |x|), a, x, cs[n], rows[n]);
    }
  }

  lemma {:induction false} SpanHasCoefficients(v: Row, rows: seq<Row>) returns (cs: seq<Fr>)
    requires Rect(rows, |v|) && InSpan(v, rows)
    ensures |cs| == |rows| && Comb(cs, rows, |v|) == v
    decreases |rows|
  {
    hide Add, Sub, Mul, Rep;
    if rows == [] {
      cs := [];
    } else {
      var a: Fr :| InSpan(Axpy(v, a, rows[0]), rows[1..]);
      var cs' := SpanHasCoefficients(Axpy(v, a, rows[0]), rows[1..]);
      cs := [a] + cs';
      CombCons(a, cs', rows[0], rows[1..]);
      assert [rows[0]] + rows[1..] == rows;
      PlusUndoes(v, a, rows[0]);
    }
  }

  lemma PlusUndoes(v: Row, a: Fr, x: Row)
    requires |v| == |x|
    ensures Plus(Axpy(v, a, x), a, x) == v
  {
    hide Add, Sub, Mul, Rep;
    PlusIsAxpy(Axpy(v, a, x), a, x);
    AxpyUndo(v, a, x);
  }

  /** The recursive reading of a span agrees with linear combinations. */
  lemma SpanIsCombinations(v: Row, rows: seq<Row>)
    requires Rect(rows, |v|)
    ensures InSpan(v, rows) <==> exists cs: seq<Fr> :: |cs| == |rows| && Comb(cs, rows, |v|) == v
  {
    if InSpan(v, rows) {
      var cs := SpanHasCoefficients(v, rows);
    }
    if cs: seq<Fr> :| |cs| == |rows| && Comb(cs, rows, |v|) == v {
      CombInSpan(cs, rows, |v|, |rows|);
      assert cs[..|rows|] == cs && rows[..|rows|] == rows;
    }
  }

  lemma PlusCancels(u: Row, f: Fr, v: Row)
    requires |u| == |v| && f != 0 && Plus(u, f, v) == Zero(|u|)
    ensures v == Axpy(Zero(|u|), Inverse(f), u)
  {
    hide Add, Sub, Mul, Rep, Inverse;
    forall c | 0 <= c < |u| ensures v[c] == Sub(0, Mul(u[c], Inverse(f))) {
      assert Plus(u, f, v)[c] == 0;
      Cancel(u[c], v[c], f);
    }
  }

  /** From u + v*f == 0 it follows that v == 0 - u/f. */
  lemma Cancel(u: Fr, v: Fr, f: Fr)
    requires f != 0 && Add(u, Mul(v, f)) == 0
    ensures v == Sub(0, Mul(u, Inverse(f)))
  {
    hide Add, Sub, Mul, Rep, Inverse;
    var g := Inverse(f);
    InverseIsInverse(f);
    MulAssociates(v, f, g);
    Units(v);
    RepOfFr(u); RepOfFr(g); RepOfFr(0); RepOfFr(Mul(v, f));
    assert Mul(v, f) == Sub(0, u) by {
      OppositeOf(u, Mul(v, f));
    }
    assert v == Mul(Sub(0, u), g);
    RepSub(0, u); RepMul(0 - u, g);
    RepMul(u, g); RepSub(0, u * g);
    assert (0 - u) * g == 0 - u * g;
  }

  lemma OppositeOf(a: Fr, b: Fr)
    requires Add(a, b) == 0
    ensures b == Sub(0, a)
  {
    RepOfFr(a); RepOfFr(b); RepOfFr(0);
    RepSub(a + b, a);
    assert Sub(Rep(a + b), a) == Rep(a + b - a);
  }

  /** A trailing zero coefficient adds nothing. */
  lemma CombZeroLast(cs: seq<Fr>, rows: seq<Row>, x: Row)
    requires |cs| == |rows| && Rect(rows, |x|)
    ensures Comb(cs + [0], rows + [x], |x|) == Comb(cs, rows, |x|)
  {
    hide Add, Sub, Mul, Rep;
    var u := Comb(cs, rows, |x|);
    assert (cs + [0])[..|cs|] == cs && (rows + [x])[..|rows|] == rows;
    PlusIsAxpy(u, 0, x);
    Units(0);
    AxpyZero(u, x);
  }

  lemma IndependentPrefix(rows: seq<Row>, x: Row)
    requires Rect(rows, |x|) && Independent(rows + [x], |x|)
    ensures Independent(rows, |x|)
  {
    hide Add, Sub, Mul, Rep;
    forall cs: seq<Fr> | |cs| == |rows| && Comb(cs, rows, |x|) == Zero(|x|)
      ensures Trivial(cs)
    {
      CombZeroLast(cs, rows, x);
      assert Trivial(cs + [0]);
      assert forall i :: 0 <= i < |cs| ==> (cs + [0])[i] == cs[i];
    }
  }

  lemma DependenceWitness(rows: seq<Row>, x: Row) returns (cs: seq<Fr>)
    requires Rect(rows, |x|) && InSpan(x, rows)
    ensures |cs| == |rows| + 1 && cs[|rows|] != 0 && Comb(cs, rows + [x], |x|) == Zero(|x|)
  {
    hide Add, Sub, Mul, Rep, InSpan;
    var ds := SpanHasCoefficients(x, rows);
    cs := ds + [Sub(0, 1)];
    assert cs[..|rows|] == ds && (rows + [x])[..|rows|] == rows;
    MinusOne(x);
    MinusOneNotZero();
  }

  lemma IndependentLastOutside(rows: seq<Row>, x: Row)
    requires Rect(rows, |x|) && Independent(rows + [x], |x|)
    ensures !InSpan(x, rows)
  {
    hide Add, Sub, Mul, Rep, InSpan, Comb;
    if InSpan(x, rows) {
      var cs := DependenceWitness(rows, x);
    }
  }

  lemma NonzeroCoefficient(rows: seq<Row>, x: Row, cs: seq<Fr>)
    requires Rect(rows, |x|) && |cs| == |rows| + 1
    requires Comb(cs, rows + [x], |x|) == Zero(|x|) && cs[|rows|] != 0
    ensures InSpan(x, rows)
  {
    hide Add, Sub, Mul, Rep, Inverse;
    var n, k := |rows|, |x|;
    assert (rows + [x])[..n] == rows;
    var u := Comb(cs[..n], rows, k);
    CombInSpan(cs[..n], rows, k, n);
    assert cs[..n][..n] == cs[..n] && rows[..n] == rows;
    PlusCancels(u, cs[n], x);
    SpanZero(rows, k);
    SpanAxpy(Zero(k), Inverse(cs[n]), u, rows);
  }

  lemma LastCoefficientZero(rows: seq<Row>, x: Row, cs: seq<Fr>)
    requires Rect(rows, |x|) && !InSpan(x, rows)
    requires |cs| == |rows| + 1 && Comb(cs, rows + [x], |x|) == Zero(|x|)
    ensures cs[|rows|] == 0
  {
    hide *;
    if cs[|rows|] != 0 {
      NonzeroCoefficient(rows, x, cs);
    }
  }

  lemma ZeroCombinationTrivial(cs: seq<Fr>, rows: seq<Row>, x: Row)
    requires |cs| == |rows| && Rect(rows, |x|) && Independent(rows, |x|)
    requires Comb(cs + [0], rows + [x], |x|) == Zero(|x|)
    ensures Trivial(cs + [0])
  {
    hide Add, Sub, Mul, Rep, InSpan, Comb;
    CombZeroLast(cs, rows, x);
  }

  lemma TrivialWhenOutside(rows: seq<Row>, x: Row, cs: seq<Fr>)
    requires Rect(rows, |x|) && Independent(rows, |x|) && !InSpan(x, rows)
    requires |cs| == |rows| + 1 && Comb(cs, rows + [x], |x|) == Zero(|x|)
    ensures Trivial(cs)
  {
    hide *;
    LastCoefficientZero(rows, x, cs);
    assert cs == cs[..|rows|] + [0];
    ZeroCombinationTrivial(cs[..|rows|], rows, x);
  }

  lemma OutsideExtends(rows: seq<Row>, x: Row)
    requires Rect(rows, |x|) && Independent(rows, |x|) && !InSpan(x, rows)
    ensures Independent(rows + [x], |x|)
  {
    hide Add, Sub, Mul, Rep, InSpan, Comb;
    forall cs: seq<Fr> | |cs| == |rows| + 1 && Comb(cs, rows + [x], |x|) == Zero(|x|)
      ensures Trivial(cs)
    {
      TrivialWhenOutside(rows, x, cs);
    }
  }

  /** A list stays independent exactly when the new row lies outside its span. */
  lemma IndependentExtend(rows: seq<Row>, x: Row)
    requires Rect(rows, |x|)
    ensures Independent(rows + [x], |x|) <==> Independent(rows, |x|) && !InSpan(x, rows)
  {
    hide Independent, InSpan;
    if Independent(rows + [x], |x|) {
      IndependentPrefix(rows, x);
      IndependentLastOutside(rows, x);
    } else if Independent(rows, |x|) && !InSpan(x, rows) {
      OutsideExtends(rows, x);
    }
  }

  lemma MinusOneNotZero()
    ensures Sub(0, 1) != 0
  {
    RepSub(0, 1);
  }

  lemma MinusOne(x: Row)
    ensures Plus(x, Sub(0, 1), x) == Zero(|x|)
  {
    hide Add, Sub, Mul, Rep;
    assert Sub(0, Sub(0, 1)) == 1 by {
      RepOfFr(0); RepOfFr(1);
      RepSub(0, 1); RepSub(0, 0 - 1);
    }
    PlusIsAxpy(x, Sub(0, 1), x);
    AxpySelf(x);
  }
}
