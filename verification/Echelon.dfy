/**
 Online rank tracking: the row-by-row elimination that the store node and the bootstrap node
 both carry (their two EchelonBasis types are the same code).
 */
module Echelon {
  import opened Basics
  import opened Bytes
  import opened PrimeField
  import opened LinearSpan

  // Coefficient rows on the wire: one byte or two big-endian bytes per entry.

  predicate WellFormed(raw: seq<byte>, k: nat) {
    |raw| == k || |raw| == 2 * k
  }

  function Coefficient(raw: seq<byte>, k: nat, j: nat): Fr
    requires WellFormed(raw, k) && j < k
  {
    if |raw| == 2 * k then U16(raw[2 * j], raw[2 * j + 1]) else raw[j]
  }

  function Parse(raw: seq<byte>, k: nat): (row: Row)
    requires WellFormed(raw, k)
    ensures |row| == k
  {
    seq(k, j requires 0 <= j < k => Coefficient(raw, k, j))
  }

  // Leading positions and the invariant of the tracked basis.

  /** The position of the first nonzero entry; the length of the row if there is none. */
  function Lead(v: Row): (p: nat)
    ensures p <= |v|
    ensures forall c :: 0 <= c < p ==> v[c] == 0
    ensures p < |v| ==> v[p] != 0
  {
    if v == [] || v[0] != 0 then 0 else 1 + Lead(v[1..])
  }

  /** The invariant of the basis: rows keep their insertion order, each is 1 at its own pivot,
      and every later row is 0 there. Pivots need not be sorted and earlier rows are not back-reduced. */
  ghost predicate IsEchelon(basis: seq<Row>, k: nat) {
    && Rect(basis, k)
    && (forall i :: 0 <= i < |basis| ==> Lead(basis[i]) < k && basis[i][Lead(basis[i])] == 1)
    && (forall i, j :: 0 <= i < j < |basis| ==> basis[j][Lead(basis[i])] == 0)
  }

  lemma PivotsDistinct(basis: seq<Row>, k: nat)
    requires IsEchelon(basis, k)
    ensures forall i, j :: 0 <= i < j < |basis| ==> Lead(basis[i]) != Lead(basis[j])
  {
    forall i, j | 0 <= i < j < |basis| ensures Lead(basis[i]) != Lead(basis[j]) {
      assert basis[j][Lead(basis[i])] == 0;
    }
  }

  /** A nonzero row of the span leads where some basis row leads. */
  lemma {:induction false} LeadIsPivot(v: Row, basis: seq<Row>)
    requires IsEchelon(basis, |v|) && InSpan(v, basis) && Lead(v) < |v|
    ensures exists i :: 0 <= i < |basis| && Lead(basis[i]) == Lead(v)
    decreases |basis|
  {
    hide Add, Sub, Mul, Rep;
    if basis != [] {
      var b, rest, q := basis[0], basis[1..], Lead(v);
      var p := Lead(b);
      var a: Fr :| InSpan(Axpy(v, a, b), rest);
      var w := Axpy(v, a, b);
      forall c | 0 <= c < |v| && b[c] == 0 ensures w[c] == v[c] {
        Units(a);
        Units(v[c]);
      }
      assert IsEchelon(rest, |v|);
      if p != q {
        if p < q {
          SpanVanishes(w, rest, p);
          Units(a);
          Units(Mul(1, a));
          assert w[p] == Sub(0, a);
          ZeroOnly(a);
          AxpyZero(v, b);
        }
        assert Lead(w) == q;
        LeadIsPivot(w, rest);
        var i :| 0 <= i < |rest| && Lead(rest[i]) == q;
        assert basis[i + 1] == rest[i];
      }
    }
  }

  lemma ZeroOnly(a: Fr)
    requires Sub(0, a) == 0
    ensures a == 0
  {
  }

  /** A column that is zero in every generator is zero throughout the span. */
  lemma {:induction false} SpanVanishes(v: Row, rows: seq<Row>, c: nat)
    requires Rect(rows, |v|) && InSpan(v, rows) && c < |v|
    requires forall i :: 0 <= i < |rows| ==> rows[i][c] == 0
    ensures v[c] == 0
    decreases |rows|
  {
    hide Add, Sub, Mul, Rep;
    if rows != [] {
      var a: Fr :| InSpan(Axpy(v, a, rows[0]), rows[1..]);
      SpanVanishes(Axpy(v, a, rows[0]), rows[1..], c);
      Units(a);
      Units(v[c]);
    }
  }

  /** Every pivot is the leading position of a row of the span, namely of its own basis row,
      so the pivots are exactly the leading positions of nonzero rows of the span. */
  lemma PivotsAreLeads(basis: seq<Row>, k: nat, q: nat)
    requires IsEchelon(basis, k) && q < k
    ensures (exists i :: 0 <= i < |basis| && Lead(basis[i]) == q) <==>
            (exists v: Row :: |v| == k && InSpan(v, basis) && Lead(v) == q)
  {
    hide Add, Sub, Mul, Rep, InSpan;
    if i :| 0 <= i < |basis| && Lead(basis[i]) == q {
      SpanMember(basis, i);
      assert |basis[i]| == k && InSpan(basis[i], basis) && Lead(basis[i]) == q;
    }
    if v: Row :| |v| == k && InSpan(v, basis) && Lead(v) == q {
      LeadIsPivot(v, basis);
    }
  }

  function Pivots(basis: seq<Row>): set<nat> {
    set i | 0 <= i < |basis| :: Lead(basis[i])
  }

  lemma {:induction false} PivotCount(basis: seq<Row>, k: nat)
    requires IsEchelon(basis, k)
    ensures |Pivots(basis)| == |basis|
  {
    if basis != [] {
      var n := |basis| - 1;
      PivotCount(basis[..n], k);
      PivotsDistinct(basis, k);
      assert Lead(basis[n]) !in Pivots(basis[..n]);
      assert Pivots(basis) == Pivots(basis[..n]) + {Lead(basis[n])};
    }
  }

  /** Two echelon bases of one span have the same size. */
  lemma RankBySpan(xs: seq<Row>, ys: seq<Row>, k: nat)
    requires IsEchelon(xs, k) && IsEchelon(ys, k) && SameSpan(xs, ys, k)
    ensures Pivots(xs) == Pivots(ys) && |xs| == |ys|
  {
    hide Add, Sub, Mul, Rep, InSpan;
    PivotCount(xs, k);
    PivotCount(ys, k);
    forall q: nat ensures q in Pivots(xs) <==> q in Pivots(ys) {
      if q < k {
        PivotsAreLeads(xs, k, q);
        PivotsAreLeads(ys, k, q);
      }
    }
  }

  // Elimination.

  /** One pass of the elimination loop: clear the pivot column of b from the row. */
  function Eliminate(row: Row, b: Row): Row
    requires |row| == |b| && Lead(b) < |b|
  {
    Axpy(row, row[Lead(b)], b)
  }

  function Reduce(row: Row, basis: seq<Row>): (r: Row)
    requires Rect(basis, |row|) && forall i :: 0 <= i < |basis| ==> Lead(basis[i]) < |row|
    ensures |r| == |row|
  {
    if basis == [] then row
    else
      var n := |basis| - 1;
      Eliminate(Reduce(row, basis[..n]), basis[n])
  }

  lemma EliminateClears(row: Row, b: Row, c: nat)
    requires |row| == |b| && Lead(b) < |b| && b[Lead(b)] == 1 && c < |row|
    ensures c == Lead(b) ==> Eliminate(row, b)[c] == 0
    ensures b[c] == 0 ==> Eliminate(row, b)[c] == row[c]
  {
    hide Add, Sub, Mul, Rep;
    Units(row[Lead(b)]);
    Units(row[c]);
  }

  lemma {:induction false} ReduceClears(row: Row, basis: seq<Row>, i: nat)
    requires IsEchelon(basis, |row|) && i < |basis|
    ensures Reduce(row, basis)[Lead(basis[i])] == 0
  {
    hide Add, Sub, Mul, Rep;
    var n := |basis| - 1;
    var q := Lead(basis[i]);
    EliminateClears(Reduce(row, basis[..n]), basis[n], q);
    if i < n {
      ReduceClears(row, basis[..n], i);
      assert basis[..n][i] == basis[i];
      assert basis[n][q] == 0;
    }
  }

  lemma {:induction false} ReduceInSpan(row: Row, basis: seq<Row>, rows: seq<Row>)
    requires IsEchelon(basis, |row|) && Rect(rows, |row|)
    requires forall i :: 0 <= i < |basis| ==> InSpan(basis[i], rows)
    ensures InSpan(row, rows) <==> InSpan(Reduce(row, basis), rows)
    decreases |basis|
  {
    hide Add, Sub, Mul, Rep, InSpan;
    if basis != [] {
      var n := |basis| - 1;
      ReduceInSpan(row, basis[..n], rows);
      var r := Reduce(row, basis[..n]);
      SpanStep(r, r[Lead(basis[n])], basis[n], rows);
    }
  }

  lemma AllInOwnSpan(basis: seq<Row>, k: nat)
    requires Rect(basis, k)
    ensures forall i :: 0 <= i < |basis| ==> InSpan(basis[i], basis)
  {
    forall i | 0 <= i < |basis| ensures InSpan(basis[i], basis) {
      SpanMember(basis, i);
    }
  }

  lemma LeadOfZero(v: Row)
    ensures Lead(v) == |v| <==> v == Zero(|v|)
  {
  }

  /** The residue is zero exactly when the row was in the span. */
  lemma ResidueDecides(row: Row, basis: seq<Row>)
    requires IsEchelon(basis, |row|)
    ensures Reduce(row, basis) == Zero(|row|) <==> InSpan(row, basis)
  {
    hide Add, Sub, Mul, Rep, InSpan;
    AllInOwnSpan(basis, |row|);
    ReduceInSpan(row, basis, basis);
    SpanZero(basis, |row|);
    var r := Reduce(row, basis);
    LeadOfZero(r);
    if InSpan(r, basis) && Lead(r) < |r| {
      LeadIsPivot(r, basis);
      var i :| 0 <= i < |basis| && Lead(basis[i]) == Lead(r);
      ReduceClears(row, basis, i);
    }
  }

  /** k rows with distinct pivots span everything, so refusing every row at rank k is right. */
  lemma FullRankSpansAll(row: Row, basis: seq<Row>)
    requires IsEchelon(basis, |row|) && |basis| == |row|
    ensures InSpan(row, basis)
  {
    hide Add, Sub, Mul, Rep, InSpan;
    var k := |row|;
    PivotCount(basis, k);
    AllPositionsArePivots(basis, k);
    var r := Reduce(row, basis);
    if Lead(r) < k {
      assert Lead(r) in Pivots(basis);
      var i :| 0 <= i < |basis| && Lead(basis[i]) == Lead(r);
      ReduceClears(row, basis, i);
    }
    LeadOfZero(r);
    ResidueDecides(row, basis);
  }

  function Below(k: nat): (s: set<nat>)
    ensures |s| == k
    ensures forall c: nat :: c in s <==> c < k
  {
    if k == 0 then {} else Below(k - 1) + {k - 1}
  }

  lemma AllPositionsArePivots(basis: seq<Row>, k: nat)
    requires IsEchelon(basis, k) && |Pivots(basis)| == k
    ensures forall c: nat :: c < k ==> c in Pivots(basis)
  {
    SubsetSize(Pivots(basis), Below(k));
  }

  lemma RankAtMost(basis: seq<Row>, k: nat)
    requires IsEchelon(basis, k)
    ensures |basis| <= k
  {
    PivotCount(basis, k);
    SubsetSize(Pivots(basis), Below(k));
  }

  // Adding a row.

  /** Scale the row so that its leading entry becomes 1. */
  function Normalize(row: Row): (n: Row)
    requires Lead(row) < |row|
    ensures |n| == |row|
  {
    var inv := Inverse(row[Lead(row)]);
    seq(|row|, c requires 0 <= c < |row| => Mul(row[c], inv))
  }

  /** What TryAdd answers and what the basis becomes. */
  function Added(basis: seq<Row>, k: nat, raw: seq<byte>): (bool, seq<Row>)
    requires IsEchelon(basis, k)
  {
    if |basis| >= k || !WellFormed(raw, k) then (false, basis)
    else
      var r := Reduce(Parse(raw, k), basis);
      if Lead(r) == k then (false, basis) else (true, basis + [Normalize(r)])
  }

  lemma LeadUnique(v: Row, p: nat)
    requires p < |v| && v[p] != 0 && forall c :: 0 <= c < p ==> v[c] == 0
    ensures Lead(v) == p
  {
  }

  lemma NormalizeLead(row: Row)
    requires Lead(row) < |row|
    ensures Lead(Normalize(row)) == Lead(row) && Normalize(row)[Lead(row)] == 1
    ensures forall c :: 0 <= c < |row| && row[c] == 0 ==> Normalize(row)[c] == 0
  {
    hide Add, Sub, Mul, Rep, Inverse;
    var n, p := Normalize(row), Lead(row);
    InverseIsInverse(row[p]);
    forall c | 0 <= c < |row| && row[c] == 0 ensures n[c] == 0 {
      Units(Inverse(row[p]));
    }
    LeadUnique(n, p);
  }

  /** Normalizing is a combination: n == 0 - (0 - 1/p)*r and r == 0 - (0 - p)*n. */
  lemma NormalizeSpan(row: Row, rows: seq<Row>)
    requires Lead(row) < |row| && Rect(rows, |row|)
    ensures InSpan(row, rows) <==> InSpan(Normalize(row), rows)
  {
    hide Add, Sub, Mul, Rep, Inverse, InSpan;
    var k, n, z := |row|, Normalize(row), Zero(|row|);
    var p := row[Lead(row)];
    SpanZero(rows, k);
    assert n == Axpy(z, Sub(0, Inverse(p)), row) by {
      forall c | 0 <= c < k ensures n[c] == Sub(0, Mul(row[c], Sub(0, Inverse(p)))) {
        ScaleIsAxpy(row[c], Inverse(p));
      }
    }
    assert row == Axpy(z, Sub(0, p), n) by {
      forall c | 0 <= c < k ensures row[c] == Sub(0, Mul(n[c], Sub(0, p))) {
        ScaleIsAxpy(n[c], p);
        MulAssociates(row[c], Inverse(p), p);
        MulCommutes(p, Inverse(p));
        InverseIsInverse(p);
        Units(row[c]);
      }
    }
    if InSpan(row, rows) {
      SpanAxpy(z, Sub(0, Inverse(p)), row, rows);
    }
    if InSpan(n, rows) {
      SpanAxpy(z, Sub(0, p), n, rows);
    }
  }

  lemma ScaleIsAxpy(a: Fr, f: Fr)
    ensures Mul(a, f) == Sub(0, Mul(a, Sub(0, f)))
  {
    hide Add, Sub, Mul, Rep;
    AddIsSub(0, a, f);
    RepOfFr(0); RepOfFr(Mul(a, f));
    RepAdd(0, Mul(a, f));
  }

  lemma AddedKeepsEchelon(basis: seq<Row>, k: nat, raw: seq<byte>)
    requires IsEchelon(basis, k)
    ensures IsEchelon(Added(basis, k, raw).1, k)
  {
    hide Add, Sub, Mul, Rep, Inverse, Reduce, Normalize;
    if Added(basis, k, raw).0 {
      var r := Reduce(Parse(raw, k), basis);
      NormalizeLead(r);
      forall i | 0 <= i < |basis| ensures Normalize(r)[Lead(basis[i])] == 0 {
        ReduceClears(Parse(raw, k), basis, i);
      }
    }
  }

  lemma RowsStayInSpan(basis: seq<Row>, x: Row)
    requires Rect(basis, |x|)
    ensures InSpan(x, basis + [x])
    ensures forall i :: 0 <= i < |basis| ==> InSpan(basis[i], basis + [x])
  {
    hide InSpan;
    var all := basis + [x];
    SpanMember(all, |basis|);
    forall i | 0 <= i < |basis| ensures InSpan(basis[i], all) {
      SpanMember(all, i);
      assert all[i] == basis[i];
    }
  }

  lemma ResidueEquivalent(basis: seq<Row>, x: Row, rows: seq<Row>)
    requires IsEchelon(basis, |x|) && Lead(Reduce(x, basis)) < |x| && Rect(rows, |x|)
    requires forall i :: 0 <= i < |basis| ==> InSpan(basis[i], rows)
    ensures InSpan(x, rows) <==> InSpan(Normalize(Reduce(x, basis)), rows)
  {
    hide Add, Sub, Mul, Rep, InSpan, Reduce, Normalize;
    ReduceInSpan(x, basis, rows);
    NormalizeSpan(Reduce(x, basis), rows);
  }

  lemma ResidueSpans(basis: seq<Row>, x: Row)
    requires IsEchelon(basis, |x|) && Lead(Reduce(x, basis)) < |x|
    ensures SameSpan(basis + [Normalize(Reduce(x, basis))], basis + [x], |x|)
  {
    hide *;
    EchelonRect(basis, |x|);
    var n := Normalize(Reduce(x, basis));
    RowsStayInSpan(basis, x);
    RowsStayInSpan(basis, n);
    ExtendedRect(basis, x);
    ExtendedRect(basis, n);
    ResidueEquivalent(basis, x, basis + [x]);
    ResidueEquivalent(basis, x, basis + [n]);
    SameSpanReflexive(basis, |x|);
    SpanExtend(basis, basis, n, x);
  }

  lemma EchelonRect(basis: seq<Row>, k: nat)
    requires IsEchelon(basis, k)
    ensures Rect(basis, k) && forall i :: 0 <= i < |basis| ==> Lead(basis[i]) < k
  {
  }

  lemma ExtendedRect(rows: seq<Row>, x: Row)
    requires Rect(rows, |x|)
    ensures Rect(rows + [x], |x|)
  {
  }

  lemma SameSpanReflexive(rows: seq<Row>, k: nat)
    requires Rect(rows, k)
    ensures SameSpan(rows, rows, k)
  {
  }

  /** TryAdd says yes exactly to the well-formed rows outside the span; on yes the span becomes
      that of the old basis and the new row, on no nothing changes. */
  lemma AddedDecides(basis: seq<Row>, k: nat, raw: seq<byte>)
    requires IsEchelon(basis, k)
    ensures Added(basis, k, raw).0 <==> WellFormed(raw, k) && !InSpan(Parse(raw, k), basis)
    ensures Added(basis, k, raw).0 ==> SameSpan(Added(basis, k, raw).1, basis + [Parse(raw, k)], k)
    ensures !Added(basis, k, raw).0 ==> Added(basis, k, raw).1 == basis
  {
    hide Add, Sub, Mul, Rep, InSpan, Reduce, Normalize;
    if WellFormed(raw, k) {
      var x := Parse(raw, k);
      RankAtMost(basis, k);
      if |basis| == k {
        FullRankSpansAll(x, basis);
      } else {
        ResidueDecides(x, basis);
        LeadOfZero(Reduce(x, basis));
        if Lead(Reduce(x, basis)) < k {
          ResidueSpans(basis, x);
        }
      }
    }
  }

  // Feeding a whole list.

  /** The basis after feeding the rows in order to an empty one. */
  function Feed(raws: seq<seq<byte>>, k: nat): (basis: seq<Row>)
    ensures IsEchelon(basis, k)
  {
    if raws == [] then []
    else
      var basis := Feed(raws[..|raws| - 1], k);
      AddedKeepsEchelon(basis, k, raws[|raws| - 1]);
      Added(basis, k, raws[|raws| - 1]).1
  }

  function Rank(raws: seq<seq<byte>>, k: nat): nat {
    |Feed(raws, k)|
  }

  /** The well-formed rows, in order. */
  function Parsed(raws: seq<seq<byte>>, k: nat): (rows: seq<Row>)
    ensures Rect(rows, k)
  {
    if raws == [] then []
    else
      var rest := Parsed(raws[..|raws| - 1], k);
      var last := raws[|raws| - 1];
      if WellFormed(last, k) then rest + [Parse(last, k)] else rest
  }

  /** A row already in the span changes nothing. */
  lemma RedundantRow(basis: seq<Row>, rows: seq<Row>, x: Row)
    requires Rect(basis, |x|) && Rect(rows, |x|) && SameSpan(basis, rows, |x|) && InSpan(x, basis)
    ensures SameSpan(basis, rows + [x], |x|)
  {
    hide InSpan;
    var all := rows + [x];
    RowsStayInSpan(rows, x);
    forall i | 0 <= i < |all| ensures InSpan(all[i], basis) {
      if i < |rows| {
        SpanMember(rows, i);
        assert InSpan(rows[i], basis);
      }
    }
    forall i | 0 <= i < |basis| ensures InSpan(basis[i], all) {
      SpanMember(basis, i);
      assert InSpan(basis[i], rows);
      SpanLeast(basis[i], rows, all);
    }
    SpanEqual(basis, all, |x|);
  }

  lemma EmptyFeed(k: nat)
    ensures Feed([], k) == []
  {
  }

  lemma FeedLast(raws: seq<seq<byte>>, raw: seq<byte>, k: nat)
    ensures Feed(raws + [raw], k) == Added(Feed(raws, k), k, raw).1
  {
    hide IsEchelon, Added;
    assert (raws + [raw])[..|raws|] == raws;
  }

  lemma {:induction false} FeedSpan(raws: seq<seq<byte>>, k: nat)
    ensures SameSpan(Feed(raws, k), Parsed(raws, k), k)
  {
    hide InSpan, Added;
    if raws != [] {
      var n := |raws| - 1;
      var basis, rows, raw := Feed(raws[..n], k), Parsed(raws[..n], k), raws[n];
      FeedSpan(raws[..n], k);
      AddedDecides(basis, k, raw);
      if WellFormed(raw, k) {
        var x := Parse(raw, k);
        RowsStayInSpan(rows, x);
        if Added(basis, k, raw).0 {
          RowsStayInSpan(basis, x);
          SpanExtend(basis, rows, x, x);
        } else {
          RedundantRow(basis, rows, x);
        }
      }
    }
  }

  /** The rank depends only on the span of the well-formed rows. */
  lemma RankDependsOnSpan(xs: seq<seq<byte>>, ys: seq<seq<byte>>, k: nat)
    requires SameSpan(Parsed(xs, k), Parsed(ys, k), k)
    ensures Rank(xs, k) == Rank(ys, k)
  {
    hide InSpan, IsEchelon;
    FeedSpan(xs, k);
    FeedSpan(ys, k);
    RankBySpan(Feed(xs, k), Feed(ys, k), k);
  }

  lemma {:induction false} ParsedSet(raws: seq<seq<byte>>, k: nat, x: Row)
    ensures x in Parsed(raws, k) <==> exists raw :: raw in raws && WellFormed(raw, k) && Parse(raw, k) == x
  {
    if raws != [] {
      var n := |raws| - 1;
      ParsedSet(raws[..n], k, x);
      assert raws == raws[..n] + [raws[n]];
    }
  }

  /** Feeding the same rows in any order, with any repetition, gives the same rank and the same span. */
  lemma RankIgnoresOrder(xs: seq<seq<byte>>, ys: seq<seq<byte>>, k: nat)
    requires forall raw :: raw in xs <==> raw in ys
    ensures Rank(xs, k) == Rank(ys, k)
    ensures SameSpan(Parsed(xs, k), Parsed(ys, k), k)
  {
    hide InSpan, IsEchelon;
    forall x ensures x in Parsed(xs, k) <==> x in Parsed(ys, k) {
      ParsedSet(xs, k, x);
      ParsedSet(ys, k, x);
    }
    SpanOfSet(Parsed(xs, k), Parsed(ys, k), k);
    RankDependsOnSpan(xs, ys, k);
  }

  /** The rank reaches the number of well-formed rows exactly when these are independent. */
  lemma {:induction false} FullCountIsIndependence(raws: seq<seq<byte>>, k: nat)
    ensures Rank(raws, k) <= |Parsed(raws, k)|
    ensures Rank(raws, k) == |Parsed(raws, k)| <==> Independent(Parsed(raws, k), k)
  {
    hide InSpan, IsEchelon, Added, Independent;
    if raws == [] {
      EmptyIndependent(k);
    } else {
      var n := |raws| - 1;
      var basis, rows, raw := Feed(raws[..n], k), Parsed(raws[..n], k), raws[n];
      FullCountIsIndependence(raws[..n], k);
      AddedDecides(basis, k, raw);
      if WellFormed(raw, k) {
        FeedSpan(raws[..n], k);
        IndependentExtend(rows, Parse(raw, k));
        AddedGrowsByOne(basis, k, raw);
      }
    }
  }

  lemma EmptyIndependent(k: nat)
    ensures Independent([], k)
  {
  }

  lemma AddedGrowsByOne(basis: seq<Row>, k: nat, raw: seq<byte>)
    requires IsEchelon(basis, k)
    ensures |Added(basis, k, raw).1| == |basis| + if Added(basis, k, raw).0 then 1 else 0
  {
  }

  /** No k+1 rows of length k are independent. */
  lemma RankBounded(raws: seq<seq<byte>>, k: nat)
    ensures Rank(raws, k) <= k
    ensures Rank(raws, k) == k <==> forall v: Row :: |v| == k ==> InSpan(v, Parsed(raws, k))
  {
    hide InSpan, IsEchelon;
    var basis := Feed(raws, k);
    RankAtMost(basis, k);
    FeedSpan(raws, k);
    if Rank(raws, k) == k {
      forall v: Row | |v| == k ensures InSpan(v, Parsed(raws, k)) {
        FullRankSpansAll(v, basis);
      }
    }
    if forall v: Row :: |v| == k ==> InSpan(v, Parsed(raws, k)) {
      SpanningHasFullRank(basis, k);
    }
  }

  function Unit(k: nat, q: nat): Row
    requires q < k
  {
    seq(k, c => if c == q then 1 else 0)
  }

  lemma SpanningHasFullRank(basis: seq<Row>, k: nat)
    requires IsEchelon(basis, k) && forall v: Row :: |v| == k ==> InSpan(v, basis)
    ensures |basis| == k
  {
    hide InSpan;
    forall q: nat ensures q in Pivots(basis) <==> q in Below(k) {
      if q < k {
        var e := Unit(k, q);
        LeadUnique(e, q);
        assert |e| == k && InSpan(e, basis) && Lead(e) == q;
        PivotsAreLeads(basis, k, q);
      }
    }
    assert Pivots(basis) == Below(k);
    PivotCount(basis, k);
  }

  // The basis object.

  /** The tracked basis; Reset truncates it for the next group of seeds. */
  class EchelonBasis {
    const k: nat
    var basis: seq<Row>

    ghost predicate Valid()
      reads this
    {
      IsEchelon(basis, k)
    }

    constructor (k: nat)
      ensures Valid() && this.k == k && basis == []
    {
      this.k := k;
      basis := [];
    }

    method Reset()
      modifies this
      ensures Valid() && basis == []
    {
      basis := [];
    }

    method RankOf() returns (r: nat)
      requires Valid()
      ensures r == |basis| <= k
    {
      RankAtMost(basis, k);
      r := |basis|;
    }

    /** Tests the coefficient row against the basis and adds it when it is independent. */
    method TryAdd(raw: seq<byte>) returns (added: bool)
      requires Valid()
      modifies this
      ensures Valid()
      ensures (added, basis) == Added(old(basis), k, raw)
      ensures added <==> WellFormed(raw, k) && !InSpan(Parse(raw, k), old(basis))
      ensures added ==> SameSpan(basis, old(basis) + [Parse(raw, k)], k)
      ensures !added ==> basis == old(basis)
    {
      hide Add, Sub, Mul, Rep, Inverse, InSpan, Reduce, Normalize, Parse;
      AddedDecides(basis, k, raw);
      AddedKeepsEchelon(basis, k, raw);
      if |basis| >= k || !WellFormed(raw, k) {
        return false;
      }
      var row := ToField(raw, k);
      EliminateAll(row, basis);
      var pivotCol := FirstNonzero(row[..]);
      if pivotCol == -1 {
        return false;
      }
      NormalizeFrom(row, pivotCol);
      basis := basis + [row[..]];
      return true;
    }
  }

  /** Step 1: convert the bytes to field elements. */
  method ToField(raw: seq<byte>, k: nat) returns (row: array<Fr>)
    requires WellFormed(raw, k)
    ensures fresh(row) && row.Length == k && row[..] == Parse(raw, k)
  {
    row := new Fr[k];
    for j := 0 to k
      invariant forall c :: 0 <= c < j ==> row[c] == Coefficient(raw, k, c)
    {
      row[j] := Coefficient(raw, k, j);
    }
  }

  /** Step 2: eliminate the row against the basis, in insertion order. */
  method EliminateAll(row: array<Fr>, basis: seq<Row>)
    requires IsEchelon(basis, row.Length)
    modifies row
    ensures row[..] == Reduce(old(row[..]), basis)
  {
    hide Add, Sub, Mul, Rep, Eliminate;
    ghost var was := row[..];
    for i := 0 to |basis|
      invariant row[..] == Reduce(was, basis[..i])
    {
      assert basis[..i + 1][..i] == basis[..i];
      var pivotCol := FirstNonzero(basis[i]);
      if row[pivotCol] != 0 {
        ClearColumn(row, basis[i], pivotCol);
      } else {
        NothingToClear(row[..], basis[i]);
      }
    }
    assert basis[..|basis|] == basis;
  }

  lemma NothingToClear(row: Row, b: Row)
    requires |row| == |b| && Lead(b) < |b| && row[Lead(b)] == 0
    ensures Eliminate(row, b) == row
  {
    AxpyZero(row, b);
  }

  /** Step 4: scale the row so that its pivot is 1. */
  method NormalizeFrom(row: array<Fr>, pivotCol: nat)
    requires Lead(row[..]) == pivotCol < row.Length
    modifies row
    ensures row[..] == Normalize(old(row[..]))
  {
    hide Add, Sub, Mul, Rep, Inverse;
    ghost var was := row[..];
    var inv := Inverse(row[pivotCol]);
    forall c | 0 <= c < pivotCol ensures Normalize(was)[c] == was[c] {
      Units(inv);
    }
    for c := pivotCol to row.Length
      invariant forall j :: 0 <= j < row.Length ==> row[j] == if j < c then Normalize(was)[j] else was[j]
    {
      row[c] := Mul(row[c], inv);
    }
  }

  /** The scan for a pivot column; -1 when the row is zero. */
  method FirstNonzero(row: seq<Fr>) returns (pivotCol: int)
    ensures pivotCol == if Lead(row) == |row| then -1 else Lead(row)
  {
    pivotCol := -1;
    for c := 0 to |row|
      invariant pivotCol == -1
      invariant forall j :: 0 <= j < c ==> row[j] == 0
    {
      if row[c] != 0 {
        LeadUnique(row, c);
        pivotCol := c;
        break;
      }
    }
  }

  /** Subtract factor times the basis row, from the pivot column on. */
  method ClearColumn(row: array<Fr>, b: Row, pivotCol: nat)
    requires row.Length == |b| && Lead(b) == pivotCol < |b|
    modifies row
    ensures row[..] == Eliminate(old(row[..]), b)
  {
    hide Add, Sub, Mul, Rep;
    ghost var was := row[..];
    var factor := row[pivotCol];
    forall c | 0 <= c < pivotCol ensures Eliminate(was, b)[c] == was[c] {
      Units(factor);
      Units(was[c]);
    }
    for c := pivotCol to row.Length
      invariant row[..] == seq(|b|, j requires 0 <= j < |b| => if j < c then Eliminate(was, b)[j] else was[j])
    {
      var term := Mul(b[c], factor);
      assert row[c] == row[..][c] == was[c];
      row[c] := Sub(row[c], term);
      assert row[c] == Eliminate(was, b)[c];
    }
    assert row[..] == Eliminate(was, b);
  }
}
