/**
 The three independence tests: the store node's, the bootstrap node's and the light node's.
 Each decides whether a coefficient row lies outside the span of the rows already held.
 */
module Independence {
  import opened Bytes
  import opened PrimeField
  import opened LinearSpan
  import opened Echelon

  /** The question all three tests mean to answer. */
  ghost predicate Outside(existing: seq<seq<byte>>, raw: seq<byte>, k: nat) {
    WellFormed(raw, k) && !InSpan(Parse(raw, k), Parsed(existing, k))
  }

  predicate HasNonzeroByte(raw: seq<byte>) {
    exists i :: 0 <= i < |raw| && raw[i] != 0
  }

  // What each test answers.

  /** The store takes any first row with a nonzero byte, whatever its length. */
  ghost predicate StoreAnswer(existing: seq<seq<byte>>, raw: seq<byte>, k: nat) {
    if existing == [] then HasNonzeroByte(raw) else Outside(existing, raw, k)
  }

  /** The bootstrap and the light node refuse as soon as they are given k rows. */
  ghost predicate BoundedAnswer(existing: seq<seq<byte>>, raw: seq<byte>, k: nat) {
    |existing| < k && Outside(existing, raw, k)
  }

  /** The store node's test. */
  method StoreIsIndependent(existing: seq<seq<byte>>, raw: seq<byte>, k: nat) returns (r: bool)
    ensures r <==> StoreAnswer(existing, raw, k)
  {
    hide InSpan, IsEchelon, Added;
    if existing == [] {
      for i := 0 to |raw|
        invariant forall j :: 0 <= j < i ==> raw[j] == 0
      {
        if raw[i] != 0 {
          return true;
        }
      }
      return false;
    }
    var basis := FeedBasis(existing, k);
    FeedSpan(existing, k);
    var rank := basis.RankOf();
    if rank >= k {
      RankBounded(existing, k);
      return false;
    }
    r := basis.TryAdd(raw);
  }

  /** The bootstrap node's test. */
  method BootstrapIsIndependent(existing: seq<seq<byte>>, raw: seq<byte>, k: nat) returns (r: bool)
    ensures r <==> BoundedAnswer(existing, raw, k)
  {
    hide InSpan, IsEchelon, Added;
    if |existing| >= k {
      return false;
    }
    var basis := FeedBasis(existing, k);
    FeedSpan(existing, k);
    r := basis.TryAdd(raw);
  }

  method FeedBasis(existing: seq<seq<byte>>, k: nat) returns (basis: EchelonBasis)
    ensures fresh(basis) && basis.Valid() && basis.k == k && basis.basis == Feed(existing, k)
  {
    hide InSpan, IsEchelon, Added;
    basis := new EchelonBasis(k);
    for i := 0 to |existing|
      invariant fresh(basis) && basis.Valid() && basis.k == k && basis.basis == Feed(existing[..i], k)
    {
      assert existing[..i + 1][..i] == existing[..i];
      var _ := basis.TryAdd(existing[i]);
    }
    assert existing[..|existing|] == existing;
  }

  // The light node keeps its rows in slots, one per pivot column; an empty slot is an absent row.

  predicate SlotsOk(slots: seq<Row>, k: nat) {
    && |slots| == k
    && forall c :: 0 <= c < k && slots[c] != [] ==> |slots[c]| == k && Lead(slots[c]) == c && slots[c][c] == 1
  }

  function Collected(slots: seq<Row>): seq<Row> {
    if slots == [] then []
    else
      var n := |slots| - 1;
      Collected(slots[..n]) + if slots[n] == [] then [] else [slots[n]]
  }

  lemma {:induction false} CollectedMembers(slots: seq<Row>, x: Row)
    ensures x in Collected(slots) <==> x != [] && x in slots
  {
    if slots != [] {
      CollectedMembers(slots[..|slots| - 1], x);
      assert slots == slots[..|slots| - 1] + [slots[|slots| - 1]];
    }
  }

  /** Read in column order, the slots meet the same invariant as the insertion-ordered basis. */
  lemma {:induction false} CollectedEchelon(slots: seq<Row>, k: nat)
    requires |slots| <= k
    requires forall c :: 0 <= c < |slots| && slots[c] != [] ==>
                           |slots[c]| == k && Lead(slots[c]) == c && slots[c][c] == 1
    ensures IsEchelon(Collected(slots), k)
    ensures forall i :: 0 <= i < |Collected(slots)| ==> Lead(Collected(slots)[i]) < |slots|
  {
    if slots != [] {
      var n := |slots| - 1;
      CollectedEchelon(slots[..n], k);
      EchelonAppend(Collected(slots[..n]), slots[n], k, n);
    }
  }

  lemma EchelonAppend(rows: seq<Row>, b: Row, k: nat, n: nat)
    requires IsEchelon(rows, k) && n < k && forall i :: 0 <= i < |rows| ==> Lead(rows[i]) < n
    requires b != [] ==> |b| == k && Lead(b) == n && b[n] == 1
    ensures b != [] ==> IsEchelon(rows + [b], k)
  {
    var all := rows + [b];
    if b != [] {
      forall i, j | 0 <= i < j < |all| ensures all[j][Lead(all[i])] == 0 {
        assert Lead(all[i]) < n;
      }
    }
  }

  /** v and x lie on the same side of every span that includes the rows. */
  ghost predicate SameSide(v: Row, x: Row, rows: seq<Row>)
    requires |v| == |x|
  {
    forall s: seq<Row> :: Rect(s, |x|) && (forall b :: b in rows ==> b in s) ==> (InSpan(v, s) <==> InSpan(x, s))
  }

  lemma SameSideStep(v: Row, x: Row, rows: seq<Row>, b: Row)
    requires |v| == |x| == |b| && SameSide(v, x, rows) && b in rows && Lead(b) < |b|
    ensures SameSide(Eliminate(v, b), x, rows)
  {
    hide InSpan, Add, Sub, Mul, Rep;
    var w := Eliminate(v, b);
    forall s: seq<Row> | Rect(s, |x|) && (forall y :: y in rows ==> y in s)
      ensures InSpan(w, s) <==> InSpan(x, s)
    {
      assert b in s;
      var i :| 0 <= i < |s| && s[i] == b;
      SpanMember(s, i);
      SpanStep(v, v[Lead(b)], b, s);
    }
  }

  /** A row that leads in an empty slot is outside, and filling the slot adds it to the span. */
  lemma SlotFilled(slots: seq<Row>, v: Row, x: Row, col: nat)
    requires SlotsOk(slots, |x|) && |v| == |x| && SameSide(v, x, Collected(slots))
    requires col < |x| && Lead(v) == col && slots[col] == []
    ensures SlotsOk(slots[col := Normalize(v)], |x|)
    ensures Rect(Collected(slots), |x|) && !InSpan(x, Collected(slots))
    ensures Rect(Collected(slots[col := Normalize(v)]), |x|)
    ensures SameSpan(Collected(slots[col := Normalize(v)]), Collected(slots) + [x], |x|)
  {
    hide InSpan, Add, Sub, Mul, Rep, Inverse, Normalize;
    var k, n, rows := |x|, Normalize(v), Collected(slots);
    NormalizeLead(v);
    var slots' := slots[col := n];
    CollectedEchelon(slots, k);
    CollectedEchelon(slots', k);
    if InSpan(x, rows) {
      assert InSpan(v, rows);
      LeadIsPivot(v, rows);
      var i :| 0 <= i < |rows| && Lead(rows[i]) == col;
      CollectedMembers(slots, rows[i]);
    }
    RowsStayInSpan(rows, x);
    RowsStayInSpan(rows, n);
    NormalizeSpan(v, rows + [x]);
    NormalizeSpan(v, rows + [n]);
    assert InSpan(n, rows + [x]) && InSpan(x, rows + [n]);
    SameSpanReflexive(rows, k);
    SpanExtend(rows, rows, n, x);
    forall y ensures y in Collected(slots') <==> y in rows + [n] {
      CollectedMembers(slots', y);
      CollectedMembers(slots, y);
      SlotMembers(slots, col, n, y);
    }
    SpanOfSet(Collected(slots'), rows + [n], k);
  }

  lemma SlotMembers(slots: seq<Row>, col: nat, n: Row, y: Row)
    requires col < |slots| && slots[col] == []
    ensures y != [] ==> (y in slots[col := n] <==> y in slots || y == n)
  {
    if y != [] && y in slots {
      var i :| 0 <= i < |slots| && slots[i] == y;
      assert slots[col := n][i] == y;
    }
    if y == n {
      assert slots[col := n][col] == n;
    }
  }

  /** The closure that adds one row to the slots. */
  method AddRow(slots: array<Row>, raw: seq<byte>, k: nat) returns (added: bool)
    requires SlotsOk(slots[..], k)
    modifies slots
    ensures SlotsOk(slots[..], k)
    ensures Rect(Collected(old(slots[..])), k) && Rect(Collected(slots[..]), k)
    ensures added <==> WellFormed(raw, k) && !InSpan(Parse(raw, k), Collected(old(slots[..])))
    ensures added ==> SameSpan(Collected(slots[..]), Collected(old(slots[..])) + [Parse(raw, k)], k)
    ensures !added ==> slots[..] == old(slots[..])
  {
    hide InSpan, Add, Sub, Mul, Rep, Inverse, Normalize, Eliminate, Parse;
    ghost var was := slots[..];
    ghost var rows := Collected(was);
    CollectedEchelon(was, k);
    if !WellFormed(raw, k) {
      return false;
    }
    ghost var x := Parse(raw, k);
    var v := ToField(raw, k);
    for col := 0 to k
      modifies v, slots
      invariant slots[..] == was
      invariant SameSide(v[..], x, rows)
      invariant forall c :: 0 <= c < col ==> v[c] == 0
    {
      if v[col] != 0 {
        LeadUnique(v[..], col);
        var b := slots[col];
        if b != [] {
          CollectedMembers(was, b);
          SameSideStep(v[..], x, rows, b);
          EliminationKeepsZeros(v[..], b, col);
          ClearWithSlot(v, b, col);
        } else {
          SlotFilled(was, v[..], x, col);
          NormalizeSlot(v, col);
          slots[col] := v[..];
          assert slots[..] == was[col := v[..]];
          return true;
        }
      }
    }
    assert v[..] == Zero(k);
    SpanZero(rows, k);
    return false;
  }

  lemma EliminationKeepsZeros(v: Row, b: Row, col: nat)
    requires |v| == |b| && Lead(b) == col < |b| && b[col] == 1
    requires forall c :: 0 <= c < col ==> v[c] == 0
    ensures forall c :: 0 <= c <= col ==> Eliminate(v, b)[c] == 0
  {
    forall c | 0 <= c <= col ensures Eliminate(v, b)[c] == 0 {
      EliminateClears(v, b, c);
    }
  }

  /** Elimination by a slot row: the pivot entry is set to zero and zero entries are skipped. */
  method ClearWithSlot(v: array<Fr>, b: Row, col: nat)
    requires v.Length == |b| && Lead(b) == col < |b| && b[col] == 1
    modifies v
    ensures v[..] == Eliminate(old(v[..]), b)
  {
    hide Add, Sub, Mul, Rep, Eliminate;
    ghost var was := v[..];
    ghost var out := Eliminate(was, b);
    assert |out| == |b| by { EliminateLength(was, b); }
    forall c | 0 <= c < |b| && b[c] == 0 ensures out[c] == was[c] {
      EliminateClears(was, b, c);
    }
    EliminateClears(was, b, col);
    var factor := v[col];
    v[col] := 0;
    for j := col + 1 to v.Length
      invariant forall c :: 0 <= c < v.Length ==> v[c] == if c < j then out[c] else was[c]
    {
      if b[j] != 0 {
        EliminateAt(was, b, j);
        var term := Mul(b[j], factor);
        v[j] := Sub(v[j], term);
      }
    }
  }

  lemma EliminateLength(v: Row, b: Row)
    requires |v| == |b| && Lead(b) < |b|
    ensures |Eliminate(v, b)| == |v|
  {
  }

  lemma EliminateAt(v: Row, b: Row, j: nat)
    requires |v| == |b| && Lead(b) < |b| && j < |v|
    ensures |Eliminate(v, b)| == |v| && Eliminate(v, b)[j] == Sub(v[j], Mul(b[j], v[Lead(b)]))
  {
    hide Add, Sub, Mul, Rep;
  }

  /** Normalization in the light node: the pivot is set to one and zero entries are skipped. */
  method NormalizeSlot(v: array<Fr>, col: nat)
    requires Lead(v[..]) == col < v.Length
    modifies v
    ensures v[..] == Normalize(old(v[..]))
  {
    hide Add, Sub, Mul, Rep, Inverse, Normalize;
    ghost var was := v[..];
    ghost var out := Normalize(was);
    NormalizeLead(was);
    var inv := Inverse(v[col]);
    v[col] := 1;
    for j := col + 1 to v.Length
      invariant forall c :: 0 <= c < v.Length ==> v[c] == if c < j then out[c] else was[c]
    {
      if v[j] != 0 {
        NormalizeAt(was, j);
        v[j] := Mul(v[j], inv);
      }
    }
  }

  lemma NormalizeAt(v: Row, j: nat)
    requires Lead(v) < |v| && j < |v|
    ensures Normalize(v)[j] == Mul(v[j], Inverse(v[Lead(v)]))
  {
    hide Add, Sub, Mul, Rep, Inverse;
  }

  /** The light node's test. */
  method LightIsIndependent(existing: seq<seq<byte>>, raw: seq<byte>, k: nat) returns (r: bool)
    ensures r <==> BoundedAnswer(existing, raw, k)
  {
    hide InSpan, Collected, Parsed, Parse;
    if |existing| >= k {
      return false;
    }
    var slots := new Row[k](_ => []);
    EmptySlots(slots[..], k);
    for i := 0 to |existing|
      invariant SlotsOk(slots[..], k) && Rect(Collected(slots[..]), k)
      invariant SameSpan(Collected(slots[..]), Parsed(existing[..i], k), k)
    {
      ghost var rows := Collected(slots[..]);
      var added := AddRow(slots, existing[i], k);
      ParsedStep(existing, i, k, rows, Collected(slots[..]), added);
    }
    assert existing[..|existing|] == existing;
    r := AddRow(slots, raw, k);
  }

  lemma EmptySlots(slots: seq<Row>, k: nat)
    requires |slots| == k && forall c :: 0 <= c < k ==> slots[c] == []
    ensures SlotsOk(slots, k) && Collected(slots) == [] == Parsed([], k)
  {
    if k > 0 {
      EmptySlots(slots[..k - 1], k - 1);
    }
  }

  lemma ParsedStep(existing: seq<seq<byte>>, i: nat, k: nat, rows: seq<Row>, rows': seq<Row>, added: bool)
    requires i < |existing| && Rect(rows, k) && Rect(rows', k)
    requires SameSpan(rows, Parsed(existing[..i], k), k)
    requires added <==> WellFormed(existing[i], k) && !InSpan(Parse(existing[i], k), rows)
    requires added ==> SameSpan(rows', rows + [Parse(existing[i], k)], k)
    requires !added ==> rows' == rows
    ensures SameSpan(rows', Parsed(existing[..i + 1], k), k)
  {
    hide InSpan;
    var raw, old' := existing[i], Parsed(existing[..i], k);
    assert existing[..i + 1][..i] == existing[..i];
    if WellFormed(raw, k) {
      var x := Parse(raw, k);
      if added {
        RowsStayInSpan(rows, x);
        RowsStayInSpan(old', x);
        SpanExtend(rows, old', x, x);
      } else {
        RedundantRow(rows, old', x);
      }
    }
  }

  // When the answers coincide.

  /** A two-byte coefficient is its own residue, so a row is nonzero exactly when one of its bytes is. */
  lemma NonzeroBytes(raw: seq<byte>, k: nat)
    requires WellFormed(raw, k)
    ensures HasNonzeroByte(raw) <==> Parse(raw, k) != Zero(k)
  {
    var x := Parse(raw, k);
    if i :| 0 <= i < |raw| && raw[i] != 0 {
      var j := if |raw| == 2 * k then i / 2 else i;
      assert x[j] == Coefficient(raw, k, j) != 0;
      assert Zero(k)[j] == 0;
    }
    if x != Zero(k) {
      var j :| 0 <= j < k && x[j] != 0;
      assert Coefficient(raw, k, j) != 0;
      if |raw| == 2 * k {
        assert raw[2 * j] != 0 || raw[2 * j + 1] != 0;
      } else {
        assert raw[j] != 0;
      }
    }
  }

  /** The store differs from the other two exactly when it takes a malformed first row, or when it is
      asked with k or more dependent rows in hand. */
  lemma TestsAgreeExactly(existing: seq<seq<byte>>, raw: seq<byte>, k: nat)
    ensures (StoreAnswer(existing, raw, k) <==> BoundedAnswer(existing, raw, k)) <==>
            if existing == [] then HasNonzeroByte(raw) ==> WellFormed(raw, k)
            else |existing| < k || !Outside(existing, raw, k)
  {
    if existing == [] && WellFormed(raw, k) {
      NonzeroBytes(raw, k);
    }
  }

  /** With k or more rows in hand, of which k are independent, all three refuse. */
  lemma TestsAgreeOnIndependentRows(existing: seq<seq<byte>>, raw: seq<byte>, k: nat)
    requires forall c :: c in existing ==> WellFormed(c, k)
    requires Independent(Parsed(existing, k), k)
    requires existing == [] ==> WellFormed(raw, k)
    ensures StoreAnswer(existing, raw, k) <==> BoundedAnswer(existing, raw, k)
  {
    hide InSpan, Independent;
    TestsAgreeExactly(existing, raw, k);
    if WellFormed(raw, k) {
      FullCountIsIndependence(existing, k);
      ParsedCount(existing, k);
      RankBounded(existing, k);
    }
  }

  lemma {:induction false} ParsedCount(raws: seq<seq<byte>>, k: nat)
    ensures |Parsed(raws, k)| <= |raws|
    ensures |Parsed(raws, k)| == |raws| <==> forall c :: c in raws ==> WellFormed(c, k)
  {
    if raws != [] {
      var n := |raws| - 1;
      ParsedCount(raws[..n], k);
      assert raws == raws[..n] + [raws[n]];
    }
  }

  /** No test depends on the order in which the held rows are listed, unless their number does. */
  lemma AnswersIgnoreOrder(xs: seq<seq<byte>>, ys: seq<seq<byte>>, raw: seq<byte>, k: nat)
    requires forall c :: c in xs <==> c in ys
    ensures StoreAnswer(xs, raw, k) <==> StoreAnswer(ys, raw, k)
    ensures |xs| == |ys| ==> (BoundedAnswer(xs, raw, k) <==> BoundedAnswer(ys, raw, k))
  {
    hide InSpan;
    RankIgnoresOrder(xs, ys, k);
    if xs != [] {
      assert xs[0] in ys;
    }
    if ys != [] {
      assert ys[0] in xs;
    }
  }
}
