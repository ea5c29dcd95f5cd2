/**
 The coefficient-generation loop of the bootstrap's seed encoder: seeds come in groups of k,
 and inside a group every coefficient row must be independent of the ones before it.
 The random source is an input: a finite list of draws, one per attempt.
 */
module SeedEncoder {
  import opened Basics
  import opened Bytes
  import opened Division
  import opened PrimeField
  import opened LinearSpan
  import opened Echelon

  /** One read of the random source. */
  datatype Sample = Bytes(v: uint16) | Failed

  type Draw = seq<Sample>

  predicate Fits(draws: seq<Draw>, k: nat) {
    forall i :: 0 <= i < |draws| ==> |draws[i]| == k
  }

  // One attempt.

  /** The coefficient at position i of the given attempt, when the basis holds `rank` rows. */
  function Entry(draw: Draw, attempt: nat, rank: nat, i: nat): uint16
    requires i < |draw|
  {
    if attempt > 50 && i == rank then (1001 + attempt) % 0x1_0000
    else match draw[i]
      case Bytes(v) => v % 1000 + 1
      case Failed => (i + 1) % 0x1_0000
  }

  function Entries(draw: Draw, attempt: nat, rank: nat): (vs: seq<uint16>)
    ensures |vs| == |draw|
  {
    seq(|draw|, i requires 0 <= i < |draw| => Entry(draw, attempt, rank, i))
  }

  /** Two big-endian bytes per entry. */
  function ToBytes(vs: seq<uint16>): (raw: seq<byte>)
    ensures |raw| == 2 * |vs|
  {
    seq(2 * |vs|, i requires 0 <= i < 2 * |vs| => if i % 2 == 0 then vs[i / 2] / 256 else vs[i / 2] % 256)
  }

  function Coefficients(draw: Draw, attempt: nat, rank: nat): (raw: seq<byte>)
    ensures |raw| == 2 * |draw|
  {
    ToBytes(Entries(draw, attempt, rank))
  }

  lemma ParseToBytes(vs: seq<uint16>)
    ensures Parse(ToBytes(vs), |vs|) == vs
  {
    var k, raw := |vs|, ToBytes(vs);
    forall j | 0 <= j < k ensures Parse(raw, k)[j] == vs[j] {
      assert (2 * j + 1) % 2 == 1 && (2 * j + 1) / 2 == j;
      assert Coefficient(raw, k, j) == U16(raw[2 * j], raw[2 * j + 1]) == vs[j];
    }
  }

  /** The number at place i of a drawn row, the high byte first: 1 up to 1000 by the bytes drawn, or the place itself, one
      up, when the draw failed; from the 51st attempt on, in place of the number at the next free row of the basis, 1001
      plus the attempt, to 16 bits. */
  lemma DrawnNumbers(draw: Draw, attempt: nat, rank: nat, i: nat)
    requires i < |draw|
    ensures var raw := Coefficients(draw, attempt, rank);
            256 * (raw[2 * i] as int) + raw[2 * i + 1] ==
            if attempt >= 51 && i == rank then (1001 + attempt) % 65536
            else if draw[i].Failed? then (i + 1) % 65536
            else draw[i].v % 1000 + 1
  {
    hide Entry;
    EntryIs(draw, attempt, rank, i);
    var vs, raw := Entries(draw, attempt, rank), Coefficients(draw, attempt, rank);
    assert (2 * i) / 2 == i && (2 * i) % 2 == 0 && (2 * i + 1) / 2 == i && (2 * i + 1) % 2 == 1;
    assert raw[2 * i] == vs[i] / 256 && raw[2 * i + 1] == vs[i] % 256;
  }

  lemma EntryIs(draw: Draw, attempt: nat, rank: nat, i: nat)
    requires i < |draw|
    ensures Entry(draw, attempt, rank, i) ==
            if attempt >= 51 && i == rank then (1001 + attempt) % 65536
            else if draw[i].Failed? then (i + 1) % 65536
            else draw[i].v % 1000 + 1
  {
  }

  method PutUint16(raw: array<byte>, at: nat, v: uint16)
    requires at + 1 < raw.Length
    modifies raw
    ensures raw[..] == old(raw[..])[at := v / 256][at + 1 := v % 256]
  {
    raw[at] := v / 256;
    raw[at + 1] := v % 256;
  }

  /** Fill the coefficient buffer, then apply the deterministic override after 50 attempts. */
  method DrawCoefficients(draw: Draw, attempt: nat, rank: nat) returns (raw: array<byte>)
    ensures fresh(raw) && raw[..] == Coefficients(draw, attempt, rank)
  {
    var k := |draw|;
    raw := new byte[2 * k];
    ghost var vs := Entries(draw, 0, rank);
    for i := 0 to k
      invariant forall c :: 0 <= c < 2 * i ==> raw[c] == ToBytes(vs)[c]
    {
      PutUint16(raw, 2 * i, if draw[i].Failed? then (i + 1) % 0x1_0000 else draw[i].v % 1000 + 1);
      assert (2 * i + 1) / 2 == i;
    }
    assert raw[..] == ToBytes(vs);
    if attempt > 50 && rank < k {
      PutUint16(raw, 2 * rank, (1001 + attempt) % 0x1_0000);
    }
    assert raw[..] == Coefficients(draw, attempt, rank);
  }

  // The whole loop.

  /** One accepted seed: its coefficients, the attempts it took and the draws left. */
  datatype Seed = Exhausted | Seed(raw: seq<byte>, attempts: nat, rest: seq<Draw>)

  /** Retry until the row is independent of the basis, or the draws run out. */
  function NextSeed(basis: seq<Row>, k: nat, draws: seq<Draw>, attempts: nat): (s: Seed)
    requires IsEchelon(basis, k) && Fits(draws, k)
    ensures s.Seed? ==> Fits(s.rest, k) && Added(basis, k, s.raw).0
    ensures s.Seed? ==> attempts < s.attempts && |s.rest| + s.attempts == |draws| + attempts
    decreases |draws|
  {
    if draws == [] then Exhausted
    else
      var raw := Coefficients(draws[0], attempts + 1, |basis|);
      if Added(basis, k, raw).0 then Seed(raw, attempts + 1, draws[1..])
      else NextSeed(basis, k, draws[1..], attempts + 1)
  }

  /** The attempt after the first `tried` that uses the i-th draw is refused. */
  predicate Refused(basis: seq<Row>, k: nat, draws: seq<Draw>, tried: nat, i: nat)
    requires IsEchelon(basis, k) && i < |draws|
  {
    !Added(basis, k, Coefficients(draws[i], tried + i + 1, |basis|)).0
  }

  /** A seed is the first row that is not refused, and the draws after it are left; without one all were refused. */
  lemma {:induction false} FirstAccepted(basis: seq<Row>, k: nat, draws: seq<Draw>, tried: nat)
    requires IsEchelon(basis, k) && Fits(draws, k)
    ensures var s := NextSeed(basis, k, draws, tried);
            match s
            case Exhausted => forall i: nat :: i < |draws| ==> Refused(basis, k, draws, tried, i)
            case Seed(raw, attempts, rest) =>
              var last := attempts - tried - 1;
              && 0 <= last < |draws| && rest == draws[last + 1..]
              && raw == Coefficients(draws[last], attempts, |basis|)
              && !Refused(basis, k, draws, tried, last)
              && forall i: nat :: i < last ==> Refused(basis, k, draws, tried, i)
    decreases |draws|
  {
    hide IsEchelon, Added, Coefficients;
    if draws != [] {
      FirstAccepted(basis, k, draws[1..], tried + 1);
      forall i: nat | 1 <= i < |draws|
        ensures Refused(basis, k, draws, tried, i) <==> Refused(basis, k, draws[1..], tried + 1, i - 1)
      {
      }
    }
  }

  /** The seeds of one run, or None when the draws ran out first. */
  datatype Run = Unfinished | Finished(seeds: seq<seq<byte>>, attempts: seq<nat>, rest: seq<Draw>)

  /** The position of the n-th seed in its group of k. */
  function Position(n: nat, k: nat): (m: nat)
    requires k > 0
    ensures m < k
  {
    n % k
  }

  /** The start of the group of k that the n-th seed falls into. */
  function GroupStart(n: nat, k: nat): (s: nat)
    requires k > 0
    ensures s <= n < s + k
  {
    n - n % k
  }

  lemma NextRemainder(n: nat, k: nat)
    requires k > 0
    ensures (n + 1) % k == if n % k + 1 == k then 0 else n % k + 1
    ensures GroupStart(n + 1, k) == if (n + 1) % k == 0 then n + 1 else GroupStart(n, k)
  {
    var q, r := n / k, n % k;
    assert k * q + r == n;
    if r + 1 == k {
      assert k * (q + 1) == k * q + k;
      QuotientUnique(k, q + 1, 0, (n + 1) / k, (n + 1) % k);
    } else {
      QuotientUnique(k, q, r + 1, (n + 1) / k, (n + 1) % k);
    }
  }

  /** The first n seeds. */
  function Seeds(n: nat, k: nat, draws: seq<Draw>): (r: Run)
    requires k > 0 && Fits(draws, k)
    ensures r.Finished? ==> |r.seeds| == |r.attempts| == n && Fits(r.rest, k)
  {
    if n == 0 then Finished([], [], draws)
    else
      match Seeds(n - 1, k, draws)
      case Unfinished => Unfinished
      case Finished(seeds, attempts, rest) =>
        var basis := Feed(seeds[GroupStart(n - 1, k)..], k);
        match NextSeed(basis, k, rest, 0)
        case Exhausted => Unfinished
        case Seed(raw, a, rest') => Finished(seeds + [raw], attempts + [a], rest')
  }

  /** The retry loop of one seed. */
  method FindSeed(basis: EchelonBasis, draws: seq<Draw>) returns (s: Seed)
    requires basis.Valid() && Fits(draws, basis.k)
    modifies basis
    ensures basis.Valid()
    ensures s == NextSeed(old(basis.basis), basis.k, draws, 0)
    ensures basis.basis == if s.Seed? then Added(old(basis.basis), basis.k, s.raw).1 else old(basis.basis)
  {
    hide IsEchelon, Added, InSpan, Coefficients;
    ghost var was := basis.basis;
    var attempts, rest := 0, draws;
    while rest != []
      invariant Fits(rest, basis.k) && basis.Valid() && basis.basis == was
      invariant NextSeed(was, basis.k, rest, attempts) == NextSeed(was, basis.k, draws, 0)
    {
      attempts := attempts + 1;
      var rank := basis.RankOf();
      var coeffs := DrawCoefficients(rest[0], attempts, rank);
      rest := rest[1..];
      var added := basis.TryAdd(coeffs[..]);
      if added {
        return Seed(coeffs[..], attempts, rest);
      }
    }
    return Exhausted;
  }

  method EncodeSeeds(k: nat, requested: int, draws: seq<Draw>) returns (run: Run)
    requires k > 0 && Fits(draws, k)
    ensures run == Seeds(if requested <= 0 then k else requested, k, draws)
  {
    hide IsEchelon, Added, InSpan, NextSeed, Feed, Fits;
    var count: nat := if requested <= 0 then k else requested;
    var seeds: seq<seq<byte>>, tries: seq<nat>, rest := [], [], draws;
    var basis := new EchelonBasis(k);
    EmptyFeed(k);
    for seedIdx := 0 to count
      invariant Fits(rest, k) && Seeds(seedIdx, k, draws) == Finished(seeds, tries, rest)
      invariant fresh(basis) && basis.Valid() && basis.k == k
      invariant seedIdx == 0 ==> basis.basis == []
      invariant seedIdx > 0 ==> basis.basis == Feed(seeds[GroupStart(seedIdx - 1, k)..], k)
    {
      if seedIdx > 0 {
        NextRemainder(seedIdx - 1, k);
        if seedIdx % k == 0 {
          basis.Reset();
        }
      }
      ghost var start := GroupStart(seedIdx, k);
      assert basis.basis == Feed(seeds[start..], k);
      var s := FindSeed(basis, rest);
      if s.Exhausted? {
        SeedsMonotone(seedIdx + 1, count, k, draws);
        return Unfinished;
      }
      FeedLast(seeds[start..], s.raw, k);
      assert (seeds + [s.raw])[start..] == seeds[start..] + [s.raw];
      seeds, tries, rest := seeds + [s.raw], tries + [s.attempts], s.rest;
    }
    return Finished(seeds, tries, rest);
  }

  lemma {:induction false} SeedsMonotone(n: nat, m: nat, k: nat, draws: seq<Draw>)
    requires k > 0 && Fits(draws, k) && n <= m && Seeds(n, k, draws).Unfinished?
    ensures Seeds(m, k, draws).Unfinished?
    decreases m
  {
    hide IsEchelon, Added, NextSeed, Feed, GroupStart;
    if n < m {
      SeedsMonotone(n, m - 1, k, draws);
    }
  }

  // Every group is independent.

  lemma GroupStartIsMultiple(n: nat, k: nat)
    requires k > 0
    ensures GroupStart(n, k) % k == 0
  {
    QuotientUnique(k, n / k, 0, GroupStart(n, k) / k, GroupStart(n, k) % k);
  }

  /** The rows reach rank k and so span everything: any receiver of them can decode. */
  ghost predicate FullRank(raws: seq<seq<byte>>, k: nat) {
    && Rank(raws, k) == k
    && forall v: Row :: |v| == k ==> InSpan(v, Parsed(raws, k))
  }

  /** The group of k seeds that starts at s, the last one perhaps shorter. */
  function GroupAt(seeds: seq<seq<byte>>, s: nat, k: nat): seq<seq<byte>> {
    if s > |seeds| then [] else seeds[s..Min(s + k, |seeds|)]
  }

  /** In a finished run every group of k consecutive seeds is independent, and every whole group has full rank. */
  lemma {:induction false} GroupIndependent(n: nat, k: nat, draws: seq<Draw>, s: nat)
    requires k > 0 && Fits(draws, k) && Seeds(n, k, draws).Finished? && s < n && s % k == 0
    ensures var group := GroupAt(Seeds(n, k, draws).seeds, s, k);
            && Rank(group, k) == |group| == |Parsed(group, k)|
            && Independent(Parsed(group, k), k)
            && (s + k <= n ==> FullRank(group, k))
  {
    hide IsEchelon, Added, InSpan, Independent, NextSeed, Feed, Parsed, Rank, Fits;
    var seeds := Seeds(n, k, draws).seeds;
    GroupRank(n, k, draws, s);
    var group := GroupAt(seeds, s, k);
    FullCountIsIndependence(group, k);
    ParsedNoLonger(group, k);
    if s + k <= n {
      RankBounded(group, k);
    }
  }

  lemma {:induction false} ParsedNoLonger(raws: seq<seq<byte>>, k: nat)
    ensures |Parsed(raws, k)| <= |raws|
  {
    if raws != [] {
      ParsedNoLonger(raws[..|raws| - 1], k);
    }
  }

  lemma LastSeed(n: nat, k: nat, draws: seq<Draw>)
    requires n > 0 && k > 0 && Fits(draws, k) && Seeds(n, k, draws).Finished?
    ensures Seeds(n - 1, k, draws).Finished?
    ensures var seeds, before := Seeds(n, k, draws).seeds, Seeds(n - 1, k, draws).seeds;
            && seeds == before + [seeds[n - 1]]
            && Added(Feed(before[GroupStart(n - 1, k)..], k), k, seeds[n - 1]).0
  {
    hide IsEchelon, Added, InSpan, Feed, NextSeed, GroupStart, Fits;
  }

  lemma GrownRank(raws: seq<seq<byte>>, raw: seq<byte>, k: nat)
    requires Added(Feed(raws, k), k, raw).0
    ensures Rank(raws + [raw], k) == Rank(raws, k) + 1
  {
    hide IsEchelon, Added, InSpan, Feed;
    FeedLast(raws, raw, k);
    AddedGrowsByOne(Feed(raws, k), k, raw);
  }

  lemma {:induction false} GroupRank(n: nat, k: nat, draws: seq<Draw>, s: nat)
    requires k > 0 && Fits(draws, k) && Seeds(n, k, draws).Finished? && s < n && s % k == 0
    ensures Rank(Seeds(n, k, draws).seeds[s..Min(s + k, n)], k) == Min(s + k, n) - s
  {
    hide IsEchelon, Added, InSpan, Feed, NextSeed, Seeds, Fits, GroupStart;
    var seeds, start := Seeds(n, k, draws).seeds, GroupStart(n - 1, k);
    LastSeed(n, k, draws);
    var before := Seeds(n - 1, k, draws).seeds;
    GroupStartIsMultiple(n - 1, k);
    if s == start {
      assert seeds[s..n] == before[s..] + [seeds[n - 1]];
      GrownRank(before[s..], seeds[n - 1], k);
      if s < n - 1 {
        GroupRank(n - 1, k, draws, s);
        assert before[s..n - 1] == before[s..];
      } else {
        EmptyFeed(k);
        assert before[s..] == [];
      }
    } else {
      if s < start {
        SameRemainder(s, start, k);
      } else {
        SameRemainder(start, s, k);
        assert false;
      }
      GroupRank(n - 1, k, draws, s);
      assert seeds[s..s + k] == before[s..s + k];
    }
  }

  // The fallback alone.

  predicate AllFail(draws: seq<Draw>) {
    forall i, j :: 0 <= i < |draws| && 0 <= j < |draws[i]| ==> draws[i][j].Failed?
  }

  /** The row every attempt up to the fiftieth produces when the random source fails. */
  function BaseRow(k: nat): (vs: seq<uint16>)
    ensures |vs| == k
  {
    seq(k, i requires 0 <= i < k => (i + 1) % 0x1_0000)
  }

  /** The attempts the seed at position m of its group takes when the random source always fails. */
  function FallbackAttempts(m: nat): nat {
    if m == 0 then 1 else if (m + 1) % 0x1_0000 == 1052 then 52 else 51
  }

  /** The row the seed at position m ends up with. */
  function FallbackRow(k: nat, m: nat): (vs: seq<uint16>)
    requires m < k
    ensures |vs| == k
  {
    if m == 0 then BaseRow(k) else BaseRow(k)[m := (1001 + FallbackAttempts(m)) % 0x1_0000]
  }

  function FallbackGroup(k: nat, m: nat): (raws: seq<seq<byte>>)
    requires m <= k
    ensures |raws| == m && forall i :: 0 <= i < m ==> raws[i] == ToBytes(FallbackRow(k, i))
  {
    seq(m, i requires 0 <= i < m => ToBytes(FallbackRow(k, i)))
  }

  lemma FailedEntries(draw: Draw, attempt: nat, rank: nat)
    requires (forall j :: 0 <= j < |draw| ==> draw[j].Failed?) && rank < |draw|
    ensures Entries(draw, attempt, rank) ==
            if attempt > 50 then BaseRow(|draw|)[rank := (1001 + attempt) % 0x1_0000] else BaseRow(|draw|)
  {
  }

  /** Where every generator has entry m equal to c times entry 0, so has every row of the span. */
  lemma {:induction false} ProportionalSpan(v: Row, rows: seq<Row>, m: nat, c: Fr)
    requires Rect(rows, |v|) && InSpan(v, rows) && m < |v|
    requires forall i :: 0 <= i < |rows| ==> rows[i][m] == Mul(c, rows[i][0])
    ensures v[m] == Mul(c, v[0])
    decreases |rows|
  {
    hide Add, Sub, Mul, Rep;
    if rows == [] {
      Units(c);
    } else {
      var a: Fr :| InSpan(Axpy(v, a, rows[0]), rows[1..]);
      ProportionalSpan(Axpy(v, a, rows[0]), rows[1..], m, c);
      Proportional(v[m], v[0], rows[0][0], a, c);
    }
  }

  lemma Proportional(vm: Fr, v0: Fr, r: Fr, a: Fr, c: Fr)
    requires Sub(vm, Mul(Mul(c, r), a)) == Mul(c, Sub(v0, Mul(r, a)))
    ensures vm == Mul(c, v0)
  {
    hide Add, Sub, Mul, Rep;
    RepOfFr(vm); RepOfFr(v0); RepOfFr(r); RepOfFr(a); RepOfFr(c);
    RepMul(c, r); RepMul(c * r, a); RepSub(vm, c * r * a);
    RepMul(r, a); RepSub(v0, r * a); RepMul(c, v0 - r * a); RepMul(c, v0);
    RepAdd(vm - c * r * a, c * r * a);
    RepAdd(c * (v0 - r * a), c * r * a);
    assert c * (v0 - r * a) + c * r * a == c * v0 by {
      assert c * (v0 - r * a) == c * v0 - c * (r * a);
      assert c * (r * a) == c * r * a;
    }
  }

  lemma FallbackAgrees(k: nat, m: nat, x: Row)
    requires 0 < m < k && x in Parsed(FallbackGroup(k, m), k)
    ensures |x| == k && x[0] == 1 && x[m] == BaseRow(k)[m]
  {
    hide Add, Sub, Mul, Rep, Parsed, ToBytes, Parse, FallbackRow, BaseRow;
    var raws := FallbackGroup(k, m);
    ParsedSet(raws, k, x);
    var raw :| raw in raws && WellFormed(raw, k) && Parse(raw, k) == x;
    var j :| 0 <= j < m && raw == raws[j];
    ParseToBytes(FallbackRow(k, j));
    FallbackEntries(k, m, j);
  }

  lemma FallbackEntries(k: nat, m: nat, j: nat)
    requires j < m < k
    ensures FallbackRow(k, j)[0] == 1 && FallbackRow(k, j)[m] == BaseRow(k)[m]
  {
  }

  /** After m fallback seeds a row that agrees with the base row at 0 but not at m is still outside. */
  lemma FallbackOutside(k: nat, m: nat, v: Row)
    requires 0 < m < k && |v| == k && v[0] == 1 && v[m] != BaseRow(k)[m]
    ensures !InSpan(v, Parsed(FallbackGroup(k, m), k))
  {
    hide Add, Sub, Mul, Rep, InSpan, Parsed, FallbackGroup;
    var rows, c: Fr := Parsed(FallbackGroup(k, m), k), BaseRow(k)[m];
    Units(c);
    if InSpan(v, rows) {
      forall i | 0 <= i < |rows| ensures rows[i][m] == Mul(c, rows[i][0]) {
        FallbackAgrees(k, m, rows[i]);
      }
      ProportionalSpan(v, rows, m, c);
    }
  }

  lemma BaseInside(k: nat, m: nat)
    requires 0 < m <= k
    ensures InSpan(Parse(ToBytes(BaseRow(k)), k), Parsed(FallbackGroup(k, m), k))
  {
    hide InSpan;
    var x, raws := Parse(ToBytes(BaseRow(k)), k), FallbackGroup(k, m);
    assert raws[0] == ToBytes(BaseRow(k));
    ParsedSet(raws, k, x);
    var rows := Parsed(raws, k);
    var i :| 0 <= i < |rows| && rows[i] == x;
    SpanMember(rows, i);
  }

  /** What the elimination answers to one more row after m fallback seeds. */
  lemma FallbackAnswer(k: nat, m: nat, vs: seq<uint16>)
    requires 0 < m < k == |vs| && vs[0] == 1
    ensures vs == BaseRow(k) ==> !Added(Feed(FallbackGroup(k, m), k), k, ToBytes(vs)).0
    ensures vs[m] != BaseRow(k)[m] ==> Added(Feed(FallbackGroup(k, m), k), k, ToBytes(vs)).0
  {
    hide IsEchelon, Added, InSpan, Feed, Parsed;
    var raws := FallbackGroup(k, m);
    AddedDecides(Feed(raws, k), k, ToBytes(vs));
    FeedSpan(raws, k);
    ParseToBytes(vs);
    BaseInside(k, m);
    if vs[m] != BaseRow(k)[m] {
      FallbackOutside(k, m, vs);
    }
  }

  lemma FirstFallback(k: nat)
    requires k > 0
    ensures Added([], k, ToBytes(BaseRow(k))).0
  {
    hide Add, Sub, Mul, Rep;
    AddedDecides([], k, ToBytes(BaseRow(k)));
    ParseToBytes(BaseRow(k));
    assert BaseRow(k)[0] == 1;
    assert Zero(k)[0] == 0;
  }

  lemma {:induction false} FallbackRank(k: nat, m: nat)
    requires 0 < m <= k
    ensures |Feed(FallbackGroup(k, m), k)| == m
  {
    hide IsEchelon, Added, InSpan, Feed;
    var raws := FallbackGroup(k, m - 1);
    assert FallbackGroup(k, m) == raws + [ToBytes(FallbackRow(k, m - 1))];
    FeedLast(raws, ToBytes(FallbackRow(k, m - 1)), k);
    AddedGrowsByOne(Feed(raws, k), k, ToBytes(FallbackRow(k, m - 1)));
    EmptyFeed(k);
    if m == 1 {
      FirstFallback(k);
    } else {
      FallbackRank(k, m - 1);
      FallbackAnswer(k, m - 1, FallbackRow(k, m - 1));
    }
  }

  /** From attempt `done` on, the search over failing draws ends at the predicted attempt. */
  lemma {:induction false} FallbackSearch(k: nat, m: nat, draws: seq<Draw>, done: nat)
    requires m < k && Fits(draws, k) && AllFail(draws)
    requires done < FallbackAttempts(m) <= done + |draws|
    ensures NextSeed(Feed(FallbackGroup(k, m), k), k, draws, done) ==
            Seed(ToBytes(FallbackRow(k, m)), FallbackAttempts(m), draws[FallbackAttempts(m) - done..])
    decreases |draws|
  {
    hide IsEchelon, Added, InSpan, Feed, Entries, ToBytes, Parsed;
    var basis, a := Feed(FallbackGroup(k, m), k), done + 1;
    if m == 0 {
      assert FallbackGroup(k, 0) == [];
      EmptyFeed(k);
      FirstFallback(k);
      FailedEntries(draws[0], a, 0);
    } else {
      FallbackRank(k, m);
      FailedEntries(draws[0], a, m);
      FallbackAnswer(k, m, Entries(draws[0], a, m));
      if a < FallbackAttempts(m) {
        assert BaseRow(k)[m := BaseRow(k)[m]] == BaseRow(k);
        FallbackSearch(k, m, draws[1..], a);
        assert draws[1..][FallbackAttempts(m) - a..] == draws[FallbackAttempts(m) - done..];
      }
    }
  }

  /** The run over failing draws: n seeds, each after the predicted number of attempts. */
  ghost predicate Predicted(r: Run, n: nat, k: nat, budget: int)
    requires k > 0
  {
    && r.Finished?
    && |r.seeds| == |r.attempts| == n
    && (forall i :: 0 <= i < n ==> r.attempts[i] == FallbackAttempts(Position(i, k)))
    && AllFail(r.rest) && |r.rest| >= budget
    && r.seeds[GroupStart(n, k)..] == FallbackGroup(k, Position(n, k))
  }

  lemma PredictedGrows(seeds: seq<seq<byte>>, tries: seq<nat>, rest: seq<Draw>, k: nat, budget: int)
    requires k > 0 && Predicted(Finished(seeds, tries, rest), |seeds|, k, budget) && 52 <= budget
    ensures var m := Position(|seeds|, k);
            FallbackAttempts(m) <= 52 &&
            Predicted(Finished(seeds + [ToBytes(FallbackRow(k, m))], tries + [FallbackAttempts(m)],
                               rest[FallbackAttempts(m)..]), |seeds| + 1, k, budget - 52)
  {
    hide ToBytes, FallbackGroup, FallbackRow, FallbackAttempts;
    var n := |seeds|;
    var m, start := Position(n, k), GroupStart(n, k);
    var raw := ToBytes(FallbackRow(k, m));
    FewAttempts(m);
    NextRemainder(n, k);
    FallbackGroupGrows(k, m);
    assert (seeds + [raw])[start..] == seeds[start..] + [raw];
    assert FallbackGroup(k, 0) == [] == (seeds + [raw])[n + 1..];
  }

  /** With a random source that always fails, the loop still ends: the seed at position m of its group
      takes exactly FallbackAttempts(m) attempts. */
  lemma {:induction false} FallbackTerminates(n: nat, k: nat, draws: seq<Draw>)
    requires k > 0 && Fits(draws, k) && AllFail(draws) && |draws| >= 52 * n
    ensures Predicted(Seeds(n, k, draws), n, k, |draws| - 52 * n)
  {
    hide *;
    if n == 0 {
      NothingDrawn(k, draws);
    } else {
      FallbackTerminates(n - 1, k, draws);
      PredictedParts(Seeds(n - 1, k, draws), n - 1, k, |draws| - 52 * (n - 1));
      var Finished(seeds, tries, rest) := Seeds(n - 1, k, draws);
      FallbackStep(n, k, Position(n - 1, k), draws, seeds, tries, rest);
      PredictedGrows(seeds, tries, rest, k, |draws| - 52 * (n - 1));
    }
  }

  lemma NothingDrawn(k: nat, draws: seq<Draw>)
    requires k > 0 && Fits(draws, k) && AllFail(draws)
    ensures Predicted(Seeds(0, k, draws), 0, k, |draws|)
  {
  }

  lemma PredictedParts(r: Run, n: nat, k: nat, budget: int)
    requires k > 0 && Predicted(r, n, k, budget)
    ensures r.Finished? && |r.seeds| == n && AllFail(r.rest) && |r.rest| >= budget
    ensures r.seeds[GroupStart(n, k)..] == FallbackGroup(k, Position(n, k))
  {
  }

  lemma SeedsStep(n: nat, k: nat, draws: seq<Draw>, seeds: seq<seq<byte>>, tries: seq<nat>, rest: seq<Draw>)
    requires 0 < n && 0 < k && Fits(draws, k) && Seeds(n - 1, k, draws) == Finished(seeds, tries, rest)
    requires |seeds| == n - 1 && Fits(rest, k)
    ensures var s := NextSeed(Feed(seeds[GroupStart(n - 1, k)..], k), k, rest, 0);
            s.Seed? ==> Seeds(n, k, draws) == Finished(seeds + [s.raw], tries + [s.attempts], s.rest)
  {
    hide IsEchelon, Added, InSpan, Feed, NextSeed, GroupStart, Fits;
  }

  lemma FallbackStep(n: nat, k: nat, m: nat, draws: seq<Draw>, seeds: seq<seq<byte>>, tries: seq<nat>,
                     rest: seq<Draw>)
    requires 0 < n && m < k && Fits(draws, k) && Seeds(n - 1, k, draws) == Finished(seeds, tries, rest)
    requires |seeds| == n - 1 && seeds[GroupStart(n - 1, k)..] == FallbackGroup(k, m)
    requires Fits(rest, k) && AllFail(rest) && |rest| >= 52
    ensures 1 <= FallbackAttempts(m) <= 52
    ensures Seeds(n, k, draws) == Finished(seeds + [ToBytes(FallbackRow(k, m))], tries + [FallbackAttempts(m)],
                                           rest[FallbackAttempts(m)..])
  {
    hide *;
    FewAttempts(m);
    FallbackSearch(k, m, rest, 0);
    SeedsStep(n, k, draws, seeds, tries, rest);
  }

  lemma RemainderBound(n: nat, k: nat)
    requires k > 0
    ensures Position(n, k) <= n && (n < k ==> Position(n, k) == n)
  {
  }

  lemma FallbackGroupGrows(k: nat, m: nat)
    requires m < k
    ensures FallbackGroup(k, m + 1) == FallbackGroup(k, m) + [ToBytes(FallbackRow(k, m))]
  {
    hide FallbackRow, ToBytes;
  }

  /** The bound of 51 attempts per seed holds exactly when no group reaches its 1052nd seed;
      in particular for every k up to 1000. */
  lemma FallbackBound(n: nat, k: nat, draws: seq<Draw>)
    requires k > 0 && Fits(draws, k) && AllFail(draws) && |draws| >= 52 * n
    ensures Seeds(n, k, draws).Finished?
    ensures (forall i :: 0 <= i < n ==> Seeds(n, k, draws).attempts[i] <= 51) <==> Min(n, k) < 1052
  {
    hide IsEchelon, Added, InSpan, Feed, NextSeed, ToBytes, Seeds, FallbackGroup, GroupStart, Position, AllFail;
    FallbackTerminates(n, k, draws);
    var attempts := Seeds(n, k, draws).attempts;
    if Min(n, k) < 1052 {
      forall i | 0 <= i < n ensures attempts[i] <= 51 {
        RemainderBound(i, k);
        FewAttempts(Position(i, k));
      }
    } else {
      RemainderBound(1051, k);
      assert attempts[1051] == FallbackAttempts(1051) == 52;
    }
  }

  lemma FewAttempts(m: nat)
    ensures 1 <= FallbackAttempts(m) <= 52
    ensures m < 1051 ==> FallbackAttempts(m) <= 51
  {
  }
}
