/**
 What the independence tests say of rows as they come off the wire, in terms of their bytes alone: how many bytes make
 a row, and which numbers they stand for.
 */
module ByteRows {
  import opened Bytes
  import opened PrimeField
  import opened LinearSpan
  import opened Echelon
  import opened Independence

  /** The j-th number of row b is c times that of row a modulo the prime, both of two bytes, the high byte first. */
  predicate WideAt(b: seq<byte>, a: seq<byte>, j: nat, c: Fr)
    requires 2 * j + 1 < |a| && 2 * j + 1 < |b|
  {
    256 * (b[2 * j] as int) + b[2 * j + 1] == (c * (256 * (a[2 * j] as int) + a[2 * j + 1])) % P
  }

  /** Row b is c times row a, each k numbers of two bytes. */
  ghost predicate WideMultiple(b: seq<byte>, a: seq<byte>, k: nat, c: Fr)
    requires |a| == |b| == 2 * k
  {
    forall j: nat :: j < k ==> WideAt(b, a, j, c)
  }

  /** Row b is c times row a, k numbers of one byte each, modulo the prime. */
  ghost predicate NarrowMultiple(b: seq<byte>, a: seq<byte>, k: nat, c: Fr)
    requires |a| == |b| == k
  {
    forall i :: 0 <= i < k ==> b[i] == (c * a[i]) % P
  }

  lemma DifferenceZero(u: Fr, w: Fr)
    ensures Sub(u, w) == 0 <==> u == w
  {
    if u != w {
      QuotientOfSmall(u - w);
    }
  }

  lemma QuotientOfSmall(x: int)
    requires 0 - P < x < P && x != 0
    ensures x % P != 0
  {
    var q := RepQuotient(x);
    assert q >= 1 ==> P * q >= P;
    assert q <= -1 ==> P * q + P <= 0;
  }

  /** Row v is c times row x. */
  ghost predicate Multiple(v: Row, x: Row, c: Fr)
    requires |v| == |x|
  {
    forall j :: 0 <= j < |v| ==> v[j] == Mul(x[j], c)
  }

  lemma SpanOfOne(v: Row, x: Row)
    requires |v| == |x|
    ensures InSpan(v, [x]) <==> exists c: Fr :: Multiple(v, x, c)
  {
    hide Sub, Mul, Rep;
    forall c: Fr ensures InSpan(Axpy(v, c, x), []) <==> Multiple(v, x, c) {
      forall j | 0 <= j < |v| ensures Axpy(v, c, x)[j] == Zero(|v|)[j] <==> v[j] == Mul(x[j], c) {
        DifferenceZero(v[j], Mul(x[j], c));
      }
      if Multiple(v, x, c) {
        assert Axpy(v, c, x) == Zero(|v|);
      }
      assert Axpy(v, c, x) == Zero(|v|) ==> forall j :: 0 <= j < |v| ==> Axpy(v, c, x)[j] == Zero(|v|)[j];
    }
    assert [x][1..] == [];
  }

  lemma WideEntry(b: seq<byte>, a: seq<byte>, k: nat, j: nat, c: Fr)
    requires |a| == |b| == 2 * k && j < k
    ensures Parse(b, k)[j] == Mul(Parse(a, k)[j], c) <==> WideAt(b, a, j, c)
  {
    assert Parse(a, k)[j] == 256 * (a[2 * j] as int) + a[2 * j + 1];
    assert Parse(a, k)[j] * c == c * Parse(a, k)[j];
  }

  lemma WideRow(b: seq<byte>, a: seq<byte>, k: nat, c: Fr)
    requires |a| == |b| == 2 * k
    ensures Multiple(Parse(b, k), Parse(a, k), c) <==> WideMultiple(b, a, k, c)
  {
    hide Parse, Mul, WideAt;
    forall j: nat | j < k ensures Parse(b, k)[j] == Mul(Parse(a, k)[j], c) <==> WideAt(b, a, j, c) {
      WideEntry(b, a, k, j, c);
    }
  }

  lemma NarrowRow(b: seq<byte>, a: seq<byte>, k: nat, c: Fr)
    requires |a| == |b| == k > 0
    ensures Multiple(Parse(b, k), Parse(a, k), c) <==> NarrowMultiple(b, a, k, c)
  {
    var v, x := Parse(b, k), Parse(a, k);
    forall j | 0 <= j < k ensures v[j] == b[j] && Mul(x[j], c) == (c * a[j]) % P {
      assert x[j] * c == c * x[j];
    }
    if Multiple(v, x, c) {
      forall j | 0 <= j < k ensures b[j] == (c * a[j]) % P {
        assert v[j] == Mul(x[j], c);
      }
    }
  }

  /** With one row in hand, TryAdd and the three tests refuse a second of two-byte numbers exactly when it is a
      multiple of the first. */
  lemma WideRowRefused(a: seq<byte>, b: seq<byte>, k: nat)
    requires |a| == |b| == 2 * k
    ensures Added(Feed([a], k), k, b).0 <==> !exists c: Fr :: WideMultiple(b, a, k, c)
    ensures StoreAnswer([a], b, k) <==> !exists c: Fr :: WideMultiple(b, a, k, c)
    ensures k >= 2 ==> (BoundedAnswer([a], b, k) <==> !exists c: Fr :: WideMultiple(b, a, k, c))
  {
    hide InSpan, IsEchelon, Added, Feed, Parse;
    OneRow(a, b, k);
    SpanOfOne(Parse(b, k), Parse(a, k));
    forall c: Fr ensures Multiple(Parse(b, k), Parse(a, k), c) <==> WideMultiple(b, a, k, c) {
      WideRow(b, a, k, c);
    }
  }

  /** The same for one-byte numbers. */
  lemma NarrowRowRefused(a: seq<byte>, b: seq<byte>, k: nat)
    requires |a| == |b| == k > 0
    ensures Added(Feed([a], k), k, b).0 <==> !exists c: Fr :: NarrowMultiple(b, a, k, c)
    ensures StoreAnswer([a], b, k) <==> !exists c: Fr :: NarrowMultiple(b, a, k, c)
    ensures k >= 2 ==> (BoundedAnswer([a], b, k) <==> !exists c: Fr :: NarrowMultiple(b, a, k, c))
  {
    hide InSpan, IsEchelon, Added, Feed, Parse;
    OneRow(a, b, k);
    SpanOfOne(Parse(b, k), Parse(a, k));
    forall c: Fr ensures Multiple(Parse(b, k), Parse(a, k), c) <==> NarrowMultiple(b, a, k, c) {
      NarrowRow(b, a, k, c);
    }
  }

  lemma OneRow(a: seq<byte>, b: seq<byte>, k: nat)
    requires WellFormed(a, k) && WellFormed(b, k)
    ensures Added(Feed([a], k), k, b).0 <==> !InSpan(Parse(b, k), [Parse(a, k)])
    ensures StoreAnswer([a], b, k) <==> !InSpan(Parse(b, k), [Parse(a, k)])
    ensures k >= 2 ==> (BoundedAnswer([a], b, k) <==> !InSpan(Parse(b, k), [Parse(a, k)]))
  {
    hide InSpan, IsEchelon, Added, Feed, Parse;
    assert [a][..0] == [];
    assert Parsed([a], k) == [Parse(a, k)];
    FeedSpan([a], k);
    AddedDecides(Feed([a], k), k, b);
  }

  /** Rows of any other length are refused, except as the first piece of a cell by the store's test. */
  lemma OtherLengthsRefused(existing: seq<seq<byte>>, raw: seq<byte>, k: nat)
    requires |raw| != k && |raw| != 2 * k
    ensures !Added(Feed(existing, k), k, raw).0 && !BoundedAnswer(existing, raw, k)
    ensures StoreAnswer(existing, raw, k) <==> existing == [] && exists i :: 0 <= i < |raw| && raw[i] != 0
  {
    hide InSpan, Feed;
  }

  /** A first row is taken exactly when one of its bytes is not zero. */
  lemma FirstRow(raw: seq<byte>, k: nat)
    requires |raw| == k || |raw| == 2 * k
    ensures Added([], k, raw).0 <==> exists i :: 0 <= i < |raw| && raw[i] != 0
    ensures StoreAnswer([], raw, k) <==> exists i :: 0 <= i < |raw| && raw[i] != 0
    ensures k > 0 ==> (BoundedAnswer([], raw, k) <==> exists i :: 0 <= i < |raw| && raw[i] != 0)
  {
    hide Added, Parse;
    NonzeroBytes(raw, k);
    AddedDecides([], k, raw);
    assert Parsed([], k) == [];
  }
}
