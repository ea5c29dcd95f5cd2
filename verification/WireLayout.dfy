/** Where each field of the messages lies, byte by byte. */
module WireLayout {
  import opened Bytes
  import opened Wire
  import BatchCodec
  import GossipCodec

  /** Two bytes at place i, the high one first, make the number n. */
  predicate NumberAt(bytes: seq<byte>, i: nat, n: nat) {
    i + 1 < |bytes| && 256 * (bytes[i] as int) + bytes[i + 1] == n
  }

  predicate FieldAt(bytes: seq<byte>, i: nat, field: seq<byte>) {
    i + |field| <= |bytes| && bytes[i..i + |field|] == field
  }

  /** What is left of the bytes from place i on. */
  predicate RestAt(bytes: seq<byte>, i: nat, rest: seq<byte>) {
    i <= |bytes| && bytes[i..] == rest
  }

  lemma NextField(bytes: seq<byte>, i: nat, field: seq<byte>, rest: seq<byte>)
    requires RestAt(bytes, i, field + rest)
    ensures FieldAt(bytes, i, field) && RestAt(bytes, i + |field|, rest)
  {
    assert bytes[i..][..|field|] == field && bytes[i..][|field|..] == rest;
  }

  lemma NextNumber(bytes: seq<byte>, i: nat, n: nat, rest: seq<byte>)
    requires RestAt(bytes, i, BigEndian(n) + rest)
    ensures NumberAt(bytes, i, n % 65536) && RestAt(bytes, i + 2, rest)
  {
    NextField(bytes, i, BigEndian(n), rest);
    assert bytes[i..][0] == BigEndian(n)[0] && bytes[i..][1] == BigEndian(n)[1];
  }

  /** The field lies there after its length in one byte. */
  predicate ShortAt(bytes: seq<byte>, i: nat, field: seq<byte>) {
    i < |bytes| && bytes[i] == |field| % 256 && FieldAt(bytes, i + 1, field)
  }

  /** The field lies there after its length in two. */
  predicate LongAt(bytes: seq<byte>, i: nat, field: seq<byte>) {
    NumberAt(bytes, i, |field| % 65536) && FieldAt(bytes, i + 2, field)
  }

  lemma NextShort(bytes: seq<byte>, i: nat, field: seq<byte>, rest: seq<byte>)
    requires RestAt(bytes, i, Field8(field) + rest)
    ensures ShortAt(bytes, i, field) && RestAt(bytes, i + 1 + |field|, rest)
  {
    var one: seq<byte> := [|field| % 256];
    assert Field8(field) + rest == one + (field + rest);
    NextField(bytes, i, one, field + rest);
    assert bytes[i..][0] == one[0];
    NextField(bytes, i + 1, field, rest);
  }

  lemma NextLong(bytes: seq<byte>, i: nat, field: seq<byte>, rest: seq<byte>)
    requires RestAt(bytes, i, Field16(field) + rest)
    ensures LongAt(bytes, i, field) && RestAt(bytes, i + 2 + |field|, rest)
  {
    hide BigEndian, NumberAt, FieldAt;
    assert Field16(field) + rest == BigEndian(|field|) + (field + rest);
    NextNumber(bytes, i, |field|, field + rest);
    NextField(bytes, i + 2, field, rest);
  }

  lemma AllRead(bytes: seq<byte>, i: nat)
    requires RestAt(bytes, i, [])
    ensures |bytes| == i
  {
  }

  /** A list is written item by item, in order and with nothing in between. */
  lemma {:induction false} ManyInOrder<T>(write: T -> seq<byte>, xs: seq<T>, ys: seq<T>)
    ensures WriteMany(write, xs + ys) == WriteMany(write, xs) + WriteMany(write, ys)
    ensures forall x :: WriteMany(write, [x]) == write(x)
    ensures WriteMany(write, []) == []
  {
    forall x ensures WriteMany(write, [x]) == write(x) {
      assert [x][..0] == [];
    }
    if ys == [] {
      assert xs + ys == xs;
    } else {
      var n := |ys| - 1;
      ManyInOrder(write, xs, ys[..n]);
      assert (xs + ys)[..|xs| + n] == xs + ys[..n];
    }
  }

  lemma CommitLayout(c: seq<byte>)
    ensures var b := BatchCodec.WriteCommit(c);
            NumberAt(b, 0, |c| % 65536) && b[2..] == if |c| % 65536 > 0 then c else []
  {
    hide BigEndian, NumberAt;
    var rest := if |c| % 65536 > 0 then c else [];
    assert BatchCodec.WriteCommit(c) == BigEndian(|c|) + rest;
    NextNumber(BatchCodec.WriteCommit(c), 0, |c|, rest);
  }

  /** Of a request with too long a block name only the magic number is written; of one with too long a sender, what comes
      before it. */
  lemma RefusedLayout(r: BatchCodec.Request)
    ensures |r.blockID| > 255 ==> BatchCodec.Written(r) == [0x43, 0x44, 0x41, 0x01]
    ensures |r.blockID| <= 255 < |r.sender| ==>
              var m, b := BatchCodec.Written(r), |r.blockID|;
              && |m| == 7 + b && FieldAt(m, 0, [0x43, 0x44, 0x41, 0x01]) && ShortAt(m, 4, r.blockID)
              && NumberAt(m, 5 + b, r.colIdx)
  {
    hide BigEndian, Field8, NumberAt, FieldAt, ShortAt, RestAt;
    if |r.blockID| <= 255 < |r.sender| {
      var m, b := BatchCodec.Written(r), |r.blockID|;
      HeadWhole(r);
      var t1 := BigEndian(r.colIdx) + [];
      NextField(m, 0, [0x43, 0x44, 0x41, 0x01], Field8(r.blockID) + t1);
      NextShort(m, 4, r.blockID, t1);
      NextNumber(m, 5 + b, r.colIdx, []);
      AllRead(m, 7 + b);
    }
  }

  lemma HeadWhole(r: BatchCodec.Request)
    ensures RestAt(BatchCodec.Head(r), 0,
                   [0x43, 0x44, 0x41, 0x01] + (Field8(r.blockID) + (BigEndian(r.colIdx) + [])))
  {
    hide BigEndian, Field8;
  }

  /** A seed: row, column, coefficients, proof, data. */
  lemma SeedLayout(s: BatchCodec.SeedPiece)
    ensures var b, c, p := BatchCodec.WriteSeed(s), |s.coeffs|, |s.proof|;
            && |b| == 9 + c + p + |s.data|
            && NumberAt(b, 0, s.row) && NumberAt(b, 2, s.col) && ShortAt(b, 4, s.coeffs)
            && LongAt(b, 5 + c, s.proof) && LongAt(b, 7 + c + p, s.data)
  {
    hide BigEndian, Field8, Field16, NumberAt, ShortAt, LongAt, RestAt;
    var b, c, p := BatchCodec.WriteSeed(s), |s.coeffs|, |s.proof|;
    SeedWhole(s);
    var t3 := Field16(s.proof) + (Field16(s.data) + []);
    NextNumber(b, 0, s.row, BigEndian(s.col) + (Field8(s.coeffs) + t3));
    NextNumber(b, 2, s.col, Field8(s.coeffs) + t3);
    NextShort(b, 4, s.coeffs, t3);
    NextLong(b, 5 + c, s.proof, Field16(s.data) + []);
    NextLong(b, 7 + c + p, s.data, []);
    AllRead(b, 9 + c + p + |s.data|);
  }

  lemma SeedWhole(s: BatchCodec.SeedPiece)
    ensures RestAt(BatchCodec.WriteSeed(s), 0,
                   BigEndian(s.row) + (BigEndian(s.col) + (Field8(s.coeffs) + (Field16(s.proof)
                   + (Field16(s.data) + [])))))
  {
    hide BigEndian, Field8, Field16;
  }

  /** A request begins with the magic number, the block's name, the column and the sender. */
  lemma RequestLayout(r: BatchCodec.Request)
    requires |r.blockID| <= 255 && |r.sender| <= 255
    ensures var m, b, s := BatchCodec.Written(r), |r.blockID|, |r.sender|;
            && FieldAt(m, 0, [0x43, 0x44, 0x41, 0x01]) && ShortAt(m, 4, r.blockID)
            && NumberAt(m, 5 + b, r.colIdx) && ShortAt(m, 7 + b, r.sender)
            && RestAt(m, 8 + b + s, BatchCodec.Lists(r))
  {
    hide BigEndian, Field8, NumberAt, FieldAt, ShortAt, RestAt, BatchCodec.Lists;
    var m, b := BatchCodec.Written(r), |r.blockID|;
    RequestWhole(r);
    var t2 := BigEndian(r.colIdx) + (Field8(r.sender) + BatchCodec.Lists(r));
    NextField(m, 0, [0x43, 0x44, 0x41, 0x01], Field8(r.blockID) + t2);
    NextShort(m, 4, r.blockID, t2);
    NextNumber(m, 5 + b, r.colIdx, Field8(r.sender) + BatchCodec.Lists(r));
    NextShort(m, 7 + b, r.sender, BatchCodec.Lists(r));
  }

  lemma RequestWhole(r: BatchCodec.Request)
    requires |r.blockID| <= 255 && |r.sender| <= 255
    ensures RestAt(BatchCodec.Written(r), 0,
                   [0x43, 0x44, 0x41, 0x01] + (Field8(r.blockID) + (BigEndian(r.colIdx)
                   + (Field8(r.sender) + BatchCodec.Lists(r)))))
  {
    hide BigEndian, Field8, WriteMany, BatchCodec.WriteSeed, BatchCodec.WriteCommit;
  }

  /** It ends with the number of commitments, the commitments, the number of seeds and the seeds. */
  lemma ListsLayout(r: BatchCodec.Request)
    ensures var b, commits, seeds := BatchCodec.Lists(r), WriteMany(BatchCodec.WriteCommit, r.commits),
                                     WriteMany(BatchCodec.WriteSeed, r.seeds);
            && |b| == 4 + |commits| + |seeds|
            && NumberAt(b, 0, |r.commits| % 65536) && FieldAt(b, 2, commits)
            && NumberAt(b, 2 + |commits|, |r.seeds| % 65536) && FieldAt(b, 4 + |commits|, seeds)
  {
    hide BigEndian, NumberAt, FieldAt, RestAt, WriteMany, BatchCodec.WriteSeed, BatchCodec.WriteCommit;
    var b, commits, seeds := BatchCodec.Lists(r), WriteMany(BatchCodec.WriteCommit, r.commits),
                             WriteMany(BatchCodec.WriteSeed, r.seeds);
    ListsWhole(r);
    var t2 := BigEndian(|r.seeds|) + (seeds + []);
    NextNumber(b, 0, |r.commits|, commits + t2);
    NextField(b, 2, commits, t2);
    NextNumber(b, 2 + |commits|, |r.seeds|, seeds + []);
    NextField(b, 4 + |commits|, seeds, []);
    AllRead(b, 4 + |commits| + |seeds|);
  }

  lemma ListsWhole(r: BatchCodec.Request)
    ensures RestAt(BatchCodec.Lists(r), 0,
                   BigEndian(|r.commits|) + (WriteMany(BatchCodec.WriteCommit, r.commits)
                   + (BigEndian(|r.seeds|) + (WriteMany(BatchCodec.WriteSeed, r.seeds) + []))))
  {
    hide BigEndian, WriteMany, BatchCodec.WriteSeed, BatchCodec.WriteCommit;
  }

  /** A gossip piece: the magic byte, the block's name, row, column, coefficients, proof, data and last the sender. */
  lemma GossipLayout(g: GossipCodec.GossipPiece)
    ensures var m, b, c, p, d := GossipCodec.Encode(g), |g.blockID|, |g.coeffs|, |g.proof|, |g.data|;
            && |m| == 12 + b + c + p + d + |g.sender|
            && FieldAt(m, 0, [0x47]) && ShortAt(m, 1, g.blockID)
            && NumberAt(m, 2 + b, g.row) && NumberAt(m, 4 + b, g.col) && ShortAt(m, 6 + b, g.coeffs)
            && LongAt(m, 7 + b + c, g.proof) && LongAt(m, 9 + b + c + p, g.data)
            && ShortAt(m, 11 + b + c + p + d, g.sender)
  {
    hide BigEndian, Field8, Field16, FieldAt, NumberAt, ShortAt, LongAt, RestAt;
    var m, b, c, p, d := GossipCodec.Encode(g), |g.blockID|, |g.coeffs|, |g.proof|, |g.data|;
    var t2 := Field16(g.proof) + (Field16(g.data) + (Field8(g.sender) + []));
    GossipFront(g, t2);
    NextLong(m, 7 + b + c, g.proof, Field16(g.data) + (Field8(g.sender) + []));
    NextLong(m, 9 + b + c + p, g.data, Field8(g.sender) + []);
    NextShort(m, 11 + b + c + p + d, g.sender, []);
    AllRead(m, 12 + b + c + p + d + |g.sender|);
  }

  lemma GossipFront(g: GossipCodec.GossipPiece, t2: seq<byte>)
    requires t2 == Field16(g.proof) + (Field16(g.data) + (Field8(g.sender) + []))
    ensures var m, b := GossipCodec.Encode(g), |g.blockID|;
            && FieldAt(m, 0, [0x47]) && ShortAt(m, 1, g.blockID)
            && NumberAt(m, 2 + b, g.row) && NumberAt(m, 4 + b, g.col) && ShortAt(m, 6 + b, g.coeffs)
            && RestAt(m, 7 + b + |g.coeffs|, t2)
  {
    hide BigEndian, Field8, Field16, FieldAt, NumberAt, ShortAt, LongAt, RestAt;
    var m, b := GossipCodec.Encode(g), |g.blockID|;
    GossipWhole(g, t2);
    var t1 := BigEndian(g.row) + (BigEndian(g.col) + (Field8(g.coeffs) + t2));
    NextField(m, 0, [0x47], Field8(g.blockID) + t1);
    NextShort(m, 1, g.blockID, t1);
    NextNumber(m, 2 + b, g.row, BigEndian(g.col) + (Field8(g.coeffs) + t2));
    NextNumber(m, 4 + b, g.col, Field8(g.coeffs) + t2);
    NextShort(m, 6 + b, g.coeffs, t2);
  }

  lemma GossipWhole(g: GossipCodec.GossipPiece, t2: seq<byte>)
    requires t2 == Field16(g.proof) + (Field16(g.data) + (Field8(g.sender) + []))
    ensures RestAt(GossipCodec.Encode(g), 0,
                   [0x47] + (Field8(g.blockID) + (BigEndian(g.row) + (BigEndian(g.col) + (Field8(g.coeffs) + t2)))))
  {
    hide BigEndian, Field8, Field16;
  }
}
