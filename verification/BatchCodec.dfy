/**
 The batch seed messages on the persistent streams between bootstrap and store nodes.
 */
module BatchCodec {
  import opened Bytes
  import opened Wire

  datatype SeedPiece = SeedPiece(row: uint16, col: uint16, data: seq<byte>, coeffs: seq<byte>, proof: seq<byte>)

  datatype Request = Request(blockID: seq<byte>, colIdx: uint16, commits: seq<seq<byte>>, seeds: seq<SeedPiece>,
                             sender: seq<byte>)

  const Magic: seq<byte> := [0x43, 0x44, 0x41, 0x01]

  // Writing.

  /** A commitment of a multiple of 65536 bytes is left out, its written length being zero. */
  function WriteCommit(c: seq<byte>): seq<byte> {
    BigEndian(|c|) + if |c| % 0x1_0000 > 0 then c else []
  }

  function WriteSeed(s: SeedPiece): seq<byte> {
    BigEndian(s.row) + BigEndian(s.col) + Field8(s.coeffs) + Field16(s.proof) + Field16(s.data)
  }

  function Head(r: Request): seq<byte> {
    Magic + Field8(r.blockID) + BigEndian(r.colIdx)
  }

  function Message(r: Request): seq<byte> {
    Head(r) + Field8(r.sender) + BigEndian(|r.commits|) + WriteMany(WriteCommit, r.commits)
    + BigEndian(|r.seeds|) + WriteMany(WriteSeed, r.seeds)
  }

  predicate Accepted(r: Request) {
    |r.blockID| <= 255 && |r.sender| <= 255
  }

  /** What the writer has put on the stream when it returns, with or without an error. */
  function Written(r: Request): seq<byte> {
    if |r.blockID| > 255 then Magic else if |r.sender| > 255 then Head(r) else Message(r)
  }

  // Reading.

  function ReadSeed(data: seq<byte>): Result<SeedPiece> {
    match ReadU16(data)
    case Short => Short
    case Got(row, d1) =>
      match ReadU16(d1)
      case Short => Short
      case Got(col, d2) =>
        match ReadField8(d2)
        case Short => Short
        case Got(coeffs, d3) =>
          match ReadField16(d3)
          case Short => Short
          case Got(proof, d4) =>
            match ReadField16(d4)
            case Short => Short
            case Got(bytes, d5) => Got(SeedPiece(row, col, bytes, coeffs, proof), d5)
  }

  function ReadLists(blockID: seq<byte>, colIdx: uint16, sender: seq<byte>, data: seq<byte>): Result<Request> {
    match ReadU16(data)
    case Short => Short
    case Got(numCommits, d1) =>
      match ReadMany(ReadField16, numCommits, d1)
      case Short => Short
      case Got(commits, d2) =>
        match ReadU16(d2)
        case Short => Short
        case Got(numSeeds, d3) =>
          match ReadMany(ReadSeed, numSeeds, d3)
          case Short => Short
          case Got(seeds, d4) => Got(Request(blockID, colIdx, commits, seeds, sender), d4)
  }

  function ReadNames(data: seq<byte>): Result<Request> {
    match ReadField8(data)
    case Short => Short
    case Got(blockID, d1) =>
      match ReadU16(d1)
      case Short => Short
      case Got(colIdx, d2) =>
        match ReadField8(d2)
        case Short => Short
        case Got(sender, d3) => ReadLists(blockID, colIdx, sender, d3)
  }

  /** Short stands for every error of the reader: too few bytes or a wrong magic number. */
  function Decode(data: seq<byte>): Result<Request> {
    match Take(4, data)
    case Short => Short
    case Got(magic, rest) => if magic == Magic then ReadNames(rest) else Short
  }

  // The laws.

  predicate FitsField16(c: seq<byte>) {
    |c| < 0x1_0000
  }

  predicate SeedFits(s: SeedPiece) {
    |s.coeffs| < 256 && |s.proof| < 0x1_0000 && |s.data| < 0x1_0000
  }

  predicate WithinLimits(r: Request) {
    && Accepted(r)
    && |r.commits| < 0x1_0000 && (forall c :: c in r.commits ==> FitsField16(c))
    && |r.seeds| < 0x1_0000 && (forall s :: s in r.seeds ==> SeedFits(s))
  }

  lemma CommitsLawful()
    ensures Lawful(WriteCommit, ReadField16, FitsField16)
  {
    hide ReadField16, BigEndian;
    forall c, suffix | FitsField16(c) ensures ReadField16(WriteCommit(c) + suffix) == Got(c, suffix) {
      CommitIsField(c);
      Field16Law(c, suffix);
    }
    forall data | ReadField16(data).Got?
      ensures FitsField16(ReadField16(data).value)
      ensures data == WriteCommit(ReadField16(data).value) + ReadField16(data).rest
    {
      Field16Front(data);
      CommitIsField(ReadField16(data).value);
    }
  }

  lemma CommitIsField(c: seq<byte>)
    requires FitsField16(c)
    ensures WriteCommit(c) == Field16(c)
  {
    hide BigEndian;
    assert |c| % 0x1_0000 == |c|;
  }

  lemma SeedLaw(s: SeedPiece, suffix: seq<byte>)
    requires SeedFits(s)
    ensures ReadSeed(WriteSeed(s) + suffix) == Got(s, suffix)
  {
    hide ReadU16, ReadField8, ReadField16, BigEndian, Field8, Field16;
    var s4 := Field16(s.data) + suffix;
    var s3 := Field16(s.proof) + s4;
    var s2 := Field8(s.coeffs) + s3;
    var s1 := BigEndian(s.col) + s2;
    assert WriteSeed(s) + suffix == BigEndian(s.row) + s1;
    U16Law(s.row, s1);
    U16Law(s.col, s2);
    Field8Law(s.coeffs, s3);
    Field16Law(s.proof, s4);
    Field16Law(s.data, suffix);
  }

  lemma SeedFront(data: seq<byte>)
    requires ReadSeed(data).Got?
    ensures SeedFits(ReadSeed(data).value)
    ensures data == WriteSeed(ReadSeed(data).value) + ReadSeed(data).rest
  {
    hide ReadU16, ReadField8, ReadField16, BigEndian, Field8, Field16;
    var s := ReadSeed(data).value;
    var d1 := ReadU16(data).rest;
    var d2 := ReadU16(d1).rest;
    var d3 := ReadField8(d2).rest;
    var d4 := ReadField16(d3).rest;
    U16Front(data);
    U16Front(d1);
    Field8Front(d2);
    Field16Front(d3);
    Field16Front(d4);
    assert data == BigEndian(s.row) + (BigEndian(s.col) + (Field8(s.coeffs) + (Field16(s.proof)
                   + (Field16(s.data) + ReadSeed(data).rest))));
  }

  lemma SeedsLawful()
    ensures Lawful(WriteSeed, ReadSeed, SeedFits)
  {
    hide ReadSeed, WriteSeed, SeedFits;
    forall s, suffix | SeedFits(s) ensures ReadSeed(WriteSeed(s) + suffix) == Got(s, suffix) {
      SeedLaw(s, suffix);
    }
    forall data | ReadSeed(data).Got?
      ensures SeedFits(ReadSeed(data).value) && data == WriteSeed(ReadSeed(data).value) + ReadSeed(data).rest
    {
      SeedFront(data);
    }
  }

  function Lists(r: Request): seq<byte> {
    BigEndian(|r.commits|) + WriteMany(WriteCommit, r.commits) + BigEndian(|r.seeds|) + WriteMany(WriteSeed, r.seeds)
  }

  lemma ListsLaw(r: Request, suffix: seq<byte>)
    requires WithinLimits(r)
    ensures ReadLists(r.blockID, r.colIdx, r.sender, Lists(r) + suffix) == Got(r, suffix)
  {
    hide ReadU16, ReadMany, WriteMany, BigEndian, ReadSeed, WriteSeed, ReadField16, WriteCommit, Lawful;
    var d3 := WriteMany(WriteSeed, r.seeds) + suffix;
    var d2 := BigEndian(|r.seeds|) + d3;
    var d1 := WriteMany(WriteCommit, r.commits) + d2;
    assert Lists(r) + suffix == BigEndian(|r.commits|) + d1;
    U16Law(|r.commits|, d1);
    U16Law(|r.seeds|, d3);
    Small(|r.commits|);
    Small(|r.seeds|);
    CommitsLawful();
    SeedsLawful();
    ManyLaw(WriteCommit, ReadField16, FitsField16, r.commits, d2);
    ManyLaw(WriteSeed, ReadSeed, SeedFits, r.seeds, suffix);
  }

  lemma Small(n: nat)
    requires n < 0x1_0000
    ensures n % 0x1_0000 == n
  {
  }

  /** Reading the bytes of a message followed by anything gives the message back and leaves the rest. */
  lemma RoundTrip(r: Request, suffix: seq<byte>)
    requires WithinLimits(r)
    ensures Decode(Written(r) + suffix) == Got(r, suffix)
  {
    hide ReadU16, ReadField8, Field8, BigEndian, ReadLists, WriteMany, WriteSeed, WriteCommit;
    var d3 := Lists(r) + suffix;
    var d2 := Field8(r.sender) + d3;
    var d1 := BigEndian(r.colIdx) + d2;
    var d0 := Field8(r.blockID) + d1;
    assert Written(r) + suffix == Magic + d0;
    TakeLaw(Magic, d0);
    Field8Law(r.blockID, d1);
    U16Law(r.colIdx, d2);
    Small(r.colIdx);
    Field8Law(r.sender, d3);
    ListsLaw(r, suffix);
  }

  lemma ListsFront(blockID: seq<byte>, colIdx: uint16, sender: seq<byte>, data: seq<byte>)
    requires ReadLists(blockID, colIdx, sender, data).Got?
    ensures var r := ReadLists(blockID, colIdx, sender, data).value;
            && |r.commits| < 0x1_0000 && (forall c :: c in r.commits ==> FitsField16(c))
            && |r.seeds| < 0x1_0000 && (forall s :: s in r.seeds ==> SeedFits(s))
            && r.blockID == blockID && r.colIdx == colIdx && r.sender == sender
            && data == Lists(r) + ReadLists(blockID, colIdx, sender, data).rest
  {
    hide ReadU16, ReadMany, WriteMany, BigEndian, ReadSeed, WriteSeed, ReadField16, WriteCommit, Lawful;
    hide SeedFits, FitsField16;
    var r, rest := ReadLists(blockID, colIdx, sender, data).value, ReadLists(blockID, colIdx, sender, data).rest;
    var d1 := ReadU16(data).rest;
    var d2 := ReadMany(ReadField16, ReadU16(data).value, d1).rest;
    var d3 := ReadU16(d2).rest;
    U16Front(data);
    U16Front(d2);
    CommitsLawful();
    SeedsLawful();
    ManyFront(WriteCommit, ReadField16, FitsField16, ReadU16(data).value, d1);
    ManyFront(WriteSeed, ReadSeed, SeedFits, ReadU16(d2).value, d3);
    assert data == BigEndian(|r.commits|) + (WriteMany(WriteCommit, r.commits) + (BigEndian(|r.seeds|)
                   + (WriteMany(WriteSeed, r.seeds) + rest)));
  }

  /** The reader accepts nothing but the bytes of one message within limits. */
  lemma DecodeFront(data: seq<byte>)
    requires Decode(data).Got?
    ensures WithinLimits(Decode(data).value) && data == Written(Decode(data).value) + Decode(data).rest
  {
    hide ReadU16, ReadField8, Field8, BigEndian, ReadLists, WriteMany, WriteSeed, WriteCommit, SeedFits, FitsField16;
    var d0 := Take(4, data).rest;
    var d1 := ReadField8(d0).rest;
    var d2 := ReadU16(d1).rest;
    var d3 := ReadField8(d2).rest;
    var r, rest := Decode(data).value, Decode(data).rest;
    Field8Front(d0);
    U16Front(d1);
    Field8Front(d2);
    ListsFront(ReadField8(d0).value, ReadU16(d1).value, ReadField8(d2).value, d3);
    assert data == Magic + d0;
    assert data == Magic + (Field8(r.blockID) + (BigEndian(r.colIdx) + (Field8(r.sender) + (Lists(r) + rest))));
  }

  /** A request survives the wire exactly when it is within the limits of its length prefixes. */
  lemma RoundTripExactly(r: Request, suffix: seq<byte>)
    ensures Decode(Written(r) + suffix) == Got(r, suffix) <==> WithinLimits(r)
  {
    hide Decode, Written, WithinLimits;
    if WithinLimits(r) {
      RoundTrip(r, suffix);
    } else if Decode(Written(r) + suffix) == Got(r, suffix) {
      DecodeFront(Written(r) + suffix);
    }
  }

  /** No message is the beginning of another. */
  lemma PrefixFree(a: Request, b: Request)
    requires WithinLimits(a) && WithinLimits(b) && Written(a) <= Written(b)
    ensures a == b
  {
    hide Decode, Written, WithinLimits;
    var suffix := Written(b)[|Written(a)|..];
    assert Written(b) == Written(a) + suffix;
    RoundTrip(a, suffix);
    RoundTrip(b, []);
    assert Written(b) + [] == Written(b);
  }

  /** A message cut short anywhere is not read. */
  lemma CutShort(r: Request, n: nat)
    requires WithinLimits(r) && n < |Written(r)|
    ensures Decode(Written(r)[..n]) == Short
  {
    hide Decode, Written, WithinLimits;
    var all, part := Written(r), Written(r)[..n];
    if Decode(part).Got? {
      var r', rest := Decode(part).value, Decode(part).rest;
      DecodeFront(part);
      assert all == Written(r') + (rest + all[n..]);
      assert all + [] == all && |all[n..]| > 0;
      RoundTrip(r, []);
      RoundTrip(r', rest + all[n..]);
    }
  }

  lemma MessagesLawful()
    ensures Lawful(Written, Decode, WithinLimits)
  {
    hide Decode, Written, WithinLimits;
    forall r, suffix | WithinLimits(r) ensures Decode(Written(r) + suffix) == Got(r, suffix) {
      RoundTrip(r, suffix);
    }
    forall data | Decode(data).Got?
      ensures WithinLimits(Decode(data).value) && data == Written(Decode(data).value) + Decode(data).rest
    {
      DecodeFront(data);
    }
  }

  /** Messages written one after the other on a stream are read back in order, and nothing after them is touched. */
  lemma StreamInOrder(rs: seq<Request>, suffix: seq<byte>)
    requires forall r :: r in rs ==> WithinLimits(r)
    ensures ReadMany(Decode, |rs|, WriteMany(Written, rs) + suffix) == Got(rs, suffix)
  {
    hide Decode, Written, WithinLimits;
    MessagesLawful();
    ManyLaw(Written, Decode, WithinLimits, rs, suffix);
  }

  // The writer and the reader.

  class Writer {
    var out: seq<byte>

    constructor ()
      ensures out == []
    {
      out := [];
    }

    method Write(bytes: seq<byte>)
      modifies this
      ensures out == old(out) + bytes
    {
      out := out + bytes;
    }

    method WriteField8(field: seq<byte>)
      modifies this
      ensures out == old(out) + Field8(field)
    {
      Write([|field| % 256]);
      if |field| > 0 {
        Write(field);
      }
    }

    method WriteField16(field: seq<byte>)
      modifies this
      ensures out == old(out) + Field16(field)
    {
      hide BigEndian;
      Write(BigEndian(|field|));
      if |field| > 0 {
        Write(field);
      }
    }

    method WriteSeedPiece(s: SeedPiece)
      modifies this
      ensures out == old(out) + WriteSeed(s)
    {
      hide BigEndian, Field8, Field16;
      Write(BigEndian(s.row));
      Write(BigEndian(s.col));
      WriteField8(s.coeffs);
      WriteField16(s.proof);
      WriteField16(s.data);
    }

    method WriteCommits(commits: seq<seq<byte>>)
      modifies this
      ensures out == old(out) + WriteMany(WriteCommit, commits)
    {
      hide BigEndian;
      for i := 0 to |commits|
        invariant out == old(out) + WriteMany(WriteCommit, commits[..i])
      {
        assert commits[..i + 1][..i] == commits[..i];
        Write(BigEndian(|commits[i]|));
        if |commits[i]| % 0x1_0000 > 0 {
          Write(commits[i]);
        }
      }
      assert commits[..|commits|] == commits;
    }

    method WriteSeeds(seeds: seq<SeedPiece>)
      modifies this
      ensures out == old(out) + WriteMany(WriteSeed, seeds)
    {
      hide WriteSeed;
      for i := 0 to |seeds|
        invariant out == old(out) + WriteMany(WriteSeed, seeds[..i])
      {
        assert seeds[..i + 1][..i] == seeds[..i];
        WriteSeedPiece(seeds[i]);
      }
      assert seeds[..|seeds|] == seeds;
    }

    /** Writes a batch message; on an error the bytes written before it stay on the stream. */
    method WriteBinaryBatchSeed(r: Request) returns (ok: bool)
      modifies this
      ensures ok <==> Accepted(r)
      ensures out == old(out) + Written(r)
    {
      hide BigEndian, Field8, WriteMany, WriteSeed, WriteCommit;
      Write(Magic);
      if |r.blockID| > 255 {
        return false;
      }
      WriteField8(r.blockID);
      Write(BigEndian(r.colIdx));
      if |r.sender| > 255 {
        return false;
      }
      WriteField8(r.sender);
      Write(BigEndian(|r.commits|));
      WriteCommits(r.commits);
      Write(BigEndian(|r.seeds|));
      WriteSeeds(r.seeds);
      ok := true;
    }
  }

  method NextSeed(reader: Reader) returns (ok: bool, s: SeedPiece)
    requires reader.Valid()
    modifies reader
    ensures reader.Valid() && ReadSeed(old(reader.Rest())) == if ok then Got(s, reader.Rest()) else Short
  {
    hide ReadU16, ReadField8, ReadField16;
    s := SeedPiece(0, 0, [], [], []);
    var row, col, coeffs, proof, data;
    ok, row := reader.NextU16();
    if !ok {
      return;
    }
    ok, col := reader.NextU16();
    if !ok {
      return;
    }
    ok, coeffs := reader.NextField8();
    if !ok {
      return;
    }
    ok, proof := reader.NextField16();
    if !ok {
      return;
    }
    ok, data := reader.NextField16();
    s := SeedPiece(row, col, data, coeffs, proof);
  }

  method NextCommits(reader: Reader, n: nat) returns (ok: bool, commits: seq<seq<byte>>)
    requires reader.Valid()
    modifies reader
    ensures reader.Valid()
    ensures ReadMany(ReadField16, n, old(reader.Rest())) == if ok then Got(commits, reader.Rest()) else Short
  {
    hide ReadField16;
    ok, commits := true, [];
    for i := 0 to n
      invariant reader.Valid() && ok
      invariant ReadMany(ReadField16, i, old(reader.Rest())) == Got(commits, reader.Rest())
    {
      var c;
      ok, c := reader.NextField16();
      if !ok {
        ShortStays(ReadField16, i + 1, n, old(reader.Rest()));
        return;
      }
      commits := commits + [c];
    }
  }

  method NextSeeds(reader: Reader, n: nat) returns (ok: bool, seeds: seq<SeedPiece>)
    requires reader.Valid()
    modifies reader
    ensures reader.Valid()
    ensures ReadMany(ReadSeed, n, old(reader.Rest())) == if ok then Got(seeds, reader.Rest()) else Short
  {
    hide ReadSeed;
    ok, seeds := true, [];
    for i := 0 to n
      invariant reader.Valid() && ok
      invariant ReadMany(ReadSeed, i, old(reader.Rest())) == Got(seeds, reader.Rest())
    {
      var s;
      ok, s := NextSeed(reader);
      if !ok {
        ShortStays(ReadSeed, i + 1, n, old(reader.Rest()));
        return;
      }
      seeds := seeds + [s];
    }
  }

  lemma {:induction false} ShortStays<T>(read: seq<byte> -> Result<T>, i: nat, n: nat, data: seq<byte>)
    requires i <= n && ReadMany(read, i, data) == Short
    ensures ReadMany(read, n, data) == Short
  {
    if i < n {
      ShortStays(read, i, n - 1, data);
    }
  }

  /** Reads one batch message off the stream. */
  method ReadBinaryBatchSeed(reader: Reader) returns (ok: bool, r: Request)
    requires reader.Valid()
    modifies reader
    ensures reader.Valid() && Decode(old(reader.Rest())) == if ok then Got(r, reader.Rest()) else Short
  {
    hide ReadU16, ReadField8, ReadField16, ReadMany, ReadSeed;
    r := Request([], 0, [], [], []);
    var magic, blockID, colIdx, sender, numCommits, commits, numSeeds, seeds;
    ok, magic := reader.ReadFull(4);
    if !ok {
      return;
    }
    if magic != Magic {
      return false, r;
    }
    ok, blockID := reader.NextField8();
    if !ok {
      return;
    }
    ok, colIdx := reader.NextU16();
    if !ok {
      return;
    }
    ok, sender := reader.NextField8();
    if !ok {
      return;
    }
    ok, numCommits := reader.NextU16();
    if !ok {
      return;
    }
    ok, commits := NextCommits(reader, numCommits);
    if !ok {
      return;
    }
    ok, numSeeds := reader.NextU16();
    if !ok {
      return;
    }
    ok, seeds := NextSeeds(reader, numSeeds);
    if ok {
      r := Request(blockID, colIdx, commits, seeds, sender);
    }
  }
}
