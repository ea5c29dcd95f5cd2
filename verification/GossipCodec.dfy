/**
 Recoded pieces on the gossip topics: encoded into one buffer through a moving index, decoded with a cursor.
 */
module GossipCodec {
  import opened Bytes
  import opened Wire

  datatype GossipPiece = GossipPiece(blockID: seq<byte>, row: uint16, col: uint16, coeffs: seq<byte>,
                                     proof: seq<byte>, data: seq<byte>, sender: seq<byte>)

  datatype Outcome = Malformed | Decoded(piece: GossipPiece)

  const Magic: byte := 0x47

  // The format.

  function Body(p: GossipPiece): seq<byte> {
    [Magic] + Field8(p.blockID) + BigEndian(p.row) + BigEndian(p.col) + Field8(p.coeffs) + Field16(p.proof)
    + Field16(p.data)
  }

  function Encode(p: GossipPiece): seq<byte> {
    Body(p) + Field8(p.sender)
  }

  /** The sender is the last field; when it is missing or cut short it is taken to be empty. */
  function Sender(rest: seq<byte>): seq<byte> {
    match ReadField8(rest)
    case Short => []
    case Got(sender, _) => sender
  }

  function ReadTail(blockID: seq<byte>, row: uint16, col: uint16, data: seq<byte>): Outcome {
    match ReadField8(data)
    case Short => Malformed
    case Got(coeffs, d1) =>
      match ReadField16(d1)
      case Short => Malformed
      case Got(proof, d2) =>
        match ReadField16(d2)
        case Short => Malformed
        case Got(bytes, d3) => Decoded(GossipPiece(blockID, row, col, coeffs, proof, bytes, Sender(d3)))
  }

  function ReadBody(data: seq<byte>): Outcome {
    match ReadField8(data)
    case Short => Malformed
    case Got(blockID, d1) =>
      match ReadU16(d1)
      case Short => Malformed
      case Got(row, d2) =>
        match ReadU16(d2)
        case Short => Malformed
        case Got(col, d3) => ReadTail(blockID, row, col, d3)
  }

  function Decode(data: seq<byte>): Outcome {
    if |data| < 13 || data[0] != Magic then Malformed else ReadBody(data[1..])
  }

  // The laws.

  predicate WithinLimits(p: GossipPiece) {
    && |p.blockID| < 256 && |p.coeffs| < 256 && |p.sender| < 256
    && |p.proof| < 0x1_0000 && |p.data| < 0x1_0000
  }

  /** The body is read in full, and what follows it decides the sender. */
  lemma BodyLaw(p: GossipPiece, rest: seq<byte>)
    requires WithinLimits(p) && |Body(p) + rest| >= 13
    ensures Decode(Body(p) + rest) == Decoded(p.(sender := Sender(rest)))
  {
    hide ReadU16, ReadField8, ReadField16, BigEndian, Field8, Field16, Sender;
    var d5 := Field16(p.data) + rest;
    var d4 := Field16(p.proof) + d5;
    var d3 := Field8(p.coeffs) + d4;
    var d2 := BigEndian(p.col) + d3;
    var d1 := BigEndian(p.row) + d2;
    var d0 := Field8(p.blockID) + d1;
    assert Body(p) + rest == [Magic] + d0;
    assert ([Magic] + d0)[1..] == d0;
    Field8Law(p.blockID, d1);
    U16Law(p.row, d2);
    U16Law(p.col, d3);
    Field8Law(p.coeffs, d4);
    Field16Law(p.proof, d5);
    Field16Law(p.data, rest);
  }

  lemma SenderLaw(sender: seq<byte>, suffix: seq<byte>)
    requires |sender| < 256
    ensures Sender(Field8(sender) + suffix) == sender
  {
    Field8Law(sender, suffix);
  }

  lemma SenderCut(sender: seq<byte>, n: nat)
    requires |sender| < 256 && n < |Field8(sender)|
    ensures Sender(Field8(sender)[..n]) == []
  {
  }

  lemma TailBounds(blockID: seq<byte>, row: uint16, col: uint16, data: seq<byte>)
    ensures var o := ReadTail(blockID, row, col, data);
            o.Decoded? ==> |o.piece.coeffs| < 256 && |o.piece.sender| < 256 && o.piece.blockID == blockID
                           && |o.piece.proof| < 0x1_0000 && |o.piece.data| < 0x1_0000
  {
    hide ReadU16;
  }

  lemma DecodedIsWithinLimits(data: seq<byte>)
    ensures Decode(data).Decoded? ==> |data| >= 13 && WithinLimits(Decode(data).piece)
  {
    hide ReadTail;
    if Decode(data).Decoded? {
      var d1 := ReadField8(data[1..]).rest;
      var d2 := ReadU16(d1).rest;
      TailBounds(ReadField8(data[1..]).value, ReadU16(d1).value, ReadU16(d2).value, ReadU16(d2).rest);
    }
  }

  /** A piece survives the wire, whatever follows it, exactly when its fields fit their length prefixes and the
      bytes are at least thirteen; the shortest encoding has twelve. */
  lemma RoundTripExactly(p: GossipPiece, suffix: seq<byte>)
    ensures Decode(Encode(p) + suffix) == Decoded(p) <==> WithinLimits(p) && |Encode(p) + suffix| >= 13
    ensures |Encode(p)| == 12 + |p.blockID| + |p.coeffs| + |p.proof| + |p.data| + |p.sender|
  {
    hide Decode, Sender, BigEndian;
    assert Encode(p) + suffix == Body(p) + (Field8(p.sender) + suffix);
    DecodedIsWithinLimits(Encode(p) + suffix);
    if WithinLimits(p) && |Encode(p) + suffix| >= 13 {
      BodyLaw(p, Field8(p.sender) + suffix);
      SenderLaw(p.sender, suffix);
    }
  }

  /** The decoder reads a body from the front of the bytes and nothing else. */
  lemma DecodeFront(data: seq<byte>) returns (rest: seq<byte>)
    requires Decode(data).Decoded?
    ensures var p := Decode(data).piece; data == Body(p) + rest && p.sender == Sender(rest)
  {
    hide ReadU16, ReadField8, ReadField16, BigEndian, Field8, Field16, Sender;
    var p := Decode(data).piece;
    var d0 := data[1..];
    var d1 := ReadField8(d0).rest;
    var d2 := ReadU16(d1).rest;
    var d3 := ReadU16(d2).rest;
    var d4 := ReadField8(d3).rest;
    var d5 := ReadField16(d4).rest;
    rest := ReadField16(d5).rest;
    Field8Front(d0);
    U16Front(d1);
    U16Front(d2);
    Field8Front(d3);
    Field16Front(d4);
    Field16Front(d5);
    assert data == [Magic] + d0;
    assert data == [Magic] + (Field8(p.blockID) + (BigEndian(p.row) + (BigEndian(p.col) + (Field8(p.coeffs)
                   + (Field16(p.proof) + (Field16(p.data) + rest))))));
  }

  lemma BodyIsPrefixFree(p: GossipPiece, q: GossipPiece, rest: seq<byte>, tail: seq<byte>)
    requires WithinLimits(p) && WithinLimits(q) && Body(p) + rest == Body(q) + tail
    ensures rest == tail && p.(sender := []) == q.(sender := [])
  {
    hide Body, Decode, Sender;
    var pad := seq(13, _ => 0);
    assert Body(p) + (rest + pad) == Body(q) + (tail + pad) by {
      assert Body(p) + (rest + pad) == (Body(p) + rest) + pad;
      assert Body(q) + (tail + pad) == (Body(q) + tail) + pad;
    }
    BodyLaw(p, rest + pad);
    BodyLaw(q, tail + pad);
    SameBody(p, q, Sender(rest + pad), Sender(tail + pad));
    assert rest == (Body(p) + rest)[|Body(p)|..];
    assert tail == (Body(q) + tail)[|Body(q)|..];
  }

  lemma SameBody(p: GossipPiece, q: GossipPiece, s: seq<byte>, t: seq<byte>)
    requires p.(sender := s) == q.(sender := t)
    ensures Body(p) == Body(q) && p.(sender := []) == q.(sender := [])
  {
  }

  /** A message cut short is refused, unless only its sender is cut, which is then taken to be empty. */
  lemma CutShort(p: GossipPiece, n: nat)
    requires WithinLimits(p) && n < |Encode(p)|
    ensures Decode(Encode(p)[..n]) ==
            if n < 13 || n < |Body(p)| then Malformed else Decoded(p.(sender := []))
  {
    hide Body, Decode, Sender, WithinLimits, Field8;
    var part := Encode(p)[..n];
    if n >= |Body(p)| {
      var cut := n - |Body(p)|;
      assert part == Body(p) + Field8(p.sender)[..cut];
      CutSender(p, cut);
    } else if Decode(part).Decoded? {
      var rest := DecodeFront(part);
      DecodedIsWithinLimits(part);
      var q, tail := Decode(part).piece, Body(p)[n..];
      assert part == Body(p)[..n] && Body(p) == part + tail;
      assert Body(p) + [] == Body(q) + (rest + tail);
      BodyIsPrefixFree(p, q, [], rest + tail);
    }
  }

  lemma CutSender(p: GossipPiece, cut: nat)
    requires WithinLimits(p) && cut < |Field8(p.sender)|
    ensures Decode(Body(p) + Field8(p.sender)[..cut]) ==
            if |Body(p)| + cut < 13 then Malformed else Decoded(p.(sender := []))
  {
    hide Body, Sender;
    SenderCut(p.sender, cut);
    if |Body(p)| + cut >= 13 {
      BodyLaw(p, Field8(p.sender)[..cut]);
    }
  }

  // The encoder and the decoder.

  /** Copies a field into the buffer. */
  method PutBytes(buf: array<byte>, idx: nat, bytes: seq<byte>) returns (next: nat)
    requires idx + |bytes| <= buf.Length
    modifies buf
    ensures next == idx + |bytes| && buf[..next] == old(buf[..idx]) + bytes
  {
    for i := 0 to |bytes|
      invariant buf[..idx + i] == old(buf[..idx]) + bytes[..i]
    {
      buf[idx + i] := bytes[i];
      assert buf[..idx + i + 1] == buf[..idx + i] + [bytes[i]];
    }
    assert bytes[..|bytes|] == bytes;
    next := idx + |bytes|;
  }

  method PutField8(buf: array<byte>, idx: nat, field: seq<byte>) returns (next: nat)
    requires idx + 1 + |field| <= buf.Length
    modifies buf
    ensures next == idx + 1 + |field| && buf[..next] == old(buf[..idx]) + Field8(field)
  {
    next := PutBytes(buf, idx, [|field| % 256]);
    next := PutBytes(buf, next, field);
  }

  method PutField16(buf: array<byte>, idx: nat, field: seq<byte>) returns (next: nat)
    requires idx + 2 + |field| <= buf.Length
    modifies buf
    ensures next == idx + 2 + |field| && buf[..next] == old(buf[..idx]) + Field16(field)
  {
    hide BigEndian;
    next := PutBytes(buf, idx, BigEndian(|field|));
    next := PutBytes(buf, next, field);
  }

  function Header(p: GossipPiece): seq<byte> {
    [Magic] + Field8(p.blockID) + BigEndian(p.row) + BigEndian(p.col)
  }

  method PutHeader(buf: array<byte>, p: GossipPiece) returns (next: nat)
    requires 6 + |p.blockID| <= buf.Length
    modifies buf
    ensures next == 6 + |p.blockID| && buf[..next] == Header(p)
  {
    hide BigEndian, Field8;
    next := PutBytes(buf, 0, [Magic]);
    next := PutField8(buf, next, p.blockID);
    next := PutBytes(buf, next, BigEndian(p.row));
    next := PutBytes(buf, next, BigEndian(p.col));
  }

  method EncodeBinaryGossipPiece(p: GossipPiece) returns (out: seq<byte>)
    ensures out == Encode(p)
  {
    hide Field8, Field16, Header, Encode;
    var totalLen := 12 + |p.blockID| + |p.coeffs| + |p.proof| + |p.data| + |p.sender|;
    var buf := new byte[totalLen](_ => 0);
    var idx := PutHeader(buf, p);
    idx := PutField8(buf, idx, p.coeffs);
    idx := PutField16(buf, idx, p.proof);
    idx := PutField16(buf, idx, p.data);
    idx := PutField8(buf, idx, p.sender);
    out := buf[..idx];
    Layout(p);
  }

  lemma Layout(p: GossipPiece)
    ensures Encode(p) == Header(p) + Field8(p.coeffs) + Field16(p.proof) + Field16(p.data) + Field8(p.sender)
  {
  }

  /** Takes the n bytes at the cursor. */
  method TakeAt(data: seq<byte>, idx: nat, n: nat) returns (ok: bool, bytes: seq<byte>, next: nat)
    requires idx <= |data|
    ensures next <= |data| && Take(n, data[idx..]) == if ok then Got(bytes, data[next..]) else Short
    ensures ok ==> next == idx + n
  {
    ok, bytes, next := idx + n <= |data|, [], idx;
    if ok {
      next := idx + n;
      bytes := data[idx..next];
      assert data[idx..][..n] == bytes && data[idx..][n..] == data[next..];
    }
  }

  method Field8At(data: seq<byte>, idx: nat) returns (ok: bool, field: seq<byte>, next: nat)
    requires idx <= |data|
    ensures next <= |data| && ReadField8(data[idx..]) == if ok then Got(field, data[next..]) else Short
  {
    if idx + 1 > |data| {
      return false, [], idx;
    }
    assert data[idx..][1..] == data[idx + 1..];
    ok, field, next := TakeAt(data, idx + 1, data[idx]);
  }

  method U16At(data: seq<byte>, idx: nat) returns (ok: bool, v: uint16, next: nat)
    requires idx <= |data|
    ensures next <= |data| && ReadU16(data[idx..]) == if ok then Got(v, data[next..]) else Short
  {
    if idx + 2 > |data| {
      return false, 0, idx;
    }
    assert data[idx..][2..] == data[idx + 2..];
    return true, U16(data[idx], data[idx + 1]), idx + 2;
  }

  method Field16At(data: seq<byte>, idx: nat) returns (ok: bool, field: seq<byte>, next: nat)
    requires idx <= |data|
    ensures next <= |data| && ReadField16(data[idx..]) == if ok then Got(field, data[next..]) else Short
  {
    hide ReadU16;
    var n;
    field := [];
    ok, n, next := U16At(data, idx);
    if ok {
      ok, field, next := TakeAt(data, next, n);
    }
  }

  method DecodeBinaryGossipPiece(data: seq<byte>) returns (o: Outcome)
    ensures o == Decode(data)
  {
    hide ReadU16, ReadField8, ReadField16;
    o := Malformed;
    if |data| < 13 || data[0] != Magic {
      return;
    }
    var ok, blockID, row, col, coeffs, proof, bytes, sender;
    var idx := 1;
    ok, blockID, idx := Field8At(data, idx);
    if !ok {
      return;
    }
    ok, row, idx := U16At(data, idx);
    if !ok {
      return;
    }
    ok, col, idx := U16At(data, idx);
    if !ok {
      return;
    }
    ok, coeffs, idx := Field8At(data, idx);
    if !ok {
      return;
    }
    ok, proof, idx := Field16At(data, idx);
    if !ok {
      return;
    }
    ok, bytes, idx := Field16At(data, idx);
    if !ok {
      return;
    }
    ok, sender, idx := Field8At(data, idx);
    o := Decoded(GossipPiece(blockID, row, col, coeffs, proof, bytes, if ok then sender else []));
  }
}
