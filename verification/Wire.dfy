/** Length-prefixed fields, written one after the other and read from the front of a stream. */
module Wire {
  import opened Bytes

  /** What reading from the front of some bytes yields: a value and the bytes after it. */
  datatype Result<T> = Short | Got(value: T, rest: seq<byte>)

  function Take(n: nat, data: seq<byte>): Result<seq<byte>> {
    if |data| < n then Short else Got(data[..n], data[n..])
  }

  function ReadU8(data: seq<byte>): Result<byte> {
    if data == [] then Short else Got(data[0], data[1..])
  }

  function ReadU16(data: seq<byte>): Result<uint16> {
    if |data| < 2 then Short else Got(U16(data[0], data[1]), data[2..])
  }

  function ReadField8(data: seq<byte>): Result<seq<byte>> {
    match ReadU8(data)
    case Short => Short
    case Got(n, rest) => Take(n, rest)
  }

  function ReadField16(data: seq<byte>): Result<seq<byte>> {
    match ReadU16(data)
    case Short => Short
    case Got(n, rest) => Take(n, rest)
  }

  // The length prefixes keep the low bits of the length only.

  function Field8(field: seq<byte>): seq<byte> {
    [|field| % 256] + field
  }

  function Field16(field: seq<byte>): seq<byte> {
    BigEndian(|field|) + field
  }

  lemma U16Law(n: nat, suffix: seq<byte>)
    ensures ReadU16(BigEndian(n) + suffix) == Got(n % 0x1_0000, suffix)
  {
    var data := BigEndian(n) + suffix;
    assert data[0] == BigEndian(n)[0] && data[1] == BigEndian(n)[1];
    BigEndianInverse(n, 0, 0);
    assert data[2..] == suffix;
  }

  lemma U16Front(data: seq<byte>)
    requires ReadU16(data).Got?
    ensures data == BigEndian(ReadU16(data).value) + ReadU16(data).rest
  {
    BigEndianInverse(0, data[0], data[1]);
    assert data == [data[0], data[1]] + data[2..];
  }

  lemma TakeLaw(field: seq<byte>, suffix: seq<byte>)
    ensures Take(|field|, field + suffix) == Got(field, suffix)
  {
    assert (field + suffix)[..|field|] == field && (field + suffix)[|field|..] == suffix;
  }

  lemma Field8Law(field: seq<byte>, suffix: seq<byte>)
    requires |field| < 256
    ensures ReadField8(Field8(field) + suffix) == Got(field, suffix)
  {
    var data := Field8(field) + suffix;
    assert data[0] == |field| && data[1..] == field + suffix;
    TakeLaw(field, suffix);
  }

  lemma Field8Front(data: seq<byte>)
    requires ReadField8(data).Got?
    ensures |ReadField8(data).value| < 256 && data == Field8(ReadField8(data).value) + ReadField8(data).rest
  {
    var n, rest := data[0], data[1..];
    assert rest == rest[..n] + rest[n..];
    assert data == [n] + rest[..n] + rest[n..];
  }

  lemma Field16Law(field: seq<byte>, suffix: seq<byte>)
    requires |field| < 0x1_0000
    ensures ReadField16(Field16(field) + suffix) == Got(field, suffix)
  {
    hide BigEndian, ReadU16;
    assert Field16(field) + suffix == BigEndian(|field|) + (field + suffix);
    U16Law(|field|, field + suffix);
    assert |field| % 0x1_0000 == |field|;
    TakeLaw(field, suffix);
  }

  lemma Field16Front(data: seq<byte>)
    requires ReadField16(data).Got?
    ensures |ReadField16(data).value| < 0x1_0000
    ensures data == Field16(ReadField16(data).value) + ReadField16(data).rest
  {
    hide BigEndian, ReadU16;
    U16Front(data);
    var n, rest := ReadU16(data).value, ReadU16(data).rest;
    assert data == BigEndian(n) + rest[..n] + rest[n..];
  }

  // Counted lists of items.

  function ReadMany<T>(read: seq<byte> -> Result<T>, n: nat, data: seq<byte>): Result<seq<T>> {
    if n == 0 then Got([], data)
    else
      match ReadMany(read, n - 1, data)
      case Short => Short
      case Got(xs, rest) =>
        match read(rest)
        case Short => Short
        case Got(x, rest') => Got(xs + [x], rest')
  }

  function WriteMany<T>(write: T -> seq<byte>, xs: seq<T>): seq<byte> {
    if xs == [] then [] else WriteMany(write, xs[..|xs| - 1]) + write(xs[|xs| - 1])
  }

  /** Reading undoes writing and takes no byte more, for the values within limits; and whatever is read is
      within limits and had been written that way. */
  ghost predicate Lawful<T(!new)>(write: T -> seq<byte>, read: seq<byte> -> Result<T>, ok: T -> bool) {
    && (forall x, suffix :: ok(x) ==> read(write(x) + suffix) == Got(x, suffix))
    && (forall data :: read(data).Got? ==>
                         ok(read(data).value) && data == write(read(data).value) + read(data).rest)
  }

  lemma {:induction false} ManyLaw<T(!new)>(write: T -> seq<byte>, read: seq<byte> -> Result<T>, ok: T -> bool,
                                            xs: seq<T>, suffix: seq<byte>)
    requires Lawful(write, read, ok) && forall x :: x in xs ==> ok(x)
    ensures ReadMany(read, |xs|, WriteMany(write, xs) + suffix) == Got(xs, suffix)
  {
    if xs == [] {
      assert WriteMany(write, xs) + suffix == suffix;
    } else {
      var n := |xs| - 1;
      var last := write(xs[n]) + suffix;
      ManyLaw(write, read, ok, xs[..n], last);
      assert WriteMany(write, xs) + suffix == WriteMany(write, xs[..n]) + last;
      assert xs[..n] + [xs[n]] == xs;
    }
  }

  lemma {:induction false} ManyFront<T(!new)>(write: T -> seq<byte>, read: seq<byte> -> Result<T>, ok: T -> bool,
                                              n: nat, data: seq<byte>)
    requires Lawful(write, read, ok) && ReadMany(read, n, data).Got?
    ensures var (xs, rest) := (ReadMany(read, n, data).value, ReadMany(read, n, data).rest);
            |xs| == n && (forall x :: x in xs ==> ok(x)) && data == WriteMany(write, xs) + rest
  {
    if n > 0 {
      ManyFront(write, read, ok, n - 1, data);
      var xs, rest := ReadMany(read, n - 1, data).value, ReadMany(read, n - 1, data).rest;
      var x := read(rest).value;
      assert (xs + [x])[..n - 1] == xs;
      assert data == WriteMany(write, xs) + (write(x) + read(rest).rest);
      assert data == WriteMany(write, xs + [x]) + read(rest).rest;
    }
  }

  // A stream that is read from the front.

  class Reader {
    const data: seq<byte>
    var pos: nat

    ghost predicate Valid()
      reads this
    {
      pos <= |data|
    }

    ghost function Rest(): seq<byte>
      requires Valid()
      reads this
    {
      data[pos..]
    }

    constructor (data: seq<byte>)
      ensures Valid() && Rest() == data
    {
      this.data, pos := data, 0;
    }

    /** Reads n bytes, or all that is left when there are fewer. */
    method ReadFull(n: nat) returns (ok: bool, bytes: seq<byte>)
      requires Valid()
      modifies this
      ensures Valid() && Take(n, old(Rest())) == if ok then Got(bytes, Rest()) else Short
      ensures !ok ==> Rest() == []
    {
      if |data| - pos < n {
        pos := |data|;
        return false, [];
      }
      bytes := data[pos..pos + n];
      assert data[pos..][..n] == bytes && data[pos..][n..] == data[pos + n..];
      pos := pos + n;
      ok := true;
    }

    method NextU8() returns (ok: bool, v: byte)
      requires Valid()
      modifies this
      ensures Valid() && ReadU8(old(Rest())) == if ok then Got(v, Rest()) else Short
    {
      v := 0;
      var bytes;
      ok, bytes := ReadFull(1);
      if ok {
        v := bytes[0];
      }
    }

    method NextU16() returns (ok: bool, v: uint16)
      requires Valid()
      modifies this
      ensures Valid() && ReadU16(old(Rest())) == if ok then Got(v, Rest()) else Short
    {
      v := 0;
      var bytes;
      ok, bytes := ReadFull(2);
      if ok {
        v := U16(bytes[0], bytes[1]);
      }
    }

    method NextField8() returns (ok: bool, field: seq<byte>)
      requires Valid()
      modifies this
      ensures Valid() && ReadField8(old(Rest())) == if ok then Got(field, Rest()) else Short
    {
      hide ReadU8;
      field := [];
      var n;
      ok, n := NextU8();
      if ok {
        ok, field := ReadFull(n);
      }
    }

    method NextField16() returns (ok: bool, field: seq<byte>)
      requires Valid()
      modifies this
      ensures Valid() && ReadField16(old(Rest())) == if ok then Got(field, Rest()) else Short
    {
      hide ReadU16;
      field := [];
      var n;
      ok, n := NextU16();
      if ok {
        ok, field := ReadFull(n);
      }
    }
  }
}
