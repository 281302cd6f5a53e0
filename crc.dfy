/** The CRC-32 engine declared in crc.h.  Its bodies are the sample code of
    the PNG 1.2 specification (Appendix 15), which computes the CRC of
    section 3.4 of PNG 1.2: a 256-entry table built with the reversed
    polynomial 0xEDB88320, a running CRC updated one byte at a time through
    that table, started at all 1's and complemented at the end.

    The functions below are the specification; the class CrcState holds the
    process-wide table and its "computed" flag and carries the loops. */
module Crc {
  import opened Bytes

  /** unsigned long, taken 64 bits wide as on an LP64 host. */
  type ULong = bv64

  /** int, the type of update_crc's and crc's length argument. */
  newtype CInt = x: int | -0x8000_0000 <= x < 0x8000_0000

  /** The reversed CRC-32 polynomial. */
  const Polynomial: ULong := 0xEDB8_8320

  /** The initial running CRC and the final complement mask. */
  const AllOnes: ULong := 0xFFFF_FFFF

  /** The value fits in 32 bits, whatever the width of unsigned long. */
  predicate Fits32(c: ULong) {
    c <= 0xFFFF_FFFF
  }

  /** One of the 8 rounds of make_crc_table's inner loop.  It never sets a
      bit at or above bit 32 of a 32-bit value. */
  function Round(c: ULong): (r: ULong)
    ensures Fits32(c) ==> Fits32(r)
  {
    if c & 1 == 1 then Polynomial ^ (c >> 1) else c >> 1
  }

  /** k rounds applied to c; any number of them keeps a 32-bit value within
      32 bits. */
  function Rounds(c: ULong, k: nat): (r: ULong)
    ensures Fits32(c) ==> Fits32(r)
  {
    if k == 0 then c else Round(Rounds(c, k - 1))
  }

  /** crc_table[n]: 8 rounds seeded with the index n, a 32-bit value even in
      a 64-bit unsigned long. */
  function TableEntry(n: Byte): (r: ULong)
    ensures Fits32(r)
  {
    Rounds(n as ULong, 8)
  }

  /** The whole table, as make_crc_table leaves it. */
  function CrcTable(): (t: seq<ULong>)
    ensures |t| == 256
    ensures forall n :: 0 <= n < 256 ==> t[n] == TableEntry(n as Byte) && Fits32(t[n])
  {
    seq(256, n requires 0 <= n < 256 => TableEntry(n as Byte))
  }

  /** The table index that the byte b selects in the running CRC c. */
  function TableIndex(c: ULong, b: Byte): Byte {
    ((c ^ (b as ULong)) & 0xff) as Byte
  }

  /** The body of update_crc's loop: c = crc_table[(c ^ b) & 0xff] ^ (c >> 8).
      One step keeps a 32-bit running CRC within 32 bits. */
  function Step(c: ULong, b: Byte): (r: ULong)
    ensures Fits32(c) ==> Fits32(r)
  {
    TableEntry(TableIndex(c, b)) ^ (c >> 8)
  }

  /** The running CRC after the bytes of s, in order, starting from c.  If
      the incoming running CRC is below 2^32 the result is too, although
      unsigned long is wider. */
  function RunningCrc(c: ULong, s: seq<Byte>): (r: ULong)
    ensures Fits32(c) ==> Fits32(r)
    decreases |s|
  {
    if s == [] then c else RunningCrc(Step(c, s[0]), s[1..])
  }

  /** The value crc() returns: init to all 1's, update, complement.  It is a
      32-bit value. */
  function Checksum(s: seq<Byte>): (r: ULong)
    ensures Fits32(r)
  {
    RunningCrc(AllOnes, s) ^ AllOnes
  }

  // ---------------------------------------------------------------------
  // Properties of the specification

  /** Updating with no bytes leaves the running CRC as it was. */
  lemma RunningCrcOfNothing(c: ULong)
    ensures RunningCrc(c, []) == c
  {
  }

  /** Streaming composes: updating with a and then with b is updating with a + b. */
  lemma {:induction false} RunningCrcAppend(c: ULong, a: seq<Byte>, b: seq<Byte>)
    ensures RunningCrc(c, a + b) == RunningCrc(RunningCrc(c, a), b)
    decreases |a|
  {
    if a == [] {
      assert a + b == b;
    } else {
      assert (a + b)[0] == a[0];
      assert (a + b)[1..] == a[1..] + b;
      RunningCrcAppend(Step(c, a[0]), a[1..], b);
    }
  }

  /** Appending one byte is one more step: the shape of update_crc's loop. */
  lemma RunningCrcSnoc(c: ULong, s: seq<Byte>, b: Byte)
    ensures RunningCrc(c, s + [b]) == Step(RunningCrc(c, s), b)
  {
    RunningCrcAppend(c, s, [b]);
  }

  /** The checksum of a buffer delivered in two pieces: update with the first
      piece, continue with the second, complement once at the end. */
  lemma ChecksumInPieces(a: seq<Byte>, b: seq<Byte>)
    ensures Checksum(a + b) == RunningCrc(RunningCrc(AllOnes, a), b) ^ AllOnes
  {
    RunningCrcAppend(AllOnes, a, b);
  }

  /** One turn of update_crc's loop extends the running CRC by one byte. */
  lemma LoopStep(crc: ULong, s: seq<Byte>, n: int, c: ULong)
    requires 0 <= n < |s|
    requires c == RunningCrc(crc, s[..n])
    ensures Step(c, s[n]) == RunningCrc(crc, s[..n + 1])
  {
    assert s[..n + 1] == s[..n] + [s[n]];
    RunningCrcSnoc(crc, s[..n], s[n]);
  }

  /** With a computed table, the lookup in update_crc's loop is Step. */
  lemma LookupIsStep(t: array<ULong>, c: ULong, b: Byte)
    requires t.Length == 256
    requires forall n: Byte :: t[n as int] == TableEntry(n)
    ensures t[TableIndex(c, b) as int] ^ (c >> 8) == Step(c, b)
  {
  }

  /** The number of bytes update_crc reads for a length argument: none when
      it is zero or negative, since its loop runs for n < len. */
  function BytesRead(len: CInt): (k: nat)
    ensures len <= 0 ==> k == 0
    ensures len > 0 ==> k == len as int
  {
    if len < 0 then 0 else len as int
  }

  /** The inner loop of make_crc_table: 8 rounds seeded with (unsigned long) n. */
  method EightRounds(n: int) returns (c: ULong)
    requires 0 <= n < 256
    ensures c == TableEntry(n as Byte)
  {
    c := (n as Byte) as ULong;
    var k := 0;
    while k < 8
      invariant 0 <= k <= 8
      invariant c == Rounds((n as Byte) as ULong, k)
    {
      if c & 1 == 1 {
        c := Polynomial ^ (c >> 1);
      } else {
        c := c >> 1;
      }
      k := k + 1;
    }
  }

  // ---------------------------------------------------------------------
  // The implementation: the global table, its flag, and the three routines

  /** The process-wide state of the sample code: crc_table[256] and
      crc_table_computed, both zero-initialised like C statics. */
  class CrcState {
    var crcTable: array<ULong>
    var crcTableComputed: bool

    ghost predicate Valid()
      reads this, crcTable
    {
      && crcTable.Length == 256
      && (crcTableComputed ==> forall n: Byte :: crcTable[n as int] == TableEntry(n))
    }

    constructor ()
      ensures Valid() && !crcTableComputed && fresh(crcTable)
      ensures crcTable[..] == seq(256, _ => 0)
    {
      crcTable := new ULong[256](_ => 0);
      crcTableComputed := false;
    }

    /** make_crc_table: fills the table and sets the flag. */
    method MakeCrcTable()
      requires crcTable.Length == 256
      modifies this`crcTableComputed, crcTable
      ensures Valid() && crcTableComputed
      ensures crcTable[..] == CrcTable()
    {
      var n := 0;
      while n < 256
        invariant 0 <= n <= 256
        invariant forall m :: 0 <= m < n ==> crcTable[m] == TableEntry(m as Byte)
      {
        var c := EightRounds(n);
        crcTable[n] := c;
        n := n + 1;
      }
      crcTableComputed := true;
      assert crcTable[..] == CrcTable();
      forall b: Byte
        ensures crcTable[b as int] == TableEntry(b)
      {
        assert (b as int) as Byte == b;
      }
    }

    /** update_crc: builds the table on first use, then runs the bytes
        buf[0..len-1] through the running CRC. */
    method UpdateCrc(crc: ULong, buf: array<Byte>, len: CInt) returns (c: ULong)
      requires Valid()
      requires len as int <= buf.Length
      modifies this`crcTableComputed, crcTable
      ensures Valid() && crcTableComputed
      ensures c == RunningCrc(crc, buf[..BytesRead(len)])
      ensures len <= 0 ==> c == crc
      ensures Fits32(crc) ==> Fits32(c)
    {
      c := crc;
      if !crcTableComputed {
        MakeCrcTable();
      }
      var n: CInt := 0;
      while n < len
        invariant 0 <= n as int <= BytesRead(len)
        invariant Valid() && crcTableComputed
        invariant c == RunningCrc(crc, buf[..n])
      {
        LoopStep(crc, buf[..], n as int, c);
        LookupIsStep(crcTable, c, buf[n]);
        c := crcTable[TableIndex(c, buf[n]) as int] ^ (c >> 8);
        n := n + 1;
      }
      assert n as int == BytesRead(len);
      assert buf[..n] == buf[..BytesRead(len)];
    }

    /** crc: the CRC of buf[0..len-1] as transmitted. */
    method Crc(buf: array<Byte>, len: CInt) returns (r: ULong)
      requires Valid()
      requires len as int <= buf.Length
      modifies this`crcTableComputed, crcTable
      ensures Valid() && crcTableComputed
      ensures r == Checksum(buf[..BytesRead(len)])
    {
      r := UpdateCrc(AllOnes, buf, len);
      r := r ^ AllOnes;
    }
  }
}
