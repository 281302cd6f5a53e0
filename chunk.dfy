/** The chunk record of chunk.h and the operations of chunk.c.  A PNG chunk
    (section 3.2 of PNG 1.2) is a 4-byte length, a 4-byte type, `length`
    data bytes and a 4-byte CRC computed over the type and data bytes but
    not the length.  chunk_t keeps the three 32-bit fields as uint32_t and
    the data section behind a pointer; crc_chunk copies the type field's
    memory image and the data into one stack buffer and runs crc() over it. */
module Chunks {
  import opened Bytes
  import opened Crc
  import opened CrcVectors

  /** The value a uint32_t variable keeps of an unsigned long: the low 32 bits. */
  function Truncate32(c: ULong): (r: U32)
    ensures Fits32(c) ==> r as ULong == c
  {
    (c & 0xFFFF_FFFF) as U32
  }

  /** The int that update_crc receives when crc_chunk passes it the uint64_t
      total_length: the value modulo 2^32, read as a two's-complement int
      (the conversion the usual compilers perform). */
  function ToCInt(x: nat): (r: CInt)
    ensures x < 0x8000_0000 ==> r as int == x
    ensures (r as int - x) % 0x1_0000_0000 == 0
    ensures r as int <= x
  {
    var m := x % 0x1_0000_0000;
    if m < 0x8000_0000 then m as CInt else (m - 0x1_0000_0000) as CInt
  }

  /** The bytes crc_chunk hashes: the type field as the host lays it out in
      memory, then the data section. */
  function CrcInput(chunkType: U32, payload: seq<Byte>, host: ByteOrder): (s: seq<Byte>)
    ensures |s| == 4 + |payload|
    ensures s[..4] == HostBytes(chunkType, host) && s[4..] == payload
  {
    HostBytes(chunkType, host) + payload
  }

  /** The crc field crc_chunk leaves, exactly as it computes it: update_crc
      runs over as many bytes as the int conversion of 4 + length says. */
  function ChunkCrcAsWritten(chunkType: U32, payload: seq<Byte>, host: ByteOrder): (r: U32)
    ensures r as ULong == Checksum(CrcInput(chunkType, payload, host)[..BytesRead(ToCInt(4 + |payload|))])
  {
    var s := CrcInput(chunkType, payload, host);
    Truncate32(Checksum(s[..BytesRead(ToCInt(|s|))]))
  }

  /** The crc field the routine is meant to leave: the CRC of all 4 + length
      bytes, type first. */
  function ChunkCrc(chunkType: U32, payload: seq<Byte>, host: ByteOrder): (r: U32)
    ensures r as ULong == Checksum(CrcInput(chunkType, payload, host))
  {
    Truncate32(Checksum(CrcInput(chunkType, payload, host)))
  }

  /** The CRC a PNG chunk must carry (section 3.2 of PNG 1.2): the CRC of the
      type code, most significant byte first as it is written to the file,
      followed by the data. */
  function PngChunkCrc(tag: U32, payload: seq<Byte>): (r: U32)
    ensures r as ULong == Checksum(BigEndianBytes(tag) + payload)
  {
    Truncate32(Checksum(BigEndianBytes(tag) + payload))
  }

  /** The word whose bytes are those of x in reverse order. */
  function ByteSwap(x: U32): (r: U32)
    ensures BigEndianBytes(r) == HostBytes(x, LittleEndian)
    ensures HostBytes(r, LittleEndian) == BigEndianBytes(x)
  {
    BuildU32(GetNthByte(x, 0), GetNthByte(x, 1), GetNthByte(x, 2), GetNthByte(x, 3))
  }

  /** The type code IEND, as build_u32('I', 'E', 'N', 'D'). */
  const IendTag: U32 := 0x4945_4E44

  // ---------------------------------------------------------------------
  // What crc_chunk computes

  /** Below 2^31 - 4 data bytes the int conversion is exact and crc_chunk
      hashes every type and data byte. */
  lemma AsWrittenIsWholeBelowLimit(chunkType: U32, payload: seq<Byte>, host: ByteOrder)
    requires |payload| < 0x8000_0000 - 4
    ensures ChunkCrcAsWritten(chunkType, payload, host) == ChunkCrc(chunkType, payload, host)
  {
    var s := CrcInput(chunkType, payload, host);
    assert BytesRead(ToCInt(|s|)) == |s|;
    assert s[..|s|] == s;
  }

  /** From 2^31 - 4 data bytes up to the largest uint32_t length that keeps
      4 + length below 2^32, the conversion gives a negative int, update_crc
      reads nothing and the stored CRC is 0 whatever the chunk holds.  2^31 - 1,
      the largest length PNG allows, is among these. */
  lemma HugeChunkCrcIsZero(chunkType: U32, payload: seq<Byte>, host: ByteOrder)
    requires 0x8000_0000 - 4 <= |payload| < 0x1_0000_0000 - 4
    ensures ChunkCrcAsWritten(chunkType, payload, host) == 0
  {
    var s := CrcInput(chunkType, payload, host);
    var n := ToCInt(|s|);
    assert n as int == |s| - 0x1_0000_0000;
    assert s[..BytesRead(n)] == [];
    ChecksumOfNothing();
  }

  /** For the four largest lengths 4 + length wraps past 2^32 and only the
      first 4 + length - 2^32 type bytes are hashed. */
  lemma WrappedChunkCrcSeesTypePrefix(chunkType: U32, payload: seq<Byte>, host: ByteOrder)
    requires 0x1_0000_0000 - 4 <= |payload| < 0x1_0000_0000
    ensures ChunkCrcAsWritten(chunkType, payload, host)
            == Truncate32(Checksum(HostBytes(chunkType, host)[..|payload| + 4 - 0x1_0000_0000]))
  {
    var s := CrcInput(chunkType, payload, host);
    var n := ToCInt(|s|);
    assert n as int == |s| - 0x1_0000_0000;
    assert s[..BytesRead(n)] == s[..4][..n as int];
  }

  /** Hashing all 4 + length bytes gives the PNG CRC of the chunk on a
      big-endian host, and on a little-endian host when the type field holds
      the byte-swapped tag, whatever the length. */
  lemma ChunkCrcIsPng(tag: U32, payload: seq<Byte>)
    ensures ChunkCrc(tag, payload, BigEndian) == PngChunkCrc(tag, payload)
    ensures ChunkCrc(ByteSwap(tag), payload, LittleEndian) == PngChunkCrc(tag, payload)
  {
  }

  /** On a big-endian host the memory image of the type is its file image,
      so crc_chunk stores the CRC PNG prescribes. */
  lemma BigEndianHostIsPng(chunkType: U32, payload: seq<Byte>)
    requires |payload| < 0x8000_0000 - 4
    ensures ChunkCrcAsWritten(chunkType, payload, BigEndian) == PngChunkCrc(chunkType, payload)
  {
    AsWrittenIsWholeBelowLimit(chunkType, payload, BigEndian);
    ChunkCrcIsPng(chunkType, payload);
  }

  /** On a little-endian host crc_chunk hashes the type bytes reversed: the
      stored CRC is the PNG CRC of the byte-swapped type code, so a type
      field holding ByteSwap(tag) yields the CRC of a chunk tagged tag. */
  lemma LittleEndianHostSwapsTag(chunkType: U32, payload: seq<Byte>)
    requires |payload| < 0x8000_0000 - 4
    ensures ChunkCrcAsWritten(chunkType, payload, LittleEndian) == PngChunkCrc(ByteSwap(chunkType), payload)
    ensures ChunkCrcAsWritten(ByteSwap(chunkType), payload, LittleEndian) == PngChunkCrc(chunkType, payload)
  {
    AsWrittenIsWholeBelowLimit(chunkType, payload, LittleEndian);
    AsWrittenIsWholeBelowLimit(ByteSwap(chunkType), payload, LittleEndian);
  }

  /** An empty IEND chunk gets the well-known CRC 0xAE426082 on a big-endian
      host, and 0xCD38F2C8, the CRC of "DNEI", on a little-endian one. */
  lemma IendChunkCrc()
    ensures ChunkCrcAsWritten(IendTag, [], BigEndian) == 0xAE42_6082
    ensures ChunkCrcAsWritten(IendTag, [], LittleEndian) == 0xCD38_F2C8
  {
    AsWrittenIsWholeBelowLimit(IendTag, [], BigEndian);
    AsWrittenIsWholeBelowLimit(IendTag, [], LittleEndian);
    assert CrcInput(IendTag, [], BigEndian) == [0x49, 0x45, 0x4E, 0x44];
    assert CrcInput(IendTag, [], LittleEndian) == [0x44, 0x4E, 0x45, 0x49];
    ChecksumOfIend();
    ChecksumOfDnei();
  }

  /** update_crc's result over crc_chunk's buffer, complemented and
      truncated, is the crc field ChunkCrcAsWritten describes. */
  lemma StoredCrc(s: seq<Byte>, c: ULong, chunkType: U32, payload: seq<Byte>, host: ByteOrder)
    requires s == CrcInput(chunkType, payload, host)
    requires c == RunningCrc(AllOnes, s[..BytesRead(ToCInt(|s|))])
    ensures Truncate32(c ^ AllOnes) == ChunkCrcAsWritten(chunkType, payload, host)
  {
  }

  /** The two memcpy calls of crc_chunk into a fresh buffer of 4 + n bytes:
      the four type bytes, then src[0..n-1]. */
  method CopyTypeAndData(typeBytes: seq<Byte>, src: array?<Byte>, n: nat) returns (buf: array<Byte>)
    requires |typeBytes| == 4
    requires n == 0 || (src != null && n <= src.Length)
    ensures fresh(buf)
    ensures buf[..] == typeBytes + (if n == 0 then [] else src[..n])
  {
    buf := new Byte[4 + n];
    buf[0], buf[1], buf[2], buf[3] := typeBytes[0], typeBytes[1], typeBytes[2], typeBytes[3];
    if n > 0 {
      forall i | 0 <= i < n {
        buf[4 + i] := src[i];
      }
    }
    assert buf[..4] == typeBytes;
    assert buf[4..] == (if n == 0 then [] else src[..n]);
    SplitAfterType(buf[..], typeBytes, if n == 0 then [] else src[..n]);
  }

  /** A buffer whose first four bytes are t and whose rest is p is t + p. */
  lemma SplitAfterType(b: seq<Byte>, t: seq<Byte>, p: seq<Byte>)
    requires |t| == 4 && |b| == 4 + |p|
    requires b[..4] == t && b[4..] == p
    ensures b == t + p
  {
    assert b == b[..4] + b[4..];
  }

  // ---------------------------------------------------------------------
  // The record and the routines of chunk.c

  /** chunk_t.  `data` is null until init_chunk allocates the data section
      and again after free_chunk releases it. */
  class Chunk {
    var length: U32
    var chunkType: U32
    var data: array?<Byte>
    var crc: U32

    /** The bytes crc_chunk may read: `length` bytes of data, none if the
        length is 0. */
    predicate Readable()
      reads this
    {
      length == 0 || (data != null && length as int <= data.Length)
    }

    /** data[0..length-1], the chunk's data section. */
    function Payload(): (p: seq<Byte>)
      requires Readable()
      reads this, data
      ensures |p| == length as int
    {
      if length == 0 then [] else data[..length as int]
    }

    /** The value crc_chunk would store now.  It does not read the crc field. */
    function CurrentCrc(host: ByteOrder): U32
      requires Readable()
      reads this, data
    {
      ChunkCrcAsWritten(chunkType, Payload(), host)
    }

    /** create_chunk: every field zero, no data section. */
    constructor Create()
      ensures length == 0 && chunkType == 0 && crc == 0 && data == null
    {
      length := 0;
      chunkType := 0;
      crc := 0;
      data := null;
    }

    /** init_chunk: allocates a data section of exactly `length` bytes.  Its
        assertion demands a positive length. */
    method Init()
      requires length > 0
      modifies this`data
      ensures data != null && fresh(data) && data.Length == length as int
      ensures length == old(length) && chunkType == old(chunkType) && crc == old(crc)
      ensures Readable()
    {
      data := new Byte[length as int];
    }

    /** free_chunk: zeroes type, length and crc and releases the data section. */
    method Free()
      modifies this
      ensures length == 0 && chunkType == 0 && crc == 0 && data == null
    {
      chunkType := 0;
      length := 0;
      crc := 0;
      data := null;
    }

    /** write_bytes_to_chunk: copies bytes[0..count-1] to the start of the
        data section.  There is no bounds check, so the caller must keep
        count within the section; with count 0 the section is never touched
        and may be absent, as on a zero-length chunk. */
    method WriteBytes(bytes: seq<Byte>, count: nat)
      requires count == 0 || (data != null && count <= data.Length)
      requires count <= |bytes|
      modifies data
      ensures data != null ==> data[..count] == bytes[..count] && data[count..] == old(data[count..])
      ensures data == old(data)
      ensures length == old(length) && chunkType == old(chunkType) && crc == old(crc)
    {
      if count == 0 {
        return;
      }
      var i := 0;
      while i < count
        invariant 0 <= i <= count
        invariant data != null && data[..i] == bytes[..i]
        invariant data[i..] == old(data[i..])
      {
        data[i] := bytes[i];
        i := i + 1;
      }
    }

    /** The stack buffer crc_chunk fills with its two memcpy calls: the
        type field's four bytes in memory order, then data[0..length-1]. */
    method CopyCrcInput(host: ByteOrder) returns (buf: array<Byte>)
      requires Readable()
      ensures fresh(buf)
      ensures buf[..] == CrcInput(chunkType, Payload(), host)
    {
      buf := CopyTypeAndData(HostBytes(chunkType, host), data, length as int);
    }

    /** crc_chunk: hashes the type field's memory image followed by the data
        section and stores the 32-bit result in crc.  Nothing but crc and
        the CRC engine's table changes, and the result does not depend on
        the old crc, so a second call stores the same value. */
    method CrcChunk(engine: CrcState, host: ByteOrder)
      requires engine.Valid() && Readable()
      modifies this`crc, engine`crcTableComputed, engine.crcTable
      ensures engine.Valid() && engine.crcTableComputed
      ensures crc == ChunkCrcAsWritten(chunkType, Payload(), host)
      ensures crc == CurrentCrc(host) && Payload() == old(Payload())
    {
      var buf := CopyCrcInput(host);
      var c := engine.UpdateCrc(AllOnes, buf, ToCInt(buf.Length));
      StoredCrc(buf[..], c, chunkType, Payload(), host);
      c := c ^ AllOnes;
      crc := Truncate32(c);
    }
  }
}
