/** The C integer types the encoder works with and the two byte macros of
    picasso.c: get_nth_byte splits a uint32_t into its four bytes and
    build_u32 joins four bytes into one.  Also the two byte images of a
    uint32_t that matter for a PNG chunk: the big-endian order the file
    format prescribes and the order the host keeps it in memory. */
module Bytes {

  /** uint8_t / unsigned char */
  type Byte = bv8

  /** uint32_t */
  type U32 = bv32

  /** How the host lays the four bytes of a uint32_t out in memory. */
  datatype ByteOrder = LittleEndian | BigEndian

  /** get_nth_byte(x, nth): byte number `nth` of x, counting from the least
      significant byte, i.e. (x >> (nth * 8)) & 0xff.  A shift by 32 or more
      is undefined in C, so only nth < 4 is meaningful for a uint32_t; the
      four shift distances are written out.  The byte is digit `nth` of x
      written in base 256. */
  function GetNthByte(x: U32, nth: nat): (b: Byte)
    requires nth < 4
    ensures nth == 0 ==> b as U32 == x % 0x100
    ensures nth == 1 ==> b as U32 == (x / 0x100) % 0x100
    ensures nth == 2 ==> b as U32 == (x / 0x1_0000) % 0x100
    ensures nth == 3 ==> b as U32 == (x / 0x100_0000) % 0x100
  {
    var shifted := if nth == 0 then x else if nth == 1 then x >> 8 else if nth == 2 then x >> 16 else x >> 24;
    (shifted & 0xff) as Byte
  }

  /** build_u32(b3, b2, b1, b0): b3 is the most significant byte. */
  function BuildU32(b3: Byte, b2: Byte, b1: Byte, b0: Byte): (x: U32)
    // taking the result apart gives back the four bytes
    ensures GetNthByte(x, 3) == b3 && GetNthByte(x, 2) == b2
    ensures GetNthByte(x, 1) == b1 && GetNthByte(x, 0) == b0
  {
    ((b3 as U32) << 24) | ((b2 as U32) << 16) | ((b1 as U32) << 8) | (b0 as U32)
  }

  /** Splitting a word into its bytes and building it again gives the word. */
  lemma BuildOfNthBytes(x: U32)
    ensures BuildU32(GetNthByte(x, 3), GetNthByte(x, 2), GetNthByte(x, 1), GetNthByte(x, 0)) == x
  {
  }

  /** The four bytes of x as a PNG file carries them: most significant first. */
  function BigEndianBytes(x: U32): (s: seq<Byte>)
    ensures |s| == 4
    ensures BuildU32(s[0], s[1], s[2], s[3]) == x
  {
    BuildOfNthBytes(x);
    [GetNthByte(x, 3), GetNthByte(x, 2), GetNthByte(x, 1), GetNthByte(x, 0)]
  }

  /** The word whose big-endian image is s. */
  function FromBigEndian(s: seq<Byte>): (x: U32)
    requires |s| == 4
    ensures BigEndianBytes(x) == s
  {
    BuildU32(s[0], s[1], s[2], s[3])
  }

  /** What memcpy(dst, &x, 4) copies: the bytes of x in the host's memory order. */
  function HostBytes(x: U32, order: ByteOrder): (s: seq<Byte>)
    ensures |s| == 4
    ensures order == BigEndian ==> s == BigEndianBytes(x)
    ensures order == LittleEndian ==> s == [GetNthByte(x, 0), GetNthByte(x, 1), GetNthByte(x, 2), GetNthByte(x, 3)]
  {
    match order
    case LittleEndian => [GetNthByte(x, 0), GetNthByte(x, 1), GetNthByte(x, 2), GetNthByte(x, 3)]
    case BigEndian => BigEndianBytes(x)
  }

  /** On a little-endian host the memory image of x is its big-endian image
      only when x reads the same from both ends. */
  lemma LittleEndianImageIsPngOrder(x: U32)
    ensures HostBytes(x, LittleEndian) == BigEndianBytes(x)
            <==> GetNthByte(x, 0) == GetNthByte(x, 3) && GetNthByte(x, 1) == GetNthByte(x, 2)
  {
  }
}
