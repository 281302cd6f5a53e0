# picasso: the front half of a PNG encoder, in Dafny

picasso turns an input file into a PNG image. The part modelled here is what the
repository's C sources contain so far:

- **The CRC-32 engine** (`crc.h`). It implements the sample code of PNG 1.2,
  Appendix 15, which computes the CRC of section 3.4 of PNG 1.2.
  `make_crc_table` builds a 256-entry table with the reversed polynomial
  0xEDB88320. `update_crc` runs a buffer through a running CRC one byte at a
  time. `crc` starts that running CRC at all 1's and complements the result.
- **The chunk record** (`chunk.h`, `chunk.c`). `chunk_t` has a 32-bit length,
  a 32-bit type and a 32-bit CRC, plus a pointer to the data section. The
  record is created, its data section is allocated, filled and checksummed,
  and it is freed.
- **The byte buffer and the file writers** (`picasso.c`). A bounded buffer
  ends the process with status 1 on overflow. The file writers end it with
  status 1 when `fwrite` fails.
- **`main`'s signature write** (`picasso.c`). `main` writes the 8-byte PNG
  signature of section 3.1 of PNG 1.2 to `output.png`.

Modules:

- `Bytes` (`bytes.dfy`). The `uint8_t`/`uint32_t` types, `get_nth_byte`,
  `build_u32`, and the big-endian and host-memory images of a word.
- `Crc` (`crc.dfy`). The specification functions `Round`, `Rounds`,
  `TableEntry`, `CrcTable`, `Step`, `RunningCrc` and `Checksum`, with lemmas
  about them.
  - The class `CrcState` holds the global `crc_table` and `crc_table_computed`.
  - Its loop methods are proved against those functions.
  - `unsigned long` is taken 64 bits wide, so the model also proves that the
    CRC stays within 32 bits.
- `CrcVectors` (`crc_vectors.dfy`). Known CRC values, derived entry by entry
  through the table definition.
- `Chunks` (`chunk.dfy`). The class `Chunk` models `chunk_t`, and functions
  describe what `crc_chunk` stores.
- `Picasso` (`picasso.dfy`). The classes `Buffer` and `OutputFile`, the
  write helpers, and `Run` for `main`.

The environment is turned into parameters, in these places:

- **Byte order.** `crc_chunk` copies the type field's memory image. The
  host's byte order is therefore a `ByteOrder` parameter.
- **Success of each call.** `fopen` and `fwrite` succeed or fail according to
  boolean parameters.
- **The output file.** The file is the ghost byte sequence written to it.
- **Ending the process.** `exit(code)` becomes a `Status` result; the caller
  stops when it gets `Exit(code)`.

Two points where the code does something other than what its own
interfaces suggest, and one modelling choice. The model follows the code
throughout:

- **The buffer position never moves.** `buffer_t` carries a position and a
  capacity (picasso.c:11-15), and the overflow message reports the position
  as the index "tried" against the "max" (picasso.c:22-23). Both point to a
  cursor that advances with each write. Yet `__write_byte_or_die` stores at
  `position` and never advances it (picasso.c:27). The model does the same,
  and the corrected form sits beside it.
- **The type is hashed in memory order.** Section 3.2 of PNG 1.2 computes
  the chunk CRC over the type code as it is written to the file, most
  significant byte first. `crc_chunk` hashes the host's memory image of the
  field (chunk.c:41). The PNG-correct CRC is proved only for the matching
  case: a big-endian host, or a little-endian host whose type field holds
  the byte-swapped tag.
- **Any `int` length is accepted (a modelling choice).** The comment on
  `update_crc` speaks of buf[0..len-1] (crc.h:6), which is empty for len <= 0,
  and the loop `n < len` reads nothing then. Rather than require `0 <= len`,
  the model accepts any `int` length and states the empty case; it demands
  only that `len` bytes are there.

## Model

| member | source | states |
|---|---|---|
| `Bytes.GetNthByte` | picasso.c:8 | get_nth_byte(x, nth) for nth < 4 is digit nth of x in base 256: x divided by 256^nth, modulo 256 |
| `Bytes.BuildU32` | picasso.c:9 | byte nth of build_u32(b3, b2, b1, b0), as get_nth_byte extracts it, is the argument of that rank (b3 most significant) |
| `Bytes.BuildOfNthBytes` | picasso.c:8-9 | building a word from get_nth_byte(x, 3), …, get_nth_byte(x, 0) gives back x, for every uint32_t x |
| `Bytes.BigEndianBytes` | picasso.c:8-9 | a uint32_t as a PNG file carries it is 4 bytes, most significant first, and build_u32 of those 4 bytes is the word again |
| `Bytes.FromBigEndian` | picasso.c:9 | build_u32 of 4 bytes is the word whose big-endian image is exactly those bytes (the other half of the round trip) |
| `Bytes.HostBytes` | chunk.c:41 | definition: the 4 bytes memcpy copies out of a uint32_t, big-endian on a big-endian host, least significant first on a little-endian one |
| `Bytes.LittleEndianImageIsPngOrder` | chunk.c:41 | on a little-endian host the memory image of a word equals its PNG byte order if and only if byte 0 equals byte 3 and byte 1 equals byte 2 |
| `Crc.CrcTable` | crc.h:1-4 | the table has exactly 256 entries and each is a 32-bit value, though unsigned long is 64 bits wide |
| `Crc.Round` | crc.h:1-4 | one round of make_crc_table's inner loop: shift right by one, XOR with 0xEDB88320 when the low bit was set; a 32-bit value stays within 32 bits |
| `Crc.Rounds` | crc.h:1-4 | k such rounds in a row; any number of them keeps a 32-bit value within 32 bits |
| `Crc.TableEntry` | crc.h:1-4 | crc_table[n] is 8 rounds seeded with the index n, and is below 2^32 though unsigned long is 64 bits wide |
| `Crc.Checksum` | crc.h:12-13 | crc(): the running CRC from all 1's, complemented; the result is a 32-bit value |
| `Crc.Step` | crc.h:10 | the body of update_crc's loop, crc_table[(c ^ b) & 0xff] ^ (c >> 8); a 32-bit running CRC stays within 32 bits |
| `Crc.RunningCrc` | crc.h:6-10 | the running CRC after the bytes in order, one Step each, from the given one; below 2^32 if the incoming CRC is |
| `Crc.RunningCrcOfNothing` | crc.h:6-10 | updating with no bytes leaves the running CRC unchanged |
| `Crc.RunningCrcAppend` | crc.h:6-10 | streaming composes: updating with a, then with b, is updating with a followed by b |
| `Crc.RunningCrcSnoc` | crc.h:6-10 | updating with one more byte at the end is one more table-lookup step |
| `Crc.ChecksumInPieces` | crc.h:6-13 | the CRC of a buffer delivered in two pieces is init, update with each piece in turn, complement once |
| `Crc.LoopStep` | crc.h:6-10 | one turn of update_crc's loop over buf[n] turns the running CRC of buf[0..n-1] into that of buf[0..n] |
| `Crc.LookupIsStep` | crc.h:10 | with a computed table, crc_table[(c ^ b) & 0xff] ^ (c >> 8) is the specified update step |
| `Crc.BytesRead` | crc.h:10 | definition: the number of bytes update_crc reads, len for a positive len and none for a zero or negative one |
| `Crc.EightRounds` | crc.h:4 | make_crc_table's inner loop: 8 conditional shift/XOR rounds seeded with n give table entry n |
| `Crc.CrcState.constructor` | crc.h:4 | the table starts zeroed and marked as not computed |
| `Crc.CrcState.MakeCrcTable` | crc.h:4 | make_crc_table leaves the array equal to the 256-entry table of 8-round entries and sets the computed flag |
| `Crc.CrcState.UpdateCrc` | crc.h:6-10 | update_crc builds the table on first use and returns the running CRC of buf[0..len-1] from the given one; none read for len <= 0; a 32-bit CRC stays 32-bit |
| `Crc.CrcState.Crc` | crc.h:12-13 | crc() returns the complemented running CRC from all 1's over buf[0..len-1] |
| `CrcVectors.RunningCrcCons` | crc.h:6-10 | updating with a byte followed by more bytes is one step, then the rest |
| `CrcVectors.ChecksumOfNothing` | crc.h:12-13 | the CRC of no bytes is 0 |
| `CrcVectors.ChecksumOfIend` | crc.h:12-13 | the CRC of the ASCII letters IEND is 0xAE426082 |
| `CrcVectors.ChecksumOfDnei` | crc.h:12-13 | the CRC of the letters of IEND reversed, DNEI, is 0xCD38F2C8 |
| `CrcVectors.ChecksumOfCheckString` | crc.h:12-13 | the CRC of the ASCII text 123456789 is the CRC-32 check value 0xCBF43926 |
| `Chunks.Truncate32` | chunk.c:44 | assigning the unsigned long result to a uint32_t keeps its value whenever it fits in 32 bits |
| `Chunks.ToCInt` | chunk.c:44 | total_length turned into update_crc's int: exact below 2^31, otherwise the value modulo 2^32 read as a signed int, never larger than the input |
| `Chunks.CrcInput` | chunk.c:38-42 | definition: the buffer crc_chunk hashes, the type's memory image followed by the data, 4 + length bytes |
| `Chunks.ChunkCrcAsWritten` | chunk.c:38-45 | the crc field crc_chunk stores: the CRC of as many bytes of that buffer as the int conversion of 4 + length lets update_crc read, kept whole in 32 bits |
| `Chunks.ChunkCrc` | chunk.c:36-46 | the crc field the routine is meant to store: the CRC of all 4 + length bytes, kept whole in 32 bits |
| `Chunks.PngChunkCrc` | chunk.c:41-45 | the CRC a PNG chunk must carry: the CRC of the type code most significant byte first, then the data |
| `Chunks.ByteSwap` | chunk.c:41 | the byte-swapped word's big-endian image is the little-endian image of the original, and the reverse |
| `Chunks.StoredCrc` | chunk.c:44-45 | complementing and truncating update_crc's result over the buffer gives the crc field crc_chunk is described to leave |
| `Chunks.CopyTypeAndData` | chunk.c:39-42 | the two memcpy calls into a fresh buffer of 4 + n bytes: it holds the 4 type bytes followed by src[0..n-1] |
| `Chunks.AsWrittenIsWholeBelowLimit` | chunk.c:38-44 | for a length below 2^31 - 4 crc_chunk's CRC covers every one of the 4 + length bytes |
| `Chunks.HugeChunkCrcIsZero` | chunk.c:38-44 | for a length from 2^31 - 4 to 2^32 - 5 (among them PNG's maximum 2^31 - 1) the int length is negative and the stored CRC is 0 whatever the chunk holds |
| `Chunks.WrappedChunkCrcSeesTypePrefix` | chunk.c:38-44 | for the last four uint32_t lengths only the first 4 + length - 2^32 type bytes are hashed |
| `Chunks.ChunkCrcIsPng` | chunk.c:41-45 | hashing all 4 + length bytes gives the PNG CRC of the chunk on a big-endian host, or on a little-endian host whose type field is the byte-swapped tag |
| `Chunks.BigEndianHostIsPng` | chunk.c:41-45 | on a big-endian host crc_chunk stores the CRC that section 3.2 of PNG 1.2 prescribes |
| `Chunks.LittleEndianHostSwapsTag` | chunk.c:41 | on a little-endian host crc_chunk stores the PNG CRC of the byte-swapped tag; a type field holding the swapped tag gets the correct CRC |
| `Chunks.IendChunkCrc` | chunk.c:36-46 | an empty IEND chunk gets 0xAE426082 on a big-endian host and 0xCD38F2C8 on a little-endian one |
| `Chunks.Chunk.Payload` | chunk.h:5-7 | the data section has exactly `length` bytes |
| `Chunks.Chunk.Create` | chunk.c:9-17 | create_chunk: type, length and crc are 0 and there is no data section |
| `Chunks.Chunk.Init` | chunk.c:20-24 | init_chunk needs a positive length and allocates a fresh section of exactly `length` bytes; type, length and crc are unchanged |
| `Chunks.Chunk.Free` | chunk.c:27-33 | free_chunk resets type, length and crc to 0 and releases the data section |
| `Chunks.Chunk.WriteBytes` | chunk.c:66-70 | with count within the section, data[i] == bytes[i] for i < count; the rest of the section, the section pointer and every scalar field, the crc among them, unchanged; count 0 is accepted on a chunk with no section |
| `Chunks.Chunk.CopyCrcInput` | chunk.c:38-42 | the stack buffer holds the type's memory image followed by data[0..length-1] |
| `Chunks.Chunk.CrcChunk` | chunk.c:36-46 | crc_chunk sets only crc, to the value computed from the type image and data; that value does not depend on the old crc, so calling it again changes nothing |
| `Picasso.PngSignatureLayout` | picasso.c:65 | png_sig is 8 bytes: a first byte with the high bit set, the letters PNG, CR LF, 0x1A and LF, as section 3.1 of PNG 1.2 lays out the signature |
| `Picasso.Increment` | picasso.c:47 | i++ on a uint8_t counter is addition modulo 256: it wraps from 255 to 0 |
| `Picasso.Buffer.constructor` | picasso.c:11-15 | a buffer_t holds its data pointer, position and capacity |
| `Picasso.Buffer.WriteByteOrDie` | picasso.c:18-28 | exit(1) exactly when position >= capacity; otherwise only data[position] changes, to the byte; position and capacity never change |
| `Picasso.Buffer.WriteBytesOrDie` | picasso.c:45-49 | exit(1) exactly when count > 0 and position >= capacity; on success data[position] is the last byte and nothing else changed; holds for any count when the first write overflows |
| `Picasso.Buffer.AppendByteOrDie` | picasso.c:18-28 | the corrected write: same overflow condition, and on success the position moves on by one |
| `Picasso.Buffer.AppendBytesOrDie` | picasso.c:45-49 | the corrected bulk write: exit(1) exactly when the bytes do not fit; otherwise they are stored in order from the position, which advances by count |
| `Picasso.OverwriteExample` | picasso.c:27 | writing 1, 2 into an empty two-byte buffer as written leaves cell 0 = 2, cell 1 = 0 and position 0 |
| `Picasso.AppendExample` | picasso.c:11-15 | the corrected write of 1, 2 leaves cells 1, 2 and position 2 |
| `Picasso.OutputFile.constructor` | picasso.c:103 | a file opened with "wb" starts empty |
| `Picasso.SucceededWrites` | picasso.c:52-56 | the number of fwrite calls that succeed before the first one that fails: all before it succeeded and, if fewer than count, the next one failed |
| `Picasso.AllWritesSucceed` | picasso.c:52-56 | all of the first count writes succeed if and only if every one of them succeeded |
| `Picasso.SucceededAt` | picasso.c:52-56 | a failure at index i after i successes means exactly i writes went through |
| `Picasso.FileWriteByteOrDie` | picasso.c:31-42 | exit(1) exactly when fwrite fails; on success the file gains that byte at its end, on failure nothing |
| `Picasso.FileWriteBytesOrDie` | picasso.c:52-56 | the file gains bytes[0..k-1], k the writes that succeeded first, in order; it continues exactly when all count succeeded, and otherwise exits with status 1 |
| `Picasso.Run` | picasso.c:67-117 | exit(0) exactly when the input path is given, both files open and all 8 writes succeed, and the output is then exactly 137 80 78 71 13 10 26 10; otherwise exit(1), with a prefix of the signature in any opened output |

## Left out

- File I/O is not modelled as real I/O. The outcomes of `fopen` and of each `fwrite` are boolean parameters; `assert(ferror(file) != 0)` after a short write and the `strerror(errno)` message (picasso.c:37-39) are left out, since the model's failed write is simply a failure.
- `fseek`/`ftell` are left out: main measures the input file's size and only prints it (picasso.c:98-100).
- `fclose` is not modelled. main ignores its result (picasso.c:113-114), and with stdio buffering a flush that fails there still ends in exit(0). `OutputFile.contents` is therefore the bytes `fwrite` accepted, not what reached the disk, and Picasso.Run's statement about the output is about those accepted bytes.
- Command-line handling and diagnostics are left out. The program name, the usage text, every `printf`/`fprintf`, and `print_chunk` (chunk.c:49-63) are console output only.
- `assert(*argv != NULL)` in main (picasso.c:70) is left out: the model assumes main is started with argv[0] set. With an empty argv the assert aborts, which is not modelled.
- Memory management is not modelled. malloc and free become "a data section of `length` bytes" versus `null`.
  - The pointer that `free_chunk` leaves dangling is modelled as `null`.
  - The indeterminate contents of a fresh `malloc` are not stated.
  - A failing `malloc` is not modelled.
- `exit` is modelled only as a `Status` result that callers obey.
- Some encoder steps are not part of this model: geometry inference, scanline filtering, IHDR/IDAT/IEND assembly and deflate. None of them appear in the code.
- Bytes.BuildU32 uses unsigned 32-bit arithmetic. The C macro shifts promoted `int` operands, so `b3 << 24` can reach the sign bit. This model assumes the implementation behaves the usual way there.
- The get_nth_byte macro's missing outer parentheses matter only inside larger expressions, and no such use exists in the code.
- The body of `crc.c` is not part of the sources. The model follows the PNG 1.2 Appendix 15 sample code that crc.h:1 names.
- The equivalence of the table-driven CRC with a bitwise polynomial division is not proved. The specification is the table-driven algorithm itself.
- Picasso.Buffer.WriteBytesOrDie: the `uint8_t` counter wraps from 255 to 0, so for count > 255 the loop ends only through exit(1). The model covers count > 255 when the first write already overflows, which is the only way the buffer call with a larger count ends; a count > 255 on a buffer with room is not modelled, as that call never returns.
- Picasso.FileWriteBytesOrDie: for count > 255 the model requires one of the first 256 writes to fail; the call then exits(1) at that write, as stated. A larger count whose first 256 writes all succeed wraps the counter and is not modelled.
- Chunks.Chunk.WriteBytes takes the source bytes as a value. Overlap between `bytes` and the chunk's own data section is not modelled.
- Chunks.Chunk.CrcChunk: `length` bytes of data must be readable, or the length must be 0. The stack buffer of 4 + length bytes is assumed to fit.

## Findings

| source | as written | input that shows it | evidently intended | confidence | as-written member | corrected member |
|---|---|---|---|---|---|---|
| picasso.c:27 | `__write_byte_or_die` stores at `position` but never advances it, so `__write_bytes_or_die` puts every byte in the same cell | writing bytes 1, 2 into an empty two-byte buffer leaves cell 0 = 2, cell 1 untouched, position 0 | each byte stored at the next cell, position advanced, overflow when the bytes do not fit | medium, not executed | `Picasso.OverwriteExample` | `Picasso.AppendExample` |
| chunk.c:44 | the uint64_t `4 + length` is passed as update_crc's `int len`, which wraps for length >= 2^31 - 4 | a chunk of length 2^31 - 1, the largest PNG allows: len is negative and the stored CRC is 0 | the CRC of all 4 + length bytes | low (the 2 GiB stack array would have to succeed first), not executed | `Chunks.HugeChunkCrcIsZero` | `Chunks.ChunkCrcIsPng` |
