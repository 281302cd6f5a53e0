/** The write helpers and the signature emission of picasso.c.
    `buffer_t` is a fixed-size byte buffer with a write cursor and a
    capacity; `__write_byte_or_die` and `__write_bytes_or_die` write into it
    and end the process with status 1 on overflow.  The file helpers write
    byte by byte with fwrite and end the process with status 1 when a write
    fails.  `main` opens its input and `output.png` and writes the 8-byte
    PNG signature (section 3.1 of PNG 1.2).

    Ending the process is modelled by a Status result: a caller that gets
    Exit(code) stops and does nothing more. */
module Picasso {
  import opened Bytes

  /** Either carry on, or the process ends with exit(code). */
  datatype Status = Continue | Exit(code: int)

  /** uint8_t as a loop counter: i++ wraps from 255 to 0. */
  newtype Counter8 = x: int | 0 <= x < 256

  function Increment(i: Counter8): (r: Counter8)
    ensures r as int == (i as int + 1) % 256
  {
    if i == 255 then 0 else i + 1
  }

  /** png_sig: 0x89, "PNG", CR LF, SUB (0x1A), LF. */
  const PngSignature: seq<Byte> := [137, 80, 78, 71, 13, 10, 26, 10]

  /** The layout section 3.1 of PNG 1.2 gives the signature: a first byte
      with the high bit set, the letters P N G, a CR LF pair, the DOS
      end-of-file character and a lone LF. */
  lemma PngSignatureLayout()
    ensures |PngSignature| == 8
    ensures PngSignature[0] & 0x80 == 0x80
    ensures forall i :: 1 <= i < 4 ==> PngSignature[i] as int == "PNG"[i - 1] as int
    ensures PngSignature[4..] == [0x0D, 0x0A, 0x1A, 0x0A]
  {
  }

  /** s with the cells from `at` on replaced by t. */
  function Splice(s: seq<Byte>, at: nat, t: seq<Byte>): (r: seq<Byte>)
    requires at + |t| <= |s|
    ensures |r| == |s|
    ensures r[..at] == s[..at] && r[at..at + |t|] == t && r[at + |t|..] == s[at + |t|..]
  {
    s[..at] + t + s[at + |t|..]
  }

  // ---------------------------------------------------------------------
  // buffer_t

  /** buffer_t: `capacity` bytes at `data` and a write position. */
  class Buffer {
    var data: array<Byte>
    var position: nat
    var capacity: nat

    constructor (data: array<Byte>, position: nat, capacity: nat)
      ensures this.data == data && this.position == position && this.capacity == capacity
    {
      this.data := data;
      this.position := position;
      this.capacity := capacity;
    }

    /** __write_byte_or_die: ends the process with status 1 exactly when the
        position has reached the capacity; otherwise stores the byte at the
        position.  The position is not advanced. */
    method WriteByteOrDie(b: Byte) returns (st: Status)
      requires capacity <= data.Length
      modifies data
      ensures st == Exit(1) <==> position >= capacity
      ensures st == Continue <==> position < capacity
      ensures st == Continue ==> data[..] == old(data[..])[position := b]
      ensures st != Continue ==> data[..] == old(data[..])
      ensures position == old(position) && capacity == old(capacity)
    {
      if position >= capacity {
        return Exit(1);
      }
      data[position] := b;
      return Continue;
    }

    /** __write_bytes_or_die: __write_byte_or_die for bytes[0..count-1] in
        turn.  Its counter is a uint8_t, which wraps from 255 to 0: for a
        larger count the loop ends only when the first write already
        overflows.  As the position never moves, every byte lands in the
        same cell and the last one stays there. */
    method WriteBytesOrDie(bytes: seq<Byte>, count: nat) returns (st: Status)
      requires count <= 255 || position >= capacity
      requires count <= |bytes|
      requires capacity <= data.Length
      modifies data
      ensures st == Exit(1) <==> count > 0 && position >= capacity
      ensures st == Continue <==> count == 0 || position < capacity
      ensures st == Continue && count > 0 ==> data[..] == old(data[..])[position := bytes[count - 1]]
      ensures st != Continue || count == 0 ==> data[..] == old(data[..])
      ensures position == old(position) && capacity == old(capacity)
    {
      var i: Counter8 := 0;
      while (i as int) < count
        invariant 0 <= i as int <= count
        invariant i > 0 ==> position < capacity
        invariant i > 0 ==> data[..] == old(data[..])[position := bytes[i as int - 1]]
        invariant i == 0 ==> data[..] == old(data[..])
        decreases count - i as int
      {
        st := WriteByteOrDie(bytes[i]);
        if st != Continue {
          return;
        }
        i := Increment(i);
      }
      return Continue;
    }

    /** A write that advances the position: what a cursor-and-capacity
        buffer is for. */
    method AppendByteOrDie(b: Byte) returns (st: Status)
      requires capacity <= data.Length
      modifies this`position, data
      ensures st == Exit(1) <==> old(position) >= capacity
      ensures st == Continue <==> old(position) < capacity
      ensures st == Continue ==> data[..] == old(data[..])[old(position) := b] && position == old(position) + 1
      ensures st != Continue ==> data[..] == old(data[..]) && position == old(position)
      ensures capacity == old(capacity) && data == old(data)
    {
      if position >= capacity {
        return Exit(1);
      }
      data[position] := b;
      position := position + 1;
      return Continue;
    }

    /** bytes[0..count-1] appended at the position, with a counter as wide
        as count: the process ends with status 1 exactly when they do not
        all fit, after the ones that fit have been written. */
    method AppendBytesOrDie(bytes: seq<Byte>, count: nat) returns (st: Status)
      requires count <= |bytes|
      requires capacity <= data.Length
      modifies this`position, data
      ensures st == Continue || st == Exit(1)
      ensures st == Exit(1) <==> count > 0 && old(position) + count > capacity
      ensures count == 0 ==> data[..] == old(data[..]) && position == old(position)
      ensures st == Continue && count > 0
              ==> data[..] == Splice(old(data[..]), old(position), bytes[..count]) && position == old(position) + count
      ensures st != Continue && old(position) < capacity
              ==> data[..] == Splice(old(data[..]), old(position), bytes[..capacity - old(position)])
      ensures st != Continue && old(position) >= capacity ==> data[..] == old(data[..])
      ensures capacity == old(capacity) && data == old(data)
    {
      var i := 0;
      while i < count
        invariant 0 <= i <= count
        invariant position == old(position) + i && capacity == old(capacity) && data == old(data)
        invariant i > 0 ==> position <= capacity
        invariant i > 0 ==> data[..] == Splice(old(data[..]), old(position), bytes[..i])
        invariant i == 0 ==> data[..] == old(data[..])
      {
        st := AppendByteOrDie(bytes[i]);
        if st != Continue {
          return;
        }
        assert bytes[..i + 1] == bytes[..i] + [bytes[i]];
        i := i + 1;
      }
      return Continue;
    }
  }

  /** Two bytes written through __write_bytes_or_die into an empty
      two-byte buffer: the second overwrites the first in cell 0, cell 1 is
      never written, and the position stays 0. */
  method OverwriteExample() returns (cell0: Byte, cell1: Byte, position: nat)
    ensures cell0 == 2 && cell1 == 0 && position == 0
  {
    var cells := new Byte[2](_ => 0);
    var buffer := new Buffer(cells, 0, 2);
    var st := buffer.WriteBytesOrDie([1, 2], 2);
    cell0, cell1, position := buffer.data[0], buffer.data[1], buffer.position;
  }

  /** The same two bytes appended: they fill both cells in order. */
  method AppendExample() returns (cell0: Byte, cell1: Byte, position: nat)
    ensures cell0 == 1 && cell1 == 2 && position == 2
  {
    var cells := new Byte[2](_ => 0);
    var buffer := new Buffer(cells, 0, 2);
    var st := buffer.AppendBytesOrDie([1, 2], 2);
    cell0, cell1, position := buffer.data[0], buffer.data[1], buffer.position;
  }

  // ---------------------------------------------------------------------
  // The output file

  /** An open output file, seen as the bytes written to it so far. */
  class OutputFile {
    ghost var contents: seq<Byte>

    /** fopen(path, "wb") truncates the file. */
    constructor ()
      ensures contents == []
    {
      contents := [];
    }
  }

  /** The number of fwrite calls that succeed, one after another, before
      the first that fails, among the first `count`. */
  function SucceededWrites(written: seq<bool>, count: nat): (k: nat)
    requires count <= |written|
    ensures k <= count
    ensures forall i :: 0 <= i < k ==> written[i]
    ensures k < count ==> !written[k]
  {
    if count == 0 || !written[0] then 0 else 1 + SucceededWrites(written[1..], count - 1)
  }

  /** Every one of the first `count` writes succeeds exactly when none of
      them stops the run. */
  lemma AllWritesSucceed(written: seq<bool>, count: nat)
    requires count <= |written|
    ensures SucceededWrites(written, count) == count <==> forall i :: 0 <= i < count ==> written[i]
  {
  }

  /** __file_write_byte_or_die: `written` is whether fwrite wrote the byte.
      A failed write ends the process with status 1. */
  method FileWriteByteOrDie(file: OutputFile, b: Byte, written: bool) returns (st: Status)
    modifies file
    ensures st == Continue <==> written
    ensures st != Continue ==> st == Exit(1)
    ensures written ==> file.contents == old(file.contents) + [b]
    ensures !written ==> file.contents == old(file.contents)
  {
    if !written {
      return Exit(1);
    }
    file.contents := file.contents + [b];
    return Continue;
  }

  /** __file_write_bytes_or_die: writes bytes[0..count-1] in order, one
      fwrite each, so the file gains the bytes up to the first failed write.
      Its uint8_t counter wraps from 255 to 0: for a larger count the model
      covers the calls where one of the first 256 writes fails. */
  method FileWriteBytesOrDie(file: OutputFile, bytes: seq<Byte>, count: nat, written: seq<bool>)
    returns (st: Status)
    requires count <= |bytes| && count <= |written|
    requires count <= 255 || exists j :: 0 <= j < 256 && j < count && !written[j]
    modifies file
    ensures file.contents == old(file.contents) + bytes[..SucceededWrites(written, count)]
    ensures st == Continue <==> SucceededWrites(written, count) == count
    ensures st != Continue ==> st == Exit(1)
  {
    ghost var limit: int := count;
    if count > 255 {
      limit :| 0 <= limit < 256 && limit < count && !written[limit];
    }
    var i: Counter8 := 0;
    while (i as int) < count
      invariant 0 <= i as int <= limit <= count
      invariant limit < count ==> limit < 256 && !written[limit]
      invariant forall j :: 0 <= j < i as int ==> written[j]
      invariant file.contents == old(file.contents) + bytes[..i]
      decreases count - i as int
    {
      st := FileWriteByteOrDie(file, bytes[i], written[i]);
      if st != Continue {
        SucceededAt(written, count, i as int);
        return;
      }
      assert bytes[..i as int + 1] == bytes[..i] + [bytes[i]];
      i := Increment(i);
    }
    AllWritesSucceed(written, count);
    return Continue;
  }

  /** When the writes before index i succeed and write i fails, exactly i
      writes succeed. */
  lemma {:induction false} SucceededAt(written: seq<bool>, count: nat, i: nat)
    requires i < count <= |written|
    requires forall j :: 0 <= j < i ==> written[j]
    requires !written[i]
    ensures SucceededWrites(written, count) == i
    decreases i
  {
    if i > 0 {
      assert written[0];
      SucceededAt(written[1..], count - 1, i - 1);
    }
  }

  // ---------------------------------------------------------------------
  // main

  /** main, up to its exit(0): the input path must be given and open, the
      output file must open, then the signature is written.  The outcomes
      of the environment are parameters: whether an input path was given,
      whether each fopen succeeds, and whether each of the 8 fwrite calls
      succeeds. */
  method Run(hasInputPath: bool, inputOpens: bool, outputOpens: bool, written: seq<bool>)
    returns (st: Status, output: OutputFile?)
    requires |written| == |PngSignature|
    ensures st == Exit(0) || st == Exit(1)
    ensures st == Exit(0) <==> hasInputPath && inputOpens && outputOpens && forall i :: 0 <= i < |written| ==> written[i]
    ensures output != null <==> hasInputPath && inputOpens && outputOpens
    ensures output != null ==> fresh(output) && output.contents == PngSignature[..SucceededWrites(written, |written|)]
    ensures st == Exit(0) ==> output != null && output.contents == PngSignature
  {
    output := null;
    if !hasInputPath {
      return Exit(1), null;
    }
    if !inputOpens {
      return Exit(1), null;
    }
    if !outputOpens {
      return Exit(1), null;
    }
    output := new OutputFile();
    st := FileWriteBytesOrDie(output, PngSignature, 8, written);
    if st != Continue {
      return;
    }
    AllWritesSucceed(written, 8);
    assert PngSignature[..8] == PngSignature;
    return Exit(0), output;
  }
}
