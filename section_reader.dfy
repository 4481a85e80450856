/** The cursor-driven fixed-size read of the header reader: seek to the
    cursor, fill a zero-initialised buffer of `size` bytes from the file,
    advance the cursor by `size`. The file is an in-memory byte sequence;
    the cursor is the caller's variable, passed in and handed back. */
module SectionReader {
  import opened BigEndian

  /** `k` zero bytes: what a buffer holds where the file supplied nothing. */
  function Zeros(k: nat): (r: seq<Byte>)
    ensures |r| == k
    ensures forall i :: 0 <= i < k ==> r[i] == 0
  {
    seq(k, _ => 0)
  }

  /** How many bytes one read of a regular file delivers into a buffer of
      `size` bytes when the file position is `pos`: it stops only at the end
      of the buffer or at end of file, and delivers nothing past end of file. */
  function Delivered(file: seq<Byte>, pos: nat, size: nat): (n: nat)
    ensures n <= size
    ensures n > 0 ==> pos + n <= |file|
    ensures n == size || pos + n >= |file|
  {
    if pos >= |file| then 0
    else if size <= |file| - pos then size
    else |file| - pos
  }

  /** The buffer a read of `size` bytes at offset `ptr` returns: the bytes
      the file delivered, followed by the zeros the buffer started with. */
  function Section(file: seq<Byte>, ptr: nat, size: nat): (r: seq<Byte>)
  {
    var n := Delivered(file, ptr, size);
    if n == 0 then Zeros(size) else file[ptr..ptr + n] + Zeros(size - n)
  }

  /** A read is never short: it returns exactly `size` bytes, byte `i` being
      the file's byte at `ptr + i` when the file has one and 0 otherwise. */
  lemma SectionAt(file: seq<Byte>, ptr: nat, size: nat, i: nat)
    requires i < size
    ensures |Section(file, ptr, size)| == size
    ensures Section(file, ptr, size)[i]
            == if ptr + i < |file| then file[ptr + i] else 0
  {
  }

  /** Within the file a section is exactly the file's bytes. */
  lemma SectionInside(file: seq<Byte>, ptr: nat, size: nat)
    requires ptr + size <= |file|
    ensures Section(file, ptr, size) == file[ptr..ptr + size]
  {
  }

  /** Bytes after the section do not affect it, and neither do zero bytes
      appended to the file: a truncated file reads like one padded with 0. */
  lemma {:induction false} SectionExtend(file: seq<Byte>, more: seq<Byte>, ptr: nat, size: nat)
    requires ptr + size <= |file| || more == Zeros(|more|)
    ensures Section(file + more, ptr, size) == Section(file, ptr, size)
  {
    var a, b := Section(file + more, ptr, size), Section(file, ptr, size);
    forall i | 0 <= i < size
      ensures a[i] == b[i]
    {
      SectionAt(file + more, ptr, size, i);
      SectionAt(file, ptr, size, i);
    }
  }

  /** `read_section`: seeks to `ptr`, reads into a zero-initialised buffer
      of `size` bytes, ignores how many bytes the read delivered, and moves
      the cursor on by `size`. */
  method ReadSection(ptr: nat, file: seq<Byte>, size: nat) returns (buf: seq<Byte>, next: nat)
    ensures buf == Section(file, ptr, size)
    ensures next == ptr + size
  {
    var b := new Byte[size](_ => 0);
    var n := Delivered(file, ptr, size);
    forall i | 0 <= i < n {
      b[i] := file[ptr + i];
    }
    buf := b[..];
    next := ptr + size;
  }
}
