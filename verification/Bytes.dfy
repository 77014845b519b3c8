/** Bytes, fixed-width little-endian integers, and positioned file access. */
module Bytes {
  type byte = b: int | 0 <= b < 256
  type u32 = n: int | 0 <= n < 0x1_0000_0000

  datatype Option<+T> = None | Some(value: T)

  // ---------- little-endian integers ----------

  /** The least number that does not fit in `width` bytes. */
  function Range(width: nat): (r: nat)
    ensures r > 0
  {
    if width == 0 then 1 else 256 * Range(width - 1)
  }

  /** What memcpy of a `width`-byte unsigned integer stores: its low bytes, least first. */
  function Encode(n: nat, width: nat): (s: seq<byte>)
    ensures |s| == width
    decreases width
  {
    if width == 0 then [] else [n % 256] + Encode(n / 256, width - 1)
  }

  function Decode(s: seq<byte>): nat
    decreases |s|
  {
    if s == [] then 0 else s[0] + 256 * Decode(s[1..])
  }

  lemma {:induction false} DecodeEncode(n: nat, width: nat)
    requires n < Range(width)
    ensures Decode(Encode(n, width)) == n
    decreases width
  {
    if width > 0 {
      DecodeEncode(n / 256, width - 1);
      assert Encode(n, width)[1..] == Encode(n / 256, width - 1);
    }
  }

  lemma Ranges()
    ensures Range(4) == 0x1_0000_0000
    ensures Range(8) == 0x1_0000_0000_0000_0000
  {
    assert Range(3) == 0x100_0000;
    assert Range(6) == 0x1_0000_0000_0000;
  }

  // ---------- files ----------

  /** pwrite(2): the file grows when needed, and a gap reads as zeros. */
  function Pwrite(file: seq<byte>, data: seq<byte>, offset: nat): (r: seq<byte>)
    ensures data != [] ==> offset + |data| <= |r|
    ensures |file| <= |r|
    ensures data != [] ==> |r| == if |file| < offset + |data| then offset + |data| else |file|
    ensures forall i :: |file| <= i < offset && i < |r| ==> r[i] == 0
    ensures forall i :: 0 <= i < |file| && !(offset <= i < offset + |data|) ==> r[i] == file[i]
    ensures data != [] ==> r[offset..offset + |data|] == data
  {
    if data == [] then file
    else
      var size := if |file| < offset + |data| then offset + |data| else |file|;
      var r := seq(size, i requires 0 <= i < size =>
        if offset <= i < offset + |data| then data[i - offset]
        else if i < |file| then file[i] else 0);
      assert forall j :: 0 <= j < |data| ==> r[offset..offset + |data|][j] == data[j];
      r
  }

  /** pread(2) of exactly `size` bytes; anything shorter is a failure to the callers here. */
  function Pread(file: seq<byte>, size: nat, offset: nat): Option<seq<byte>> {
    if size == 0 then Some([])
    else if offset + size <= |file| then Some(file[offset..offset + size]) else None
  }

  lemma PreadOwnWrite(file: seq<byte>, data: seq<byte>, offset: nat)
    ensures Pread(Pwrite(file, data, offset), |data|, offset) == Some(data)
  {
  }

  /** A read that succeeded is not affected by a write elsewhere. */
  lemma PreadFrame(file: seq<byte>, data: seq<byte>, at: nat, size: nat, offset: nat)
    requires Pread(file, size, offset).Some?
    requires at + |data| <= offset || offset + size <= at
    ensures Pread(Pwrite(file, data, at), size, offset) == Pread(file, size, offset)
  {
    var file' := Pwrite(file, data, at);
    if size > 0 {
      assert file'[offset..offset + size] == file[offset..offset + size];
    }
  }

  // ---------- sequences ----------

  predicate Distinct<T(==)>(s: seq<T>) {
    forall i, j :: 0 <= i < j < |s| ==> s[i] != s[j]
  }
}
