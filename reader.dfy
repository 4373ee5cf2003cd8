/** The reads the texture and material code makes through BinaryFile and
    the FRES object: little-endian integers at an absolute offset, a run of
    raw bytes, and a string through its string-table offset.  BinaryFile
    itself is not part of this model; a read that runs past the end of the
    file is an error here. */
module Reader {
  import opened Bits
  import opened Outcome

  /** A file as the readers see it: its bytes, and the strings that the
      string offsets stored in it resolve to. */
  datatype File = File(bytes: seq<byte>, strings: map<nat, string>)

  /** `read('B' | 'H' | 'I' | 'Q', offs)`: the n-byte little-endian unsigned
      integer at offs. */
  function ReadUint(f: File, offs: nat, n: nat): (r: Result<nat>)
    ensures r.Ok? <==> offs + n <= |f.bytes|
    ensures r.Ok? ==> r.value < Pow2(8 * n)
  {
    if offs + n <= |f.bytes| then Ok(LeUint(f.bytes, offs, n)) else Err(OutOfBounds(offs))
  }

  /** `read('b' | 'h' | 'i' | 'q', offs)`: the n-byte two's-complement
      integer at offs. */
  function ReadSint(f: File, offs: nat, n: nat): (r: Result<int>)
    requires n >= 1
    ensures r.Ok? <==> offs + n <= |f.bytes|
    ensures r.Ok? ==> -(Pow2(8 * (n - 1) + 7) as int) <= r.value < Pow2(8 * (n - 1) + 7)
  {
    if offs + n <= |f.bytes| then
      assert 8 * n - 1 == 8 * (n - 1) + 7;
      Pow2Add(1, 8 * (n - 1) + 7);
      Ok(Signed(LeUint(f.bytes, offs, n), 8 * n))
    else Err(OutOfBounds(offs))
  }

  /** `read(n, offs)`: the n bytes at offs. */
  function ReadBytes(f: File, offs: nat, n: nat): (r: Result<seq<byte>>)
    ensures r.Ok? <==> offs + n <= |f.bytes|
    ensures r.Ok? ==> |r.value| == n && forall i :: 0 <= i < n ==> r.value[i] == f.bytes[offs + i]
  {
    if offs + n <= |f.bytes| then Ok(f.bytes[offs..offs + n]) else Err(OutOfBounds(offs))
  }

  /** `readStr(offs)`: the string stored at a string-table offset. */
  function ReadStr(f: File, offs: nat): (r: Result<string>)
    ensures r.Ok? <==> offs in f.strings
    ensures r.Ok? ==> r.value == f.strings[offs]
  {
    if offs in f.strings then Ok(f.strings[offs]) else Err(OutOfBounds(offs))
  }
}
