/**
 * The handwritten favicon container (frontend/scripts/generate-icons.mjs:59-85)
 * and a reader that follows its directory.
 */
module IcoWriter {
  import opened Prelude

  type Byte = b: int | 0 <= b < 256

  /** Node throws on a value out of range and on a missing buffer. */
  datatype Thrown = Thrown

  function Le16(v: int): seq<Byte>
    requires 0 <= v < 0x1_0000
  {
    [v % 256, v / 256]
  }

  function Le32(v: int): seq<Byte>
    requires 0 <= v < 0x1_0000_0000
  {
    [v % 256, v / 256 % 256, v / 65536 % 256, v / 16777216]
  }

  /**
   * A zero-filled buffer that is written from front to back: every write goes
   * to the first position not written yet, so none is written twice.
   */
  class Buffer {
    const bytes: array<Byte>
    /** Everything before this position has been written, nothing after it. */
    ghost var filled: nat

    constructor (n: nat)
      ensures fresh(bytes) && bytes.Length == n && filled == 0
    {
      bytes := new Byte[n](_ => 0);
      filled := 0;
    }

    method WriteUInt8(v: int, at: nat) returns (ok: bool)
      requires at == filled && at < bytes.Length
      modifies bytes, this`filled
      ensures ok <==> 0 <= v < 0x100
      ensures ok ==> bytes[at] == v && filled == at + 1
      ensures forall k :: 0 <= k < at ==> bytes[k] == old(bytes[k])
    {
      ok := 0 <= v < 0x100;
      if ok {
        bytes[at] := v;
        filled := at + 1;
      }
    }

    method WriteUInt16LE(v: int, at: nat) returns (ok: bool)
      requires at == filled && at + 2 <= bytes.Length
      modifies bytes, this`filled
      ensures ok <==> 0 <= v < 0x1_0000
      ensures ok ==> [bytes[at], bytes[at + 1]] == Le16(v) && filled == at + 2
      ensures forall k :: 0 <= k < at ==> bytes[k] == old(bytes[k])
    {
      ok := 0 <= v < 0x1_0000;
      if ok {
        bytes[at], bytes[at + 1] := v % 256, v / 256;
        filled := at + 2;
      }
    }

    method WriteUInt32LE(v: int, at: nat) returns (ok: bool)
      requires at == filled && at + 4 <= bytes.Length
      modifies bytes, this`filled
      ensures ok <==> 0 <= v < 0x1_0000_0000
      ensures ok ==> [bytes[at], bytes[at + 1], bytes[at + 2], bytes[at + 3]] == Le32(v) && filled == at + 4
      ensures forall k :: 0 <= k < at ==> bytes[k] == old(bytes[k])
    {
      ok := 0 <= v < 0x1_0000_0000;
      if ok {
        bytes[at], bytes[at + 1] := v % 256, v / 256 % 256;
        bytes[at + 2], bytes[at + 3] := v / 65536 % 256, v / 16777216;
        filled := at + 4;
      }
    }
  }

  // ---- the file the script should produce ------------------------------------

  function Concat(chunks: seq<seq<Byte>>): seq<Byte> {
    if chunks == [] then [] else Concat(chunks[..|chunks| - 1]) + chunks[|chunks| - 1]
  }

  /** Where the i-th image starts: after the directory and the images before it. */
  function OffsetOf(n: nat, images: seq<seq<Byte>>, i: nat): nat
    requires i <= |images|
  {
    6 + 16 * n + |Concat(images[..i])|
  }

  /** 256 does not fit its byte and is written as 0. */
  function Dimension(size: int): int {
    if size == 256 then 0 else size
  }

  predicate EntryFits(size: int, length: nat, offset: nat) {
    0 <= Dimension(size) < 0x100 && length < 0x1_0000_0000 && offset < 0x1_0000_0000
  }

  /** Width, height, colours, reserved, planes and bits per pixel. */
  function EntryHead(size: int): (r: seq<Byte>)
    requires 0 <= Dimension(size) < 0x100
    ensures |r| == 8
  {
    [Dimension(size), Dimension(size), 0, 0] + Le16(1) + Le16(32)
  }

  function EntryBytes(size: int, length: nat, offset: nat): (r: seq<Byte>)
    requires EntryFits(size, length, offset)
    ensures |r| == 16
  {
    EntryHead(size) + Le32(length) + Le32(offset)
  }

  /** The first k entries of the directory can be written. */
  predicate Fits(sizes: seq<int>, images: seq<seq<Byte>>, k: nat)
    requires k <= |sizes|
  {
    k <= |images| && forall i :: 0 <= i < k ==> EntryFits(sizes[i], |images[i]|, OffsetOf(|sizes|, images, i))
  }

  function Directory(sizes: seq<int>, images: seq<seq<Byte>>, k: nat): (r: seq<Byte>)
    requires k <= |sizes| && Fits(sizes, images, k)
    ensures |r| == 16 * k
  {
    if k == 0 then []
    else Directory(sizes, images, k - 1) + EntryBytes(sizes[k - 1], |images[k - 1]|, OffsetOf(|sizes|, images, k - 1))
  }

  predicate Encodable(sizes: seq<int>, images: seq<seq<Byte>>) {
    |sizes| < 0x1_0000 && Fits(sizes, images, |sizes|)
  }

  function Head(n: nat): (r: seq<Byte>)
    requires n < 0x1_0000
    ensures |r| == 6
  {
    Le16(0) + Le16(1) + Le16(n)
  }

  function Ico(sizes: seq<int>, images: seq<seq<Byte>>): seq<Byte>
    requires Encodable(sizes, images)
  {
    Head(|sizes|) + Directory(sizes, images, |sizes|) + Concat(images[..|sizes|])
  }

  // ---- the script ------------------------------------------------------------

  method WriteEntryHead(dir: Buffer, e: nat, size: int) returns (ok: bool)
    requires e + 16 <= dir.bytes.Length && dir.filled == e
    modifies dir.bytes, dir`filled
    ensures ok <==> 0 <= Dimension(size) < 0x100
    ensures ok ==> dir.filled == e + 8 && dir.bytes[e..e + 8] == EntryHead(size)
    ensures dir.bytes[..e] == old(dir.bytes[..e])
  {
    var d := if size == 256 then 0 else size;
    ok := dir.WriteUInt8(d, e + 0);
    if !ok { return; }
    ok := dir.WriteUInt8(d, e + 1);
    ok := dir.WriteUInt8(0, e + 2);
    ok := dir.WriteUInt8(0, e + 3);
    ok := dir.WriteUInt16LE(1, e + 4);
    ok := dir.WriteUInt16LE(32, e + 6);
  }

  method WriteEntry(dir: Buffer, e: nat, size: int, length: nat, offset: nat) returns (ok: bool)
    requires e + 16 <= dir.bytes.Length && dir.filled == e
    modifies dir.bytes, dir`filled
    ensures ok <==> EntryFits(size, length, offset)
    ensures ok ==> dir.filled == e + 16 && dir.bytes[e..e + 16] == EntryBytes(size, length, offset)
    ensures dir.bytes[..e] == old(dir.bytes[..e])
  {
    ok := WriteEntryHead(dir, e, size);
    if !ok { return; }
    ghost var head := dir.bytes[..e + 8];
    assert head[..e] == old(dir.bytes[..e]) && head[e..] == EntryHead(size);
    ok := dir.WriteUInt32LE(length, e + 8);
    if ok {
      ok := dir.WriteUInt32LE(offset, e + 12);
    }
    assert dir.bytes[..e + 8] == head;
    assert dir.bytes[..e] == head[..e];
    if ok {
      assert dir.bytes[e..e + 16] == head[e..] + dir.bytes[e + 8..e + 12] + dir.bytes[e + 12..e + 16];
    }
  }

  method WriteHeader(n: nat) returns (ok: bool, header: Buffer)
    ensures ok <==> n < 0x1_0000
    ensures ok ==> header.filled == header.bytes.Length == 6
    ensures ok ==> header.bytes[..] == Head(n)
  {
    header := new Buffer(6);
    ok := header.WriteUInt16LE(0, 0);
    ok := header.WriteUInt16LE(1, 2);
    ok := header.WriteUInt16LE(n, 4);
    if ok {
      assert header.bytes[..] == header.bytes[0..2] + header.bytes[2..4] + header.bytes[4..6];
    }
  }

  lemma NextOffset(n: nat, images: seq<seq<Byte>>, i: nat)
    requires i < |images|
    ensures OffsetOf(n, images, i + 1) == OffsetOf(n, images, i) + |images[i]|
  {
    assert images[..i + 1][..i] == images[..i];
  }

  lemma NextEntry(sizes: seq<int>, images: seq<seq<Byte>>, i: nat)
    requires i < |sizes| && i < |images| && Fits(sizes, images, i)
    requires EntryFits(sizes[i], |images[i]|, OffsetOf(|sizes|, images, i))
    ensures Fits(sizes, images, i + 1)
    ensures Directory(sizes, images, i + 1) ==
      Directory(sizes, images, i) + EntryBytes(sizes[i], |images[i]|, OffsetOf(|sizes|, images, i))
  {
  }

  /** One turn of the loop, up to its writes. */
  method AppendEntry(dir: Buffer, sizes: seq<int>, images: seq<seq<Byte>>, i: nat, offset: nat) returns (ok: bool)
    requires i < |sizes| && i < |images| && offset == OffsetOf(|sizes|, images, i)
    requires dir.bytes.Length == 16 * |sizes| && dir.filled == 16 * i
    requires Fits(sizes, images, i) && dir.bytes[..16 * i] == Directory(sizes, images, i)
    modifies dir.bytes, dir`filled
    ensures ok <==> Fits(sizes, images, i + 1)
    ensures ok ==> dir.filled == 16 * i + 16 && dir.bytes[..16 * i + 16] == Directory(sizes, images, i + 1)
  {
    ghost var before := dir.bytes[..16 * i];
    ok := WriteEntry(dir, i * 16, sizes[i], |images[i]|, offset);
    if ok {
      NextEntry(sizes, images, i);
      assert dir.bytes[..16 * i + 16] == before + dir.bytes[16 * i..16 * i + 16];
    }
  }

  method WriteDirectory(sizes: seq<int>, images: seq<seq<Byte>>)
    returns (ok: bool, dir: Buffer, dataChunks: seq<seq<Byte>>)
    ensures ok <==> Fits(sizes, images, |sizes|)
    ensures ok ==> dir.filled == dir.bytes.Length
    ensures ok ==> dir.bytes[..] == Directory(sizes, images, |sizes|) && dataChunks == images[..|sizes|]
  {
    dir := new Buffer(16 * |sizes|);
    var offset := 6 + dir.bytes.Length;
    dataChunks := [];
    for i := 0 to |sizes|
      invariant fresh(dir.bytes) && dir.bytes.Length == 16 * |sizes|
      invariant dir.filled == 16 * i
      invariant Fits(sizes, images, i)
      invariant dir.bytes[..16 * i] == Directory(sizes, images, i)
      invariant dataChunks == images[..i] && offset == OffsetOf(|sizes|, images, i)
    {
      if i >= |images| {
        return false, dir, dataChunks;
      }
      var buf := images[i];
      var entry := AppendEntry(dir, sizes, images, i, offset);
      if !entry {
        return false, dir, dataChunks;
      }
      NextOffset(|sizes|, images, i);
      offset := offset + |buf|;
      dataChunks := dataChunks + [buf];
    }
    assert dir.bytes[..16 * |sizes|] == dir.bytes[..];
    ok := true;
  }

  /**
   * Succeeds exactly when every number fits its field and every size has an
   * image; every byte of header and directory is written exactly once.
   */
  method BuildIco(sizes: seq<int>, images: seq<seq<Byte>>) returns (r: Result<seq<Byte>, Thrown>)
    ensures r.Success? <==> Encodable(sizes, images)
    ensures r.Success? ==> r.value == Ico(sizes, images)
  {
    var ok, header := WriteHeader(|sizes|);
    if !ok {
      return Failure(Thrown);
    }
    var ok', dir, dataChunks := WriteDirectory(sizes, images);
    if !ok' {
      return Failure(Thrown);
    }
    r := Success(header.bytes[..] + dir.bytes[..] + Concat(dataChunks));
  }

  // ---- a reader --------------------------------------------------------------

  /** An image and what its directory entry says of it. */
  datatype Image = Image(width: int, height: int, colors: int, reserved: int, planes: int, bits: int, bytes: seq<Byte>)

  /** A 0 stands for 256. */
  function ReadDimension(b: Byte): int {
    if b == 0 then 256 else b
  }

  function U16(b: seq<Byte>, at: nat): nat
    requires at + 2 <= |b|
  {
    b[at] as int + 256 * b[at + 1] as int
  }

  function U32(b: seq<Byte>, at: nat): nat
    requires at + 4 <= |b|
  {
    b[at] as int + 256 * b[at + 1] as int + 65536 * b[at + 2] as int + 16777216 * b[at + 3] as int
  }

  /** How many entries the header announces. */
  function EntryCount(b: seq<Byte>): Option<nat> {
    if |b| < 6 || U16(b, 0) != 0 || U16(b, 2) != 1 then None else Some(U16(b, 4))
  }

  /** The byte range entry i points to. */
  function EntryRange(b: seq<Byte>, i: nat): Option<(nat, nat)> {
    var e := 6 + 16 * i;
    if e + 16 > |b| then None else Some((U32(b, e + 12), U32(b, e + 8)))
  }

  function ReadImage(b: seq<Byte>, i: nat): Option<Image> {
    var range := EntryRange(b, i);
    if range.None? || range.value.0 + range.value.1 > |b| then None
    else
      var e := 6 + 16 * i;
      Some(Image(ReadDimension(b[e]), ReadDimension(b[e + 1]), b[e + 2], b[e + 3], U16(b, e + 4), U16(b, e + 6),
                 b[range.value.0..range.value.0 + range.value.1]))
  }

  lemma Le16RoundTrip(b: seq<Byte>, at: nat, v: int)
    requires 0 <= v < 0x1_0000 && at + 2 <= |b| && b[at..at + 2] == Le16(v)
    ensures U16(b, at) == v
  {
    assert b[at] == b[at..at + 2][0] && b[at + 1] == b[at..at + 2][1];
  }

  lemma Le32RoundTrip(b: seq<Byte>, at: nat, v: int)
    requires 0 <= v < 0x1_0000_0000 && at + 4 <= |b| && b[at..at + 4] == Le32(v)
    ensures U32(b, at) == v
  {
    var w := b[at..at + 4];
    assert b[at] == w[0] && b[at + 1] == w[1] && b[at + 2] == w[2] && b[at + 3] == w[3];
    assert v / 256 == v / 65536 * 256 + v / 256 % 256;
    assert v / 65536 == v / 16777216 * 256 + v / 65536 % 256;
  }

  lemma {:induction false} DirectoryAt(sizes: seq<int>, images: seq<seq<Byte>>, k: nat, i: nat)
    requires k <= |sizes| && Fits(sizes, images, k) && i < k
    ensures Directory(sizes, images, k)[16 * i..16 * i + 16] ==
      EntryBytes(sizes[i], |images[i]|, OffsetOf(|sizes|, images, i))
  {
    if i < k - 1 {
      DirectoryAt(sizes, images, k - 1, i);
    }
  }

  lemma {:induction false} ConcatAt(chunks: seq<seq<Byte>>, i: nat)
    requires i < |chunks|
    ensures var start := |Concat(chunks[..i])|;
      && |Concat(chunks[..i + 1])| == start + |chunks[i]| <= |Concat(chunks)|
      && Concat(chunks)[start..start + |chunks[i]|] == chunks[i]
  {
    var front := chunks[..|chunks| - 1];
    assert chunks[..i + 1][..i] == chunks[..i];
    if i < |chunks| - 1 {
      ConcatAt(front, i);
      assert front[..i] == chunks[..i] && front[..i + 1] == chunks[..i + 1];
    } else {
      assert chunks[..i + 1] == chunks;
    }
  }

  lemma SliceMiddle(a: seq<Byte>, b: seq<Byte>, c: seq<Byte>, i: nat, j: nat)
    requires i <= j <= |b|
    ensures (a + b + c)[|a| + i..|a| + j] == b[i..j]
  {
  }

  lemma SliceLast(a: seq<Byte>, b: seq<Byte>, i: nat, j: nat)
    requires i <= j <= |b|
    ensures (a + b)[|a| + i..|a| + j] == b[i..j]
  {
  }

  /** Entry i of the directory, in the finished file. */
  lemma EntryInFile(sizes: seq<int>, images: seq<seq<Byte>>, i: nat)
    requires Encodable(sizes, images) && i < |sizes|
    ensures 6 + 16 * i + 16 <= |Ico(sizes, images)|
    ensures Ico(sizes, images)[6 + 16 * i..6 + 16 * i + 16] ==
      EntryBytes(sizes[i], |images[i]|, OffsetOf(|sizes|, images, i))
  {
    var n := |sizes|;
    var dir, data := Directory(sizes, images, n), Concat(images[..n]);
    DirectoryAt(sizes, images, n, i);
    SliceMiddle(Head(n), dir, data, 16 * i, 16 * i + 16);
  }

  /** Image i, in the finished file. */
  lemma ImageInFile(sizes: seq<int>, images: seq<seq<Byte>>, i: nat)
    requires Encodable(sizes, images) && i < |sizes|
    ensures var b, offset := Ico(sizes, images), OffsetOf(|sizes|, images, i);
      && offset + |images[i]| == OffsetOf(|sizes|, images, i + 1) <= |b|
      && b[offset..offset + |images[i]|] == images[i]
  {
    var n, used := |sizes|, images[..|sizes|];
    assert used[..i] == images[..i] && used[..i + 1] == images[..i + 1];
    ChunkInFile(Head(n) + Directory(sizes, images, n), used, i);
  }

  lemma ChunkInFile(front: seq<Byte>, chunks: seq<seq<Byte>>, i: nat)
    requires i < |chunks|
    ensures var start := |front| + |Concat(chunks[..i])|;
      && start + |chunks[i]| == |front| + |Concat(chunks[..i + 1])| <= |front + Concat(chunks)|
      && (front + Concat(chunks))[start..start + |chunks[i]|] == chunks[i]
  {
    var start := |Concat(chunks[..i])|;
    ConcatAt(chunks, i);
    SliceLast(front, Concat(chunks), start, start + |chunks[i]|);
  }

  lemma EntryFields(b: seq<Byte>, e: nat, size: int, length: nat, offset: nat)
    requires EntryFits(size, length, offset) && e + 16 <= |b|
    requires b[e..e + 16] == EntryBytes(size, length, offset)
    ensures b[e] == b[e + 1] == Dimension(size) && b[e + 2] == b[e + 3] == 0
    ensures U16(b, e + 4) == 1 && U16(b, e + 6) == 32
    ensures U32(b, e + 8) == length && U32(b, e + 12) == offset
  {
    var w := EntryHead(size) + Le32(length) + Le32(offset);
    HeadFields(b, e, size, w);
    SubSlice(b, e, 8);
    SubSlice(b, e, 12);
    assert w[8..12] == Le32(length) && w[12..16] == Le32(offset);
    Le32RoundTrip(b, e + 8, length);
    Le32RoundTrip(b, e + 12, offset);
  }

  lemma HeadFields(b: seq<Byte>, e: nat, size: int, w: seq<Byte>)
    requires 0 <= Dimension(size) < 0x100 && e + 16 <= |b| && b[e..e + 16] == w && EntryHead(size) <= w
    ensures b[e] == b[e + 1] == Dimension(size) && b[e + 2] == b[e + 3] == 0
    ensures U16(b, e + 4) == 1 && U16(b, e + 6) == 32
  {
    forall k | 0 <= k < 8 ensures b[e + k] == EntryHead(size)[k] {
      assert b[e + k] == w[k] == EntryHead(size)[k];
    }
    assert b[e + 0] == EntryHead(size)[0] && b[e + 1] == EntryHead(size)[1];
    assert b[e + 2] == EntryHead(size)[2] && b[e + 3] == EntryHead(size)[3];
    assert b[e + 4] == EntryHead(size)[4] && b[e + 5] == EntryHead(size)[5];
    assert b[e + 6] == EntryHead(size)[6] && b[e + 7] == EntryHead(size)[7];
  }

  lemma SubSlice(b: seq<Byte>, e: nat, i: nat)
    requires e + 16 <= |b| && i + 4 <= 16
    ensures b[e + i..e + i + 4] == b[e..e + 16][i..i + 4]
  {
    var w, x, y := b[e..e + 16], b[e..e + 16][i..i + 4], b[e + i..e + i + 4];
    assert forall k :: 0 <= k < 4 ==> x[k] == w[i + k] == y[k];
  }

  /** What a reader makes of an entry and the bytes it points to. */
  lemma ReadEntry(b: seq<Byte>, i: nat, size: int, image: seq<Byte>, offset: nat)
    requires EntryFits(size, |image|, offset) && 6 + 16 * i + 16 <= |b|
    requires b[6 + 16 * i..6 + 16 * i + 16] == EntryBytes(size, |image|, offset)
    requires offset + |image| <= |b| && b[offset..offset + |image|] == image
    ensures var d := if Dimension(size) == 0 then 256 else size;
      ReadImage(b, i) == Some(Image(d, d, 0, 0, 1, 32, image))
  {
    EntryFields(b, 6 + 16 * i, size, |image|, offset);
  }

  lemma HeaderInFile(sizes: seq<int>, images: seq<seq<Byte>>)
    requires Encodable(sizes, images)
    ensures EntryCount(Ico(sizes, images)) == Some(|sizes|)
  {
    var b, n := Ico(sizes, images), |sizes|;
    assert b == Head(n) + (Directory(sizes, images, n) + Concat(images[..n]));
    assert b[0..2] == Le16(0) && b[2..4] == Le16(1) && b[4..6] == Le16(n);
    Le16RoundTrip(b, 0, 0);
    Le16RoundTrip(b, 2, 1);
    Le16RoundTrip(b, 4, n);
  }

  /**
   * A reader that follows the directory finds every image byte for byte, and
   * its size exactly when that is not 0, the code for 256.
   */
  lemma IcoRoundTrip(sizes: seq<int>, images: seq<seq<Byte>>, i: nat)
    requires Encodable(sizes, images) && i < |sizes|
    ensures EntryCount(Ico(sizes, images)) == Some(|sizes|)
    ensures var read := ReadImage(Ico(sizes, images), i);
      && read.Some? && read.value.bytes == images[i]
      && read.value.width == read.value.height && (read.value.width == sizes[i] <==> sizes[i] != 0)
      && read.value.colors == read.value.reserved == 0 && read.value.planes == 1 && read.value.bits == 32
  {
    HeaderInFile(sizes, images);
    EntryInFile(sizes, images, i);
    ImageInFile(sizes, images, i);
    ReadEntry(Ico(sizes, images), i, sizes[i], images[i], OffsetOf(|sizes|, images, i));
  }

  lemma RangeInFile(sizes: seq<int>, images: seq<seq<Byte>>, i: nat)
    requires Encodable(sizes, images) && i < |sizes|
    ensures EntryRange(Ico(sizes, images), i) == Some((OffsetOf(|sizes|, images, i), |images[i]|))
  {
    EntryInFile(sizes, images, i);
    EntryFields(Ico(sizes, images), 6 + 16 * i, sizes[i], |images[i]|, OffsetOf(|sizes|, images, i));
  }

  /** The ranges the directory names tile the file after the directory, in order. */
  lemma RangesTile(sizes: seq<int>, images: seq<seq<Byte>>, i: nat)
    requires Encodable(sizes, images) && i < |sizes|
    ensures var b := Ico(sizes, images);
      var range := EntryRange(b, i);
      && range.Some?
      && (i == 0 ==> range.value.0 == 6 + 16 * |sizes|)
      && (i + 1 < |sizes| ==>
            && EntryRange(b, i + 1).Some?
            && EntryRange(b, i + 1).value.0 == range.value.0 + range.value.1)
      && (i + 1 == |sizes| ==> range.value.0 + range.value.1 == |b|)
  {
    RangeInFile(sizes, images, i);
    NextOffset(|sizes|, images, i);
    if i + 1 < |sizes| {
      RangeInFile(sizes, images, i + 1);
    }
  }
}
