// The DF3 volume format: a six-byte header holding nx, ny and nz as big-endian unsigned
// shorts, then the voxels as big-endian unsigned ints, shorts or bytes.
module Df3 {
  import opened Wrappers
  import opened PyNum

  newtype Byte = x: int | 0 <= x < 256

  /** `sizeof(unsigned short) * 3`: the header's length. */
  const HeaderSize: nat := 6

  /** The C++ conversion of an int to `unsigned short`: the value modulo 2^16. */
  function UShort(v: int): (r: int)
    ensures 0 <= r < 65536
    ensures 0 <= v < 65536 ==> r == v
  {
    v % 65536
  }

  function Pow256(w: nat): (p: nat)
    ensures p >= 1
  {
    if w == 0 then 1 else 256 * Pow256(w - 1)
  }

  /** The low w bytes of v, most significant first. */
  function BigEndian(v: nat, w: nat): (r: seq<Byte>)
    ensures |r| == w
  {
    if w == 0 then [] else BigEndian(v / 256, w - 1) + [(v % 256) as Byte]
  }

  /** The value of bytes read most significant first. */
  function FromBigEndian(bs: seq<Byte>): (v: nat)
  {
    if |bs| == 0 then 0 else FromBigEndian(bs[..|bs| - 1]) * 256 + bs[|bs| - 1] as int
  }

  lemma QuotientBelow(v: nat, p: nat)
    requires v < 256 * p
    ensures v / 256 < p
  {
    assert v == 256 * (v / 256) + v % 256;
  }

  /** Decoding the bytes of a value that fits in w bytes gives the value back. */
  lemma {:induction false} BigEndianRoundTrip(v: nat, w: nat)
    requires v < Pow256(w)
    ensures FromBigEndian(BigEndian(v, w)) == v
  {
    if w > 0 {
      QuotientBelow(v, Pow256(w - 1));
      BigEndianRoundTrip(v / 256, w - 1);
      var r := BigEndian(v, w);
      assert r[..|r| - 1] == BigEndian(v / 256, w - 1);
    }
  }

  // ---- the header ----

  /** `write_header`'s three shorts after `become_big_endian`. */
  function EncodeHeader(nx: int, ny: int, nz: int): (h: seq<Byte>)
    ensures |h| == HeaderSize
  {
    BigEndian(UShort(nx), 2) + BigEndian(UShort(ny), 2) + BigEndian(UShort(nz), 2)
  }

  /** The unsigned short at byte offset k, swapped to the host's order. */
  function ShortAt(file: seq<Byte>, k: nat): nat
    requires k + 2 <= |file|
  {
    FromBigEndian(file[k..k + 2])
  }

  /** Reading the header of a written file gives back the three sizes truncated to 16 bits. */
  lemma HeaderRoundTrip(nx: int, ny: int, nz: int, rest: seq<Byte>)
    ensures var f := EncodeHeader(nx, ny, nz) + rest;
      ShortAt(f, 0) == UShort(nx) && ShortAt(f, 2) == UShort(ny) && ShortAt(f, 4) == UShort(nz)
  {
    var f := EncodeHeader(nx, ny, nz) + rest;
    assert f[0..2] == BigEndian(UShort(nx), 2);
    assert f[2..4] == BigEndian(UShort(ny), 2);
    assert f[4..6] == BigEndian(UShort(nz), 2);
    BigEndianRoundTrip(UShort(nx), 2);
    BigEndianRoundTrip(UShort(ny), 2);
    BigEndianRoundTrip(UShort(nz), 2);
  }

  /** `is_image_big_endian`: DF3 files are always big-endian. */
  function IsImageBigEndian(): bool
  {
    true
  }

  /** `is_complex_mode`: DF3 holds only real images. */
  function IsComplexMode(): bool
  {
    false
  }

  /** The header a file written with nx keeps its most significant byte first, so the format is big-endian and real. */
  lemma HeaderByteOrder(nx: int, ny: int, nz: int)
    ensures IsImageBigEndian() && !IsComplexMode()
    ensures EncodeHeader(nx, ny, nz)[0] as int == UShort(nx) / 256
    ensures EncodeHeader(nx, ny, nz)[1] as int == UShort(nx) % 256
  {
    var h := EncodeHeader(nx, ny, nz);
    assert h[..2] == BigEndian(UShort(nx), 2);
  }

  // ---- the voxels ----

  /** Every value as w big-endian bytes, one after another. */
  function Payload(vals: seq<nat>, w: nat): (r: seq<Byte>)
    ensures |r| == w * |vals|
  {
    if |vals| == 0 then [] else BigEndian(vals[0], w) + Payload(vals[1..], w)
  }

  lemma MulStep(i: nat, w: nat)
    requires i > 0
    ensures i * w == w + (i - 1) * w && (i + 1) * w == w + i * w
  {
  }

  /** Element i of a payload sits at bytes [i * w, i * w + w). */
  lemma {:induction false} PayloadAt(vals: seq<nat>, w: nat, i: nat)
    requires i < |vals|
    ensures i * w + w <= |Payload(vals, w)| && Payload(vals, w)[i * w..i * w + w] == BigEndian(vals[i], w)
  {
    var p := Payload(vals, w);
    var head := BigEndian(vals[0], w);
    var rest := Payload(vals[1..], w);
    assert p == head + rest;
    if i == 0 {
      assert p[..w] == head;
    } else {
      PayloadAt(vals[1..], w, i - 1);
      MulStep(i, w);
      var b := (i - 1) * w;
      assert vals[1..][i - 1] == vals[i];
      SliceAfter(head, rest, b, b + w);
    }
  }

  /** Element i of a w-byte layout behind the header, as `fread` and `become_host_endian` give it. */
  function Element(file: seq<Byte>, w: nat, i: nat): nat
    requires HeaderSize + i * w + w <= |file|
  {
    FromBigEndian(file[HeaderSize + i * w..HeaderSize + i * w + w])
  }

  /** `switch (fsize / image_size)` as written: the whole file size, header included, is divided. */
  function WidthAsWritten(fsize: nat, n: nat): (w: Option<nat>)
    requires n > 0
    ensures w.Some? ==> w.value in {1, 2, 4}
  {
    var q := fsize / n;
    if q == 4 || q == 2 || q == 1 then Some(q) else None
  }

  /** The element width from the bytes after the header: 4, 2 or 1, anything else unsupported. */
  function WidthOf(fsize: nat, n: nat): (w: Option<nat>)
    requires n > 0
    ensures w.Some? ==> w.value in {1, 2, 4} && HeaderSize + w.value * n <= fsize
  {
    if fsize < HeaderSize then None
    else
      var q := (fsize - HeaderSize) / n;
      assert q * n <= fsize - HeaderSize;
      if q == 4 || q == 2 || q == 1 then Some(q) else None
  }

  /**
   * A file written with w-byte voxels is read back with width w, and every voxel that fits in
   * w bytes comes back unchanged.
   */
  lemma DataRoundTrip(nx: int, ny: int, nz: int, vals: seq<nat>, w: nat)
    requires |vals| > 0 && w in {1, 2, 4}
    requires forall i :: 0 <= i < |vals| ==> vals[i] < Pow256(w)
    ensures var f := EncodeHeader(nx, ny, nz) + Payload(vals, w);
      WidthOf(|f|, |vals|) == Some(w) &&
      forall i :: 0 <= i < |vals| ==> HeaderSize + i * w + w <= |f| && Element(f, w, i) == vals[i]
  {
    var h := EncodeHeader(nx, ny, nz);
    WidthRoundTrip(|vals|, w);
    forall i | 0 <= i < |vals| ensures HeaderSize + i * w + w <= |h + Payload(vals, w)| && Element(h + Payload(vals, w), w, i) == vals[i] {
      ElementRoundTrip(h, vals, w, i);
    }
  }

  lemma WidthRoundTrip(n: nat, w: nat)
    requires n > 0 && w in {1, 2, 4}
    ensures WidthOf(HeaderSize + w * n, n) == Some(w)
  {
    DivModUnique(w * n, n, w, 0);
  }

  lemma ElementRoundTrip(h: seq<Byte>, vals: seq<nat>, w: nat, i: nat)
    requires |h| == HeaderSize && i < |vals| && vals[i] < Pow256(w)
    ensures HeaderSize + i * w + w <= |h + Payload(vals, w)| && Element(h + Payload(vals, w), w, i) == vals[i]
  {
    var bytes := BigEndian(vals[i], w);
    PayloadSlice(h, vals, w, i);
    ElementBytes(h + Payload(vals, w), w, i, bytes);
    BigEndianRoundTrip(vals[i], w);
  }

  /** Behind the header, element i's bytes sit six bytes further on. */
  lemma PayloadSlice(h: seq<Byte>, vals: seq<nat>, w: nat, i: nat)
    requires |h| == HeaderSize && i < |vals|
    ensures var f := h + Payload(vals, w);
      HeaderSize + i * w + w <= |f| && f[HeaderSize + i * w..HeaderSize + i * w + w] == BigEndian(vals[i], w)
  {
    var k := i * w;
    PayloadAt(vals, w, i);
    SliceAfter(h, Payload(vals, w), k, k + w);
  }

  lemma ElementBytes(file: seq<Byte>, w: nat, i: nat, bytes: seq<Byte>)
    requires HeaderSize + i * w + w <= |file| && file[HeaderSize + i * w..HeaderSize + i * w + w] == bytes
    ensures Element(file, w, i) == FromBigEndian(bytes)
  {
  }

  lemma SliceAfter<T>(h: seq<T>, p: seq<T>, a: nat, b: nat)
    requires a <= b <= |p|
    ensures (h + p)[|h| + a..|h| + b] == p[a..b]
  {
  }

  /** Beyond six voxels the header's six bytes vanish in the division, so both widths agree. */
  lemma WidthAgreesLarge(vals: seq<nat>, w: nat)
    requires |vals| > HeaderSize && w in {1, 2, 4}
    ensures WidthAsWritten(HeaderSize + w * |vals|, |vals|) == WidthOf(HeaderSize + w * |vals|, |vals|) == Some(w)
  {
    DivModUnique(HeaderSize + w * |vals|, |vals|, w, HeaderSize);
    DivModUnique(w * |vals|, |vals|, w, 0);
  }

  /** A volume of more than six voxels, once written, is read back as written, voxel for voxel. */
  lemma WrittenReadsBack(nx: int, ny: int, nz: int, vals: seq<nat>, w: nat)
    requires |vals| > HeaderSize && w in {1, 2, 4}
    requires forall i :: 0 <= i < |vals| ==> vals[i] < Pow256(w)
    ensures var f := EncodeHeader(nx, ny, nz) + Payload(vals, w);
      WidthAsWritten(|f|, |vals|) == Some(w) &&
      forall i :: 0 <= i < |vals| ==> HeaderSize + i * w + w <= |f| && Element(f, w, i) == vals[i]
  {
    DataRoundTrip(nx, ny, nz, vals, w);
    WidthAgreesLarge(vals, w);
  }

  /** Six one-byte voxels make a 12-byte file, which the code as written reads as unsigned shorts. */
  lemma SmallVolumeMisread()
    ensures WidthAsWritten(|EncodeHeader(1, 1, 6) + Payload([0, 0, 0, 0, 0, 0], 1)|, 6) == Some(2)
    ensures WidthOf(|EncodeHeader(1, 1, 6) + Payload([0, 0, 0, 0, 0, 0], 1)|, 6) == Some(1)
  {
    assert |Payload([0, 0, 0, 0, 0, 0], 1)| == 6;
  }

  // ---- the data type write_data resolves ----

  /** The type asked of `write_data`; the bit count is the `EMDataTypeBits` entry of the type. */
  datatype DataType = UChar | UShort16 | UInt | Compressed(bits: nat) | Other(bits: nat)

  /** `EMDataTypeBits[dt]`. */
  function TrueBits(t: DataType): nat
  {
    match t
    case UChar => 8
    case UShort16 => 16
    case UInt => 32
    case Compressed(b) => b
    case Other(b) => b
  }

  /** A compressed type becomes uchar up to 8 render bits and ushort up to 16; other types stay. */
  function Resolved(t: DataType, renderbits: int): (r: DataType)
    ensures !t.Compressed? ==> r == t
    ensures t.Compressed? && renderbits <= 8 ==> r == UChar
    ensures t.Compressed? && 8 < renderbits <= 16 ==> r == UShort16
    ensures t.Compressed? && renderbits > 16 ==> r == t
  {
    if t.Compressed? then
      if renderbits <= 8 then UChar else if renderbits <= 16 then UShort16 else t
    else t
  }

  /** The render bits after `write_data`: the type's true bits when unset or too many, else kept. */
  function RenderBits(t: DataType, renderbits: int): (r: int)
    ensures r == renderbits || r == TrueBits(t)
    ensures r <= TrueBits(t) && (r != 0 || TrueBits(t) == 0)
    ensures renderbits != 0 && renderbits <= TrueBits(t) ==> r == renderbits
  {
    if renderbits == 0 || renderbits > TrueBits(t) then TrueBits(t) else renderbits
  }

  /** The bytes per voxel `write_data` writes for a resolved type, None for a type it rejects. */
  function WriteWidth(t: DataType): (w: Option<nat>)
    ensures w.Some? <==> t == UChar || t == UShort16 || t == UInt
    ensures w.Some? ==> w.value * 8 == TrueBits(t)
  {
    match t
    case UInt => Some(4)
    case UShort16 => Some(2)
    case UChar => Some(1)
    case _ => None
  }

  /** Whatever the render bits, a compressed request is written with one or two bytes or rejected. */
  lemma CompressedWidth(bits: nat, renderbits: int)
    ensures var t := Resolved(Compressed(bits), renderbits);
      (renderbits <= 8 ==> WriteWidth(t) == Some(1)) &&
      (8 < renderbits <= 16 ==> WriteWidth(t) == Some(2)) &&
      (renderbits > 16 ==> WriteWidth(t).None?)
  {
  }

  // ---- the image IO object ----

  /** A `Df3IO` on a file, which the model holds as its bytes. */
  class Df3File {
    var file: seq<Byte>
    const isNewFile: bool
    var nx: int
    var ny: int
    var nz: int
    var renderbits: int

    /** The sizes are unsigned shorts. */
    predicate Valid()
      reads this
    {
      0 <= nx < 65536 && 0 <= ny < 65536 && 0 <= nz < 65536
    }

    /** `Df3IO(fname, rw)` followed by `init()` on a file holding `contents`. */
    constructor (contents: seq<Byte>, isNew: bool)
      ensures Valid() && file == contents && isNewFile == isNew
      ensures nx == 0 && ny == 0 && nz == 0 && renderbits == 0
    {
      file := contents;
      isNewFile := isNew;
      nx, ny, nz := 0, 0, 0;
      renderbits := 0;
    }

    /**
     * `read_header`: nothing for a new file; otherwise the first short is required, the next two
     * are read when present, and the three sizes go into the dictionary.
     */
    method ReadHeader(dict: map<string, int>) returns (r: Result<map<string, int>>)
      requires Valid()
      modifies this
      ensures Valid() && file == old(file) && renderbits == old(renderbits)
      ensures isNewFile ==> r == Ok(dict) && nx == old(nx) && ny == old(ny) && nz == old(nz)
      ensures !isNewFile && |file| < 2 ==> r == Err("DF3 header")
      ensures !isNewFile && |file| >= 2 ==>
        nx == ShortAt(file, 0) &&
        ny == (if |file| >= 4 then ShortAt(file, 2) else old(ny)) &&
        nz == (if |file| >= 6 then ShortAt(file, 4) else old(nz)) &&
        r == Ok(dict["nx" := nx]["ny" := ny]["nz" := nz])
    {
      if isNewFile {
        return Ok(dict);
      }
      if |file| < 2 {
        return Err("DF3 header");
      }
      nx := ShortFrom(file, 0);
      if |file| >= 4 {
        ny := ShortFrom(file, 2);
      }
      if |file| >= 6 {
        nz := ShortFrom(file, 4);
      }
      r := Ok(dict["nx" := nx]["ny" := ny]["nz" := nz]);
    }

    /**
     * `write_header`: the sizes truncated to unsigned shorts, written big-endian at offset 0;
     * the render bits come from `getRenderLimits`, passed in as `bits`.
     */
    method WriteHeader(dict: map<string, int>, bits: int)
      requires "nx" in dict && "ny" in dict && "nz" in dict
      modifies this
      ensures Valid()
      ensures nx == UShort(dict["nx"]) && ny == UShort(dict["ny"]) && nz == UShort(dict["nz"])
      ensures file == EncodeHeader(dict["nx"], dict["ny"], dict["nz"]) +
        (if |old(file)| >= HeaderSize then old(file)[HeaderSize..] else [])
      ensures renderbits == bits
    {
      nx := UShort(dict["nx"]);
      ny := UShort(dict["ny"]);
      nz := UShort(dict["nz"]);
      var header := EncodeHeader(nx, ny, nz);
      file := header + (if |file| >= HeaderSize then file[HeaderSize..] else []);
      renderbits := bits;
    }

    /**
     * `read_data` as written: the width is the whole file size over the voxel count, header
     * included; an unsupported ratio raises. `fread` then fills the voxels the file holds in
     * full, decoded big-endian; the rest of the freshly allocated buffer, whose contents C++
     * leaves unspecified, is passed in as `stale`.
     */
    method ReadData(rdata: array<real>, stale: seq<nat>) returns (r: Result<()>)
      requires Valid() && nx * ny * nz > 0 && rdata.Length >= nx * ny * nz && |stale| >= nx * ny * nz
      modifies rdata
      ensures var n := nx * ny * nz;
        var w := WidthAsWritten(|file|, n);
        (w.None? <==> r.Err?) &&
        (r.Err? ==> r.error == "DF3 does not support this kind of data type." && rdata[..] == old(rdata[..])) &&
        (r.Ok? ==> (forall i :: 0 <= i < n ==>
                      rdata[i] == (if HeaderSize + i * w.value + w.value <= |file| then Element(file, w.value, i) else stale[i]) as real) &&
                   rdata[n..] == old(rdata[n..]))
    {
      var n := nx * ny * nz;
      var w := WidthAsWritten(|file|, n);
      if w.None? {
        return Err("DF3 does not support this kind of data type.");
      }
      var width := w.value;
      for i := 0 to n
        invariant forall k :: 0 <= k < i ==>
          rdata[k] == (if HeaderSize + k * width + width <= |file| then Element(file, width, k) else stale[k]) as real
        invariant rdata[i..] == old(rdata[i..])
      {
        if HeaderSize + i * width + width <= |file| {
          rdata[i] := Element(file, width, i) as real;
        } else {
          rdata[i] := stale[i] as real;
        }
      }
      r := Ok(());
    }

    /**
     * `write_data`: resolve the type and the render bits, then write the rendered voxels
     * (`getRenderedDataAndRendertrunc`'s output, passed in) after the header, big-endian.
     * A file opened for writing starts empty, so nothing follows the payload.
     */
    method WriteData(rendered: seq<nat>, dt: DataType) returns (r: Result<()>)
      requires Valid() && |rendered| == nx * ny * nz && |file| >= HeaderSize
      modifies this
      ensures Valid() && nx == old(nx) && ny == old(ny) && nz == old(nz)
      ensures var t := Resolved(dt, old(renderbits));
        renderbits == RenderBits(t, old(renderbits)) &&
        (WriteWidth(t).None? ==> r == Err("DF3 does not support this data format") && file == old(file)) &&
        (WriteWidth(t).Some? ==> r == Ok(()) && file == old(file)[..HeaderSize] + Payload(rendered, WriteWidth(t).value))
    {
      var t := Resolved(dt, renderbits);
      renderbits := RenderBits(t, renderbits);
      var w := WriteWidth(t);
      if w.None? {
        return Err("DF3 does not support this data format");
      }
      var bytes := Encode(rendered, w.value);
      file := file[..HeaderSize] + bytes;
      r := Ok(());
    }
  }

  /** `fread` of the unsigned short at offset k, then `swap_bytes` on a little-endian host. */
  method ShortFrom(file: seq<Byte>, k: nat) returns (v: int)
    requires k + 2 <= |file|
    ensures v == ShortAt(file, k) && 0 <= v < 65536
  {
    var bs := file[k..k + 2];
    assert bs[..1][..0] == [];
    assert FromBigEndian(bs[..1]) == bs[0] as int;
    assert FromBigEndian(bs) == FromBigEndian(bs[..1]) * 256 + bs[1] as int;
    v := bs[0] as int * 256 + bs[1] as int;
  }

  /** The rendered buffer after `become_big_endian`: each value's w bytes, most significant first. */
  method Encode(vals: seq<nat>, w: nat) returns (bytes: seq<Byte>)
    ensures bytes == Payload(vals, w)
  {
    bytes := [];
    var i := |vals|;
    while i > 0
      invariant 0 <= i <= |vals|
      invariant bytes == Payload(vals[i..], w)
    {
      i := i - 1;
      assert vals[i..][1..] == vals[i + 1..];
      bytes := BigEndian(vals[i], w) + bytes;
    }
  }
}
