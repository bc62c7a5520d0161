/**
 * Icon payloads: recognising an image format by its leading magic bytes, and
 * cutting an embedded PNG stream out of a decoded icon blob. The PNG signature
 * and the IEND chunk are those of section 5.2 and section 11.2.5 of the PNG
 * Specification (ISO/IEC 15948, 2nd edition).
 */
module ImageFormat {
  import opened Wrappers
  import opened Bytes

  /** The format tags an icon file name can carry. */
  datatype Format = Png | Jpg | Gif | Bmp | Ico | Bin

  /** The file extension written for a format. */
  function Ext(f: Format): string {
    match f
    case Png => "png"
    case Jpg => "jpg"
    case Gif => "gif"
    case Bmp => "bmp"
    case Ico => "ico"
    case Bin => "bin"
  }

  /** 89 50 4E 47 0D 0A 1A 0A */
  const PngSignature: seq<byte> := [0x89, 0x50, 0x4E, 0x47, 0x0D, 0x0A, 0x1A, 0x0A]
  /** A zero length field, the chunk type "IEND" and its fixed CRC AE 42 60 82. */
  const IendChunk: seq<byte> := [0x00, 0x00, 0x00, 0x00, 0x49, 0x45, 0x4E, 0x44, 0xAE, 0x42, 0x60, 0x82]
  /** JPEG start of image followed by the first byte of a marker. */
  const JpegSoi: seq<byte> := [0xFF, 0xD8, 0xFF]
  /** "GIF87a" and "GIF89a" */
  const Gif87a: seq<byte> := [0x47, 0x49, 0x46, 0x38, 0x37, 0x61]
  const Gif89a: seq<byte> := [0x47, 0x49, 0x46, 0x38, 0x39, 0x61]
  /** "BM" */
  const BmpMagic: seq<byte> := [0x42, 0x4D]
  /** Reserved 0, type 1 (icon) of an ICO header. */
  const IcoMagic: seq<byte> := [0x00, 0x00, 0x01, 0x00]

  /**
   * Format detection by leading bytes, checked in the converter's order: the
   * first format, in that priority order, whose magic number begins `data`,
   * and Bin exactly when none does.
   */
  function Sniff(data: seq<byte>): (f: Format)
    ensures f == Bin || HasMagic(data, f)
    ensures forall g :: HasMagic(data, g) ==> Rank(f) <= Rank(g)
    ensures f == Bin <==> forall g :: !HasMagic(data, g)
  {
    if StartsWith(data, PngSignature) then Png
    else if StartsWith(data, JpegSoi) then Jpg
    else if StartsWith(data, Gif87a) || StartsWith(data, Gif89a) then Gif
    else if StartsWith(data, BmpMagic) then Bmp
    else if StartsWith(data, IcoMagic) then Ico
    else Bin
  }

  /** Reference table: does `data` begin with a magic number of format `f`? */
  predicate HasMagic(data: seq<byte>, f: Format) {
    match f
    case Png => StartsWith(data, PngSignature)
    case Jpg => StartsWith(data, JpegSoi)
    case Gif => StartsWith(data, Gif87a) || StartsWith(data, Gif89a)
    case Bmp => StartsWith(data, BmpMagic)
    case Ico => StartsWith(data, IcoMagic)
    case Bin => false
  }

  /** The position of a format in the order the magic numbers are tried. */
  function Rank(f: Format): nat {
    match f
    case Png => 0
    case Jpg => 1
    case Gif => 2
    case Bmp => 3
    case Ico => 4
    case Bin => 5
  }

  /**
   * The five magic numbers begin with five different bytes, so at most one
   * format matches and the order of the tests never decides the outcome.
   */
  lemma MagicExclusive(data: seq<byte>, f: Format, g: Format)
    requires HasMagic(data, f) && HasMagic(data, g)
    ensures f == g
  {
    assert data[0] == data[0..1][0];
  }

  /** Sniff(data) is a format other than Bin exactly when data carries that format's magic. */
  lemma SniffIff(data: seq<byte>, f: Format)
    requires f != Bin
    ensures Sniff(data) == f <==> HasMagic(data, f)
  {
    if HasMagic(data, f) && Sniff(data) != Bin {
      MagicExclusive(data, f, Sniff(data));
    }
  }

  /** What the converter keeps of a decoded icon blob, and the format it records. */
  datatype Extracted = Extracted(image: seq<byte>, format: Format)

  /**
   * The image cut from a decoded blob: from the first PNG signature through the
   * first IEND chunk after it; to the end of the blob when there is no IEND;
   * the whole blob, tagged Bin, when there is no signature. The format is
   * therefore Png or Bin, never one of the others.
   */
  function Excise(data: seq<byte>): (x: Extracted)
    ensures x.format == Png || x.format == Bin
    ensures x.format == Png <==> exists j :: MatchAt(data, PngSignature, j)
    ensures x.format == Png ==> StartsWith(x.image, PngSignature)
    ensures x.format == Bin ==> x.image == data
    ensures |x.image| <= |data|
  {
    match IndexOf(data, PngSignature, 0)
    case None => Extracted(data, Bin)
    case Some(s) =>
      match IndexOf(data, IendChunk, s)
      case Some(e) => Extracted(data[s..e + |IendChunk|], Sniff(data[s..e + |IendChunk|]))
      case None => Extracted(data[s..], Sniff(data[s..]))
  }

  /** The two searches and the slicing done for one segment's icon. */
  method ExtractIcon(data: seq<byte>) returns (image: seq<byte>, format: Format)
    ensures Extracted(image, format) == Excise(data)
  {
    var start := Find(data, PngSignature, 0);
    if start.Some? {
      var end := Find(data, IendChunk, start.value);
      if end.Some? {
        image := data[start.value..end.value + |IendChunk|];
      } else {
        image := data[start.value..];
      }
      format := Sniff(image);
    } else {
      image := data;
      format := Bin;
    }
  }

  /** An IEND chunk cannot begin inside a PNG signature: the signature has no zero byte. */
  lemma IendAfterSignature(data: seq<byte>, s: nat, e: nat)
    requires MatchAt(data, PngSignature, s) && MatchAt(data, IendChunk, e) && s <= e
    ensures s + |PngSignature| <= e
  {
    assert data[e] == 0 by {
      assert data[e..e + |IendChunk|][0] == data[e];
    }
    forall k | s <= k < s + |PngSignature|
      ensures data[k] != 0
    {
      assert data[s..s + |PngSignature|][k - s] == data[k];
    }
  }

  /**
   * Signature at s (its first occurrence) and IEND at e (its first occurrence
   * from s on): the image is exactly data[s .. e+12], at least 20 bytes long,
   * beginning with the signature and ending with the IEND chunk, tagged Png.
   */
  lemma ExciseTerminated(data: seq<byte>, s: nat, e: nat)
    requires MatchAt(data, PngSignature, s)
    requires forall j :: 0 <= j < s ==> !MatchAt(data, PngSignature, j)
    requires s <= e && MatchAt(data, IendChunk, e)
    requires forall j :: s <= j < e ==> !MatchAt(data, IendChunk, j)
    ensures Excise(data) == Extracted(data[s..e + 12], Png)
    ensures |data[s..e + 12]| >= 20
    ensures StartsWith(data[s..e + 12], PngSignature)
    ensures data[s..e + 12][|data[s..e + 12]| - 12..] == IendChunk
  {
    IendAfterSignature(data, s, e);
    var image := data[s..e + 12];
    assert image[0..8] == data[s..s + 8];
    assert image[|image| - 12..] == data[e..e + 12];
  }

  /**
   * Signature first at s and no IEND chunk from s on: the image is the rest
   * of the blob from s, tagged Png.
   */
  lemma ExciseUnterminated(data: seq<byte>, s: nat)
    requires MatchAt(data, PngSignature, s)
    requires forall j :: 0 <= j < s ==> !MatchAt(data, PngSignature, j)
    requires forall j :: s <= j ==> !MatchAt(data, IendChunk, j)
    ensures Excise(data) == Extracted(data[s..], Png)
    ensures StartsWith(data[s..], PngSignature)
  {
  }

  /** No PNG signature anywhere: the blob passes through whole, tagged Bin. */
  lemma ExciseNoSignature(data: seq<byte>)
    requires forall j :: !MatchAt(data, PngSignature, j)
    ensures Excise(data) == Extracted(data, Bin)
  {
  }

  /**
   * A blob made of a wrapper header, a PNG stream and trailing bytes: the
   * image kept is the PNG stream alone, provided the header holds no signature
   * and the stream holds no IEND chunk before its last 12 bytes.
   */
  lemma ExciseStripsWrapper(header: seq<byte>, body: seq<byte>, trailer: seq<byte>)
    requires forall j :: 0 <= j < |header| ==> !MatchAt(header + PngSignature, PngSignature, j)
    requires forall j :: 0 <= j < |PngSignature| + |body| ==> !MatchAt(PngSignature + body + IendChunk, IendChunk, j)
    ensures Excise(header + PngSignature + body + IendChunk + trailer) == Extracted(PngSignature + body + IendChunk, Png)
  {
    var png := PngSignature + body + IendChunk;
    assert header + PngSignature + body + IendChunk + trailer == (header + png) + trailer;
    WrappedStream(header, png, trailer, |PngSignature| + |body|);
  }

  /** ExciseStripsWrapper, for any stream `png` whose IEND chunk starts at offset `end`. */
  lemma WrappedStream(header: seq<byte>, png: seq<byte>, trailer: seq<byte>, end: nat)
    requires StartsWith(png, PngSignature)
    requires forall j :: 0 <= j < |header| ==> !MatchAt(header + PngSignature, PngSignature, j)
    requires end + |IendChunk| == |png| && MatchAt(png, IendChunk, end)
    requires forall j :: 0 <= j < end ==> !MatchAt(png, IendChunk, j)
    ensures Excise((header + png) + trailer) == Extracted(png, Png)
  {
    var front := header + png;
    var data := front + trailer;
    var s := |header|;
    var e := s + end;
    assert data[..|front|] == front;
    assert front[..s + 8] == header + png[..8] == header + PngSignature;
    assert front[s..|front|] == png;
    forall j | 0 <= j < s
      ensures !MatchAt(data, PngSignature, j)
    {
      MatchWithin(front, PngSignature, 0, s + 8, j);
      MatchWithin(data, PngSignature, 0, |front|, j);
    }
    forall j | s <= j < e
      ensures !MatchAt(data, IendChunk, j)
    {
      MatchWithin(front, IendChunk, s, |front|, j);
      MatchWithin(data, IendChunk, 0, |front|, j);
    }
    MatchWithin(front, PngSignature, s, |front|, s);
    MatchWithin(data, PngSignature, 0, |front|, s);
    MatchWithin(front, IendChunk, s, |front|, e);
    MatchWithin(data, IendChunk, 0, |front|, e);
    ExciseTerminated(data, s, e);
    assert data[s..e + 12] == png;
  }
}
