/**
 * The conversion of a parsed split file: layout settings, one split record
 * per segment with its icon cut out of the decoded Icon text, the start
 * offset in milliseconds, and the assembled result.
 *
 * Base64 decoding is the parameter `decode`; None stands for the
 * `binascii.Error` it raises on malformed ASCII text, which the converter
 * reports and survives. Text with a non-ASCII character makes the decoder
 * raise a plain ValueError instead, which is not caught.
 */
module Converter {
  import opened Wrappers
  import opened Bytes
  import opened ImageFormat
  import opened FileNames
  import opened TimeParse
  import opened SplitFile
  import opened LayoutSettings

  /** Text the base64 decoder accepts as input: ASCII characters only. */
  predicate AsciiText(s: string) {
    forall i :: 0 <= i < |s| ==> s[i] as int < 128
  }

  /** Whether a segment has Icon text at all (an Icon element with text). */
  predicate HasIconText(seg: SegmentElement) {
    seg.icon.Some? && seg.icon.value != ""
  }

  /**
   * The decoded bytes of a segment's icon: None when there is no Icon text or
   * it is ASCII text that does not decode.
   */
  function DecodedIcon(seg: SegmentElement, decode: string -> Option<seq<byte>>): Option<seq<byte>> {
    if HasIconText(seg) && AsciiText(seg.icon.value) then decode(seg.icon.value) else None
  }

  /**
   * A segment whose icon aborts the conversion: its Icon text holds a
   * non-ASCII character, or it decodes and the segment's Name has no text, so
   * building the file name fails.
   */
  predicate IconAborts(seg: SegmentElement, decode: string -> Option<seq<byte>>) {
    HasIconText(seg) && (!AsciiText(seg.icon.value) || (decode(seg.icon.value).Some? && seg.name == ""))
  }

  predicate SomeIconAborts(segs: seq<SegmentElement>, decode: string -> Option<seq<byte>>) {
    exists k :: 0 <= k < |segs| && IconAborts(segs[k], decode)
  }

  /** The icon entry a segment contributes, if any. */
  function IconOf(seg: SegmentElement, decode: string -> Option<seq<byte>>): Option<IconEntry> {
    match DecodedIcon(seg, decode)
    case None => None
    case Some(data) =>
      var x := Excise(data);
      Some(IconEntry(IconPath(seg.name, x.format), x.image))
  }

  function IconPathOf(entry: Option<IconEntry>): Option<string> {
    match entry
    case None => None
    case Some(e) => Some(e.path)
  }

  /** The split record of one segment. */
  function RecordOf(seg: SegmentElement, decode: string -> Option<seq<byte>>): SplitRecord {
    SplitRecord(seg.name, None, None, None, IconPathOf(IconOf(seg, decode)))
  }

  /** The records of the segments, in order. */
  function Records(segs: seq<SegmentElement>, decode: string -> Option<seq<byte>>): (records: seq<SplitRecord>)
    ensures |records| == |segs|
  {
    if segs == [] then []
    else Records(segs[..|segs| - 1], decode) + [RecordOf(segs[|segs| - 1], decode)]
  }

  /** The icon entries of the segments, in order, one per segment that has an icon. */
  function Icons(segs: seq<SegmentElement>, decode: string -> Option<seq<byte>>): (icons: seq<IconEntry>)
    ensures |icons| <= |segs|
  {
    if segs == [] then []
    else
      var last := IconOf(segs[|segs| - 1], decode);
      Icons(segs[..|segs| - 1], decode) + (if last.Some? then [last.value] else [])
  }

  /**
   * `convert_lss_to_json` on a parsed document: it fails exactly when a
   * setting, a segment's icon (non-ASCII text, or decoded for a nameless
   * segment) or the offset cannot be processed, and
   * otherwise returns the records and icons of the segments together with the
   * header fields, the settings and the offset in milliseconds.
   */
  method ConvertSplitFile(doc: Document, decode: string -> Option<seq<byte>>) returns (r: Result<Conversion, ConvError>)
    ensures r.Failure? <==>
      SettingsOf(doc.layout).Failure? || SomeIconAborts(doc.segments, decode) || SignedTimeToMs(doc.offset).None?
    ensures r.Success? ==>
      var settings := SettingsOf(doc.layout).value;
      r.value == Conversion(
        MainData(doc.gameName, doc.categoryName, Records(doc.segments, decode), SignedTimeToMs(doc.offset).value,
          settings.splitsPerPage, settings.autoUpdatePB, settings.goldSplit),
        Icons(doc.segments, decode))
  {
    var settings :- ReadSettings(doc.layout);
    var segs := doc.segments;
    var splits: seq<SplitRecord> := [];
    var icons: seq<IconEntry> := [];
    var i := 0;
    while i < |segs|
      invariant 0 <= i <= |segs|
      invariant splits == Records(segs[..i], decode)
      invariant icons == Icons(segs[..i], decode)
      invariant !SomeIconAborts(segs[..i], decode)
    {
      var seg := segs[i];
      var iconPath: Option<string> := None;
      if seg.icon.Some? && seg.icon.value != "" {
        if !AsciiText(seg.icon.value) {
          assert IconAborts(segs[i], decode);
          return Failure(NonAsciiText("Icon", seg.icon.value));
        }
        var decoded := decode(seg.icon.value);
        if decoded.Some? {
          if seg.name == "" {
            assert IconAborts(segs[i], decode);
            return Failure(MissingText("Name"));
          }
          var image, format := ExtractIcon(decoded.value);
          var path := IconPath(seg.name, format);
          icons := icons + [IconEntry(path, image)];
          iconPath := Some(path);
        }
      }
      splits := splits + [SplitRecord(seg.name, None, None, None, iconPath)];
      assert !IconAborts(segs[i], decode);
      AbortsExtend(segs, i, decode);
      i := i + 1;
    }
    assert segs[..i] == segs;
    var offset := SignedTimeToMs(doc.offset);
    if offset.None? {
      return Failure(InvalidInteger("Offset", doc.offset));
    }
    r := Success(Conversion(
      MainData(doc.gameName, doc.categoryName, splits, offset.value,
        settings.splitsPerPage, settings.autoUpdatePB, settings.goldSplit),
      icons));
  }

  /** Extending a prefix by one segment adds that segment's abort, record and icon. */
  lemma AbortsExtend(segs: seq<SegmentElement>, i: nat, decode: string -> Option<seq<byte>>)
    requires i < |segs|
    ensures SomeIconAborts(segs[..i + 1], decode) <==> SomeIconAborts(segs[..i], decode) || IconAborts(segs[i], decode)
    ensures Records(segs[..i + 1], decode) == Records(segs[..i], decode) + [RecordOf(segs[i], decode)]
    ensures Icons(segs[..i + 1], decode) == Icons(segs[..i], decode) + (if IconOf(segs[i], decode).Some? then [IconOf(segs[i], decode).value] else [])
  {
    assert segs[..i + 1][..i] == segs[..i];
    assert segs[..i + 1][i] == segs[i];
  }

  /**
   * `splits` has one record per segment, in segment order: the k-th record
   * carries the k-th segment's name, null times, and a non-null icon path
   * exactly when that segment contributes an icon entry, equal to its path.
   */
  lemma {:induction false} RecordsMatchSegments(segs: seq<SegmentElement>, decode: string -> Option<seq<byte>>)
    ensures |Records(segs, decode)| == |segs|
    ensures forall k :: 0 <= k < |segs| ==> Records(segs, decode)[k] == RecordOf(segs[k], decode)
    ensures forall k :: 0 <= k < |segs| ==>
      var rec := Records(segs, decode)[k];
      && rec.name == segs[k].name
      && rec.pbTime.None? && rec.lastTime.None? && rec.goldTime.None?
      && (rec.iconPath.Some? <==> IconOf(segs[k], decode).Some?)
      && (rec.iconPath.Some? ==> rec.iconPath.value == IconOf(segs[k], decode).value.path)
  {
    if segs != [] {
      var init := segs[..|segs| - 1];
      RecordsMatchSegments(init, decode);
      assert forall k :: 0 <= k < |init| ==> init[k] == segs[k];
    }
  }

  /** Icons of a concatenation are the icons of the parts, in order. */
  lemma {:induction false} IconsConcat(a: seq<SegmentElement>, b: seq<SegmentElement>, decode: string -> Option<seq<byte>>)
    ensures Icons(a + b, decode) == Icons(a, decode) + Icons(b, decode)
    decreases |b|
  {
    if b == [] {
      assert a + b == a;
    } else {
      var ab := a + b;
      assert ab[..|ab| - 1] == a + b[..|b| - 1];
      assert ab[|ab| - 1] == b[|b| - 1];
      IconsConcat(a, b[..|b| - 1], decode);
    }
  }

  /** The non-null icon paths of a sequence of records, in order. */
  function PresentPaths(records: seq<SplitRecord>): seq<string> {
    if records == [] then []
    else
      var last := records[|records| - 1];
      PresentPaths(records[..|records| - 1]) + (if last.iconPath.Some? then [last.iconPath.value] else [])
  }

  function EntryPaths(icons: seq<IconEntry>): seq<string> {
    seq(|icons|, i requires 0 <= i < |icons| => icons[i].path)
  }

  /**
   * Read in order, the non-null `icon_path` values of `splits` are exactly the
   * paths of the icon entries: each icon entry belongs to the record that
   * names it.
   */
  lemma {:induction false} IconPathsAgree(segs: seq<SegmentElement>, decode: string -> Option<seq<byte>>)
    ensures PresentPaths(Records(segs, decode)) == EntryPaths(Icons(segs, decode))
  {
    if segs != [] {
      var init := segs[..|segs| - 1];
      IconPathsAgree(init, decode);
      var recs := Records(segs, decode);
      assert recs[..|recs| - 1] == Records(init, decode);
    }
  }

  /**
   * A segment whose ASCII Icon text does not decode (the caught
   * `binascii.Error`) does not stop the conversion: it gets a null icon path,
   * and every other segment's record is unchanged.
   */
  lemma DecodeFailureRecords(segs: seq<SegmentElement>, k: nat, text: string, decode: string -> Option<seq<byte>>)
    requires k < |segs| && AsciiText(text) && text != "" && decode(text).None?
    ensures !IconAborts(SegmentElement(segs[k].name, Some(text)), decode)
    ensures var failed := segs[k := SegmentElement(segs[k].name, Some(text))];
      Records(failed, decode) == Records(segs, decode)[k := SplitRecord(segs[k].name, None, None, None, None)]
  {
    var failed := segs[k := SegmentElement(segs[k].name, Some(text))];
    RecordsMatchSegments(segs, decode);
    RecordsMatchSegments(failed, decode);
  }

  /**
   * ... and it adds no icon entry: the entries are those of the segments
   * before it followed by those of the segments after it.
   */
  lemma DecodeFailureIcons(segs: seq<SegmentElement>, k: nat, text: string, decode: string -> Option<seq<byte>>)
    requires k < |segs| && AsciiText(text) && text != "" && decode(text).None?
    ensures !IconAborts(SegmentElement(segs[k].name, Some(text)), decode)
    ensures var failed := segs[k := SegmentElement(segs[k].name, Some(text))];
      Icons(failed, decode) == Icons(segs[..k], decode) + Icons(segs[k + 1..], decode)
  {
    var failed := segs[k := SegmentElement(segs[k].name, Some(text))];
    var one := [failed[k]];
    assert failed == segs[..k] + one + segs[k + 1..];
    IconsConcat(segs[..k] + one, segs[k + 1..], decode);
    IconsConcat(segs[..k], one, decode);
    assert one[..0] == [];
    assert Icons(one, decode) == [];
  }

  /**
   * A segment's icon entry is named after the segment with extension png, its
   * bytes starting with the PNG signature, when the decoded icon holds a PNG
   * signature; otherwise extension bin, its bytes the decoded icon unchanged.
   */
  lemma IconOfPngOrBin(seg: SegmentElement, decode: string -> Option<seq<byte>>)
    requires IconOf(seg, decode).Some?
    ensures var data := DecodedIcon(seg, decode).value;
      var e := IconOf(seg, decode).value;
      if exists j :: MatchAt(data, PngSignature, j) then
        e.path == IconPath(seg.name, Png) && StartsWith(e.data, PngSignature)
      else
        e.path == IconPath(seg.name, Bin) && e.data == data
  {
  }
}
