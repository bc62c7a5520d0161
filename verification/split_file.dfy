/**
 * The split file as the converter reads it, and the result it hands back.
 * Element text is a string; the empty string stands for an element that has
 * no text (the XML reader's None).
 */
module SplitFile {
  import opened Wrappers
  import opened Bytes

  /** Layout/Settings: the text of each setting element, None when the element is absent. */
  datatype SettingsElement = SettingsElement(
    splitsPerPage: Option<string>,
    autoUpdatePB: Option<string>,
    goldSplit: Option<string>)

  datatype LayoutElement = LayoutElement(settings: Option<SettingsElement>)

  /** A segment: its Name text and, when the Icon element is present, its base64 text. */
  datatype SegmentElement = SegmentElement(name: string, icon: Option<string>)

  /** The root: GameName, CategoryName, Offset and Segments are required, Layout is optional. */
  datatype Document = Document(
    gameName: string,
    categoryName: string,
    offset: string,
    layout: Option<LayoutElement>,
    segments: seq<SegmentElement>)

  /** One entry of `splits`; the three times are placeholders and always null. */
  datatype SplitRecord = SplitRecord(
    name: string,
    pbTime: Option<int>,
    lastTime: Option<int>,
    goldTime: Option<int>,
    iconPath: Option<string>)

  /** An icon file to be written by the caller: its relative path and its bytes. */
  datatype IconEntry = IconEntry(path: string, data: seq<byte>)

  datatype MainData = MainData(
    title: string,
    category: string,
    splits: seq<SplitRecord>,
    startOffset: int,
    splitsPerPage: int,
    autoUpdatePB: bool,
    goldSplit: bool)

  datatype Conversion = Conversion(mainData: MainData, icons: seq<IconEntry>)

  /**
   * Why a conversion aborts: text that Python's `int` rejects, an element
   * whose missing text is used as a string, or icon text with a non-ASCII
   * character, which the base64 decoder rejects with an uncaught ValueError.
   */
  datatype ConvError =
    | InvalidInteger(element: string, text: string)
    | MissingText(element: string)
    | NonAsciiText(element: string, text: string)
}
