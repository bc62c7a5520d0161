# LiveSplit split-file converter, modelled in Dafny

`convert_lss_to_json` reads a LiveSplit split file (`.lss`). This is an XML document with the game and
category names, a start offset, optional layout settings and an ordered list of segments. Each segment
may carry a base64 icon. The function returns two things:

- a JSON-ready record: title, category, one split per segment, the start offset in milliseconds, and three
  layout settings;
- a list of icon files, each a relative path under `icons/` plus the raw image bytes.

This project models that conversion once the XML tree has been read:

- the default-then-overwrite reading of the layout settings (`LayoutSettings`);
- the segment loop, which decodes each icon and cuts the embedded PNG stream out of the decoded bytes
  (`Bytes`, `ImageFormat`);
- format sniffing by magic bytes (`ImageFormat`);
- building a sanitised file name (`FileNames`, `Ascii`);
- Python's `int` on text (`IntParse`);
- parsing the `H:MM:SS[.fff]` offset into milliseconds (`TimeParse`);
- assembling the result (`Converter`, over the datatypes of `SplitFile`).

The PNG signature and the 12-byte IEND chunk (zero length, `IEND`, CRC `AE 42 60 82`) are those of the PNG
Specification (ISO/IEC 15948, 2nd edition): section 5.2 for the signature and section 11.2.5 for IEND.

Modelling choices:

- **Parsed input.** The XML tree is the `Document` datatype. The required elements (GameName,
  CategoryName, Offset, Segments, a segment's Name) are fields, so their presence is a precondition by type.
  The optional elements (Layout, Settings, each setting, Icon) are `Option`s.
- **Element text.** Text is a `string`. The empty string stands for an element with no text, which the
  XML reader reports as `None`. The model follows that `None` wherever the code uses it:
  - An empty offset gives 0 ms.
  - An empty SplitsPerPage fails in `int`.
  - An empty AutoUpdatePB or GoldSplit has no `lower()`, so the conversion aborts. The flag is not read as
    `false`.
  - A segment with an empty Name and a decodable icon aborts the conversion when its file name is built.
  - An empty title, category or segment name stands for JSON `null` in the output.
- **Aborting errors.** Errors the code does not catch are the `ConvError` of a `Failure` result.
  `ConvertSplitFile` fails exactly when one of them occurs. The icon `except` catches only
  `binascii.Error` (and `IOError`):
  - Malformed ASCII icon text raises `binascii.Error`. That segment gets no icon and the conversion goes on.
  - Icon text with a non-ASCII character makes the decoder raise a plain `ValueError`. The `except` does
    not catch it, so the conversion aborts (`NonAsciiText`).
- **Base64 decoding.** It is the parameter `decode: string -> Option<seq<byte>>`, applied to ASCII text
  only. `None` stands for the `binascii.Error`.
- **Offset sign.** The code applies a leading `-` to the hours field only. The conversion uses the
  corrected reading `SignedTimeToMs`, where the sign applies to the whole duration; `TimeToMs` keeps the
  code as written (see "## Findings").
- **`bytes.find`.** It is the recursive function `IndexOf`, which states the first-occurrence property,
  and the search loop `Find`, which is proved equal to it.

## Model

| member | source | states |
|---|---|---|
| Bytes.IndexOf | converter.py:88 | the index reported is the first position at or after the start where the pattern occurs; None means it occurs nowhere from there on |
| Bytes.Find | converter.py:93 | the scan loop of `find` returns the first occurrence at or after the start, or None when there is none, and agrees with IndexOf |
| ImageFormat.Sniff | converter.py:61-74 | detection returns a format whose magic number begins the data, never one ranked after another matching format (png, jpg, gif, bmp, ico), and bin exactly when no magic number matches; SniffIff and MagicExclusive state the per-format equivalence and exclusivity |
| ImageFormat.MagicExclusive | converter.py:61-74 | at most one format's magic number can begin any byte string, since the five start with different bytes |
| ImageFormat.SniffIff | converter.py:61-74 | for each format other than bin: detection yields that format if and only if the data begins with its magic number |
| ImageFormat.ExtractIcon | converter.py:86-106 | the two searches and the slicing produce exactly the excised image and its format |
| ImageFormat.IendAfterSignature | converter.py:93 | an IEND chunk found from the signature onward begins after the 8 signature bytes (the signature has no zero byte) |
| ImageFormat.ExciseTerminated | converter.py:95-98 | with the first signature at s and the first IEND from s at e, the image is exactly data[s..e+12], at least 20 bytes, starting with the signature, ending with the IEND chunk, format png |
| ImageFormat.ExciseUnterminated | converter.py:99-102 | with a signature at s and no IEND from s on, the image is data[s..], starting with the signature, format png |
| ImageFormat.ExciseNoSignature | converter.py:103-106 | with no signature anywhere, the whole decoded buffer passes through unchanged, format bin |
| ImageFormat.Excise | converter.py:86-106 | the excised image is no longer than the decoded buffer; its format is png or bin, never jpg, gif, bmp or ico; png exactly when the buffer holds a signature, and then the image starts with it; bin leaves the buffer unchanged. ExciseTerminated, ExciseUnterminated and ExciseNoSignature give the exact slices |
| ImageFormat.ExciseStripsWrapper | converter.py:86-98 | for header + PNG stream + trailer (no signature in the header, no early IEND), the image kept is the PNG stream alone, without the header or the trailer |
| ImageFormat.WrappedStream | converter.py:86-98 | the same for any stream starting with the signature and ending with its first IEND chunk |
| FileNames.KeepAllowed | converter.py:17 | the filtered name is no longer than the name and holds only letters, digits, spaces and underscores |
| FileNames.TrimTrailingSpaces | converter.py:17 | the trimmed string is a prefix of the input, does not end in a space, and only spaces were removed |
| FileNames.KeepAllowedDrops | converter.py:17 | a character other than a letter, digit, space or underscore is dropped |
| FileNames.KeepAllowedConcat | converter.py:17 | filtering distributes over concatenation, so the kept characters stay in their original order |
| FileNames.KeepAllowedFixes | converter.py:17 | a name made only of kept characters is left unchanged |
| FileNames.Sanitize | converter.py:15-17 | the sanitised name holds only letters, digits, spaces and underscores, has no trailing space, and is the filtered name less a run of trailing spaces; SanitizeIdempotent and SanitizeExample build on it |
| FileNames.SanitizeIdempotent | converter.py:17 | sanitising a sanitised name changes nothing |
| FileNames.IconPath | converter.py:107-111 | the path starts with "icons/" and ends with "." plus the extension; between them lies the stem: character i is character i of the sanitised name with a space turned into '_' and then lower-cased, so the stem holds only lower-case letters, digits and underscores; no space or '/' follows the prefix |
| FileNames.SanitizeExample | converter.py:17 | "Boss Fight! #2" sanitises to "Boss Fight 2" |
| FileNames.IconPathExample | converter.py:107-111 | the PNG icon of "Boss Fight! #2" is saved as icons/boss_fight_2.png |
| Ascii.LowerChar | converter.py:52 | an upper-case ASCII letter moves 32 code points to its lower-case letter; every other character is unchanged |
| Ascii.Lower | converter.py:52 | lower-casing keeps the length, maps each upper-case ASCII letter to its lower-case letter and leaves every other character unchanged |
| Ascii.LowerIsTrue | converter.py:52 | a text lower-cases to "true" exactly when it has four characters, each the letter of "true" in either case |
| TimeParse.Split | converter.py:133 | splitting always yields at least one piece |
| TimeParse.SplitJoin | converter.py:133 | joining the pieces of a split with the separator gives back the string, and no piece contains the separator |
| TimeParse.JoinSplit | converter.py:133 | splitting a join of separator-free pieces gives back the pieces |
| TimeParse.SplitCount | converter.py:133-134 | a split has one more piece than the string has separators |
| TimeParse.SplitWhole | converter.py:138 | a string without the separator splits into itself alone |
| TimeParse.SplitHead | converter.py:133 | a separator-free head followed by the separator is the first piece of the split |
| IntParse.ParseInt | converter.py:140-149 | `int` succeeds exactly on one or more digits with an optional leading '+' or '-'; the value is the decimal value of the digits, negated after '-' |
| TimeParse.ThreeDigits | converter.py:149 | a three-digit string is worth 100, 10 and 1 times its digits |
| TimeParse.MillisecondsOfDigits | converter.py:144-149 | a digit fraction gives its first three digits as milliseconds, missing digits counting zero, always within [0, 999] |
| TimeParse.MillisecondsExamples | converter.py:148-149 | "5" and "50" give 500 ms, "1234" gives 123 ms (padding, then truncation) |
| TimeParse.TimeToMs | converter.py:128-151 | an offset with other than exactly two colons, the empty one included, is 0 ms; TimeToMsWhole and TimeToMsFraction give the value of the three-field form when `int` accepts its fields, and TimeToMsRejects gives the error when it rejects one |
| TimeParse.SplitClock | converter.py:133 | "h:m:x" with colon-free fields splits into exactly [h, m, x] |
| TimeParse.TimeToMsWhole | converter.py:138-151 | H:M:S with colon-free fields that `int` accepts (signs included) and a seconds field without '.' is (H*3600 + M*60 + S)*1000 ms |
| TimeParse.TimeToMsFraction | converter.py:138-151 | H:M:S.F with such fields and a fraction without ':' or '.' is (H*3600 + M*60 + S)*1000 plus the milliseconds of the padded, truncated fraction, and an error when those are not an integer |
| TimeParse.TimeToMsRejects | converter.py:138-142 | three colon-free fields of which the hours, the minutes or the seconds before any '.' are not an integer make the offset an error (the uncaught `int` ValueError) |
| TimeParse.TimeToMsExample | converter.py:128-151 | "01:02:03.456" is 3,723,456 ms |
| TimeParse.TimeToMsShortExamples | converter.py:128-151 | "00:00:00" is 0 ms, "00:00:00.5" is 500 ms, "1:00:00" is 3,600,000 ms |
| TimeParse.TimeToMsMalformed | converter.py:133-142 | "abc" is 0 ms; "a:b:c" raises the `int` error (None) |
| TimeParse.NegativeOffsetLosesSign | converter.py:133-151 | as written, "-00:00:05" reads as +5,000 ms: the '-' negates only the zero hours |
| TimeParse.SignedTimeToMs | converter.py:128-151 | the corrected reading agrees with the code on every offset not starting with '-' |
| TimeParse.SignedTimeToMsNegates | converter.py:128-151 | with the corrected reading, "-" followed by H:M:S is minus (H*3600 + M*60 + S)*1000 ms |
| TimeParse.SignedOffsetExample | converter.py:128-151 | with the corrected reading, "-00:00:05" is -5,000 ms |
| LayoutSettings.ReadSettings | converter.py:37-56 | the default-then-overwrite assignments yield exactly the per-element settings, including their failures |
| LayoutSettings.SettingsDefaults | converter.py:38-45 | without Layout or without Settings the settings are 5, true, true |
| LayoutSettings.SettingsOf | converter.py:37-56 | reading fails exactly when SplitsPerPage is present and not an integer, or a flag element has no text; otherwise each setting depends only on its own element: the default when it is absent, else its parsed value; a flag is true exactly when absent or its lower-cased text is "true" |
| LayoutSettings.FlagExamples | converter.py:52 | "TRUE" and "True" read as true; "yes" and " true" do not |
| Converter.Records | converter.py:76-126 | there is one split record per segment |
| Converter.ConvertSplitFile | converter.py:8-164 | the conversion fails exactly when a setting cannot be read, a segment's icon text has a non-ASCII character, a nameless segment's icon decodes, or the offset cannot be read (with the corrected sign); otherwise it returns the header fields, the records and icons of the segments in order, the offset in ms and the settings |
| Converter.RecordsMatchSegments | converter.py:76-126 | the k-th record is the k-th segment's: same name, all three times null, icon path non-null exactly when the segment contributes an icon entry, and then equal to that entry's path |
| Converter.IconsConcat | converter.py:113 | the icon entries of a concatenation of segment lists are those of the parts, in order |
| Converter.Icons | converter.py:113 | there are never more icon entries than segments; IconsConcat and IconPathsAgree relate the entries to the segments and records |
| Converter.IconPathsAgree | converter.py:113-126 | in order, the non-null icon paths of the splits are exactly the paths of the icon entries |
| Converter.DecodeFailureRecords | converter.py:116-117 | a segment whose ASCII icon text fails to decode (the caught `binascii.Error`) does not abort the conversion; it gets a null icon path, and every other record is unchanged |
| Converter.DecodeFailureIcons | converter.py:116-117 | such a segment does not abort the conversion and adds no icon entry: the entries are those of the segments before it followed by those after it |
| Converter.IconOfPngOrBin | converter.py:97-115 | a segment's icon entry is named after it with extension png, with bytes starting with the PNG signature, when the decoded icon holds a signature; otherwise with extension bin and the decoded bytes unchanged |

## Findings

| source | as written | input that shows it | evidently intended | confidence | as-written member | corrected member |
|---|---|---|---|---|---|---|
| converter.py:140-151 | the sign of a negative offset is parsed with the hours field alone, so it negates only the hours | Offset "-00:00:05" gives start_offset 5000 (TimeToMs) | a negative offset is the negated duration, -5000 | likely; not executed | TimeParse.NegativeOffsetLosesSign | TimeParse.SignedTimeToMsNegates |

## Left out

- XML parsing and its file-level errors (a missing file, a parse error) are left out, and so are the
  messages printed for them. The model starts from the parsed `Document`.
- A missing required element (GameName, CategoryName, Offset, Segments or a segment's Name) makes the code
  fail on a `None` attribute access. In the model these elements are fields, so every input has them.
- Base64 decoding is the `decode` parameter. Python's lenient decoder, which discards characters outside
  the alphabet, is not modelled.
- Python `int()` is modelled on an optional sign followed by ASCII digits. It also accepts surrounding
  whitespace, underscores between digits and non-ASCII digits; those inputs count as errors here.
- `isalpha`, `isdigit` and `lower` are modelled on ASCII only. The source also keeps non-ASCII letters and
  digits in file names and lower-cases them; the model drops them.
- The `print` of a base64 failure, the `__main__` command line with `json.dumps`, and the unused
  `file_name` are left out. They are output or dead code.
- The `IOError` branch of the icon `except` is left out. No input or output happens between decoding and
  appending the entry.
- main.py (window, file dialog, subprocess, config directory, file writes) is not part of this model.
  It is user interface and input/output.
- Running the conversion twice gives the same result because every member is a function of its inputs.
  No lemma states this separately.
- Converter.ConvertSplitFile: on offsets starting with '-', start_offset and the failure condition follow
  the corrected reading SignedTimeToMs rather than the code (see "## Findings"). "-00:00:05" gives -5000
  where the code gives 5000. "--1:00:00" and "-+1:00:00" give 3600000 and -3600000 where the code
  aborts in `int`. On every other offset the two agree (SignedTimeToMs).
- Two segments whose names sanitise alike get the same icon path. This collision is modelled as the code
  has it, without any disambiguation.
