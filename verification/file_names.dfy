/**
 * Icon file names: the segment name reduced to letters, digits, spaces and
 * underscores, trailing spaces removed, spaces turned into underscores,
 * lower-cased, under the `icons/` directory with the format as extension.
 * Letters and digits are the ASCII ones.
 */
module FileNames {
  import opened Ascii
  import opened ImageFormat

  /** The characters the sanitiser keeps. */
  predicate Kept(c: char) {
    IsLetter(c) || IsDigit(c) || c == ' ' || c == '_'
  }

  /** The kept characters of `s`, in their original order. */
  function KeepAllowed(s: string): (r: string)
    ensures |r| <= |s|
    ensures forall i :: 0 <= i < |r| ==> Kept(r[i])
  {
    if s == [] then []
    else (if Kept(s[0]) then [s[0]] else []) + KeepAllowed(s[1..])
  }

  /** `s` without its trailing spaces. */
  function TrimTrailingSpaces(s: string): (r: string)
    ensures r <= s
    ensures r == [] || r[|r| - 1] != ' '
    ensures forall i :: |r| <= i < |s| ==> s[i] == ' '
  {
    if s != [] && s[|s| - 1] == ' ' then TrimTrailingSpaces(s[..|s| - 1]) else s
  }

  /**
   * The sanitised segment name: only letters, digits, spaces and
   * underscores, no trailing space; the filtered name less a run of trailing
   * spaces.
   */
  function Sanitize(name: string): (r: string)
    ensures forall i :: 0 <= i < |r| ==> Kept(r[i])
    ensures r == [] || r[|r| - 1] != ' '
    ensures r <= KeepAllowed(name)
    ensures forall i :: |r| <= i < |KeepAllowed(name)| ==> KeepAllowed(name)[i] == ' '
  {
    TrimTrailingSpaces(KeepAllowed(name))
  }

  function SpacesToUnderscores(s: string): string {
    seq(|s|, i requires 0 <= i < |s| => if s[i] == ' ' then '_' else s[i])
  }

  const IconDir: string := "icons/"

  /**
   * The relative path an icon of segment `name` in format `f` is saved under:
   * "icons/", a stem as long as the sanitised name made of lower-case
   * letters, digits and underscores, then "." and the extension.
   */
  function IconPath(name: string, f: Format): (p: string)
    ensures |p| == |IconDir| + |Sanitize(name)| + 1 + |Ext(f)|
    ensures p[..|IconDir|] == IconDir
    ensures p[|p| - |Ext(f)| - 1..] == "." + Ext(f)
    ensures forall i :: |IconDir| <= i < |p| - |Ext(f)| - 1 ==> IsStemChar(p[i])
    ensures forall i :: |IconDir| <= i < |p| ==> p[i] != ' ' && p[i] != '/'
    ensures forall i :: 0 <= i < |Sanitize(name)| ==>
      p[|IconDir| + i] == LowerChar(if Sanitize(name)[i] == ' ' then '_' else Sanitize(name)[i])
  {
    IconDir + Lower(SpacesToUnderscores(Sanitize(name))) + "." + Ext(f)
  }

  /** Filtering distributes over concatenation: it keeps each kept character where it stands. */
  lemma {:induction false} KeepAllowedConcat(a: string, b: string)
    ensures KeepAllowed(a + b) == KeepAllowed(a) + KeepAllowed(b)
  {
    if a == [] {
      assert a + b == b;
    } else {
      assert (a + b)[0] == a[0];
      assert (a + b)[1..] == a[1..] + b;
      KeepAllowedConcat(a[1..], b);
    }
  }

  /** A character outside letters, digits, space and underscore is dropped. */
  lemma KeepAllowedDrops(c: char)
    requires !Kept(c)
    ensures KeepAllowed([c]) == []
  {
  }

  /** A string made only of kept characters is left as it is. */
  lemma {:induction false} KeepAllowedFixes(s: string)
    requires forall i :: 0 <= i < |s| ==> Kept(s[i])
    ensures KeepAllowed(s) == s
  {
    if s != [] {
      KeepAllowedFixes(s[1..]);
    }
  }

  /** Sanitising a sanitised name changes nothing. */
  lemma SanitizeIdempotent(name: string)
    ensures Sanitize(Sanitize(name)) == Sanitize(name)
  {
    var s := Sanitize(name);
    KeepAllowedFixes(s);
    if s != [] {
      assert s[|s| - 1] != ' ';
    }
  }

  /** The file-name stem: only lower-case letters, digits and underscores. */
  predicate IsStemChar(c: char) {
    'a' <= c <= 'z' || IsDigit(c) || c == '_'
  }

  /** The worked example: "Boss Fight! #2" sanitises to "Boss Fight 2". */
  lemma SanitizeExample(name: string)
    requires name == "Boss Fight! #2"
    ensures Sanitize(name) == "Boss Fight 2"
  {
    var words, marks, digit := "Boss Fight", "! #", "2";
    assert name == words + marks + digit;
    KeepAllowedConcat(words + marks, digit);
    KeepAllowedConcat(words, marks);
    KeptPieces(words, marks, digit);
    assert KeepAllowed(name) == "Boss Fight 2";
  }

  lemma KeptPieces(words: string, marks: string, digit: string)
    requires words == "Boss Fight" && marks == "! #" && digit == "2"
    ensures KeepAllowed(words) == words && KeepAllowed(marks) == " " && KeepAllowed(digit) == digit
  {
    KeepAllowedFixes(words);
    KeepAllowedFixes(digit);
    var tail := marks[1..];
    assert tail == " #" && tail[1..] == "#";
    KeepAllowedDrops('#');
    assert KeepAllowed(tail) == " ";
    assert !Kept(marks[0]);
  }

  /** ... and its PNG icon is saved as icons/boss_fight_2.png. */
  lemma IconPathExample(name: string)
    requires name == "Boss Fight! #2"
    ensures IconPath(name, Png) == "icons/boss_fight_2.png"
  {
    SanitizeExample(name);
    var sanitized := Sanitize(name);
    var underscored := SpacesToUnderscores(sanitized);
    assert underscored == "Boss_Fight_2";
    var stem := Lower(underscored);
    assert stem == "boss_fight_2";
    assert IconPath(name, Png) == IconDir + stem + "." + Ext(Png);
  }
}
