/**
 * The start offset `H:MM:SS[.fff]` as an integer number of milliseconds,
 * with the string splitting it rests on.
 */
module TimeParse {
  import opened Wrappers
  import opened Ascii
  import opened IntParse

  /** The pieces of `s` between occurrences of `sep`, as `str.split(sep)` gives them. */
  function Split(s: string, sep: char): (parts: seq<string>)
    ensures |parts| >= 1
  {
    if s == [] then [[]]
    else
      var rest := Split(s[1..], sep);
      if s[0] == sep then [[]] + rest else [[s[0]] + rest[0]] + rest[1..]
  }

  /** The pieces glued back with `sep` between them. */
  function Join(parts: seq<string>, sep: char): string
    requires |parts| >= 1
  {
    if |parts| == 1 then parts[0] else parts[0] + [sep] + Join(parts[1..], sep)
  }

  function Occurrences(s: string, c: char): nat {
    if s == [] then 0 else (if s[0] == c then 1 else 0) + Occurrences(s[1..], c)
  }

  /** Joining the pieces gives the string back, and no piece holds the separator. */
  lemma {:induction false} SplitJoin(s: string, sep: char)
    ensures Join(Split(s, sep), sep) == s
    ensures forall i :: 0 <= i < |Split(s, sep)| ==> sep !in Split(s, sep)[i]
  {
    if s != [] {
      SplitJoin(s[1..], sep);
      var rest := Split(s[1..], sep);
      if s[0] == sep {
        assert s == [] + [sep] + s[1..];
      } else if |rest| == 1 {
        assert s == [s[0]] + rest[0];
      } else {
        assert rest == [rest[0]] + rest[1..];
        assert s == [s[0]] + (rest[0] + [sep] + Join(rest[1..], sep));
      }
    }
  }

  /** There is one more piece than there are separators. */
  lemma {:induction false} SplitCount(s: string, sep: char)
    ensures |Split(s, sep)| == Occurrences(s, sep) + 1
  {
    if s != [] {
      SplitCount(s[1..], sep);
    }
  }

  /** A string free of the separator is one piece. */
  lemma {:induction false} SplitWhole(a: string, sep: char)
    requires sep !in a
    ensures Split(a, sep) == [a]
  {
    if a != [] {
      SplitWhole(a[1..], sep);
      assert a == [a[0]] + a[1..];
    }
  }

  /** A separator-free head followed by the separator is the first piece. */
  lemma {:induction false} SplitHead(a: string, sep: char, b: string)
    requires sep !in a
    ensures Split(a + [sep] + b, sep) == [a] + Split(b, sep)
  {
    var s := a + [sep] + b;
    if a == [] {
      assert s[1..] == b;
    } else {
      assert s[1..] == a[1..] + [sep] + b;
      SplitHead(a[1..], sep, b);
      assert a == [a[0]] + a[1..];
    }
  }

  /** Splitting undoes joining when no piece holds the separator. */
  lemma {:induction false} JoinSplit(parts: seq<string>, sep: char)
    requires |parts| >= 1
    requires forall i :: 0 <= i < |parts| ==> sep !in parts[i]
    ensures Split(Join(parts, sep), sep) == parts
  {
    if |parts| == 1 {
      SplitWhole(parts[0], sep);
    } else {
      JoinSplit(parts[1..], sep);
      SplitHead(parts[0], sep, Join(parts[1..], sep));
      assert parts == [parts[0]] + parts[1..];
    }
  }

  /** The fraction after the seconds, right-padded with zeros and cut to three characters. */
  function Milliseconds(fraction: string): Option<int> {
    ParseInt((fraction + "000")[..3])
  }

  /**
   * `time_to_milliseconds`: empty text and text without exactly two colons
   * give 0; otherwise the hours, minutes, seconds and optional fraction of the
   * three pieces, and None where one of them is not an integer.
   */
  function TimeToMs(t: string): (r: Option<int>)
    ensures Occurrences(t, ':') != 2 ==> r == Some(0)
  {
    SplitCount(t, ':');
    if t == "" then Some(0)
    else
      var parts := Split(t, ':');
      if |parts| != 3 then Some(0)
      else
        var secs := Split(parts[2], '.');
        match (ParseInt(parts[0]), ParseInt(parts[1]), ParseInt(secs[0]))
        case (Some(h), Some(m), Some(s)) =>
          if |secs| > 1 then
            match Milliseconds(secs[1])
            case Some(ms) => Some((h * 3600 + m * 60 + s) * 1000 + ms)
            case None => None
          else Some((h * 3600 + m * 60 + s) * 1000)
        case _ => None
  }

  /** A three-digit string is worth 100, 10 and 1 times its digits. */
  lemma ThreeDigits(s: string)
    requires |s| == 3 && AllDigits(s)
    ensures DecimalValue(s) == 100 * DigitValue(s[0]) + 10 * DigitValue(s[1]) + DigitValue(s[2])
  {
    assert DecimalValue(s[..1]) == DigitValue(s[0]) by {
      assert s[..1][..0] == [];
    }
    assert s[..2][..1] == s[..1];
    assert DecimalValue(s[..2]) == 10 * DecimalValue(s[..1]) + DigitValue(s[1]);
  }

  /** A two-digit string is worth 10 and 1 times its digits. */
  lemma TwoDigits(s: string)
    requires |s| == 2 && AllDigits(s)
    ensures DecimalValue(s) == 10 * DigitValue(s[0]) + DigitValue(s[1])
  {
    assert s[..1][..0] == [];
    assert DecimalValue(s[..1]) == DigitValue(s[0]);
  }

  /** The k-th digit of a fraction, 0 past its end (the zero padding). */
  function PaddedDigit(fraction: string, k: nat): nat
    requires AllDigits(fraction)
  {
    if k < |fraction| then DigitValue(fraction[k]) else 0
  }

  /**
   * A digit fraction is worth its first three digits, missing ones counting
   * zero, so the milliseconds always lie in [0, 999].
   */
  lemma MillisecondsOfDigits(fraction: string)
    requires AllDigits(fraction)
    ensures Milliseconds(fraction) ==
      Some(100 * PaddedDigit(fraction, 0) + 10 * PaddedDigit(fraction, 1) + PaddedDigit(fraction, 2))
    ensures 0 <= Milliseconds(fraction).value <= 999
  {
    var padded := (fraction + "000")[..3];
    assert forall k :: 0 <= k < 3 ==> padded[k] == if k < |fraction| then fraction[k] else '0';
    ThreeDigits(padded);
  }

  /** The fraction is padded, then truncated: "5" and "50" are 500 ms, "1234" is 123 ms. */
  lemma MillisecondsExamples()
    ensures Milliseconds("5") == Some(500)
    ensures Milliseconds("50") == Some(500)
    ensures Milliseconds("1234") == Some(123)
  {
    MillisecondsOfDigits("5");
    MillisecondsOfDigits("50");
    MillisecondsOfDigits("1234");
  }

  /** The separator-free pieces of `h:m:x`. */
  lemma SplitClock(h: string, m: string, x: string)
    requires ':' !in h && ':' !in m && ':' !in x
    ensures Split(h + ":" + m + ":" + x, ':') == [h, m, x]
  {
    assert h + ":" + m + ":" + x == h + [':'] + (m + [':'] + x);
    SplitHead(h, ':', m + [':'] + x);
    SplitHead(m, ':', x);
    SplitWhole(x, ':');
  }

  /**
   * `H:M:S` with colon-free fields that `int` accepts, signs included, and a
   * seconds field without '.', is (H*3600 + M*60 + S) * 1000 ms.
   */
  lemma TimeToMsWhole(h: string, m: string, s: string, H: int, M: int, S: int)
    requires ':' !in h && ':' !in m && ':' !in s && '.' !in s
    requires ParseInt(h) == Some(H) && ParseInt(m) == Some(M) && ParseInt(s) == Some(S)
    ensures TimeToMs(h + ":" + m + ":" + s) == Some((H * 3600 + M * 60 + S) * 1000)
  {
    SplitClock(h, m, s);
    SplitWhole(s, '.');
  }

  /**
   * `H:M:S.F` with such fields is (H*3600 + M*60 + S) * 1000 plus the
   * milliseconds of F (an error when F's padded first three characters are
   * not an integer).
   */
  lemma TimeToMsFraction(h: string, m: string, s: string, f: string, H: int, M: int, S: int)
    requires ':' !in h && ':' !in m && ':' !in s && ':' !in f && '.' !in s && '.' !in f
    requires ParseInt(h) == Some(H) && ParseInt(m) == Some(M) && ParseInt(s) == Some(S)
    ensures TimeToMs(h + ":" + m + ":" + s + "." + f) ==
      match Milliseconds(f)
      case Some(ms) => Some((H * 3600 + M * 60 + S) * 1000 + ms)
      case None => None
  {
    var x := s + "." + f;
    assert ':' !in x;
    assert h + ":" + m + ":" + s + "." + f == h + ":" + m + ":" + x;
    SplitClock(h, m, x);
    assert x == s + ['.'] + f;
    SplitHead(s, '.', f);
    SplitWhole(f, '.');
    assert Split(x, '.') == [s, f];
  }

  /** "01:02:03.456" is 3,723,456 ms. */
  lemma TimeToMsExample(t: string)
    requires t == "01:02:03.456"
    ensures TimeToMs(t) == Some(3723456)
  {
    var h, m, s, f := "01", "02", "03", "456";
    assert t == h + ":" + m + ":" + s + "." + f;
    TwoDigits(h);
    TwoDigits(m);
    TwoDigits(s);
    MillisecondsOfDigits(f);
    TimeToMsFraction(h, m, s, f, 1, 2, 3);
  }

  /** "00:00:00" is 0 ms, "00:00:00.5" is 500 ms and "1:00:00" is 3,600,000 ms. */
  lemma TimeToMsShortExamples(z: string, t: string, u: string)
    requires z == "00:00:00" && t == "00:00:00.5" && u == "1:00:00"
    ensures TimeToMs(z) == Some(0)
    ensures TimeToMs(t) == Some(500)
    ensures TimeToMs(u) == Some(3600000)
  {
    var zero, one, five := "00", "1", "5";
    assert z == zero + ":" + zero + ":" + zero;
    assert t == zero + ":" + zero + ":" + zero + "." + five;
    assert u == one + ":" + zero + ":" + zero;
    assert DecimalValue(zero) == 0 && DecimalValue(one) == 1;
    TimeToMsWhole(zero, zero, zero, 0, 0, 0);
    MillisecondsOfDigits(five);
    TimeToMsFraction(zero, zero, zero, five, 0, 0, 0);
    TimeToMsWhole(one, zero, zero, 1, 0, 0);
  }

  /**
   * Three colon-free fields of which the hours, the minutes or the seconds
   * (before any '.') are not an integer: `int` raises, so the offset is an
   * error.
   */
  lemma TimeToMsRejects(h: string, m: string, x: string)
    requires ':' !in h && ':' !in m && ':' !in x
    requires ParseInt(h).None? || ParseInt(m).None? || ParseInt(Split(x, '.')[0]).None?
    ensures TimeToMs(h + ":" + m + ":" + x) == None
  {
    SplitClock(h, m, x);
  }

  /** Text without two colons is 0 ms; three non-numeric fields are an error. */
  lemma TimeToMsMalformed(t: string, u: string)
    requires t == "abc" && u == "a:b:c"
    ensures TimeToMs(t) == Some(0)
    ensures TimeToMs(u) == None
  {
    assert t == ['a', 'b', 'c'];
    SplitWhole(t, ':');
    var a, b, c := "a", "b", "c";
    assert u == a + ":" + b + ":" + c;
    SplitClock(a, b, c);
  }

  /**
   * As written, a leading '-' negates the hours field only: the negative
   * offset "-00:00:05" reads as +5,000 ms.
   */
  lemma NegativeOffsetLosesSign(t: string)
    requires t == "-00:00:05"
    ensures TimeToMs(t) == Some(5000)
  {
    var h, zero, five := "-00", "00", "05";
    assert t == h + ":" + zero + ":" + five;
    assert h[1..] == zero;
    assert DecimalValue(zero) == 0 && DecimalValue(five) == 5;
    TimeToMsWhole(h, zero, five, 0, 0, 5);
  }

  /**
   * The offset with a leading '-' applying to the whole duration, as a
   * negative LiveSplit offset (a start delay) means.
   */
  function SignedTimeToMs(t: string): (r: Option<int>)
    ensures |t| == 0 || t[0] != '-' ==> r == TimeToMs(t)
  {
    if |t| > 0 && t[0] == '-' then
      match TimeToMs(t[1..])
      case Some(v) => Some(-v)
      case None => None
    else TimeToMs(t)
  }

  /**
   * A signed duration `-H:M:S` with fields as in TimeToMsWhole is minus
   * (H*3600 + M*60 + S) * 1000 ms.
   */
  lemma SignedTimeToMsNegates(h: string, m: string, s: string, H: int, M: int, S: int)
    requires ':' !in h && ':' !in m && ':' !in s && '.' !in s
    requires ParseInt(h) == Some(H) && ParseInt(m) == Some(M) && ParseInt(s) == Some(S)
    ensures SignedTimeToMs("-" + h + ":" + m + ":" + s) == Some(-((H * 3600 + M * 60 + S) * 1000))
  {
    var u := h + ":" + m + ":" + s;
    assert "-" + h + ":" + m + ":" + s == "-" + u;
    assert ("-" + u)[1..] == u;
    TimeToMsWhole(h, m, s, H, M, S);
  }

  /** With the sign applied to the whole duration, "-00:00:05" is -5,000 ms. */
  lemma SignedOffsetExample(t: string)
    requires t == "-00:00:05"
    ensures SignedTimeToMs(t) == Some(-5000)
  {
    var zero, five := "00", "05";
    assert t == "-" + zero + ":" + zero + ":" + five;
    assert DecimalValue(zero) == 0 && DecimalValue(five) == 5;
    SignedTimeToMsNegates(zero, zero, five, 0, 0, 5);
  }
}
