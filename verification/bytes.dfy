/** Byte strings and the forward substring search of Python's `bytes.find`. */
module Bytes {
  import opened Wrappers

  newtype byte = b: int | 0 <= b < 256

  /** `pat` occurs in `data` starting at index `i`. */
  predicate MatchAt(data: seq<byte>, pat: seq<byte>, i: nat) {
    i + |pat| <= |data| && data[i..i + |pat|] == pat
  }

  predicate StartsWith(data: seq<byte>, prefix: seq<byte>) {
    MatchAt(data, prefix, 0)
  }

  /**
   * The first index at or after `from` where `pat` occurs, or None:
   * `data.find(pat, from)`, with None for its -1.
   */
  function IndexOf(data: seq<byte>, pat: seq<byte>, from: nat): (r: Option<nat>)
    decreases |data| - from
    ensures r.Some? ==> from <= r.value && MatchAt(data, pat, r.value)
    ensures r.Some? ==> forall j :: from <= j < r.value ==> !MatchAt(data, pat, j)
    ensures r.None? ==> forall j :: from <= j ==> !MatchAt(data, pat, j)
  {
    if |data| < from + |pat| then None
    else if MatchAt(data, pat, from) then Some(from)
    else IndexOf(data, pat, from + 1)
  }

  /** The search loop behind `data.find(pat, start)`. */
  method Find(data: seq<byte>, pat: seq<byte>, start: nat) returns (r: Option<nat>)
    ensures r.Some? ==> start <= r.value && MatchAt(data, pat, r.value)
    ensures r.Some? ==> forall j :: start <= j < r.value ==> !MatchAt(data, pat, j)
    ensures r.None? ==> forall j :: start <= j ==> !MatchAt(data, pat, j)
    ensures r == IndexOf(data, pat, start)
  {
    var i := start;
    while i + |pat| <= |data|
      invariant start <= i
      invariant forall j :: start <= j < i ==> !MatchAt(data, pat, j)
      decreases |data| - i
    {
      if data[i..i + |pat|] == pat {
        r := Some(i);
        return;
      }
      i := i + 1;
    }
    r := None;
  }

  /** A match that lies inside data[lo..hi] is a match of that slice, and back. */
  lemma MatchWithin(data: seq<byte>, pat: seq<byte>, lo: nat, hi: nat, j: nat)
    requires lo <= j && j + |pat| <= hi <= |data|
    ensures MatchAt(data, pat, j) <==> MatchAt(data[lo..hi], pat, j - lo)
  {
    var window := data[lo..hi];
    var w := j - lo;
    var inner, outer := window[w..w + |pat|], data[j..j + |pat|];
    forall k | 0 <= k < |pat|
      ensures inner[k] == outer[k]
    {
      assert window[w + k] == data[lo + w + k];
    }
    assert inner == outer;
  }
}
