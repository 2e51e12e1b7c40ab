/** Width-bounded truncation: `UnicodeTruncateStr::unicode_truncate` (keep the longest prefix)
    and `unicode_truncate_start` (keep the longest suffix).

    A string is a `seq<char>` and a cut point is a char position. The library cuts at byte
    offsets that come from `char_indices()` or are `self.len()`, that is, at the byte offsets of
    char positions, so every cut is on a char boundary and the `get(..).unwrap()` cannot fail;
    here that shows up as the slice `s[..k]` or `s[k..]` being well defined.
 */
module Truncate {

  import opened Width

  /** The `(&str, usize)` a truncation returns: the kept slice and its display width. */
  datatype Truncated = Truncated(text: seq<char>, width: nat)

  /* ---------------- unicode_truncate ---------------- */

  /** The iterator pipeline of `unicode_truncate`, from pair `i` on. The scan turns every char
      position `k` of `s`, and the end marker `self.len()` chained after them, into the pair
      `(k, width of s[..k])`; `take_while` keeps pairs while their width is at most `maxWidth`,
      and `last` returns the last pair kept, or None when none was. `sum` is the running width
      of the scan when it reaches position `i`. */
  function LastFittingPrefix(w: WidthOracle, s: seq<char>, maxWidth: nat, i: nat, sum: nat)
    : (r: Option<(nat, nat)>)
    requires i <= |s| && sum == StrWidth(w, s[..i])
    ensures r.None? <==> sum > maxWidth
    ensures r.Some? ==>
              i <= r.value.0 <= |s| &&
              r.value.1 == StrWidth(w, s[..r.value.0]) <= maxWidth &&
              (r.value.0 == |s| || StrWidth(w, s[..r.value.0 + 1]) > maxWidth)
    decreases |s| - i
  {
    if sum > maxWidth then None
    else if i == |s| then Some((i, sum))
    else
      PrefixWidthStep(w, s, i);
      match LastFittingPrefix(w, s, maxWidth, i + 1, sum + CharWidth(w, s[i]))
      case None => Some((i, sum))
      case Some(p) => Some(p)
  }

  /** Once the prefix one char longer than `s[..k]` is too wide, every longer one is. */
  lemma {:induction false} LongerPrefixesExceed(w: WidthOracle, s: seq<char>, k: nat, maxWidth: nat)
    requires k <= |s|
    requires k == |s| || StrWidth(w, s[..k + 1]) > maxWidth
    ensures forall j {:trigger StrWidth(w, s[..j])} :: k < j <= |s| ==> StrWidth(w, s[..j]) > maxWidth
  {
    forall j {:trigger StrWidth(w, s[..j])} | k < j <= |s|
      ensures StrWidth(w, s[..j]) > maxWidth
    {
      PrefixWidthMonotone(w, s, k + 1, j);
    }
  }

  /** `unicode_truncate`: the longest prefix of `s` whose width is at most `maxWidth`, and its
      width. Trailing zero-width chars are kept, because adding them does not change the width. */
  function TruncateEnd(w: WidthOracle, s: seq<char>, maxWidth: nat): (r: Truncated)
    ensures |r.text| <= |s| && r.text == s[..|r.text|]
    ensures r.width == StrWidth(w, r.text) <= maxWidth
    ensures forall j {:trigger StrWidth(w, s[..j])} :: |r.text| < j <= |s| ==> StrWidth(w, s[..j]) > maxWidth
  {
    var cut := LastFittingPrefix(w, s, maxWidth, 0, 0).GetOr((0, 0));
    LongerPrefixesExceed(w, s, cut.0, maxWidth);
    Truncated(s[..cut.0], cut.1)
  }

  /** A reference definition of the cut of `unicode_truncate`: `k` is the length of the longest
      prefix of `s` that fits in `maxWidth` columns. */
  ghost predicate IsLongestFittingPrefix(w: WidthOracle, s: seq<char>, maxWidth: nat, k: nat)
  {
    k <= |s| && StrWidth(w, s[..k]) <= maxWidth &&
    forall j {:trigger StrWidth(w, s[..j])} :: k < j <= |s| ==> StrWidth(w, s[..j]) > maxWidth
  }

  /** TruncateEnd cuts at `k` exactly when `k` is the longest fitting prefix. */
  lemma {:induction false} TruncateEndIsLongestFittingPrefix(w: WidthOracle, s: seq<char>, maxWidth: nat, k: nat)
    ensures IsLongestFittingPrefix(w, s, maxWidth, k) <==> k == |TruncateEnd(w, s, maxWidth).text|
  {
    var t := TruncateEnd(w, s, maxWidth);
    assert StrWidth(w, s[..|t.text|]) == t.width;
  }

  /** The whole string is returned, with its true width, exactly when it fits. */
  lemma {:induction false} TruncateEndWhole(w: WidthOracle, s: seq<char>, maxWidth: nat)
    ensures TruncateEnd(w, s, maxWidth).text == s <==> StrWidth(w, s) <= maxWidth
    ensures StrWidth(w, s) <= maxWidth ==> TruncateEnd(w, s, maxWidth) == Truncated(s, StrWidth(w, s))
  {
    assert s[..|s|] == s;
    assert StrWidth(w, s[..|s|]) == StrWidth(w, s);
  }

  /** Where the string is cut, the next char is one that would overflow: a zero-width char is
      never left out right after the cut. */
  lemma {:induction false} TruncateEndStopsAtOverflow(w: WidthOracle, s: seq<char>, maxWidth: nat)
    ensures var t := TruncateEnd(w, s, maxWidth);
            |t.text| < |s| ==> t.width + CharWidth(w, s[|t.text|]) > maxWidth && CharWidth(w, s[|t.text|]) > 0
  {
    var t := TruncateEnd(w, s, maxWidth);
    if |t.text| < |s| {
      PrefixWidthStep(w, s, |t.text|);
    }
  }

  /** Truncating an already truncated string again changes nothing. */
  lemma {:induction false} TruncateEndIdempotent(w: WidthOracle, s: seq<char>, maxWidth: nat)
    ensures var t := TruncateEnd(w, s, maxWidth); TruncateEnd(w, t.text, maxWidth) == t
  {
    var t := TruncateEnd(w, s, maxWidth);
    TruncateEndWhole(w, t.text, maxWidth);
  }

  /** A larger budget never keeps less: the cut for `m1 <= m2` is a prefix of the cut for `m2`. */
  lemma {:induction false} TruncateEndMonotone(w: WidthOracle, s: seq<char>, m1: nat, m2: nat)
    requires m1 <= m2
    ensures |TruncateEnd(w, s, m1).text| <= |TruncateEnd(w, s, m2).text|
    ensures TruncateEnd(w, s, m1).width <= TruncateEnd(w, s, m2).width
  {
    var t1, t2 := TruncateEnd(w, s, m1), TruncateEnd(w, s, m2);
    assert StrWidth(w, s[..|t1.text|]) == t1.width;
    PrefixWidthMonotone(w, s, |t1.text|, |t2.text|);
  }

  /** With a zero budget only the leading zero-width chars are kept. */
  lemma {:induction false} TruncateEndZeroBudget(w: WidthOracle, s: seq<char>)
    ensures var t := TruncateEnd(w, s, 0);
            t.width == 0 &&
            (forall i :: 0 <= i < |t.text| ==> CharWidth(w, s[i]) == 0) &&
            (|t.text| < |s| ==> CharWidth(w, s[|t.text|]) > 0)
  {
    var t := TruncateEnd(w, s, 0);
    forall i | 0 <= i < |t.text|
      ensures CharWidth(w, s[i]) == 0
    {
      PrefixWidthStep(w, s, i);
      PrefixWidthMonotone(w, s, i + 1, |t.text|);
    }
    TruncateEndStopsAtOverflow(w, s, 0);
  }

  /* ---------------- unicode_truncate_start ---------------- */

  /** The iterator pipeline of `unicode_truncate_start`, after the scan has consumed the char
      positions `i .. |s|-1` from the end with running width `sum`. The next pair is
      `(i-1, width of s[i-1..])`; `take_while` keeps pairs while their width is at most
      `maxWidth`, and `last` returns the last pair kept, or None when none was. */
  function LastFittingSuffix(w: WidthOracle, s: seq<char>, maxWidth: nat, i: nat, sum: nat)
    : (r: Option<(nat, nat)>)
    requires i <= |s| && sum == StrWidth(w, s[i..])
    ensures r.None? <==> (i == 0 || StrWidth(w, s[i - 1..]) > maxWidth)
    ensures r.Some? ==>
              r.value.0 < i &&
              r.value.1 == StrWidth(w, s[r.value.0..]) <= maxWidth &&
              (r.value.0 == 0 || StrWidth(w, s[r.value.0 - 1..]) > maxWidth)
    decreases i
  {
    if i == 0 then None
    else
      SuffixWidthStep(w, s, i - 1);
      var next := sum + CharWidth(w, s[i - 1]);
      if next > maxWidth then None
      else
        match LastFittingSuffix(w, s, maxWidth, i - 1, next)
        case None => Some((i - 1, next))
        case Some(p) => Some(p)
  }

  /** Once the suffix one char longer than `s[k..]` is too wide, every longer one is. */
  lemma {:induction false} LongerSuffixesExceed(w: WidthOracle, s: seq<char>, k: nat, maxWidth: nat)
    requires k <= |s|
    requires k == 0 || StrWidth(w, s[k - 1..]) > maxWidth
    ensures forall j {:trigger StrWidth(w, s[j..])} :: 0 <= j < k ==> StrWidth(w, s[j..]) > maxWidth
  {
    forall j {:trigger StrWidth(w, s[j..])} | 0 <= j < k
      ensures StrWidth(w, s[j..]) > maxWidth
    {
      SuffixWidthAntitone(w, s, j, k - 1);
    }
  }

  /** `unicode_truncate_start`: the longest suffix of `s` whose width is at most `maxWidth`, and
      its width; `(empty, 0)` when not even the last char fits. Leading zero-width chars of the
      kept suffix are included, because adding them does not change the width. */
  function TruncateStart(w: WidthOracle, s: seq<char>, maxWidth: nat): (r: Truncated)
    ensures |r.text| <= |s| && r.text == s[|s| - |r.text|..]
    ensures r.width == StrWidth(w, r.text) <= maxWidth
    ensures forall j {:trigger StrWidth(w, s[j..])} :: 0 <= j < |s| - |r.text| ==> StrWidth(w, s[j..]) > maxWidth
  {
    var cut := LastFittingSuffix(w, s, maxWidth, |s|, 0).GetOr((|s|, 0));
    LongerSuffixesExceed(w, s, cut.0, maxWidth);
    Truncated(s[cut.0..], cut.1)
  }

  /** A reference definition of the cut of `unicode_truncate_start`: `s[k..]` is the longest
      suffix of `s` that fits in `maxWidth` columns. */
  ghost predicate IsLongestFittingSuffix(w: WidthOracle, s: seq<char>, maxWidth: nat, k: nat)
  {
    k <= |s| && StrWidth(w, s[k..]) <= maxWidth &&
    forall j {:trigger StrWidth(w, s[j..])} :: 0 <= j < k ==> StrWidth(w, s[j..]) > maxWidth
  }

  /** TruncateStart cuts at `k` exactly when `s[k..]` is the longest fitting suffix. */
  lemma {:induction false} TruncateStartIsLongestFittingSuffix(w: WidthOracle, s: seq<char>, maxWidth: nat, k: nat)
    ensures IsLongestFittingSuffix(w, s, maxWidth, k) <==>
            k == |s| - |TruncateStart(w, s, maxWidth).text|
  {
    var t := TruncateStart(w, s, maxWidth);
    var c := |s| - |t.text|;
    assert StrWidth(w, s[c..]) == t.width;
  }

  /** The whole string is returned, with its true width, exactly when it fits. */
  lemma {:induction false} TruncateStartWhole(w: WidthOracle, s: seq<char>, maxWidth: nat)
    ensures TruncateStart(w, s, maxWidth).text == s <==> StrWidth(w, s) <= maxWidth
    ensures StrWidth(w, s) <= maxWidth ==> TruncateStart(w, s, maxWidth) == Truncated(s, StrWidth(w, s))
  {
    assert s[0..] == s;
    assert StrWidth(w, s[0..]) == StrWidth(w, s);
  }

  /** Where the string is cut, the char before the cut is one that would overflow: a zero-width
      char is never left out right before the kept suffix. */
  lemma {:induction false} TruncateStartStopsAtOverflow(w: WidthOracle, s: seq<char>, maxWidth: nat)
    ensures var t := TruncateStart(w, s, maxWidth);
            var c := |s| - |t.text|;
            c > 0 ==> t.width + CharWidth(w, s[c - 1]) > maxWidth && CharWidth(w, s[c - 1]) > 0
  {
    var t := TruncateStart(w, s, maxWidth);
    var c := |s| - |t.text|;
    if c > 0 {
      SuffixWidthStep(w, s, c - 1);
    }
  }

  /** Truncating an already truncated string again changes nothing. */
  lemma {:induction false} TruncateStartIdempotent(w: WidthOracle, s: seq<char>, maxWidth: nat)
    ensures var t := TruncateStart(w, s, maxWidth); TruncateStart(w, t.text, maxWidth) == t
  {
    var t := TruncateStart(w, s, maxWidth);
    TruncateStartWhole(w, t.text, maxWidth);
  }

  /** With a zero budget only the trailing zero-width chars are kept. */
  lemma {:induction false} TruncateStartZeroBudget(w: WidthOracle, s: seq<char>)
    ensures var t := TruncateStart(w, s, 0);
            var c := |s| - |t.text|;
            t.width == 0 &&
            (forall i :: c <= i < |s| ==> CharWidth(w, s[i]) == 0) &&
            (c > 0 ==> CharWidth(w, s[c - 1]) > 0)
  {
    var t := TruncateStart(w, s, 0);
    var c := |s| - |t.text|;
    forall i | c <= i < |s|
      ensures CharWidth(w, s[i]) == 0
    {
      SuffixWidthStep(w, s, i);
      SuffixWidthAntitone(w, s, c, i);
    }
    TruncateStartStopsAtOverflow(w, s, 0);
  }

  /** Truncating from the start is truncating the reversed string from the end, reversed back. */
  lemma {:induction false} TruncateStartMirrorsEnd(w: WidthOracle, s: seq<char>, maxWidth: nat)
    ensures var e := TruncateEnd(w, Reverse(s), maxWidth);
            TruncateStart(w, s, maxWidth) == Truncated(Reverse(e.text), e.width)
  {
    var e := TruncateEnd(w, Reverse(s), maxWidth);
    var k := |e.text|;
    var c := |s| - k;
    assert IsLongestFittingSuffix(w, s, maxWidth, c) && StrWidth(w, s[c..]) == e.width by {
      ReversePrefixWidth(w, s, k);
      forall j {:trigger StrWidth(w, s[j..])} | 0 <= j < c
        ensures StrWidth(w, s[j..]) > maxWidth
      {
        ReversePrefixWidth(w, s, |s| - j);
      }
    }
    TruncateStartIsLongestFittingSuffix(w, s, maxWidth, c);
    ReverseReversePrefix(s, k);
  }
}
