/** Padding to an exact display width: `UnicodeTruncateStr::unicode_pad` and `Alignment`.

    The string is first cut from the end (when truncation is allowed or needed) and then
    surrounded by spaces on the left, the right or both sides until it is `targetWidth` columns
    wide. Whether the result borrows the input or is a newly built string (`Cow`) is kept as a
    tag on the result.
 */
module Pad {

  import opened Width
  import opened Truncate

  /** Where the text goes inside the padded field. */
  datatype Alignment = Left | Center | Right

  /** `Cow<str>`: the input, or a slice of it, handed back as is, or a newly built string. */
  datatype Cow = Borrowed(text: seq<char>) | Owned(text: seq<char>)

  /** `usize::saturating_sub`: the difference, or 0 where it would go below zero. */
  function SaturatingSub(a: nat, b: nat): (r: nat)
    ensures b <= a ==> r + b == a
    ensures a <= b ==> r == 0
  {
    if a >= b then a - b else 0
  }

  /** The numbers of spaces put left and right of the text when it is `diff` columns short. */
  function PadAmounts(align: Alignment, diff: nat): (r: (nat, nat))
    ensures r.0 + r.1 == diff
    ensures align == Left ==> r.0 == 0
    ensures align == Right ==> r.1 == 0
    ensures align == Center ==> r.0 == diff / 2 && r.0 <= r.1 <= r.0 + 1
  {
    match align
    case Left => (0, diff)
    case Right => (diff, 0)
    case Center => (diff / 2, SaturatingSub(diff, diff / 2))
  }

  /** `n` spaces. */
  function Spaces(n: nat): (r: seq<char>)
    ensures |r| == n && forall i :: 0 <= i < n ==> r[i] == ' '
  {
    seq(n, _ => ' ')
  }

  /** What `unicode_pad` returns. A borrowed result is a slice of the input, from its start; a
      newly built one is longer than the end-truncated text by exactly the columns that text
      falls short of `targetWidth` (its contents are given by `PaddedLayout`). */
  function Padded(w: WidthOracle, s: seq<char>, targetWidth: nat, align: Alignment, truncate: bool)
    : (r: Cow)
    ensures r.Borrowed? ==> |r.text| <= |s| && r.text == s[..|r.text|]
    ensures r.Owned? ==> var t := TruncateEnd(w, s, targetWidth);
                         t.width < targetWidth && |r.text| == |t.text| + (targetWidth - t.width)
  {
    if !truncate && StrWidth(w, s) >= targetWidth then Borrowed(s)
    else
      var t := TruncateEnd(w, s, targetWidth);
      if t.width == targetWidth then Borrowed(t.text)
      else
        var diff := SaturatingSub(targetWidth, t.width);
        var amounts := PadAmounts(align, diff);
        Owned(Spaces(amounts.0) + t.text + Spaces(amounts.1))
  }

  /** `unicode_pad`: builds the padded string by pushing the left spaces one at a time, appending
      the truncated text and pushing the right spaces. */
  method Pad(w: WidthOracle, s: seq<char>, targetWidth: nat, align: Alignment, truncate: bool)
    returns (r: Cow)
    ensures r == Padded(w, s, targetWidth, align, truncate)
  {
    if !truncate && StrWidth(w, s) >= targetWidth {
      return Borrowed(s);
    }
    var t := TruncateEnd(w, s, targetWidth);
    if t.width == targetWidth {
      return Borrowed(t.text);
    }
    var diff := SaturatingSub(targetWidth, t.width);
    var amounts := PadAmounts(align, diff);
    var leftPad, rightPad := amounts.0, amounts.1;
    var result: seq<char> := [];
    for k := 0 to leftPad
      invariant result == Spaces(k)
    {
      result := result + [' '];
    }
    result := result + t.text;
    for k := 0 to rightPad
      invariant result == Spaces(leftPad) + t.text + Spaces(k)
    {
      result := result + [' '];
    }
    return Owned(result);
  }

  /** A run of spaces is as wide as it is long, when a space is one column wide. */
  lemma {:induction false} SpacesWidth(w: WidthOracle, n: nat)
    requires w(' ') == Some(1)
    ensures StrWidth(w, Spaces(n)) == n
  {
    if n > 0 {
      assert Spaces(n)[1..] == Spaces(n - 1);
      SpacesWidth(w, n - 1);
    }
  }

  /** Without truncation, a string at least as wide as the target is returned untouched. */
  lemma {:induction false} PaddedKeepsWideInputWithoutTruncation(w: WidthOracle, s: seq<char>, targetWidth: nat, align: Alignment)
    requires StrWidth(w, s) >= targetWidth
    ensures Padded(w, s, targetWidth, align, false) == Borrowed(s)
  {
  }

  /** Unless the input is returned untouched because it is wider than the target, the result
      is exactly `targetWidth` columns wide: the saturating subtractions never saturate, and the
      spaces make up exactly what the truncated text lacks. */
  lemma {:induction false} PaddedWidthExact(w: WidthOracle, s: seq<char>, targetWidth: nat, align: Alignment, truncate: bool)
    requires w(' ') == Some(1)
    requires truncate || StrWidth(w, s) <= targetWidth
    ensures StrWidth(w, Padded(w, s, targetWidth, align, truncate).text) == targetWidth
  {
    if !truncate && StrWidth(w, s) >= targetWidth {
      return;
    }
    var t := TruncateEnd(w, s, targetWidth);
    if t.width != targetWidth {
      var amounts := PadAmounts(align, SaturatingSub(targetWidth, t.width));
      StrWidthConcat(w, Spaces(amounts.0), t.text);
      StrWidthConcat(w, Spaces(amounts.0) + t.text, Spaces(amounts.1));
      SpacesWidth(w, amounts.0);
      SpacesWidth(w, amounts.1);
    }
  }

  /** `p` is `text` with `left` spaces before it and `right` spaces after it. */
  ghost predicate Framed(p: seq<char>, text: seq<char>, left: nat, right: nat)
  {
    |p| == left + |text| + right &&
    p[left..left + |text|] == text &&
    (forall i :: 0 <= i < left ==> p[i] == ' ') &&
    (forall i :: left + |text| <= i < |p| ==> p[i] == ' ')
  }

  lemma {:induction false} SpacesFrame(text: seq<char>, left: nat, right: nat)
    ensures Framed(Spaces(left) + text + Spaces(right), text, left, right)
  {
    var p := Spaces(left) + text + Spaces(right);
    assert p[left..left + |text|] == text;
  }

  /** The layout of the padded result: the text kept by `unicode_truncate` with only spaces
      around it, none before it for Left alignment, none after it for Right, and for Center
      half the shortfall before it, rounded down. */
  lemma {:induction false} PaddedLayout(w: WidthOracle, s: seq<char>, targetWidth: nat, align: Alignment, truncate: bool)
    requires truncate || StrWidth(w, s) <= targetWidth
    ensures var t := TruncateEnd(w, s, targetWidth);
            var diff := targetWidth - t.width;
            var left := match align
              case Left => 0
              case Right => diff
              case Center => diff / 2;
            Framed(Padded(w, s, targetWidth, align, truncate).text, t.text, left, diff - left)
  {
    var t := TruncateEnd(w, s, targetWidth);
    var diff := targetWidth - t.width;
    var left := match align
      case Left => 0
      case Right => diff
      case Center => diff / 2;
    PaddedText(w, s, targetWidth, align, truncate, left);
    SpacesFrame(t.text, left, diff - left);
  }

  lemma {:induction false} PaddedText(w: WidthOracle, s: seq<char>, targetWidth: nat, align: Alignment, truncate: bool, left: nat)
    requires truncate || StrWidth(w, s) <= targetWidth
    requires left == PadAmounts(align, targetWidth - TruncateEnd(w, s, targetWidth).width).0
    ensures var t := TruncateEnd(w, s, targetWidth);
            var diff := targetWidth - t.width;
            left <= diff &&
            Padded(w, s, targetWidth, align, truncate).text == Spaces(left) + t.text + Spaces(diff - left)
  {
    var t := TruncateEnd(w, s, targetWidth);
    var diff := targetWidth - t.width;
    var amounts := PadAmounts(align, diff);
    assert SaturatingSub(targetWidth, t.width) == diff;
    if t.width == targetWidth {
      if !truncate {
        TruncateEndWhole(w, s, targetWidth);
      }
      assert Padded(w, s, targetWidth, align, truncate) == Borrowed(t.text);
      assert left == 0;
      assert Spaces(0) + t.text + Spaces(0) == t.text;
    } else {
      assert Padded(w, s, targetWidth, align, truncate) == Owned(Spaces(amounts.0) + t.text + Spaces(amounts.1));
      assert left == amounts.0 && diff - left == amounts.1;
      assert Spaces(left) == Spaces(amounts.0) && Spaces(diff - left) == Spaces(amounts.1);
    }
  }

  /** When the string fits, the truncate flag makes no difference and the whole string is kept. */
  lemma {:induction false} PaddedFittingInput(w: WidthOracle, s: seq<char>, targetWidth: nat, align: Alignment)
    requires StrWidth(w, s) <= targetWidth
    ensures Padded(w, s, targetWidth, align, false) == Padded(w, s, targetWidth, align, true)
    ensures var amounts := PadAmounts(align, targetWidth - StrWidth(w, s));
            Padded(w, s, targetWidth, align, true).text == Spaces(amounts.0) + s + Spaces(amounts.1)
  {
    TruncateEndWhole(w, s, targetWidth);
    var t := TruncateEnd(w, s, targetWidth);
    assert t == Truncated(s, StrWidth(w, s));
  }
}
