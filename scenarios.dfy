/** The library's own examples, on a sample width table: the CJK Unified Ideographs (U+4E00 to
    U+9FFF, among them 你, 好 and 吗) are two columns wide, the combining diacritical marks
    (U+0300 to U+036F) zero, the C0 controls, DEL and the C1 controls have no width, and every
    other char is one column wide. */
module Scenarios {

  import opened Width
  import opened Truncate
  import opened Pad

  function SampleWidth(c: char): Option<nat>
  {
    if c < ' ' || ('\U{7F}' <= c <= '\U{9F}') then None
    else if '\U{300}' <= c <= '\U{36F}' then Some(0)
    else if '\U{4E00}' <= c <= '\U{9FFF}' then Some(2)
    else Some(1)
  }

  /** A width table that agrees with the sample table on every char. The lemmas below are
      stated for any such table rather than for `SampleWidth` itself. */
  ghost predicate IsSampleTable(w: WidthOracle)
  {
    forall c :: w(c) == SampleWidth(c)
  }

  ghost predicate IsAscii(s: seq<char>)
  {
    forall i :: 0 <= i < |s| ==> ' ' <= s[i] < '\U{7F}'
  }

  ghost predicate IsIdeographic(s: seq<char>)
  {
    forall i :: 0 <= i < |s| ==> '\U{4E00}' <= s[i] <= '\U{9FFF}'
  }

  /** Every prefix and suffix of a printable ASCII string is as wide as it is long. */
  lemma {:induction false} AsciiWidths(w: WidthOracle, s: seq<char>)
    requires IsSampleTable(w)
    requires IsAscii(s)
    ensures forall j {:trigger StrWidth(w, s[..j])} :: 0 <= j <= |s| ==> StrWidth(w, s[..j]) == j
    ensures forall j {:trigger StrWidth(w, s[j..])} :: 0 <= j <= |s| ==> StrWidth(w, s[j..]) == |s| - j
  {
    if s != [] {
      AsciiWidths(w, s[1..]);
      forall j | 0 <= j <= |s|
        ensures StrWidth(w, s[..j]) == j
      {
        if j > 0 {
          assert s[..j][1..] == s[1..][..j - 1];
        }
      }
      forall j | 0 <= j <= |s|
        ensures StrWidth(w, s[j..]) == |s| - j
      {
        if j > 0 {
          assert s[j..] == s[1..][j - 1..];
          assert StrWidth(w, s[1..][j - 1..]) == |s| - j;
        } else {
          assert s[1..][0..] == s[1..];
          assert StrWidth(w, s[1..][0..]) == |s| - 1;
        }
      }
    }
  }

  /** Every prefix and suffix of a string of CJK ideographs is twice as wide as it is long. */
  lemma {:induction false} IdeographicWidths(w: WidthOracle, s: seq<char>)
    requires IsSampleTable(w)
    requires IsIdeographic(s)
    ensures forall j {:trigger StrWidth(w, s[..j])} :: 0 <= j <= |s| ==> StrWidth(w, s[..j]) == 2 * j
    ensures forall j {:trigger StrWidth(w, s[j..])} :: 0 <= j <= |s| ==> StrWidth(w, s[j..]) == 2 * (|s| - j)
  {
    if s != [] {
      IdeographicWidths(w, s[1..]);
      forall j | 0 <= j <= |s|
        ensures StrWidth(w, s[..j]) == 2 * j
      {
        if j > 0 {
          assert s[..j][1..] == s[1..][..j - 1];
        }
      }
      forall j | 0 <= j <= |s|
        ensures StrWidth(w, s[j..]) == 2 * (|s| - j)
      {
        if j > 0 {
          assert s[j..] == s[1..][j - 1..];
          assert StrWidth(w, s[1..][j - 1..]) == 2 * (|s| - j);
        } else {
          assert s[1..][0..] == s[1..];
          assert StrWidth(w, s[1..][0..]) == 2 * (|s| - 1);
        }
      }
    }
  }

  /** In a printable ASCII string the first `maxWidth` chars, or all of them, are the longest
      fitting prefix, and the last as many the longest fitting suffix. */
  lemma {:induction false} AsciiCuts(w: WidthOracle, s: seq<char>, maxWidth: nat)
    requires IsSampleTable(w)
    requires IsAscii(s)
    ensures var n := if maxWidth < |s| then maxWidth else |s|;
            IsLongestFittingPrefix(w, s, maxWidth, n) && StrWidth(w, s[..n]) == n &&
            IsLongestFittingSuffix(w, s, maxWidth, |s| - n) &&
            StrWidth(w, s[|s| - n..]) == n
  {
    AsciiWidths(w, s);
  }

  /** In a string of CJK ideographs, where `n` is the most chars that fit in `maxWidth` (at most
      all of them), the first `n` chars are the longest fitting prefix and the last `n` the
      longest fitting suffix. */
  lemma {:induction false} IdeographicCuts(w: WidthOracle, s: seq<char>, maxWidth: nat, n: nat)
    requires IsSampleTable(w)
    requires IsIdeographic(s)
    requires n <= |s| && 2 * n <= maxWidth && (n == |s| || maxWidth < 2 * n + 2)
    ensures IsLongestFittingPrefix(w, s, maxWidth, n) && StrWidth(w, s[..n]) == 2 * n
    ensures IsLongestFittingSuffix(w, s, maxWidth, |s| - n) && StrWidth(w, s[|s| - n..]) == 2 * n
  {
    IdeographicWidths(w, s);
  }

  /** On printable ASCII, where every char is one column wide, truncation keeps `maxWidth`
      chars, or the whole string when it is shorter. */
  lemma {:induction false} TruncateAscii(w: WidthOracle, s: seq<char>, maxWidth: nat)
    requires IsSampleTable(w)
    requires IsAscii(s)
    ensures var n := if maxWidth < |s| then maxWidth else |s|;
            TruncateEnd(w, s, maxWidth) == Truncated(s[..n], n) &&
            TruncateStart(w, s, maxWidth) == Truncated(s[|s| - n..], n)
  {
    var n := if maxWidth < |s| then maxWidth else |s|;
    AsciiCuts(w, s, maxWidth);
    TruncateEndIsLongestFittingPrefix(w, s, maxWidth, n);
    TruncateStartIsLongestFittingSuffix(w, s, maxWidth, |s| - n);
  }

  /** On CJK ideographs, each two columns wide, truncation keeps `n` chars, where `n` is half of
      `maxWidth`, rounded down, or the whole length when that is less. */
  lemma {:induction false} TruncateIdeographic(w: WidthOracle, s: seq<char>, maxWidth: nat, n: nat)
    requires IsSampleTable(w)
    requires IsIdeographic(s)
    requires n <= |s| && 2 * n <= maxWidth && (n == |s| || maxWidth < 2 * n + 2)
    ensures TruncateEnd(w, s, maxWidth) == Truncated(s[..n], 2 * n)
    ensures TruncateStart(w, s, maxWidth) == Truncated(s[|s| - n..], 2 * n)
  {
    IdeographicCuts(w, s, maxWidth, n);
    TruncateEndIsLongestFittingPrefix(w, s, maxWidth, n);
    TruncateStartIsLongestFittingSuffix(w, s, maxWidth, |s| - n);
  }

  /** An empty string truncates to an empty string, from either end. */
  lemma {:induction false} TruncateEmpty(w: WidthOracle, maxWidth: nat)
    ensures TruncateEnd(w, "", maxWidth) == Truncated("", 0)
    ensures TruncateStart(w, "", maxWidth) == Truncated("", 0)
  {
  }

  /** A zero budget keeps nothing of a string that starts and ends with visible chars. */
  lemma {:induction false} TruncateZeroWidth(w: WidthOracle)
    requires IsSampleTable(w)
    ensures TruncateEnd(w, "ab", 0) == Truncated("", 0)
    ensures TruncateEnd(w, "你好", 0) == Truncated("", 0)
    ensures TruncateStart(w, "ab", 0) == Truncated("", 0)
    ensures TruncateStart(w, "你好", 0) == Truncated("", 0)
  {
    assert TruncateEnd(w, "ab", 0) == Truncated("", 0) && TruncateStart(w, "ab", 0) == Truncated("", 0) by {
      TruncateAscii(w, "ab", 0);
    }
    assert TruncateEnd(w, "你好", 0) == Truncated("", 0) && TruncateStart(w, "你好", 0) == Truncated("", 0) by {
      TruncateIdeographic(w, "你好", 0, 0);
    }
  }

  /** A string that fits is returned whole, with its width. */
  lemma {:induction false} TruncateLessThanLimit(w: WidthOracle)
    requires IsSampleTable(w)
    ensures TruncateEnd(w, "abc", 4) == Truncated("abc", 3)
    ensures TruncateEnd(w, "你", 4) == Truncated("你", 2)
    ensures TruncateStart(w, "abc", 4) == Truncated("abc", 3)
    ensures TruncateStart(w, "你", 4) == Truncated("你", 2)
  {
    assert "abc"[..3] == "abc"[0..] == "abc";
    assert "你"[..1] == "你"[0..] == "你";
    assert TruncateEnd(w, "abc", 4) == Truncated("abc", 3) && TruncateStart(w, "abc", 4) == Truncated("abc", 3) by {
      TruncateAscii(w, "abc", 4);
    }
    assert TruncateEnd(w, "你", 4) == Truncated("你", 2) && TruncateStart(w, "你", 4) == Truncated("你", 2) by {
      TruncateIdeographic(w, "你", 4, 1);
    }
  }

  /** Cuts that land exactly on the budget, in an ASCII string. */
  lemma {:induction false} TruncateAtBoundaryAscii(w: WidthOracle)
    requires IsSampleTable(w)
    ensures TruncateEnd(w, "boundary", 5) == Truncated("bound", 5)
    ensures TruncateStart(w, "boundary", 5) == Truncated("ndary", 5)
  {
    assert "boundary"[..5] == "bound";
    assert "boundary"[3..] == "ndary";
    TruncateAscii(w, "boundary", 5);
  }

  /** Cuts that land exactly on the budget, between wide chars. */
  lemma {:induction false} TruncateAtBoundaryWide(w: WidthOracle)
    requires IsSampleTable(w)
    ensures TruncateEnd(w, "你好吗", 4) == Truncated("你好", 4)
    ensures TruncateStart(w, "你好吗", 4) == Truncated("好吗", 4)
  {
    assert "你好吗"[..2] == "你好";
    assert "你好吗"[1..] == "好吗";
    TruncateIdeographic(w, "你好吗", 4, 2);
  }

  /** Budgets that fall inside a wide char: the cut stays short of it. */
  lemma {:induction false} TruncateNotBoundary(w: WidthOracle)
    requires IsSampleTable(w)
    ensures TruncateEnd(w, "你好吗", 5) == Truncated("你好", 4)
    ensures TruncateEnd(w, "你好吗", 3) == Truncated("你", 2)
    ensures TruncateEnd(w, "你好吗", 1) == Truncated("", 0)
    ensures TruncateStart(w, "你好吗", 3) == Truncated("吗", 2)
    ensures TruncateStart(w, "你好吗", 1) == Truncated("", 0)
  {
    assert "你好吗"[..2] == "你好";
    assert "你好吗"[..1] == "你";
    assert "你好吗"[2..] == "吗";
    assert TruncateEnd(w, "你好吗", 5) == Truncated("你好", 4) by {
      TruncateIdeographic(w, "你好吗", 5, 2);
    }
    assert TruncateEnd(w, "你好吗", 3) == Truncated("你", 2) && TruncateStart(w, "你好吗", 3) == Truncated("吗", 2) by {
      TruncateIdeographic(w, "你好吗", 3, 1);
    }
    assert TruncateEnd(w, "你好吗", 1) == Truncated("", 0) && TruncateStart(w, "你好吗", 1) == Truncated("", 0) by {
      TruncateIdeographic(w, "你好吗", 1, 0);
    }
  }

  /** Zero-width chars next to the cut are kept, from either end, and a control char counts as
      zero columns. */
  lemma {:induction false} TruncateEndKeepsZeroWidthChars(w: WidthOracle)
    requires IsSampleTable(w)
    ensures TruncateEnd(w, "e\U{301}x", 1) == Truncated("e\U{301}", 1)
  {
    var s := "e\U{301}x";
    assert s[..2] == "e\U{301}" && s[..3] == s;
    assert StrWidth(w, "x") == 1;
    assert StrWidth(w, "\U{301}x") == 1 && StrWidth(w, "\U{301}") == 0;
    assert StrWidth(w, "e\U{301}") == 1 && StrWidth(w, s) == 2;
    assert IsLongestFittingPrefix(w, s, 1, 2);
    TruncateEndIsLongestFittingPrefix(w, s, 1, 2);
  }

  lemma {:induction false} TruncateStartKeepsZeroWidthChars(w: WidthOracle)
    requires IsSampleTable(w)
    ensures TruncateStart(w, "a\U{301}b", 1) == Truncated("\U{301}b", 1)
  {
    var s := "a\U{301}b";
    assert s[1..] == "\U{301}b" && s[0..] == s;
    assert StrWidth(w, "b") == 1;
    assert StrWidth(w, "\U{301}b") == 1 && StrWidth(w, s) == 2;
    assert IsLongestFittingSuffix(w, s, 1, 1);
    TruncateStartIsLongestFittingSuffix(w, s, 1, 1);
  }

  lemma {:induction false} ControlCharCountsZero(w: WidthOracle)
    requires IsSampleTable(w)
    ensures TruncateEnd(w, "a\U{7}b", 2) == Truncated("a\U{7}b", 2)
  {
    assert StrWidth(w, "b") == 1 && StrWidth(w, "\U{7}b") == 1;
    assert StrWidth(w, "a\U{7}b") == 2;
    TruncateEndWhole(w, "a\U{7}b", 2);
  }

  /** The width of a whole string of CJK ideographs. */
  lemma {:induction false} IdeographicWidth(w: WidthOracle, s: seq<char>)
    requires IsSampleTable(w)
    requires IsIdeographic(s)
    ensures StrWidth(w, s) == 2 * |s|
  {
    IdeographicWidths(w, s);
    assert s[0..] == s;
  }

  /** Padding with a zero target. */
  lemma {:induction false} PadZeroWidth(w: WidthOracle)
    requires IsSampleTable(w)
    ensures Padded(w, "你好", 0, Left, true) == Borrowed("")
    ensures Padded(w, "你好", 0, Left, false) == Borrowed("你好")
  {
    assert Padded(w, "你好", 0, Left, true) == Borrowed("") by {
      TruncateIdeographic(w, "你好", 0, 0);
    }
  }

  /** Padding a string narrower than the target, with or without truncation. */
  lemma {:induction false} PadLessThanLimit(w: WidthOracle)
    requires IsSampleTable(w)
    ensures Padded(w, "你", 4, Left, true) == Owned("你  ")
    ensures Padded(w, "你", 4, Left, false) == Owned("你  ")
  {
    assert "你"[..1] == "你";
    assert Spaces(0) + "你" + Spaces(2) == "你  ";
    assert StrWidth(w, "你") == 2 by {
      IdeographicWidth(w, "你");
    }
    assert TruncateEnd(w, "你", 4) == Truncated("你", 2) by {
      TruncateIdeographic(w, "你", 4, 1);
    }
  }

  /** A cut on the target needs no padding; without truncation a wide string is kept. */
  lemma {:induction false} PadWidthAtBoundary(w: WidthOracle)
    requires IsSampleTable(w)
    ensures Padded(w, "你好吗", 4, Left, true) == Borrowed("你好")
    ensures Padded(w, "你好吗", 4, Left, false) == Borrowed("你好吗")
  {
    assert "你好吗"[..2] == "你好";
    assert StrWidth(w, "你好吗") == 6 by {
      IdeographicWidth(w, "你好吗");
    }
    assert TruncateEnd(w, "你好吗", 4) == Truncated("你好", 4) by {
      TruncateIdeographic(w, "你好吗", 4, 2);
    }
  }

  /** A cut that falls inside a wide char is made up with spaces. */
  lemma {:induction false} PadWidthNotBoundary(w: WidthOracle)
    requires IsSampleTable(w)
    ensures Padded(w, "你好吗", 3, Left, true) == Owned("你 ")
    ensures Padded(w, "你好吗", 1, Left, true) == Owned(" ")
    ensures Padded(w, "你好吗", 3, Left, false) == Borrowed("你好吗")
  {
    assert "你好吗"[..1] == "你";
    assert Spaces(0) + "你" + Spaces(1) == "你 ";
    assert Spaces(0) + [] + Spaces(1) == " ";
    assert StrWidth(w, "你好吗") == 6 by {
      IdeographicWidth(w, "你好吗");
    }
    assert TruncateEnd(w, "你好吗", 3) == Truncated("你", 2) by {
      TruncateIdeographic(w, "你好吗", 3, 1);
    }
    assert TruncateEnd(w, "你好吗", 1) == Truncated("", 0) by {
      TruncateIdeographic(w, "你好吗", 1, 0);
    }
  }

  /** The library's documentation example: a cut inside a wide char, made up with one space,
      gives a string exactly five columns wide. */
  lemma {:induction false} PadDocExample(w: WidthOracle)
    requires IsSampleTable(w)
    ensures Padded(w, "你好吗", 5, Left, true) == Owned("你好 ")
    ensures StrWidth(w, "你好 ") == 5
  {
    assert "你好吗"[..2] == "你好";
    assert Spaces(0) + "你好" + Spaces(1) == "你好 ";
    assert StrWidth(w, " ") == 1 && StrWidth(w, "好 ") == 3;
    assert TruncateEnd(w, "你好吗", 5) == Truncated("你好", 4) by {
      TruncateIdeographic(w, "你好吗", 5, 2);
    }
  }

  /** Right and centered alignment; an odd shortfall puts the extra space on the right. */
  lemma {:induction false} PadAlignments(w: WidthOracle)
    requires IsSampleTable(w)
    ensures Padded(w, "你", 5, Right, true) == Owned("   你")
    ensures Padded(w, "你", 5, Center, true) == Owned(" 你  ")
    ensures Padded(w, "你好吗", 5, Center, true) == Owned("你好 ")
  {
    assert "你"[..1] == "你";
    assert "你好吗"[..2] == "你好";
    assert Spaces(3) + "你" + Spaces(0) == "   你";
    assert Spaces(1) + "你" + Spaces(2) == " 你  ";
    assert Spaces(0) + "你好" + Spaces(1) == "你好 ";
    assert TruncateEnd(w, "你", 5) == Truncated("你", 2) by {
      TruncateIdeographic(w, "你", 5, 1);
    }
    assert TruncateEnd(w, "你好吗", 5) == Truncated("你好", 4) by {
      TruncateIdeographic(w, "你好吗", 5, 2);
    }
  }
}
