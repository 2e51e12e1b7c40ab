/** Display widths of chars and strings.

    The per-char width table belongs to the `unicode_width` crate, which is not part of this
    model: every operation takes it as a parameter, a `WidthOracle`. The library reads it as
    `char.width().unwrap_or(0)`, so a char with no assigned width (a control char) counts as
    zero columns. The width of a string is the sum of the widths of its chars.
 */
module Width {

  datatype Option<T> = None | Some(value: T) {
    /** `Option::unwrap_or` */
    function GetOr(default: T): T {
      match this
      case Some(v) => v
      case None => default
    }
  }

  /** `UnicodeWidthChar::width`: the number of columns a char occupies, or None when the table
      assigns it no width. */
  type WidthOracle = char -> Option<nat>

  /** `char.width().unwrap_or(0)` */
  function CharWidth(w: WidthOracle, c: char): (r: nat)
    ensures w(c) == Some(r) || (w(c) == None && r == 0)
  {
    match w(c)
    case Some(n) => n
    case None => 0
  }

  /** The display width of a string: the sum of its chars' widths. `StrWidthBounds` proves
      that no char is wider than the whole string and that the string has width 0 exactly when
      all of its chars do. */
  function StrWidth(w: WidthOracle, s: seq<char>): (r: nat)
  {
    if s == [] then 0 else CharWidth(w, s[0]) + StrWidth(w, s[1..])
  }

  /** Width is additive over concatenation. */
  lemma {:induction false} StrWidthConcat(w: WidthOracle, a: seq<char>, b: seq<char>)
    ensures StrWidth(w, a + b) == StrWidth(w, a) + StrWidth(w, b)
  {
    if a == [] {
      assert a + b == b;
    } else {
      assert (a + b)[1..] == a[1..] + b;
      StrWidthConcat(w, a[1..], b);
    }
  }

  /** No char is wider than the string that holds it, and a string has width 0 exactly when
      every one of its chars has width 0. */
  lemma {:induction false} StrWidthBounds(w: WidthOracle, s: seq<char>)
    ensures forall i :: 0 <= i < |s| ==> CharWidth(w, s[i]) <= StrWidth(w, s)
    ensures StrWidth(w, s) == 0 <==> forall i :: 0 <= i < |s| ==> CharWidth(w, s[i]) == 0
  {
    if s != [] {
      StrWidthBounds(w, s[1..]);
      assert forall i :: 1 <= i < |s| ==> s[i] == s[1..][i - 1];
    }
  }

  /** Extending a prefix by one char adds that char's width. */
  lemma {:induction false} PrefixWidthStep(w: WidthOracle, s: seq<char>, i: nat)
    requires i < |s|
    ensures StrWidth(w, s[..i + 1]) == StrWidth(w, s[..i]) + CharWidth(w, s[i])
  {
    assert s[..i + 1] == s[..i] + [s[i]];
    StrWidthConcat(w, s[..i], [s[i]]);
    assert [s[i]][1..] == [];
  }

  /** Extending a suffix by one char to the left adds that char's width. */
  lemma {:induction false} SuffixWidthStep(w: WidthOracle, s: seq<char>, i: nat)
    requires i < |s|
    ensures StrWidth(w, s[i..]) == CharWidth(w, s[i]) + StrWidth(w, s[i + 1..])
  {
    assert s[i..][1..] == s[i + 1..];
  }

  /** Prefix width never decreases as the prefix grows. */
  lemma {:induction false} PrefixWidthMonotone(w: WidthOracle, s: seq<char>, i: nat, j: nat)
    requires i <= j <= |s|
    ensures StrWidth(w, s[..i]) <= StrWidth(w, s[..j])
  {
    assert s[..j] == s[..i] + s[i..j];
    StrWidthConcat(w, s[..i], s[i..j]);
  }

  /** Suffix width never decreases as the suffix grows to the left. */
  lemma {:induction false} SuffixWidthAntitone(w: WidthOracle, s: seq<char>, i: nat, j: nat)
    requires i <= j <= |s|
    ensures StrWidth(w, s[j..]) <= StrWidth(w, s[i..])
  {
    assert s[i..] == s[i..j] + s[j..];
    StrWidthConcat(w, s[i..j], s[j..]);
  }

  /** The chars of `s` in reverse order. */
  function Reverse(s: seq<char>): seq<char>
  {
    seq(|s|, i requires 0 <= i < |s| => s[|s| - 1 - i])
  }

  /** Reversing a string does not change its width. */
  lemma {:induction false} StrWidthReverse(w: WidthOracle, s: seq<char>)
    ensures StrWidth(w, Reverse(s)) == StrWidth(w, s)
  {
    if s != [] {
      assert Reverse(s) == Reverse(s[1..]) + [s[0]];
      StrWidthReverse(w, s[1..]);
      StrWidthConcat(w, Reverse(s[1..]), [s[0]]);
      assert [s[0]][1..] == [];
    }
  }

  /** A prefix of the reversed string is a suffix of the string, reversed; so it has the width
      of that suffix. */
  lemma {:induction false} ReversePrefixWidth(w: WidthOracle, s: seq<char>, j: nat)
    requires j <= |s|
    ensures StrWidth(w, Reverse(s)[..j]) == StrWidth(w, s[|s| - j..])
  {
    assert Reverse(s)[..j] == Reverse(s[|s| - j..]);
    StrWidthReverse(w, s[|s| - j..]);
  }

  /** Reversing a prefix of the reversed string gives back the matching suffix. */
  lemma {:induction false} ReverseReversePrefix(s: seq<char>, j: nat)
    requires j <= |s|
    ensures Reverse(Reverse(s)[..j]) == s[|s| - j..]
  {
    var r := Reverse(s);
    var p := r[..j];
    var rp := Reverse(p);
    var suffix := s[|s| - j..];
    assert |rp| == j == |suffix|;
    forall i | 0 <= i < j
      ensures rp[i] == suffix[i]
    {
      calc {
        rp[i];
        p[j - 1 - i];
        r[j - 1 - i];
        s[|s| - 1 - (j - 1 - i)];
        suffix[i];
      }
    }
  }
}
