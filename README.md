# unicode-truncate, modelled in Dafny

This project models the `unicode-truncate` Rust library (`src/lib.rs`). The library extends
`str` with three operations that work on displayed column width rather than on chars or bytes:

- `unicode_truncate(max_width)` keeps the longest prefix whose display width is at most
  `max_width`. It returns that slice and its width.
- `unicode_truncate_start(max_width)` does the same for the longest suffix.
- `unicode_pad(target_width, align, truncate)` cuts the string from the end when allowed. It
  then adds spaces on the left, on the right or on both sides (`Alignment`), so the result is
  exactly `target_width` columns wide (without truncation, a wider input comes back
  unchanged).

Files:

- `width.dfy` (module `Width`): the width of a char and of a string. The per-char table of the
  `unicode_width` crate is a parameter `w: char -> Option<nat>`. A char with no width counts as
  0 columns (`unwrap_or(0)`). A string's width is the recursive sum of its chars' widths. The
  module proves that this sum is additive, that prefix width never decreases as the prefix
  grows, and that suffix width never decreases as the suffix grows.
- `truncate.dfy` (module `Truncate`): both truncations. Each is written as the iterator
  pipeline it is in the source (`map`/`chain`/`scan`/`take_while`/`last`/`unwrap_or`), fused
  into one recursive walk that returns an `Option` for `last()`. The module proves that each
  result is a prefix or suffix of the input, that its width is the sum of its chars' widths
  and within the bound, and that it is the longest one that fits. It also proves idempotence,
  the whole-string case, the zero budget, and that start truncation mirrors end truncation on
  the reversed string.
- `pad.dfy` (module `Pad`): `Alignment`, the `Cow` result (borrowed or newly built), a
  function `Padded` stating what `unicode_pad` returns, and a method `Pad` that builds the
  string with the source's two space-pushing loops and is proved equal to `Padded`. The
  lemmas give the exact width of the result and its layout.
- `scenarios.dfy` (module `Scenarios`): the library's own examples and unit tests, stated for
  any width table that agrees with a sample table. In that table CJK Unified Ideographs are 2
  columns, combining diacritical marks are 0, C0, DEL and C1 control chars have no width, and
  every other char is 1 column.

Cut points are char positions. The source cuts at byte offsets taken from `char_indices()` or
`self.len()`, and those are exactly the byte offsets of char positions. So every cut falls on a
char boundary, and the `self.get(..).unwrap()` at src/lib.rs:132 and :151 never panics. In the
model this shows up as the slices `s[..k]` and `s[k..]` being well defined.

Three behaviours of the code are worth stating plainly, since the model keeps them:

- A char with no assigned width counts as 0 columns (`unwrap_or(0)` at src/lib.rs:116 and
  :142).
- `unicode_truncate_start` keeps the zero-width chars at the start of the suffix it returns,
  because adding them does not raise the running width (src/lib.rs:144-148).
  `TruncateStartStopsAtOverflow` and `TruncateStartKeepsZeroWidthChars` state this.
- With bound 0 the result is `("", 0)` exactly when the string is empty or starts (for
  `unicode_truncate_start`, ends) with a char of positive width. Otherwise the leading
  (trailing) zero-width chars are kept. `TruncateEndZeroBudget` and `TruncateStartZeroBudget`
  state the general case.

This version of the library has no centred truncation and no grapheme-cluster segmentation:
`Alignment::Center` only decides how padding spaces are split, and `unicode_pad` always
truncates from the end.

## Model

| member | source | states |
|---|---|---|
| `Width.CharWidth` | src/lib.rs:116 | `char.width().unwrap_or(0)`: the table's width of the char when it has one, and 0 when it has none (also src/lib.rs:142) |
| `Width.StrWidthBounds` | src/lib.rs:120-127 | `StrWidth`, the sum the scan accumulates and the width `self.width()` reports (src/lib.rs:166): no char is wider than the string holding it, and the string has width 0 exactly when all of its chars do |
| `Width.StrWidthConcat` | src/lib.rs:120-127 | the running sum of the scan is additive: the width of a concatenation is the sum of the widths |
| `Width.PrefixWidthStep` | src/lib.rs:120-127 | one scan step: the prefix one char longer is wider by exactly that char's width (`unwrap_or(0)` for a char without width) |
| `Width.SuffixWidthStep` | src/lib.rs:144-147 | one reversed scan step: the suffix one char longer is wider by exactly that char's width |
| `Width.PrefixWidthMonotone` | src/lib.rs:128-130 | prefix width never decreases as the prefix grows, so `take_while` stops at the first prefix that is too wide and never skips one that fits |
| `Width.SuffixWidthAntitone` | src/lib.rs:148-149 | suffix width never decreases as the suffix grows to the left |
| `Width.StrWidthReverse` | src/lib.rs:138-146 | reading the chars in reverse order (`.rev()`) does not change the total width |
| `Truncate.LastFittingPrefix` | src/lib.rs:113-131 | the `scan`/`take_while`/`last` pipeline over the char positions and the end marker returns None exactly when the prefix `s[..i]` the walk starts from is already too wide (never, for the call from `TruncateEnd`); otherwise a cut no earlier than the start, whose width is the width of that prefix, within the bound, with the next longer prefix too wide |
| `Truncate.TruncateEnd` | src/lib.rs:112-133 | `unicode_truncate` returns a prefix of the input with its exact width, which is at most `max_width`; every longer prefix is wider than `max_width` |
| `Truncate.TruncateEndIsLongestFittingPrefix` | src/lib.rs:60-68 | `k` is the length of the returned prefix if and only if `s[..k]` is the longest prefix that fits |
| `Truncate.TruncateEndWhole` | src/lib.rs:117-118 | the whole string comes back, with its true width, if and only if its width is at most `max_width` |
| `Truncate.TruncateEndStopsAtOverflow` | src/lib.rs:67-68 | the char right after the cut would overflow the bound, so it has positive width: trailing zero-width chars are always kept |
| `Truncate.TruncateEndIdempotent` | src/lib.rs:112-133 | truncating the result again with the same bound returns the same slice and width |
| `Truncate.TruncateEndMonotone` | src/lib.rs:128-130 | a larger bound never keeps a shorter prefix or a smaller width |
| `Truncate.TruncateEndZeroBudget` | src/lib.rs:128-131 | with bound 0 the result has width 0 and is the run of zero-width chars at the start, stopping at the first char of positive width |
| `Truncate.LastFittingSuffix` | src/lib.rs:137-150 | the reversed `scan`/`take_while`/`last` pipeline returns None exactly when the last unconsumed char already overflows (or none is left); otherwise a start position whose suffix fits, with the suffix one char longer too wide |
| `Truncate.TruncateStart` | src/lib.rs:136-152 | `unicode_truncate_start` returns a suffix of the input with its exact width, which is at most `max_width`; every longer suffix is wider; `(empty, 0)` when not even the last char fits |
| `Truncate.TruncateStartIsLongestFittingSuffix` | src/lib.rs:74-82 | `s[k..]` is the returned suffix if and only if it is the longest suffix that fits |
| `Truncate.TruncateStartWhole` | src/lib.rs:148-150 | the whole string comes back, with its true width, if and only if its width is at most `max_width` |
| `Truncate.TruncateStartStopsAtOverflow` | src/lib.rs:81-82 | the char right before the kept suffix would overflow the bound, so it has positive width: leading zero-width chars of the suffix are always kept |
| `Truncate.TruncateStartIdempotent` | src/lib.rs:136-152 | truncating the result again with the same bound returns the same slice and width |
| `Truncate.TruncateStartZeroBudget` | src/lib.rs:148-150 | with bound 0 the result has width 0 and is the run of zero-width chars at the end, stopping at the last char of positive width |
| `Truncate.TruncateStartMirrorsEnd` | src/lib.rs:138-146 | truncating from the start equals reversing the string, truncating from the end and reversing back, with the same width |
| `Pad.SaturatingSub` | src/lib.rs:176-181 | `usize::saturating_sub`: the exact difference when it is not negative, 0 otherwise |
| `Pad.Spaces` | src/lib.rs:185-191 | the spaces pushed one at a time: `n` of them, each a space |
| `Pad.Padded` | src/lib.rs:156-193 | what `unicode_pad` returns: a borrowed result is a slice of the input from its start; a newly built one is longer than the end-truncated text by exactly the columns that text falls short of `target_width` (its contents are given by `PaddedLayout`) |
| `Pad.PadAmounts` | src/lib.rs:176-182 | the left and right space counts add up to the shortfall; Left puts none on the left, Right none on the right, Center splits it evenly with the odd space on the right, so the `saturating_sub` never saturates |
| `Pad.Pad` | src/lib.rs:156-193 | the two loops that push spaces around the appended truncated text build exactly the string `Padded` describes, with the same borrowed or newly built tag |
| `Pad.SpacesWidth` | src/lib.rs:185-191 | `n` pushed spaces are `n` columns wide when a space is one column wide |
| `Pad.PaddedKeepsWideInputWithoutTruncation` | src/lib.rs:166-168 | without truncation, a string at least as wide as the target is returned unchanged and borrowed |
| `Pad.PaddedWidthExact` | src/lib.rs:166-192 | when truncation is on or the input is at most `target_width` columns wide, the result is exactly `target_width` columns wide |
| `Pad.PaddedLayout` | src/lib.rs:166-191 | the result is the prefix kept by `unicode_truncate`, with only spaces before and after it; left, right and centred alignment put it at offset 0, at the full shortfall, and at half the shortfall rounded down; this covers every call except a wider input returned untouched without truncation, including an exact fit, which comes back with no spaces (src/lib.rs:166-167) |
| `Pad.PaddedFittingInput` | src/lib.rs:166-176 | when the string fits, the `truncate` flag makes no difference and the whole string is kept between the spaces |
| `Scenarios.TruncateEmpty` | src/lib.rs:201-204 | an empty string gives `("", 0)` for any bound, from either end (also src/lib.rs:234-237) |
| `Scenarios.TruncateZeroWidth` | src/lib.rs:206-210 | `"ab"` and `"你好"` with bound 0 give `("", 0)`, from either end (also src/lib.rs:239-243) |
| `Scenarios.TruncateLessThanLimit` | src/lib.rs:212-216 | `"abc"` and `"你"` with bound 4 come back whole with widths 3 and 2, from either end (also src/lib.rs:245-249) |
| `Scenarios.TruncateAscii` | src/lib.rs:218-220 | on printable ASCII the end cut keeps `min(max_width, len)` chars and the start cut keeps as many of the last chars |
| `Scenarios.TruncateIdeographic` | src/lib.rs:218-228 | on 2-column CJK ideographs, with `n` the most chars that fit (half of `max_width` rounded down, at most the length), the end cut keeps the first `n` chars and the start cut the last `n`, each `2n` columns wide |
| `Scenarios.TruncateAtBoundaryAscii` | src/lib.rs:251-253 | `"boundary"` with bound 5 gives `("bound", 5)` from the end and `("ndary", 5)` from the start |
| `Scenarios.TruncateAtBoundaryWide` | src/lib.rs:218-222 | `"你好吗"` with bound 4 gives `("你好", 4)` from the end and `("好吗", 4)` from the start |
| `Scenarios.TruncateNotBoundary` | src/lib.rs:224-228 | `"你好吗"` with bounds 5, 3, 1 gives `("你好", 4)`, `("你", 2)`, `("", 0)` from the end, and bounds 3, 1 give `("吗", 2)`, `("", 0)` from the start |
| `Scenarios.TruncateEndKeepsZeroWidthChars` | src/lib.rs:67-68 | a combining accent right after the last kept char is kept |
| `Scenarios.TruncateStartKeepsZeroWidthChars` | src/lib.rs:81-82 | a combining accent right before the kept suffix is kept |
| `Scenarios.ControlCharCountsZero` | src/lib.rs:116 | a control char, which has no width, counts as 0 columns |
| `Scenarios.PadZeroWidth` | src/lib.rs:268-272 | `"你好"` padded to 0 gives `""` with truncation and `"你好"` without |
| `Scenarios.PadLessThanLimit` | src/lib.rs:274-278 | `"你"` padded to 4, left-aligned, gives `"你  "` with or without truncation |
| `Scenarios.PadWidthAtBoundary` | src/lib.rs:280-284 | `"你好吗"` padded to 4 gives `"你好"` with truncation and `"你好吗"` without |
| `Scenarios.PadWidthNotBoundary` | src/lib.rs:286-292 | `"你好吗"` padded to 3 and 1 with truncation gives `"你 "` and `" "`, and to 3 without truncation gives `"你好吗"` |
| `Scenarios.PadDocExample` | src/lib.rs:35-37 | the documentation example: `"你好吗"` padded to 5, left-aligned with truncation, gives `"你好 "`, which is 5 columns wide |
| `Scenarios.PadAlignments` | src/lib.rs:178-182 | right alignment puts all spaces first; centred alignment puts the odd space on the right |

## Left out

- The `unicode_width` tables are not part of this model: the per-char width is a parameter.
  `self.width()` at src/lib.rs:166 is taken to be the sum of the char widths.
- UTF-8 layout and byte offsets: cut points are char positions (see above).
- `Cow` borrowing and `String::with_capacity` allocation: only a Borrowed/Owned tag is kept.
- `usize` overflow of the running width sums (src/lib.rs:125, :145): widths are unbounded
  `nat`.
- The `std` feature gate and `no_std` build (src/lib.rs:11, :47, :101), tests/no_std.rs,
  benches/benchmark.rs (a timing harness) and tests/integration.rs (it repeats the unit-test
  scenarios above).
- Pad.PaddedWidthExact: assumes a space is one column wide in the width table (`w(' ') ==
  Some(1)`). The source relies on `unicode_width` for this and does not check it.
- Scenarios: the sample width table is illustrative. It is not the `unicode_width` table. The
  scenario lemmas hold for every width table that agrees with it (`IsSampleTable`).
