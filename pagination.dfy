/**
 * The reader's pagination engine (main.py, `MainWindow.paginate_current_text`
 * and the ratio <-> page-index mapping of `show_current_page`).
 *
 * The text is cut into slices of at most `capacity` characters, preferring to
 * cut at the last space of the final fifth of the window; each page is its
 * slice with surrounding whitespace stripped. A progress ratio in [0, 1]
 * selects the starting page, rounding half to even as Python's `round` does.
 */
module Pagination {
  import opened Strings

  function Max(a: int, b: int): int { if a >= b then a else b }

  function Min(a: int, b: int): int { if a <= b then a else b }

  // ---------- capacity ----------

  /** `max(20, width // avg_char_w)` with both metrics first clamped to at least 1. */
  function CharsPerLine(width: int, avgCharWidth: int): (r: int)
    ensures r >= 20
    ensures r >= Max(1, width) / Max(1, avgCharWidth)
  {
    Max(20, Max(1, width) / Max(1, avgCharWidth))
  }

  /** `max(3, height // line_h)` with both metrics first clamped to at least 1. */
  function LinesPerPage(height: int, lineSpacing: int): (r: int)
    ensures r >= 3
    ensures r >= Max(1, height) / Max(1, lineSpacing)
  {
    Max(3, Max(1, height) / Max(1, lineSpacing))
  }

  /** The number of characters one page may hold: never below 60 whatever the
      metrics (so the splitter always makes progress), and never below what
      the viewport fits by either dimension. */
  function Capacity(width: int, height: int, avgCharWidth: int, lineSpacing: int): (c: int)
    ensures c >= 60
    ensures c >= 3 * (Max(1, width) / Max(1, avgCharWidth))
    ensures c >= 20 * (Max(1, height) / Max(1, lineSpacing))
  {
    CharsPerLine(width, avgCharWidth) * LinesPerPage(height, lineSpacing)
  }

  // ---------- splitting ----------

  /** `int(capacity * 0.8)`, the distance from the start of a slice to the
      start of the window in which a space is looked for. */
  function Margin(capacity: nat): (r: nat)
    ensures 5 * r <= 4 * capacity < 5 * r + 5
  {
    (4 * capacity) / 5
  }

  /** Where the slice starting at `i` ends: the last space in
      `[min(n, i + Margin), min(i + capacity, n))` if there is one after `i`,
      otherwise the hard end of the window. */
  function SplitPos(text: string, i: nat, capacity: nat): (p: nat)
    requires i < |text| && capacity > 0
    ensures i < p <= Min(i + capacity, |text|)
    ensures p < Min(i + capacity, |text|) ==> text[p] == ' ' && p >= i + Margin(capacity)
  {
    var end := Min(i + capacity, |text|);
    var splitFrom := Min(|text|, i + Margin(capacity));
    var pos := RFind(text, ' ', splitFrom, end);
    if pos == -1 || pos <= i then end else pos
  }

  /** The cut is the LAST space of the search window: no space lies after it
      in the window, and a forced break happens only when the window (past
      `i`) holds no space at all. */
  lemma SplitPosIsLastSpace(text: string, i: nat, capacity: nat)
    requires i < |text| && capacity > 0
    ensures var p := SplitPos(text, i, capacity);
            var end := Min(i + capacity, |text|);
            (p < end ==> forall k :: p < k < end ==> text[k] != ' ') &&
            (p == end ==> forall k :: Max(i + 1, Min(|text|, i + Margin(capacity))) <= k < end ==> text[k] != ' ')
  {
  }

  /** The raw slices `text[i:split_pos]` the loop cuts, from position `i` on. */
  function RawSlices(text: string, i: nat, capacity: nat): (r: seq<string>)
    requires i <= |text| && capacity > 0
    ensures r == [] <==> i == |text|
    decreases |text| - i
  {
    if i == |text| then []
    else
      var p := SplitPos(text, i, capacity);
      [text[i..p]] + RawSlices(text, p, capacity)
  }

  /** Each slice stripped of surrounding whitespace. */
  function StripAll(slices: seq<string>): (r: seq<string>)
    ensures |r| == |slices|
    ensures forall k :: 0 <= k < |r| ==> r[k] == Strip(slices[k])
  {
    seq(|slices|, k requires 0 <= k < |slices| => Strip(slices[k]))
  }

  /** The pages of `text`: the stripped slices, or a single empty page when
      there are none (empty text). */
  function Paginate(text: string, capacity: nat): (pages: seq<string>)
    requires capacity > 0
    ensures pages != []
    ensures text == "" ==> pages == [""]
  {
    var slices := RawSlices(text, 0, capacity);
    if slices == [] then [""] else StripAll(slices)
  }

  /** The `while i < n` loop of `paginate_current_text`, with the
      empty-result fallback. */
  method SplitPages(text: string, capacity: nat) returns (pages: seq<string>)
    requires capacity > 0
    ensures pages == Paginate(text, capacity)
  {
    pages := [];
    var i := 0;
    var n := |text|;
    ghost var done: seq<string> := [];
    while i < n
      invariant 0 <= i <= n
      invariant done + RawSlices(text, i, capacity) == RawSlices(text, 0, capacity)
      invariant pages == StripAll(done)
      decreases n - i
    {
      var end := Min(i + capacity, n);
      var splitFrom := Min(n, i + (4 * capacity) / 5);
      var splitPos := RFind(text, ' ', splitFrom, end);
      if splitPos == -1 || splitPos <= i {
        splitPos := end;
      }
      assert splitPos == SplitPos(text, i, capacity);
      var pageText := Strip(text[i..splitPos]);
      pages := pages + [pageText];
      SlicesStep(done, text, i, capacity);
      done := done + [text[i..splitPos]];
      i := splitPos;
    }
    if pages == [] {
      pages := [""];
    }
  }

  /** One iteration of the loop: the slice it cuts is the head of the
      remaining slices, and its page is the stripped slice. */
  lemma SlicesStep(done: seq<string>, text: string, i: nat, capacity: nat)
    requires i < |text| && capacity > 0
    ensures var p := SplitPos(text, i, capacity);
            done + RawSlices(text, i, capacity) == (done + [text[i..p]]) + RawSlices(text, p, capacity) &&
            StripAll(done + [text[i..p]]) == StripAll(done) + [Strip(text[i..p])]
  {
    var p := SplitPos(text, i, capacity);
    assert RawSlices(text, i, capacity) == [text[i..p]] + RawSlices(text, p, capacity);
  }

  /** The slices reassemble the text: they are contiguous and cover it. */
  lemma {:induction false} SlicesCoverText(text: string, i: nat, capacity: nat)
    requires i <= |text| && capacity > 0
    ensures Concat(RawSlices(text, i, capacity)) == text[i..]
    decreases |text| - i
  {
    if i < |text| {
      var p := SplitPos(text, i, capacity);
      var rest := RawSlices(text, p, capacity);
      assert RawSlices(text, i, capacity) == [text[i..p]] + rest;
      SlicesCoverText(text, p, capacity);
      CoverStep(text, i, p, rest);
    }
  }

  /** A slice followed by slices that cover the rest covers from its start. */
  lemma CoverStep(text: string, i: nat, p: nat, rest: seq<string>)
    requires i <= p <= |text|
    requires Concat(rest) == text[p..]
    ensures Concat([text[i..p]] + rest) == text[i..]
  {
    ConcatAppend([text[i..p]], rest);
    ConcatSingle(text[i..p]);
    assert text[i..] == text[i..p] + text[p..];
  }

  /** Every slice holds between one and `capacity` characters. */
  lemma {:induction false} SliceLengths(text: string, i: nat, capacity: nat)
    requires i <= |text| && capacity > 0
    ensures forall s :: s in RawSlices(text, i, capacity) ==> 0 < |s| <= capacity
    decreases |text| - i
  {
    if i < |text| {
      SliceLengths(text, SplitPos(text, i, capacity), capacity);
    }
  }

  /** Word-boundary rule for a list of slices: every slice but the last is at
      least `Margin` long, and it is either a full forced break of exactly
      `capacity` characters or the next slice starts with the space it was cut
      at. */
  ghost predicate BreaksAtSpaces(r: seq<string>, capacity: nat)
  {
    forall k :: 0 <= k < |r| - 1 ==>
      |r[k]| >= Margin(capacity) && (|r[k]| == capacity || (r[k + 1] != [] && r[k + 1][0] == ' '))
  }

  /** The slices the loop cuts follow the word-boundary rule. */
  lemma {:induction false} SlicesBreakAtSpaces(text: string, i: nat, capacity: nat)
    requires i <= |text| && capacity > 0
    ensures BreaksAtSpaces(RawSlices(text, i, capacity), capacity)
    decreases |text| - i
  {
    if i < |text| {
      var p := SplitPos(text, i, capacity);
      var rest := RawSlices(text, p, capacity);
      var r := RawSlices(text, i, capacity);
      assert r == [text[i..p]] + rest;
      SlicesBreakAtSpaces(text, p, capacity);
      forall k | 0 <= k < |r| - 1
        ensures |r[k]| >= Margin(capacity) && (|r[k]| == capacity || (r[k + 1] != [] && r[k + 1][0] == ' '))
      {
        if k == 0 {
          assert rest != [];
          assert p < |text|;
          assert |r[0]| == p - i;
          if p < Min(i + capacity, |text|) {
            assert rest[0] == text[p..SplitPos(text, p, capacity)];
            assert r[1][0] == text[p] == ' ';
          } else {
            assert |r[0]| == capacity;
          }
        } else {
          assert r[k] == rest[k - 1] && r[k + 1] == rest[k];
        }
      }
    }
  }

  /** Text without spaces is cut only by forced breaks: every slice but the
      last is exactly `capacity` characters long. */
  lemma NoSpaceSlicesAreFull(text: string, capacity: nat)
    requires capacity > 0 && ' ' !in text
    ensures var r := RawSlices(text, 0, capacity);
            forall k :: 0 <= k < |r| - 1 ==> |r[k]| == capacity
  {
    var r := RawSlices(text, 0, capacity);
    SlicesBreakAtSpaces(text, 0, capacity);
    SlicesCoverText(text, 0, capacity);
    forall k | 0 <= k < |r| - 1
      ensures |r[k]| == capacity
    {
      if |r[k]| != capacity {
        assert r[k + 1][0] == ' ';
        ConcatMember(r, k + 1);
        assert false;
      }
    }
  }

  /** A character of a part is a character of the concatenation. */
  lemma {:induction false} ConcatMember(parts: seq<string>, k: nat)
    requires k < |parts| && parts[k] != []
    ensures parts[k][0] in Concat(parts)
  {
    if k < |parts| - 1 {
      ConcatMember(parts[..|parts| - 1], k);
      assert parts[..|parts| - 1][k] == parts[k];
    }
  }

  /** The pages are the stripped slices, one page per slice (and one empty
      page for empty text). */
  lemma PagesAreStrippedSlices(text: string, capacity: nat)
    requires capacity > 0 && text != ""
    ensures var r := RawSlices(text, 0, capacity);
            |Paginate(text, capacity)| == |r| &&
            forall k :: 0 <= k < |r| ==> Paginate(text, capacity)[k] == Strip(r[k])
  {
  }

  // ---------- ratio <-> page index ----------

  /** Python's `round` on a number: the nearest integer, ties to the even one. */
  function RoundHalfEven(x: real): (r: int)
    ensures -0.5 <= x - r as real <= 0.5
    ensures (x - r as real == 0.5 || x - r as real == -0.5) ==> r % 2 == 0
  {
    var f := x.Floor;
    var d := x - f as real;
    if d < 0.5 then f
    else if d > 0.5 then f + 1
    else if f % 2 == 0 then f
    else f + 1
  }

  /** `max(0.0, min(1.0, ratio))`. */
  function Clamp01(ratio: real): (r: real)
    ensures 0.0 <= r <= 1.0
    ensures 0.0 <= ratio <= 1.0 ==> r == ratio
  {
    if ratio < 0.0 then 0.0 else if ratio > 1.0 then 1.0 else ratio
  }

  /** The page a progress ratio selects among `count` pages: 0 for a single
      page, otherwise the clamped ratio scaled to the last index and rounded
      half to even. */
  function StartIndex(count: nat, ratio: real): (idx: int)
    requires count >= 1
    ensures 0 <= idx < count
    ensures count == 1 ==> idx == 0
  {
    if count == 1 then 0
    else
      var x := Clamp01(ratio) * (count - 1) as real;
      assert x <= (count - 1) as real;
      RoundHalfEven(x)
  }

  /** The progress ratio of page `idx` among `count` pages: 0 for a single
      page, otherwise `idx / (count - 1)`. */
  function RatioOf(idx: int, count: nat): (ratio: real)
    requires 0 <= idx < count
    ensures 0.0 <= ratio <= 1.0
    ensures idx == 0 ==> ratio == 0.0
    ensures count > 1 && idx == count - 1 ==> ratio == 1.0
  {
    if count == 1 then 0.0 else idx as real / (count - 1) as real
  }

  /** Rounding an integer gives it back. */
  lemma RoundInteger(n: int)
    ensures RoundHalfEven(n as real) == n
  {
  }

  /** Index -> ratio -> index is the identity: re-deriving the page from the
      ratio stored for it lands on the same page, as long as the page count
      is unchanged. */
  lemma IndexRatioRoundTrip(idx: int, count: nat)
    requires 0 <= idx < count
    ensures StartIndex(count, RatioOf(idx, count)) == idx
  {
    if count > 1 {
      var ratio := RatioOf(idx, count);
      var m := (count - 1) as real;
      assert ratio * m == idx as real;
      RoundInteger(idx);
    }
  }

  /** Ratio -> index -> ratio moves the (clamped) ratio by at most half a page. */
  lemma RatioIndexRoundTrip(ratio: real, count: nat)
    requires count > 1
    ensures var back := RatioOf(StartIndex(count, ratio), count);
            var m := (count - 1) as real;
            -0.5 <= (back - Clamp01(ratio)) * m <= 0.5
  {
    var m := (count - 1) as real;
    var idx := StartIndex(count, ratio);
    var back := RatioOf(idx, count);
    assert back * m == idx as real;
    assert (back - Clamp01(ratio)) * m == idx as real - Clamp01(ratio) * m;
  }

  /** Opening at ratio 0.5: on ten pages that is page index 4 (9 * 0.5 = 4.5
      rounds to the even 4), on twenty pages index 10 (9.5 rounds to the even
      10). These are first openings from a stored 0.5, not a resize. */
  lemma HalfwayExamples()
    ensures StartIndex(10, 0.5) == 4
    ensures StartIndex(20, 0.5) == 10
  {
  }

  /** Showing a page stores that page's own ratio, so a later resize starts
      from the quantised ratio and not from the ratio first requested: ratio
      0.5 on ten pages lands on index 4, which stores 4/9, and re-paginating
      to twenty pages lands on index 8 (19 * 4/9 = 8.44...), not 10. */
  lemma ResizeStartsFromShownPage()
    ensures StartIndex(10, 0.5) == 4
    ensures RatioOf(4, 10) == 4.0 / 9.0
    ensures StartIndex(20, RatioOf(StartIndex(10, 0.5), 10)) == 8
  {
    HalfwayExamples();
    var x := Clamp01(4.0 / 9.0) * 19.0;
    assert x == 76.0 / 9.0;
    assert x.Floor == 8;
  }
}
