/** The characters shown after an overflow: the source text cut just past the
    last line's visible end, split into an untouched prefix and the fade run
    that carries the gradient. */
module DisplayText {
  import opened Outcomes
  import opened Ints
  import opened Texts

  /** Characters the engine reserves for its ellipsis glyph; the fade reclaims
      them for real text. */
  const EllipsisReserve: int := 2

  /** `visible = text.take(size)`, `prefix = visible.take(start)`,
      `fade = visible.takeLast(size - start)`. */
  datatype Runs = Runs(visible: seq<char>, prefix: seq<char>, fade: seq<char>)

  /** The character count the text is cut to: `visibleEnd + 2` in Kotlin
      `Int` arithmetic, which wraps to a negative count for the two largest
      visible ends. */
  function CutSize(visibleEnd: Int32): (size: Int32)
    ensures visibleEnd <= IntMax - EllipsisReserve ==> size == visibleEnd + EllipsisReserve
    ensures visibleEnd > IntMax - EllipsisReserve ==> size < 0 && size == visibleEnd + EllipsisReserve - 0x1_0000_0000
  {
    Wrap(visibleEnd + EllipsisReserve)
  }

  /** The displayed text: the prefix run followed by the fade run. */
  function Displayed(runs: Runs): seq<char> {
    runs.prefix + runs.fade
  }

  /** Slices `text` for a last line starting at `start` whose visible end is
      `visibleEnd`, failing where Kotlin's `take`/`takeLast` would throw. */
  function ComputeRuns(text: seq<char>, start: Int32, visibleEnd: Int32): (r: Result<Runs>)
    ensures r.Success? <==> 0 <= start <= CutSize(visibleEnd)
    ensures CutSize(visibleEnd) < 0 ==> r == Failure(NegativeCount(CutSize(visibleEnd)))
    ensures 0 <= CutSize(visibleEnd) && start < 0 ==> r == Failure(NegativeCount(start))
    ensures 0 <= CutSize(visibleEnd) < start ==> r == Failure(NegativeCount(CutSize(visibleEnd) - start))
    ensures r.Success? ==>
      var size := CutSize(visibleEnd);
      && IsPrefix(r.value.visible, text) && |r.value.visible| == Min(size, |text|)
      && IsPrefix(r.value.prefix, r.value.visible) && |r.value.prefix| == Min(start, |r.value.visible|)
      && IsSuffix(r.value.fade, r.value.visible) && |r.value.fade| == Min(size - start, |r.value.visible|)
  {
    var size := CutSize(visibleEnd);
    var visible :- Take(text, size);
    var prefix :- Take(visible, start);
    var fade :- TakeLast(visible, Wrap(size - start));
    Success(Runs(visible, prefix, fade))
  }

  /** For a well-formed last line the slicing never throws, and the `takeLast`
      count is at least 2, so the fade run keeps up to two characters more
      than the line's visible end. */
  lemma WellFormedNeverFails(text: seq<char>, start: Int32, visibleEnd: Int32)
    requires 0 <= start <= visibleEnd <= IntMax - EllipsisReserve
    ensures ComputeRuns(text, start, visibleEnd).Success?
    ensures CutSize(visibleEnd) - start >= 2
    ensures |ComputeRuns(text, start, visibleEnd).value.fade| >= Min(2, |text|)
  {
  }

  /** When the cut lies inside the text, the two runs tile `text[..size]`
      exactly: the prefix is `text[..start]`, the fade run `text[start..size]`,
      and nothing longer than the text is shown. */
  lemma RunsTileCut(text: seq<char>, start: Int32, visibleEnd: Int32)
    requires 0 <= start <= visibleEnd <= IntMax - EllipsisReserve
    requires CutSize(visibleEnd) <= |text|
    ensures var runs := ComputeRuns(text, start, visibleEnd).value;
      && runs.prefix == text[..start]
      && runs.fade == text[start..CutSize(visibleEnd)]
      && Displayed(runs) == text[..CutSize(visibleEnd)]
      && |Displayed(runs)| <= |text|
  {
  }

  /** When the cut runs past the end of the text and the last line does not
      start at 0, the fade run is a suffix of the whole text that starts
      before the prefix ends: characters of the prefix are shown twice and the
      displayed text is longer than the source. */
  lemma ClampedRunsOverlap(text: seq<char>, start: Int32, visibleEnd: Int32)
    requires 0 < start <= visibleEnd <= IntMax - EllipsisReserve
    requires CutSize(visibleEnd) > |text| && start <= |text|
    ensures var runs := ComputeRuns(text, start, visibleEnd).value;
      var from := |text| - Min(CutSize(visibleEnd) - start, |text|);
      && runs.prefix == text[..start]
      && runs.fade == text[from..]
      && from < start
      && |Displayed(runs)| == start + Min(CutSize(visibleEnd) - start, |text|)
      && |Displayed(runs)| > |text|
  {
  }

  /** For a well-formed last line the displayed text is longer than the source
      exactly when the cut runs past a non-empty text and the line does not
      start at 0. */
  lemma DisplayExceedsTextIff(text: seq<char>, start: Int32, visibleEnd: Int32)
    requires 0 <= start <= visibleEnd <= IntMax - EllipsisReserve
    ensures |Displayed(ComputeRuns(text, start, visibleEnd).value)| > |text|
        <==> CutSize(visibleEnd) > |text| && 0 < start && |text| > 0
  {
    var size := CutSize(visibleEnd);
    var runs := ComputeRuns(text, start, visibleEnd).value;
    if size <= |text| {
      RunsTileCut(text, start, visibleEnd);
    } else if 0 < start <= |text| {
      ClampedRunsOverlap(text, start, visibleEnd);
    }
  }

  /** A line starting at offset 0 shows exactly the cut text, all of it faded. */
  lemma FirstLineShowsCut(text: seq<char>, visibleEnd: Int32)
    requires 0 <= visibleEnd <= IntMax - EllipsisReserve
    ensures var runs := ComputeRuns(text, 0, visibleEnd).value;
      runs.prefix == [] && runs.fade == runs.visible && Displayed(runs) == Take(text, CutSize(visibleEnd)).value
  {
  }

  /** A concrete overlap: ten characters, last line `[5, 9)`. The cut would be
      11 characters, so the fade run is the last six characters and `e` is
      shown twice. */
  lemma DuplicationExample()
    ensures Displayed(ComputeRuns("abcdefghij", 5, 9).value) == "abcdeefghij"
  {
  }

  /** A visible end within two of the largest `Int` makes `size` wrap to a
      negative count, so `text.take(size)` throws whatever the text is. */
  lemma CutOverflowFails(text: seq<char>, start: Int32, visibleEnd: Int32)
    requires visibleEnd > IntMax - EllipsisReserve
    ensures ComputeRuns(text, start, visibleEnd)
         == Failure(NegativeCount(visibleEnd + EllipsisReserve - 0x1_0000_0000))
  {
  }

  /** A concrete wrap: visible end 2147483646 gives `size == Int.MIN_VALUE`. */
  lemma CutOverflowExample()
    ensures ComputeRuns("abc", 0, 2147483646) == Failure(NegativeCount(-2147483648))
  {
  }
}
