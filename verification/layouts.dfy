/** What the text layout engine reports after a layout pass. The engine itself
    (line breaking, measurement, overflow detection) is outside the model; its
    answers are taken as they come. */
module Layouts {
  import opened Outcomes
  import opened Ints
  import opened DisplayText

  /** Metrics of one laid-out line: the offset of its first character, the
      offset just past its last visible character (`getLineEnd(i, true)`), and
      its vertical band. Offsets are Kotlin `Int`s. */
  datatype LineMetrics = LineMetrics(lineStart: Int32, visibleEnd: Int32, top: real, bottom: real)

  /** One layout result: whether the text overflowed, the metrics of each line
      (so `lineCount == |lines|`), and the laid-out width in whole pixels. */
  datatype LayoutResult = LayoutResult(hasVisualOverflow: bool, lines: seq<LineMetrics>, width: nat)

  /** Metrics of line `lineCount - 1`; the engine fails on an index outside
      its lines, which a layout with no lines makes happen. */
  function LastLine(r: LayoutResult): (m: Result<LineMetrics>)
    ensures m.Success? <==> |r.lines| >= 1
    ensures m.Success? ==> m.value in r.lines && m.value == r.lines[|r.lines| - 1]
    ensures m.Failure? ==> m.error == LineIndexOutOfBounds(-1)
  {
    var last := |r.lines| - 1;
    if last < 0 then Failure(LineIndexOutOfBounds(last)) else Success(r.lines[last])
  }

  /** The shape a real engine's answer has: at least one line, and the last
      line starts at a valid offset no later than its visible end. The visible
      end is an offset into a Kotlin `String`, whose length is an `Int`; the
      last clause asks that the `+ 2` of the cut stays in the `Int` range. */
  predicate WellFormed(r: LayoutResult) {
    && |r.lines| >= 1
    && 0 <= r.lines[|r.lines| - 1].lineStart <= r.lines[|r.lines| - 1].visibleEnd
    && r.lines[|r.lines| - 1].visibleEnd <= IntMax - EllipsisReserve
  }
}
