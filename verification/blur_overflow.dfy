/** The `BlurOverflowText` component: the configuration check, the resolved
    fade colour, and the two-field state (`textToDraw`, overflow mode) that
    each layout pass's callback updates. */
module BlurOverflow {
  import opened Outcomes
  import opened Ints
  import opened Colors
  import opened Gradients
  import opened Layouts
  import opened DisplayText

  /** How the engine marks truncation: an ellipsis glyph, or a plain cut. */
  datatype Overflow = Ellipsis | Clip

  /** A styled range `[spanStart, spanEnd)` of an annotated string, painted
      with `brush`. */
  datatype Span = Span(spanStart: nat, spanEnd: nat, brush: LinearGradient)

  datatype AnnotatedString = AnnotatedString(text: seq<char>, spans: seq<Span>)

  /** The component's remembered state. */
  datatype State = State(textToDraw: AnnotatedString, overflow: Overflow)

  /** What one call of the layout callback produces: the next state, and the
      layout result handed on to the caller's own `onTextLayout`. */
  datatype Step = Step(state: State, forwarded: LayoutResult)

  /** The outcome of a sequence of layout passes: the final state and every
      result handed on to the caller, in order. */
  datatype Trace = Trace(state: State, forwarded: seq<LayoutResult>)

  /** The inputs the callback closes over: the source text, the resolved fade
      colour and the blur fraction. */
  datatype Config = Config(text: seq<char>, baseColor: Color, blurLineWidth: real)

  /** `require(blurLineWidth in 0f..1f)`: both endpoints are accepted. */
  function CheckBlurLineWidth(blurLineWidth: real): (r: Result<real>)
    ensures r.Success? <==> 0.0 <= blurLineWidth <= 1.0
    ensures r.Success? ==> r.value == blurLineWidth
    ensures r.Failure? ==> r.error == BlurLineWidthOutOfRange
  {
    if 0.0 <= blurLineWidth <= 1.0 then Success(blurLineWidth) else Failure(BlurLineWidthOutOfRange)
  }

  /** The state before any layout pass: the plain source text, no styled
      range, ellipsis truncation. */
  function Initial(text: seq<char>): (s: State)
    ensures s.textToDraw.text == text && s.textToDraw.spans == [] && s.overflow == Ellipsis
  {
    State(AnnotatedString(text, []), Ellipsis)
  }

  /** The last line can be sliced without an exception. */
  predicate CanSlice(r: LayoutResult) {
    |r.lines| >= 1 && 0 <= r.lines[|r.lines| - 1].lineStart <= CutSize(r.lines[|r.lines| - 1].visibleEnd)
  }

  /** A layout pass the callback handles without an exception. */
  predicate PassSucceeds(r: LayoutResult) {
    !r.hasVisualOverflow || CanSlice(r)
  }

  /** The state the overflow branch installs: the prefix run followed by the
      fade run, one gradient range over exactly the fade run, and `Clip`. It
      depends on the layout result and the configuration only. */
  function OverflowState(cfg: Config, r: LayoutResult): (res: Result<State>)
    ensures res.Success? <==> CanSlice(r)
    ensures WellFormed(r) ==> res.Success?
    ensures |r.lines| == 0 ==> res == Failure(LineIndexOutOfBounds(-1))
    ensures res.Success? ==>
      var m := r.lines[|r.lines| - 1];
      var runs := ComputeRuns(cfg.text, m.lineStart, m.visibleEnd).value;
      && res.value.overflow == Clip
      && res.value.textToDraw.text == runs.prefix + runs.fade
      && |res.value.textToDraw.spans| == 1
      && res.value.textToDraw.spans[0].spanStart == |runs.prefix|
      && res.value.textToDraw.spans[0].spanEnd == |res.value.textToDraw.text|
      && res.value.textToDraw.spans[0].brush
         == BlurBrush(cfg.baseColor, cfg.blurLineWidth, r.width as real, m.top, m.bottom)
  {
    var m :- LastLine(r);
    var runs :- ComputeRuns(cfg.text, m.lineStart, m.visibleEnd);
    var brush := BlurBrush(cfg.baseColor, cfg.blurLineWidth, r.width as real, m.top, m.bottom);
    var text := Displayed(runs);
    Success(State(AnnotatedString(text, [Span(|runs.prefix|, |text|, brush)]), Clip))
  }

  /** The `onTextLayout` callback: on visual overflow replace the text to draw
      and switch to `Clip`; otherwise keep the state. Either way the result is
      handed on to the caller's callback. */
  function OnTextLayout(cfg: Config, s: State, r: LayoutResult): (res: Result<Step>)
    ensures res.Success? <==> PassSucceeds(r)
    ensures !r.hasVisualOverflow ==> res == Success(Step(s, r))
    ensures res.Success? ==> res.value.forwarded == r
    ensures r.hasVisualOverflow && res.Success? ==> res.value.state.overflow == Clip
    ensures res.Success? && s.overflow == Clip ==> res.value.state.overflow == Clip
  {
    if r.hasVisualOverflow then
      var next :- OverflowState(cfg, r);
      Success(Step(next, r))
    else
      Success(Step(s, r))
  }

  /** Feeds layout passes to the callback in order, stopping at the first
      exception. */
  function Replay(cfg: Config, s: State, passes: seq<LayoutResult>): (r: Result<Trace>)
    ensures r.Success? <==> forall i :: 0 <= i < |passes| ==> PassSucceeds(passes[i])
    ensures r.Success? ==> r.value.forwarded == passes
    decreases |passes|
  {
    if |passes| == 0 then Success(Trace(s, []))
    else
      var step :- OnTextLayout(cfg, s, passes[0]);
      var rest :- Replay(cfg, step.state, passes[1..]);
      Success(Trace(rest.state, [step.forwarded] + rest.forwarded))
  }

  /** A pass with the same layout result again changes nothing: the overflow
      branch rebuilds from the source text, not from the text drawn so far. */
  lemma OnTextLayoutIdempotent(cfg: Config, s: State, r: LayoutResult)
    requires PassSucceeds(r)
    ensures OnTextLayout(cfg, OnTextLayout(cfg, s, r).value.state, r) == OnTextLayout(cfg, s, r)
  {
  }

  /** Passes without overflow leave the state exactly as it was. */
  lemma {:induction false} ReplayWithoutOverflowKeepsState(cfg: Config, s: State, passes: seq<LayoutResult>)
    requires forall i :: 0 <= i < |passes| ==> !passes[i].hasVisualOverflow
    ensures Replay(cfg, s, passes).Success?
    ensures Replay(cfg, s, passes).value.state == s
    decreases |passes|
  {
    if |passes| > 0 {
      ReplayWithoutOverflowKeepsState(cfg, s, passes[1..]);
    }
  }

  /** The mode ends as `Clip` exactly when it started so or some pass
      overflowed: nothing resets it to `Ellipsis`. */
  lemma {:induction false} ReplayClipIff(cfg: Config, s: State, passes: seq<LayoutResult>)
    requires Replay(cfg, s, passes).Success?
    ensures Replay(cfg, s, passes).value.state.overflow == Clip
        <==> s.overflow == Clip || exists i :: 0 <= i < |passes| && passes[i].hasVisualOverflow
    decreases |passes|
  {
    if |passes| > 0 {
      var step := OnTextLayout(cfg, s, passes[0]).value;
      ReplayClipIff(cfg, step.state, passes[1..]);
      if exists i :: 0 <= i < |passes[1..]| && passes[1..][i].hasVisualOverflow {
        var i :| 0 <= i < |passes[1..]| && passes[1..][i].hasVisualOverflow;
        assert passes[i + 1].hasVisualOverflow;
      }
      if exists i :: 0 <= i < |passes| && passes[i].hasVisualOverflow {
        var i :| 0 <= i < |passes| && passes[i].hasVisualOverflow;
        if i > 0 {
          assert passes[1..][i - 1].hasVisualOverflow;
        }
      }
    }
  }

  /** The final state is the one the last overflowing pass installed. */
  lemma {:induction false} ReplayLastOverflowWins(cfg: Config, s: State, passes: seq<LayoutResult>, k: nat)
    requires Replay(cfg, s, passes).Success?
    requires k < |passes| && passes[k].hasVisualOverflow
    requires forall j :: k < j < |passes| ==> !passes[j].hasVisualOverflow
    ensures OverflowState(cfg, passes[k]).Success?
    ensures Replay(cfg, s, passes).value.state == OverflowState(cfg, passes[k]).value
    decreases |passes|
  {
    var step := OnTextLayout(cfg, s, passes[0]).value;
    if k == 0 {
      ReplayWithoutOverflowKeepsState(cfg, step.state, passes[1..]);
    } else {
      ReplayLastOverflowWins(cfg, step.state, passes[1..], k - 1);
    }
  }

  /** The component: fail fast on an out-of-range blur width, before any
      layout; otherwise resolve the fade colour and run the callback over the
      layout passes, starting from the initial state. */
  function BlurOverflowText(
    text: seq<char>, color: Color, styleColor: Color, ambientColor: Color,
    blurLineWidth: real, passes: seq<LayoutResult>): (res: Result<Trace>)
    ensures !(0.0 <= blurLineWidth <= 1.0) ==> res == Failure(BlurLineWidthOutOfRange)
    ensures 0.0 <= blurLineWidth <= 1.0 ==>
      res == Replay(Config(text, ResolveBaseColor(color, styleColor, ambientColor), blurLineWidth), Initial(text), passes)
  {
    var b :- CheckBlurLineWidth(blurLineWidth);
    var base := ResolveBaseColor(color, styleColor, ambientColor);
    Replay(Config(text, base, b), Initial(text), passes)
  }

  /** Out-of-range widths are rejected whatever the layout passes are. */
  lemma BlurLineWidthRejected(text: seq<char>, c: Color, sc: Color, ac: Color, passes: seq<LayoutResult>)
    ensures BlurOverflowText(text, c, sc, ac, -0.1, passes) == Failure(BlurLineWidthOutOfRange)
    ensures BlurOverflowText(text, c, sc, ac, 1.1, passes) == Failure(BlurLineWidthOutOfRange)
  {
  }

  /** Both endpoints of the range are accepted: with well-formed layout
      passes the component then completes. */
  lemma BlurLineWidthEndpointsAccepted(text: seq<char>, c: Color, sc: Color, ac: Color, passes: seq<LayoutResult>)
    requires forall i :: 0 <= i < |passes| ==> WellFormed(passes[i])
    ensures BlurOverflowText(text, c, sc, ac, 0.0, passes).Success?
    ensures BlurOverflowText(text, c, sc, ac, 1.0, passes).Success?
  {
    forall i | 0 <= i < |passes|
      ensures PassSucceeds(passes[i])
    {
      assert WellFormed(passes[i]);
    }
  }

  /** Text that never overflows is drawn exactly as given, with no gradient
      range, and keeps ellipsis truncation. */
  lemma NoOverflowIdentity(text: seq<char>, c: Color, sc: Color, ac: Color, b: real, passes: seq<LayoutResult>)
    requires 0.0 <= b <= 1.0
    requires forall i :: 0 <= i < |passes| ==> !passes[i].hasVisualOverflow
    ensures BlurOverflowText(text, c, sc, ac, b, passes).Success?
    ensures BlurOverflowText(text, c, sc, ac, b, passes).value.state
         == State(AnnotatedString(text, []), Ellipsis)
  {
    ReplayWithoutOverflowKeepsState(Config(text, ResolveBaseColor(c, sc, ac), b), Initial(text), passes);
  }

  /** One line of "Lorem ipsum dolor sit amet consectetur" whose visible part
      ends after "Lorem ipsum dolor": two more characters are kept, all of the
      line is faded, and the mode becomes `Clip`. */
  lemma LoremScenario(c: Color, sc: Color, ac: Color)
    ensures var text := "Lorem ipsum dolor sit amet consectetur";
      var pass := LayoutResult(true, [LineMetrics(0, 17, 0.0, 20.0)], 300);
      var res := BlurOverflowText(text, c, sc, ac, 0.2, [pass]);
      && res.Success?
      && res.value.state.overflow == Clip
      && res.value.state.textToDraw.text == "Lorem ipsum dolor s"
      && |res.value.state.textToDraw.spans| == 1
      && res.value.state.textToDraw.spans[0].spanStart == 0
      && res.value.state.textToDraw.spans[0].spanEnd == 19
      && res.value.state.textToDraw.spans[0].brush.start.x == 240.0
      && res.value.forwarded == [pass]
  {
  }
}
