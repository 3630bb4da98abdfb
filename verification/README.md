# BlurOverflowText, modelled in Dafny

`BlurOverflowText` is a Jetpack Compose text component. When text overflows
its `maxLines`, the component does not show an ellipsis. It paints the tail of
the last visible line with a linear gradient that fades to transparent. The
logic sits in the `onTextLayout` callback of the wrapped `Text`. When a layout
pass reports visual overflow, the callback does three things:

- It cuts the source text at `getLineEnd(last, true) + 2`.
- It splits the cut into a plain prefix (everything before the last line) and
  a fade run carrying the gradient brush.
- It switches the overflow mode from `Ellipsis` to `Clip`.

This project models that logic with pure functions over immutable
datatypes:

- `Outcomes`: the exceptions the code can raise, carried by a `Result`
  datatype instead of being thrown.
- `Ints`: Kotlin's 32-bit `Int` and the wrap-around of its arithmetic.
- `Texts`: Kotlin's `String.take` and `String.takeLast`, including the
  clamping to the string length and the `IllegalArgumentException` for a
  negative count. Element-by-element reference definitions are proved equal
  to both.
- `Colors`: the three-tier choice of the fade's base colour (explicit colour,
  then style colour, then ambient content colour). It is proved equal to a
  first-specified-of-a-list reference.
- `Gradients`: the gradient's x-span `[width − width·b, width]` and its five
  alpha stops, computed over reals.
- `Layouts`: the layout engine's answer as an abstract record. It has the
  overflow flag, per-line metrics (`lineCount` is the number of lines) and the
  width. The offsets are arbitrary Kotlin `Int`s. `WellFormed` names the shape
  a real engine delivers: at least one line, `0 ≤ lineStart ≤ visibleEnd` on
  the last line, and a visible end that leaves room for the `+ 2` within the
  `Int` range.
- `DisplayText`: the size/start slicing of the overflow branch, with the
  `+ 2` in `Int` arithmetic, and what the prefix and fade runs are in each
  case.
- `BlurOverflow`: the `require` check on `blurLineWidth` and the remembered
  state (`textToDraw`, overflow mode). `OnTextLayout` is the callback as one
  state transition. `Replay` feeds a sequence of layout passes to it and
  stops at the first exception.
  `BlurOverflowText` is the whole component.

### Behaviour worth knowing

- **The displayed text can be longer than the source.** The fade run is
  `ellipsisText.takeLast(size - start)` (BlurOverflowText.kt:113), taken from
  the text after it has been clamped to `min(size, |text|)` (line 92). When the
  cut runs past the end of the text and the last line does not start at 0, the
  fade run repeats characters of the prefix. `DisplayText.DisplayExceedsTextIff`
  gives the exact condition. `DisplayText.DuplicationExample` shows
  `"abcdefghij"` with last line `[5, 9)` displayed as `"abcdeefghij"`.
- **The stops are non-increasing only when `a ≥ 1/3`.** The code's stops are
  `0.9a, 0.3a, 0.1, 0.1, 0` for a base alpha `a` (lines 101-105). For a fainter
  base the fixed 0.1 plateau is brighter than the second stop
  (`Gradients.StopsNonIncreasingIff`).
- **`getLineEnd`'s second argument is `visibleEnd`.** The call at line 88
  passes `true`, so the offset is just past the last visible character of the
  line. The model takes the value as reported and names it `visibleEnd`.
- **The mode stays `Ellipsis` until a pass overflows** (lines 64 and 116).
  No pass sets it back.
- **`size` is an `Int`.** `getLineEnd(…) + 2` wraps to a negative count when
  the visible end is within two of `Int.MAX_VALUE`, and `take` then throws
  (`DisplayText.CutOverflowFails`).

## Model

| member | source | states |
|---|---|---|
| Ints.Wrap | bluroverflowtext/src/main/java/com/idapgroup/bluroverflowtext/BlurOverflowText.kt:88 | The result is in the `Int` range and congruent to the mathematical value modulo 2^32. It equals the value when that is in range, and is the value minus 2^32 just above the range. |
| Texts.Take | bluroverflowtext/src/main/java/com/idapgroup/bluroverflowtext/BlurOverflowText.kt:92 | `take(n)` fails exactly when n < 0. Otherwise it returns a prefix of the string of length `min(n, |s|)`. |
| Texts.TakeLast | bluroverflowtext/src/main/java/com/idapgroup/bluroverflowtext/BlurOverflowText.kt:113 | `takeLast(n)` fails exactly when n < 0. Otherwise it returns a suffix of the string of length `min(n, |s|)`. |
| Texts.TakeMatchesRef | bluroverflowtext/src/main/java/com/idapgroup/bluroverflowtext/BlurOverflowText.kt:92 | `take` equals copying elements one at a time from the front, for every non-negative count. |
| Texts.TakeLastMatchesRef | bluroverflowtext/src/main/java/com/idapgroup/bluroverflowtext/BlurOverflowText.kt:113 | `takeLast` equals copying elements one at a time from the back, for every non-negative count. |
| Texts.TakeThenTakeLast | bluroverflowtext/src/main/java/com/idapgroup/bluroverflowtext/BlurOverflowText.kt:96-113 | For `0 ≤ k ≤ |s|`, `take(k)` followed by `takeLast(|s| − k)` rebuilds `s`. |
| Texts.TakeTake | bluroverflowtext/src/main/java/com/idapgroup/bluroverflowtext/BlurOverflowText.kt:92-96 | Taking `n` and then `m` elements is the same as taking `min(n, m)`. |
| Colors.ResolveBaseColor | bluroverflowtext/src/main/java/com/idapgroup/bluroverflowtext/BlurOverflowText.kt:65-69 | The fade colour is one of the three candidates. An explicit colour always wins. The result is `Unspecified` only when all three are. It is specified whenever the ambient colour is. |
| Colors.ResolveIsFirstSpecified | bluroverflowtext/src/main/java/com/idapgroup/bluroverflowtext/BlurOverflowText.kt:65-69 | The fade colour is the first specified colour of `[explicit, style, ambient]`. |
| Colors.AlphaOf | bluroverflowtext/src/main/java/com/idapgroup/bluroverflowtext/BlurOverflowText.kt:101-102 | A valid colour's alpha lies in `[0, 1]`; the `Unspecified` sentinel reads as alpha 0. |
| Gradients.StopAlphas | bluroverflowtext/src/main/java/com/idapgroup/bluroverflowtext/BlurOverflowText.kt:100-106 | There are five stops. The third and fourth are equal and the last is 0. The second is no brighter than the first. Every stop is a valid alpha when the base alpha is. |
| Gradients.StopsNonIncreasingIff | bluroverflowtext/src/main/java/com/idapgroup/bluroverflowtext/BlurOverflowText.kt:100-106 | The stops never increase exactly when the base alpha is at least 1/3. |
| Gradients.BlurBrush | bluroverflowtext/src/main/java/com/idapgroup/bluroverflowtext/BlurOverflowText.kt:99-109 | All five stops use the base colour. The brush ends at `(width, bottom)` and starts at height `top`. The x-span has length `width·b`. For `0 ≤ b ≤ 1` and `width ≥ 0` the span lies in `[0, width]`. |
| Gradients.BrushAlphas | bluroverflowtext/src/main/java/com/idapgroup/bluroverflowtext/BlurOverflowText.kt:100-106 | The brush's stop alphas are the five stop alphas of the base colour's alpha. |
| Gradients.SpanEndpoints | bluroverflowtext/src/main/java/com/idapgroup/bluroverflowtext/BlurOverflowText.kt:107-108 | At `b = 0` the span collapses to the right edge. At `b = 1` it starts at x = 0. |
| Gradients.DefaultSpanExample | bluroverflowtext/src/main/java/com/idapgroup/bluroverflowtext/BlurOverflowText.kt:107-108 | For width 300, the default `b = 0.2` spans `[240, 300]`. |
| Layouts.LastLine | bluroverflowtext/src/main/java/com/idapgroup/bluroverflowtext/BlurOverflowText.kt:88-91 | The metrics of line `lineCount − 1` exist exactly when there is a line. With no lines the query fails. |
| DisplayText.CutSize | bluroverflowtext/src/main/java/com/idapgroup/bluroverflowtext/BlurOverflowText.kt:88 | The cut is `visibleEnd + 2` when that fits in an `Int`. For the two largest visible ends it wraps to a negative count. |
| DisplayText.ComputeRuns | bluroverflowtext/src/main/java/com/idapgroup/bluroverflowtext/BlurOverflowText.kt:88-113 | The slicing succeeds exactly when `0 ≤ start ≤ size`. Each failure names the count that `take`/`takeLast` rejected. On success there are three runs. `visible` is a prefix of the text of length `min(size, |text|)`. The prefix run is a prefix of `visible` of length `min(start, |visible|)`. The fade run is a suffix of `visible` of length `min(size − start, |visible|)`. |
| DisplayText.WellFormedNeverFails | bluroverflowtext/src/main/java/com/idapgroup/bluroverflowtext/BlurOverflowText.kt:88-113 | For `0 ≤ start ≤ visibleEnd ≤ Int.MAX_VALUE − 2` the slicing never fails. The `takeLast` count is at least 2. |
| DisplayText.RunsTileCut | bluroverflowtext/src/main/java/com/idapgroup/bluroverflowtext/BlurOverflowText.kt:92-113 | When `size ≤ |text|`, the prefix is `text[..start]` and the fade run is `text[start..size]`. Together they are exactly `text.take(size)`, which is no longer than the text. |
| DisplayText.ClampedRunsOverlap | bluroverflowtext/src/main/java/com/idapgroup/bluroverflowtext/BlurOverflowText.kt:92-113 | When `size > |text|` and `0 < start ≤ |text|`, the fade run is a suffix of the text that begins before `start`. The displayed length is `start + min(size − start, |text|)`, which exceeds `|text|`. |
| DisplayText.DisplayExceedsTextIff | bluroverflowtext/src/main/java/com/idapgroup/bluroverflowtext/BlurOverflowText.kt:92-113 | Take a well-formed last line. The display is longer than the text exactly when `size > |text|`, `start > 0` and the text is non-empty. |
| DisplayText.FirstLineShowsCut | bluroverflowtext/src/main/java/com/idapgroup/bluroverflowtext/BlurOverflowText.kt:92-113 | A last line starting at 0 has an empty prefix. It displays `text.take(size)`, all of it in the fade run. |
| DisplayText.DuplicationExample | bluroverflowtext/src/main/java/com/idapgroup/bluroverflowtext/BlurOverflowText.kt:92-113 | `"abcdefghij"` with last line `[5, 9)` is displayed as `"abcdeefghij"`. |
| DisplayText.CutOverflowFails | bluroverflowtext/src/main/java/com/idapgroup/bluroverflowtext/BlurOverflowText.kt:88-92 | A visible end within two of `Int.MAX_VALUE` makes the slicing fail with the wrapped negative count, whatever the text and start. |
| DisplayText.CutOverflowExample | bluroverflowtext/src/main/java/com/idapgroup/bluroverflowtext/BlurOverflowText.kt:88-92 | Visible end 2147483646 fails with count −2147483648. |
| BlurOverflow.CheckBlurLineWidth | bluroverflowtext/src/main/java/com/idapgroup/bluroverflowtext/BlurOverflowText.kt:60-62 | The width is accepted exactly when it lies in `[0, 1]`, endpoints included. Otherwise the result is the range error. |
| BlurOverflow.Initial | bluroverflowtext/src/main/java/com/idapgroup/bluroverflowtext/BlurOverflowText.kt:63-64 | The initial state draws the plain source text with no styled range, in `Ellipsis` mode. |
| BlurOverflow.OverflowState | bluroverflowtext/src/main/java/com/idapgroup/bluroverflowtext/BlurOverflowText.kt:86-116 | Succeeds exactly when the last line can be sliced, which always holds for a well-formed layout. With no lines it fails. On success the mode is `Clip` and the text is the prefix run followed by the fade run. One gradient range covers exactly the fade run, and its brush is built from the last line's band and the layout width. |
| BlurOverflow.OnTextLayout | bluroverflowtext/src/main/java/com/idapgroup/bluroverflowtext/BlurOverflowText.kt:85-118 | A pass without overflow leaves the state unchanged. A pass with overflow sets `Clip`. No pass turns `Clip` back into `Ellipsis`. The layout result is forwarded to the caller's callback on every successful pass. |
| BlurOverflow.OnTextLayoutIdempotent | bluroverflowtext/src/main/java/com/idapgroup/bluroverflowtext/BlurOverflowText.kt:86-116 | Repeating a pass with the same layout result yields the same state and forwarded result. |
| BlurOverflow.Replay | bluroverflowtext/src/main/java/com/idapgroup/bluroverflowtext/BlurOverflowText.kt:85-118 | A sequence of passes completes exactly when every pass either has no overflow or has a last line that can be sliced. A completed sequence hands every layout result to the caller's `onTextLayout`, in order, overflow or not. |
| BlurOverflow.ReplayWithoutOverflowKeepsState | bluroverflowtext/src/main/java/com/idapgroup/bluroverflowtext/BlurOverflowText.kt:86 | Passes without overflow always complete and leave both state fields unchanged. |
| BlurOverflow.ReplayClipIff | bluroverflowtext/src/main/java/com/idapgroup/bluroverflowtext/BlurOverflowText.kt:64-116 | After any completed sequence of passes, the mode is `Clip` exactly when it started as `Clip` or some pass overflowed. |
| BlurOverflow.ReplayLastOverflowWins | bluroverflowtext/src/main/java/com/idapgroup/bluroverflowtext/BlurOverflowText.kt:95-116 | The final state is the one installed by the last overflowing pass, whatever came before. |
| BlurOverflow.BlurOverflowText | bluroverflowtext/src/main/java/com/idapgroup/bluroverflowtext/BlurOverflowText.kt:41-69 | A blur width outside `[0, 1]` is rejected before any layout pass is consulted. Otherwise the passes run from the initial state, with the resolved fade colour. |
| BlurOverflow.BlurLineWidthRejected | bluroverflowtext/src/main/java/com/idapgroup/bluroverflowtext/BlurOverflowText.kt:57-62 | −0.1 and 1.1 are rejected for any layout passes. |
| BlurOverflow.BlurLineWidthEndpointsAccepted | bluroverflowtext/src/main/java/com/idapgroup/bluroverflowtext/BlurOverflowText.kt:57-62 | 0.0 and 1.0 are accepted, and the component then completes whenever every pass is well-formed. |
| BlurOverflow.NoOverflowIdentity | bluroverflowtext/src/main/java/com/idapgroup/bluroverflowtext/BlurOverflowText.kt:63-86 | Text that never overflows is drawn exactly as given, with no gradient range, in `Ellipsis` mode. |
| BlurOverflow.LoremScenario | bluroverflowtext/src/main/java/com/idapgroup/bluroverflowtext/BlurOverflowText.kt:86-118 | Take one overflowing line of "Lorem ipsum dolor sit amet consectetur" that is visible up to offset 17. It displays "Lorem ipsum dolor s", faded from 0 to 19, with the gradient starting at x = 240, in `Clip` mode, and forwards the pass. |

## Left out

- The `Text` call, its `Modifier`, and the font, size, decoration, alignment, line-height and line-count parameters it passes straight through: they go to a library that is not part of this model.
- The layout engine itself (line breaking, measurement, the `hasVisualOverflow` decision). Its answers are inputs; `WellFormed` only states what a real engine delivers.
- Compose recomposition and `remember`/`mutableStateOf`: scheduling and re-entrancy are not modelled, only the explicit state transitions. `remember` has no key, so a changed `text` argument would not reset `textToDraw`. The model's `Replay` runs under one fixed configuration and does not cover that case.
- The second layout pass that a state change triggers is not computed from the new `textToDraw`. It is one more arbitrary layout result in the sequence given to `Replay`.
- Float arithmetic: the gradient geometry and the alphas are reals, so rounding and NaN are not modelled. In particular, a NaN `blurLineWidth`, which fails the range check in Kotlin, has no counterpart.
- Colours are abstract: an id and an alpha. `Colors.AlphaOf` reads the `Unspecified` sentinel's alpha as 0, as the framework defines it. A gradient stop is kept as the pair (base colour, alpha) rather than a computed colour, and `Brush` rasterisation is not modelled.
- Strings are Dafny `seq<char>`, whose elements are Unicode scalar values. A Kotlin `String` is a sequence of UTF-16 code units, and the layout offsets count code units. The model reads one element as one code unit, so it covers text without characters outside the Basic Multilingual Plane. A cut that splits a surrogate pair, leaving a lone surrogate, cannot be represented.
- The exception messages of `require`, `take` and `takeLast`: the error datatype keeps the kind and the offending count only.
- The sample application (`MainActivity`): a demo screen with no logic of its own.
