/** The colour the fade starts from. A colour is either the framework's
    `Unspecified` sentinel or a concrete colour with an alpha channel. */
module Colors {

  datatype Color = Unspecified | Specified(id: nat, alpha: real)

  /** A concrete colour's alpha lies in [0, 1]; the sentinel has none to check. */
  predicate Valid(c: Color) {
    c.Specified? ==> 0.0 <= c.alpha <= 1.0
  }

  /** Alpha channel of a colour. The framework defines `Unspecified` with all
      components zero, so its alpha reads as 0. */
  function AlphaOf(c: Color): (a: real)
    ensures Valid(c) ==> 0.0 <= a <= 1.0
  {
    match c
    case Unspecified => 0.0
    case Specified(_, alpha) => alpha
  }

  /** Reference definition: the first specified colour of a priority list,
      `Unspecified` when there is none. */
  function FirstSpecified(cs: seq<Color>): Color
  {
    if |cs| == 0 then Unspecified
    else if cs[0].Specified? then cs[0]
    else FirstSpecified(cs[1..])
  }

  /** Three-tier resolution of the fade's base colour: the explicit `color`
      argument, else the style's colour, else the ambient content colour. */
  function ResolveBaseColor(explicit: Color, style: Color, ambient: Color): (r: Color)
    ensures r == explicit || r == style || r == ambient
    ensures r.Unspecified? <==> explicit.Unspecified? && style.Unspecified? && ambient.Unspecified?
    ensures ambient.Specified? ==> r.Specified?
    ensures explicit.Specified? ==> r == explicit
    ensures Valid(explicit) && Valid(style) && Valid(ambient) ==> Valid(r)
  {
    if explicit != Unspecified then explicit
    else if style != Unspecified then style
    else ambient
  }

  /** The resolution takes the first specified colour in priority order. */
  lemma ResolveIsFirstSpecified(explicit: Color, style: Color, ambient: Color)
    ensures ResolveBaseColor(explicit, style, ambient) == FirstSpecified([explicit, style, ambient])
  {
    var cs := [explicit, style, ambient];
    assert cs[1..] == [style, ambient];
    assert cs[1..][1..] == [ambient];
    assert FirstSpecified([ambient]) == ambient by {
      assert [ambient][1..] == [];
    }
  }
}
