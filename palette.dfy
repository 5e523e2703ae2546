/** Palette generation of the colour service (backend/src/services/palette.ts).
    The hue and lightness arithmetic of rotateHue, lightenDarken and toHsl
    is floating point and stays opaque: the three functions are values of
    `HslOps`, about which nothing is assumed. */
module Palette {
  import opened Wrappers
  import opened Js
  import Color

  /** The `{ h, s, l }` record that toHsl returns. */
  datatype Hsl = Hsl(h: int, s: real, l: real)

  /** rotateHue(rgb, degrees), lightenDarken(rgb, delta) and toHsl(rgb). */
  datatype HslOps = HslOps(
    rotateHue: (seq<int>, int) -> seq<int>,
    lightenDarken: (seq<int>, int) -> seq<int>,
    toHsl: seq<int> -> Hsl)

  datatype PaletteColor = PaletteColor(hex: string, hsl: Hsl)

  datatype Palette = Palette(scheme: string, colors: seq<PaletteColor>)

  /** parseHex's "Invalid hex" and generatePalette's "Unknown scheme". */
  datatype PaletteError = InvalidHex | UnknownScheme

  /** listSchemes: the five scheme names, in this order. */
  function ListSchemes(): (r: seq<string>)
    ensures |r| == 5
    ensures forall i, j :: 0 <= i < j < |r| ==> r[i] != r[j]
  {
    ["complementary", "analogous", "triadic", "tetradic", "monochromatic"]
  }

  /** wrap: the scheme name, and every colour with its hex and HSL forms. */
  function Wrap(name: string, colors: seq<seq<int>>, ops: HslOps): (p: Palette)
    ensures p.scheme == name && |p.colors| == |colors|
    ensures forall i :: 0 <= i < |colors| ==>
              p.colors[i] == PaletteColor(Color.ToHex(colors[i]), ops.toHsl(colors[i]))
  {
    if colors == [] then Palette(name, [])
    else
      var rest := Wrap(name, colors[1..], ops);
      Palette(name, [PaletteColor(Color.ToHex(colors[0]), ops.toHsl(colors[0]))] + rest.colors)
  }

  function Complementary(base: seq<int>, ops: HslOps): Palette {
    var comp := ops.rotateHue(base, 180);
    Wrap("complementary", [base, comp], ops)
  }

  function Analogous(base: seq<int>, ops: HslOps): Palette {
    Wrap("analogous", [ops.rotateHue(base, -30), base, ops.rotateHue(base, 30)], ops)
  }

  function Triadic(base: seq<int>, ops: HslOps): Palette {
    Wrap("triadic", [base, ops.rotateHue(base, 120), ops.rotateHue(base, 240)], ops)
  }

  function Tetradic(base: seq<int>, ops: HslOps): Palette {
    Wrap("tetradic", [base, ops.rotateHue(base, 90), ops.rotateHue(base, 180), ops.rotateHue(base, 270)], ops)
  }

  function Monochromatic(base: seq<int>, ops: HslOps): Palette {
    Wrap("monochromatic", [ops.lightenDarken(base, -30), base, ops.lightenDarken(base, 20), ops.lightenDarken(base, 40)], ops)
  }

  /** generatePalette: the base colour is parsed first, so an invalid base
      fails whatever the scheme; then the scheme picks the helper. */
  function GeneratePalette(baseHex: string, scheme: string, ops: HslOps): (r: Result<Palette, PaletteError>)
    ensures r.Success? ==> Color.ParseHex(baseHex).Success? && scheme in ListSchemes() && r.value.scheme == scheme
  {
    var parsed := Color.ParseHex(baseHex);
    if parsed.Failure? then Failure(InvalidHex)
    else
      var p := Dispatch(scheme, parsed.value, ops);
      if p.None? then Failure(UnknownScheme) else Success(p.value)
  }

  /** The `switch (scheme)`; None is the default branch. */
  function Dispatch(scheme: string, base: seq<int>, ops: HslOps): (p: Option<Palette>)
    ensures p.Some? <==> scheme in ListSchemes()
    ensures p.Some? ==> p.value.scheme == scheme && |p.value.colors| == SizeOf(scheme)
  {
    if scheme == "complementary" then Some(Complementary(base, ops))
    else if scheme == "analogous" then Some(Analogous(base, ops))
    else if scheme == "triadic" then Some(Triadic(base, ops))
    else if scheme == "tetradic" then Some(Tetradic(base, ops))
    else if scheme == "monochromatic" then Some(Monochromatic(base, ops))
    else None
  }

  /** One colour of a scheme, relative to the base. */
  datatype Step = Keep | Rotate(degrees: int) | Shade(delta: int)

  function Apply(step: Step, base: seq<int>, ops: HslOps): seq<int> {
    match step
    case Keep => base
    case Rotate(d) => ops.rotateHue(base, d)
    case Shade(d) => ops.lightenDarken(base, d)
  }

  /** The design of each scheme as a table: the colours it lists, in order. */
  function Plan(scheme: string): seq<Step>
    requires scheme in ListSchemes()
  {
    match scheme
    case "complementary" => [Keep, Rotate(180)]
    case "analogous" => [Rotate(-30), Keep, Rotate(30)]
    case "triadic" => [Keep, Rotate(120), Rotate(240)]
    case "tetradic" => [Keep, Rotate(90), Rotate(180), Rotate(270)]
    case _ => [Shade(-30), Keep, Shade(20), Shade(40)]
  }

  /** Sizes are 2, 3, 3, 4, 4 and the base sits at 0, 1, 0, 0, 1. */
  lemma PlanShape(scheme: string)
    requires scheme in ListSchemes()
    ensures |Plan(scheme)| == SizeOf(scheme)
    ensures Plan(scheme)[BaseIndex(scheme)] == Keep
    ensures forall i :: 0 <= i < |Plan(scheme)| && i != BaseIndex(scheme) ==> Plan(scheme)[i] != Keep
  {
  }

  function SizeOf(scheme: string): nat {
    if scheme == "complementary" then 2
    else if scheme == "analogous" || scheme == "triadic" then 3
    else 4
  }

  function BaseIndex(scheme: string): nat {
    if scheme == "analogous" || scheme == "monochromatic" then 1 else 0
  }

  /** generatePalette fails with "Invalid hex" exactly when parseHex fails,
      and with "Unknown scheme" exactly when the base is valid and the name
      is not one that listSchemes offers. */
  lemma GenerateErrors(baseHex: string, scheme: string, ops: HslOps)
    ensures (GeneratePalette(baseHex, scheme, ops) == Failure(InvalidHex))
            <==> Color.ParseHex(baseHex).Failure?
    ensures (GeneratePalette(baseHex, scheme, ops) == Failure(UnknownScheme))
            <==> Color.ParseHex(baseHex).Success? && scheme !in ListSchemes()
  {
  }

  /** The colours of a plan applied to a base. */
  function Steps(plan: seq<Step>, base: seq<int>, ops: HslOps): (cs: seq<seq<int>>)
    ensures |cs| == |plan| && forall i :: 0 <= i < |plan| ==> cs[i] == Apply(plan[i], base, ops)
  {
    if plan == [] then [] else [Apply(plan[0], base, ops)] + Steps(plan[1..], base, ops)
  }

  /** Each helper lists the colours of its scheme's plan. */
  lemma DispatchFollowsPlan(scheme: string, base: seq<int>, ops: HslOps)
    requires scheme in ListSchemes()
    ensures Dispatch(scheme, base, ops) == Some(Wrap(scheme, Steps(Plan(scheme), base, ops), ops))
  {
    var cs := Steps(Plan(scheme), base, ops);
    if scheme == "complementary" {
      assert cs == [base, ops.rotateHue(base, 180)];
    } else if scheme == "analogous" {
      assert cs == [ops.rotateHue(base, -30), base, ops.rotateHue(base, 30)];
    } else if scheme == "triadic" {
      assert cs == [base, ops.rotateHue(base, 120), ops.rotateHue(base, 240)];
    } else if scheme == "tetradic" {
      assert cs == [base, ops.rotateHue(base, 90), ops.rotateHue(base, 180), ops.rotateHue(base, 270)];
    } else {
      assert cs == [ops.lightenDarken(base, -30), base, ops.lightenDarken(base, 20), ops.lightenDarken(base, 40)];
    }
  }

  /** For a valid base and a listed scheme, the palette carries the scheme's
      name, and its colours are the plan's steps applied to the parsed base,
      each written with toHex and toHsl. */
  lemma GenerateFollowsPlan(baseHex: string, scheme: string, ops: HslOps)
    requires Color.ParseHex(baseHex).Success? && scheme in ListSchemes()
    ensures var r := GeneratePalette(baseHex, scheme, ops);
            var base := Color.ParseHex(baseHex).value;
            var plan := Plan(scheme);
            r.Success? && r.value.scheme == scheme && |r.value.colors| == |plan| &&
            forall i :: 0 <= i < |plan| ==>
              var c := Apply(plan[i], base, ops);
              r.value.colors[i] == PaletteColor(Color.ToHex(c), ops.toHsl(c))
  {
    var base := Color.ParseHex(baseHex).value;
    DispatchFollowsPlan(scheme, base, ops);
    var cs := Steps(Plan(scheme), base, ops);
    assert GeneratePalette(baseHex, scheme, ops) == Success(Wrap(scheme, cs, ops));
  }

  /** The base entry's hex is the lower-case six-digit form of the input. */
  lemma BaseEntryIsCanonical(baseHex: string, scheme: string, ops: HslOps)
    requires Color.ParseHex(baseHex).Success? && scheme in ListSchemes()
    ensures var r := GeneratePalette(baseHex, scheme, ops);
            r.Success? && |r.value.colors| == SizeOf(scheme) &&
            r.value.colors[BaseIndex(scheme)].hex
              == "#" + ToLowerAscii(Color.FullDigits(Color.Cleaned(baseHex)))
  {
    GenerateFollowsPlan(baseHex, scheme, ops);
    PlanShape(scheme);
    Color.ToHexOfParsed(baseHex);
  }
}
