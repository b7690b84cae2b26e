/**
 * The Color Transform: `determineNewColor`, which reads an `rgb(R, G, B)`
 * string, computes the conventional RGB to HSL hue and prints
 * `hsl(H,S%,L%)` with the caller's saturation and luminosity. Arithmetic is
 * on exact reals where the source uses doubles.
 */
module Color {
  import opened Wrappers
  import opened JsText

  /** The `Error` thrown from the `default` of the hue `switch` (line 54). */
  datatype ColorError = MalformedColor

  /** The three parsed channels, before the division by 255. */
  datatype Channels = Channels(r: int, g: int, b: int)

  /** The three floored components of the output. */
  datatype Hsl = Hsl(h: int, s: int, l: int)

  /** The three parseInt results of lines 40-42, None standing for NaN. */
  datatype Parsed = Parsed(r: Option<int>, g: Option<int>, b: Option<int>)

  /**
   * Splits on commas, drops the first 4 characters of the first field and
   * applies parseInt to each of the first three fields; a missing field is
   * `undefined`, whose parseInt is NaN.
   */
  function ParseChannels(rgbColor: string): Parsed
  {
    var f := Split(rgbColor, ',');
    Parsed(ParseInt(Slice(f[0], 4)),
           if |f| > 1 then ParseInt(f[1]) else None,
           if |f| > 2 then ParseInt(f[2]) else None)
  }

  /** The channels when none of them is NaN. */
  function AllNumbers(p: Parsed): Option<Channels>
  {
    if p.r.Some? && p.g.Some? && p.b.Some? then Some(Channels(p.r.value, p.g.value, p.b.value)) else None
  }

  /** The channels of `rgbColor` when none of them is NaN. */
  function ParseRgb(rgbColor: string): Option<Channels>
  {
    AllNumbers(ParseChannels(rgbColor))
  }

  /** A JavaScript number that is either NaN or finite. */
  datatype Num = NaN | Num(x: real)

  /** `parseInt(...) / 255`: NaN stays NaN. */
  function Over255(n: Option<int>): Num
  {
    match n
    case None => NaN
    case Some(v) => Num(v as real / 255.0)
  }

  /** `===` on numbers: NaN equals nothing, itself included. */
  predicate StrictEq(a: Num, b: Num)
  {
    a.Num? && b.Num? && a.x == b.x
  }

  /** `Math.max(a, b, c)`: NaN as soon as one argument is NaN. */
  function JsMax3(a: Num, b: Num, c: Num): Num
  {
    if a.NaN? || b.NaN? || c.NaN? then NaN else Num(Max3(a.x, b.x, c.x))
  }

  /** `Math.min(a, b, c)`: NaN as soon as one argument is NaN. */
  function JsMin3(a: Num, b: Num, c: Num): Num
  {
    if a.NaN? || b.NaN? || c.NaN? then NaN else Num(Min3(a.x, b.x, c.x))
  }

  /**
   * Lines 43-57: the hue as a fraction of a turn and the saturation that is
   * printed. Equal maximum and minimum give (0, 0); otherwise the `switch`
   * tests `max === r`, `max === g`, `max === b` in that order, each case
   * computing the branch of `Sextants` it selects, and its `default` throws.
   */
  function HueAndSaturation(r: Num, g: Num, b: Num, saturation: real): Result<(real, real), ColorError>
  {
    var mx, mn := JsMax3(r, g, b), JsMin3(r, g, b);
    if StrictEq(mx, mn) then Success((0.0, 0.0))
    else if StrictEq(mx, r) || StrictEq(mx, g) || StrictEq(mx, b) then
      Success((Sextants(r.x, g.x, b.x) / 6.0, saturation))
    else
      Failure(MalformedColor)
  }

  /** `Math.max(r, g, b)`. */
  function Max3(r: real, g: real, b: real): real
  {
    if r >= g && r >= b then r else if g >= b then g else b
  }

  /** `Math.min(r, g, b)`. */
  function Min3(r: real, g: real, b: real): real
  {
    if r <= g && r <= b then r else if g <= b then g else b
  }

  /**
   * The hue in sixths of a turn, before `h /= 6`: taken from the first
   * channel, in the order r, g, b, that equals the maximum, with 6 added in
   * the red branch when green is below blue. It always lies in [0, 6).
   */
  function Sextants(r: real, g: real, b: real): (h: real)
    requires Max3(r, g, b) != Min3(r, g, b)
    ensures 0.0 <= h < 6.0
  {
    var mx := Max3(r, g, b);
    var d := mx - Min3(r, g, b);
    if mx == r then
      RatioBounds(g - b, d);
      (g - b) / d + (if g < b then 6.0 else 0.0)
    else if mx == g then
      RatioBounds(b - r, d);
      (b - r) / d + 2.0
    else
      RatioBounds(r - g, d);
      (r - g) / d + 4.0
  }

  lemma RatioBounds(x: real, d: real)
    requires d > 0.0 && -d <= x <= d
    ensures -1.0 <= x / d <= 1.0
    ensures x < 0.0 ==> x / d < 0.0
  {
  }

  /**
   * The components printed for channels `c`. Gray input (all channels equal)
   * gets hue 0 and saturation 0 whatever saturation was asked for; any other
   * input gets a hue in 0..359 and the requested saturation. The luminosity
   * is always the requested one.
   */
  function HslOf(c: Channels, saturation: real, luminosity: real): (hsl: Hsl)
    ensures c.r == c.g == c.b ==> hsl.h == 0 && hsl.s == 0
    ensures !(c.r == c.g == c.b) ==> 0 <= hsl.h <= 359 && hsl.s == (saturation * 100.0).Floor
    ensures hsl.l == (luminosity * 100.0).Floor
  {
    var r, g, b := c.r as real / 255.0, c.g as real / 255.0, c.b as real / 255.0;
    var (h, sat) :=
      if Max3(r, g, b) == Min3(r, g, b) then (0.0, 0.0)
      else (Sextants(r, g, b) / 6.0, saturation);
    Hsl((h * 360.0).Floor, (sat * 100.0).Floor, (luminosity * 100.0).Floor)
  }

  /** The template string `hsl(H,S%,L%)`. */
  function FormatHsl(c: Hsl): string
  {
    "hsl(" + IntToString(c.h) + "," + IntToString(c.s) + "%," + IntToString(c.l) + "%)"
  }

  /** Lines 40-58 once the three parseInt results are known. */
  function Convert(p: Parsed, saturation: real, luminosity: real): Result<string, ColorError>
  {
    match HueAndSaturation(Over255(p.r), Over255(p.g), Over255(p.b), saturation)
    case Failure(e) => Failure(e)
    case Success((h, sat)) =>
      Success(FormatHsl(Hsl((h * 360.0).Floor, (sat * 100.0).Floor, (luminosity * 100.0).Floor)))
  }

  /** `determineNewColor(rgbColor, saturation, luminosity)`, with the source's defaults. */
  function DetermineNewColor(rgbColor: string, saturation: real := 1.0, luminosity: real := 0.25): Result<string, ColorError>
  {
    Convert(ParseChannels(rgbColor), saturation, luminosity)
  }

  /**
   * A NaN channel makes both `Math.max` and `Math.min` NaN, so `max === min`
   * fails and no `case` matches: the `default` throws.
   */
  lemma {:induction false} NaNReachesDefault(r: Num, g: Num, b: Num, saturation: real)
    requires r.NaN? || g.NaN? || b.NaN?
    ensures HueAndSaturation(r, g, b, saturation) == Failure(MalformedColor)
  {
    assert JsMax3(r, g, b) == NaN;
    assert !StrictEq(JsMax3(r, g, b), r) && !StrictEq(JsMax3(r, g, b), g) && !StrictEq(JsMax3(r, g, b), b);
  }

  /**
   * With three numbers the maximum is one of them, so the `default` is never
   * reached, and the switch computes the hue of `Sextants`.
   */
  lemma {:induction false} NumbersReachCase(r: real, g: real, b: real, saturation: real)
    ensures HueAndSaturation(Num(r), Num(g), Num(b), saturation) ==
      if Max3(r, g, b) == Min3(r, g, b) then Success((0.0, 0.0))
      else Success((Sextants(r, g, b) / 6.0, saturation))
  {
    var mx, mn := Max3(r, g, b), Min3(r, g, b);
    assert JsMax3(Num(r), Num(g), Num(b)) == Num(mx);
    assert JsMin3(Num(r), Num(g), Num(b)) == Num(mn);
    assert mx == r || mx == g || mx == b;
  }

  /**
   * The conversion throws exactly when some channel is NaN; when none is, it
   * prints the components `HslOf` gives for the channels.
   */
  lemma {:induction false} ConvertThrows(p: Parsed, saturation: real, luminosity: real)
    ensures Convert(p, saturation, luminosity).Failure? <==> p.r.None? || p.g.None? || p.b.None?
    ensures Convert(p, saturation, luminosity).Failure? ==> Convert(p, saturation, luminosity).error == MalformedColor
    ensures AllNumbers(p).Some? ==>
      Convert(p, saturation, luminosity) == Success(FormatHsl(HslOf(AllNumbers(p).value, saturation, luminosity)))
  {
    if p.r.None? || p.g.None? || p.b.None? {
      NaNReachesDefault(Over255(p.r), Over255(p.g), Over255(p.b), saturation);
    } else {
      ConvertNumbers(p, saturation, luminosity);
    }
  }

  lemma ConvertNumbers(p: Parsed, saturation: real, luminosity: real)
    requires AllNumbers(p).Some?
    ensures Convert(p, saturation, luminosity) == Success(FormatHsl(HslOf(AllNumbers(p).value, saturation, luminosity)))
  {
    var c := AllNumbers(p).value;
    var r, g, b := c.r as real / 255.0, c.g as real / 255.0, c.b as real / 255.0;
    assert Over255(p.r) == Num(r) && Over255(p.g) == Num(g) && Over255(p.b) == Num(b);
    var hs := if Max3(r, g, b) == Min3(r, g, b) then (0.0, 0.0) else (Sextants(r, g, b) / 6.0, saturation);
    NumbersReachCase(r, g, b, saturation);
    assert HueAndSaturation(Num(r), Num(g), Num(b), saturation) == Success(hs);
    assert HslOf(c, saturation, luminosity) == Hsl((hs.0 * 360.0).Floor, (hs.1 * 100.0).Floor, (luminosity * 100.0).Floor);
  }

  /**
   * determineNewColor throws exactly when some channel is NaN; when none is,
   * it prints the components `HslOf` gives for the parsed channels.
   */
  lemma MalformedThrows(rgbColor: string, saturation: real, luminosity: real)
    ensures var p := ParseChannels(rgbColor);
      DetermineNewColor(rgbColor, saturation, luminosity).Failure? <==> p.r.None? || p.g.None? || p.b.None?
    ensures DetermineNewColor(rgbColor, saturation, luminosity).Failure? ==>
      DetermineNewColor(rgbColor, saturation, luminosity).error == MalformedColor
    ensures ParseRgb(rgbColor).Some? ==>
      DetermineNewColor(rgbColor, saturation, luminosity) == Success(FormatHsl(HslOf(ParseRgb(rgbColor).value, saturation, luminosity)))
  {
    ConvertThrows(ParseChannels(rgbColor), saturation, luminosity);
  }

  /** Reduces a hue in [0, 12) sextants to [0, 6). */
  function Wrap(h: real): real
  {
    if h >= 6.0 then h - 6.0 else h
  }

  /**
   * The piecewise formula is one hue wheel: rotating the channels so that red
   * becomes green (and green blue, blue red) turns the hue by exactly a third
   * of a turn, whichever branch and tie-break each side takes.
   */
  lemma HueRotation(r: real, g: real, b: real)
    requires Max3(r, g, b) != Min3(r, g, b)
    ensures Max3(b, r, g) != Min3(b, r, g)
    ensures Sextants(b, r, g) == Wrap(Sextants(r, g, b) + 2.0)
  {
    var mx, mn := Max3(r, g, b), Min3(r, g, b);
    assert Max3(b, r, g) == mx && Min3(b, r, g) == mn;
    if mx == r {
      RotateFromRed(r, g, b);
    } else if mx == g {
      RotateFromGreen(r, g, b);
    } else {
      RotateFromBlue(r, g, b);
    }
  }

  lemma RotateFromRed(r: real, g: real, b: real)
    requires Max3(r, g, b) != Min3(r, g, b) && Max3(r, g, b) == r
    ensures Max3(b, r, g) != Min3(b, r, g)
    ensures Sextants(b, r, g) == Wrap(Sextants(r, g, b) + 2.0)
  {
    var d := r - Min3(r, g, b);
    assert Max3(b, r, g) == r && Min3(b, r, g) == r - d;
    if b == r {
      assert g == r - d;
      RatioOfSelf(d);
      assert g - b == -d && r - g == d;
      assert Sextants(r, g, b) == (g - b) / d + 6.0;
      assert Sextants(b, r, g) == (r - g) / d;
    } else {
      assert Sextants(b, r, g) == (g - b) / d + 2.0;
    }
  }

  lemma RotateFromGreen(r: real, g: real, b: real)
    requires Max3(r, g, b) != Min3(r, g, b) && Max3(r, g, b) != r && Max3(r, g, b) == g
    ensures Max3(b, r, g) != Min3(b, r, g)
    ensures Sextants(b, r, g) == Wrap(Sextants(r, g, b) + 2.0)
  {
    var d := g - Min3(r, g, b);
    assert Max3(b, r, g) == g && Min3(b, r, g) == g - d;
    if b == g {
      assert r == g - d;
      RatioOfSelf(d);
      assert b - r == d && r - g == -d;
      assert Sextants(r, g, b) == (b - r) / d + 2.0;
      assert Sextants(b, r, g) == (r - g) / d + 6.0;
    } else {
      assert Sextants(r, g, b) == (b - r) / d + 2.0;
      assert Sextants(b, r, g) == (b - r) / d + 4.0;
    }
  }

  lemma RotateFromBlue(r: real, g: real, b: real)
    requires Max3(r, g, b) != Min3(r, g, b) && Max3(r, g, b) != r && Max3(r, g, b) != g
    ensures Max3(b, r, g) != Min3(b, r, g)
    ensures Sextants(b, r, g) == Wrap(Sextants(r, g, b) + 2.0)
  {
    var d := b - Min3(r, g, b);
    assert Max3(b, r, g) == b && Min3(b, r, g) == b - d;
    assert Sextants(r, g, b) == (r - g) / d + 4.0;
    assert Sextants(b, r, g) == (r - g) / d + (if r < g then 6.0 else 0.0);
  }

  lemma RatioOfSelf(d: real)
    requires d > 0.0
    ensures d / d == 1.0 && (-d) / d == -1.0
  {
  }

  /** The text of three integers as ParseRgb expects them, with arbitrary filler around the numbers. */
  function Triple(head: string, x: int, t1: string, w1: string, y: int, t2: string, w2: string, z: int, t3: string): string
  {
    (head + IntToString(x) + t1) + "," + (w1 + IntToString(y) + t2) + "," + (w2 + IntToString(z) + t3)
  }

  /** What may follow a number without changing what parseInt reads or how split cuts. */
  predicate Terminates(t: string)
  {
    && ',' !in t
    && (t == [] || (!IsDigit(t[0], 10) && t[0] != 'x' && t[0] != 'X'))
  }

  lemma NoCommaInNumber(n: int)
    ensures ',' !in IntToString(n)
  {
    var s := IntToString(n);
    if n >= 0 {
      assert forall i :: 0 <= i < |s| ==> IsDigit(s[i], 10);
    } else {
      var ds := NatToString(-n);
      assert s == "-" + ds;
      assert forall i :: 1 <= i < |s| ==> s[i] == ds[i - 1];
    }
  }

  lemma NoCommaInWhiteSpace(w: string)
    requires AllWhiteSpace(w)
    ensures ',' !in w
  {
  }

  /**
   * ParseRgb reads back any three integers written after a four-character
   * head, separated by commas and optional white space, each followed by
   * text that starts with neither a digit nor an `x`.
   */
  lemma {:induction false} ParseTriple(head: string, x: int, t1: string, w1: string, y: int, t2: string, w2: string, z: int, t3: string)
    requires |head| == 4 && ',' !in head
    requires AllWhiteSpace(w1) && AllWhiteSpace(w2)
    requires Terminates(t1) && Terminates(t2) && Terminates(t3)
    ensures ParseRgb(Triple(head, x, t1, w1, y, t2, w2, z, t3)) == Some(Channels(x, y, z))
  {
    var p0 := head + IntToString(x) + t1;
    var p1 := w1 + IntToString(y) + t2;
    var p2 := w2 + IntToString(z) + t3;
    var text := Triple(head, x, t1, w1, y, t2, w2, z, t3);
    assert Split(text, ',') == [p0, p1, p2] by {
      NoCommaInNumber(x);
      NoCommaInNumber(y);
      NoCommaInNumber(z);
      NoCommaInWhiteSpace(w1);
      NoCommaInWhiteSpace(w2);
      SplitThree(p0, p1, p2);
    }
    FirstField(head, x, t1);
    assert ParseInt(p1) == Some(y) by {
      ParseIntRoundTrip(w1, y, t2);
    }
    assert ParseInt(p2) == Some(z) by {
      ParseIntRoundTrip(w2, z, t3);
    }
    ParseFields(text, p0, p1, p2);
  }

  /** The first field loses its four-character head before parseInt reads it. */
  lemma FirstField(head: string, x: int, t1: string)
    requires |head| == 4
    requires t1 == [] || (!IsDigit(t1[0], 10) && t1[0] != 'x' && t1[0] != 'X')
    ensures ParseInt(Slice(head + IntToString(x) + t1, 4)) == Some(x)
  {
    DropHead(head, IntToString(x), t1);
    ParseIntRoundTrip([], x, t1);
  }

  /** `slice(4)` removes exactly a four-character head. */
  lemma DropHead(head: string, a: string, b: string)
    requires |head| == 4
    ensures Slice(head + a + b, 4) == [] + a + b
  {
    assert head + a + b == head + (a + b);
  }

  /** ParseRgb in terms of the three fields that split yields. */
  lemma ParseFields(s: string, p0: string, p1: string, p2: string)
    requires Split(s, ',') == [p0, p1, p2]
    ensures ParseRgb(s) ==
      if ParseInt(Slice(p0, 4)).Some? && ParseInt(p1).Some? && ParseInt(p2).Some?
      then Some(Channels(ParseInt(Slice(p0, 4)).value, ParseInt(p1).value, ParseInt(p2).value))
      else None
  {
  }

  /** Three comma-free fields joined by commas split back into those fields. */
  lemma SplitThree(p0: string, p1: string, p2: string)
    requires ',' !in p0 && ',' !in p1 && ',' !in p2
    ensures Split(p0 + "," + p1 + "," + p2, ',') == [p0, p1, p2]
  {
    SplitAlone(p2);
    SplitCons(p1, p2);
    SplitCons(p0, p1 + [','] + p2);
    Regroup(p0, p1, p2);
  }

  lemma SplitAlone(p: string)
    requires ',' !in p
    ensures Split(p, ',') == [p]
  {
    SplitPiece(p, [], ',');
    assert p + [] == p;
  }

  /** A comma-free piece, a comma, then the rest: the piece comes first. */
  lemma SplitCons(p: string, rest: string)
    requires ',' !in p
    ensures Split(p + [','] + rest, ',') == [p] + Split(rest, ',')
  {
    SplitPiece(p, [','] + rest, ',');
    assert ([','] + rest)[1..] == rest;
    assert p + [','] + rest == p + ([','] + rest);
  }

  lemma Regroup(p0: string, p1: string, p2: string)
    ensures p0 + "," + p1 + "," + p2 == p0 + [','] + (p1 + [','] + p2)
  {
  }

  /** The text a browser gives for an inline colour: `rgb(R, G, B)`. */
  function RgbText(c: Channels): string
  {
    "rgb(" + IntToString(c.r) + ", " + IntToString(c.g) + ", " + IntToString(c.b) + ")"
  }

  /** determineNewColor recovers the channels of `rgb(R, G, B)` and converts exactly those. */
  lemma ReadsRgbText(c: Channels, saturation: real, luminosity: real)
    ensures DetermineNewColor(RgbText(c), saturation, luminosity) == Success(FormatHsl(HslOf(c, saturation, luminosity)))
  {
    assert AllWhiteSpace(" ");
    assert RgbText(c) == Triple("rgb(", c.r, [], " ", c.g, [], " ", c.b, ")");
    ParseTriple("rgb(", c.r, [], " ", c.g, [], " ", c.b, ")");
    MalformedThrows(RgbText(c), saturation, luminosity);
  }

  /** The reader of determineNewColor reads its own output back: H, S and L in that order. */
  lemma ReadsOwnOutput(c: Hsl)
    ensures ParseRgb(FormatHsl(c)) == Some(Channels(c.h, c.s, c.l))
  {
    assert AllWhiteSpace([]);
    assert FormatHsl(c) == Triple("hsl(", c.h, [], [], c.s, "%", [], c.l, "%)");
    ParseTriple("hsl(", c.h, [], [], c.s, "%", [], c.l, "%)");
  }

  /** Fewer than three comma-separated fields: the missing channel is NaN and the call throws. */
  lemma MissingFieldThrows(rgbColor: string)
    requires |Split(rgbColor, ',')| < 3
    ensures DetermineNewColor(rgbColor) == Failure(MalformedColor)
  {
    MalformedThrows(rgbColor, 1.0, 0.25);
  }

  /** A first channel with no digit where parseInt starts reading is NaN, and the call throws. */
  lemma NonNumericChannelThrows()
    ensures DetermineNewColor("rgb(red, 0, 0)") == Failure(MalformedColor)
  {
    FirstFieldOf("rgb(red", ", 0, 0)");
    assert "rgb(red, 0, 0)" == "rgb(red" + ", 0, 0)";
    RedIsNaN();
    MalformedThrows("rgb(red, 0, 0)", 1.0, 0.25);
  }

  lemma RedIsNaN()
    ensures ParseInt(Slice("rgb(red", 4)).None?
  {
    assert "rgb(red"[4..] == "red";
    assert Slice("rgb(red", 4) == "red";
    assert "red"[0] == 'r';
    assert !IsDigit('r', 10) && !IsStrWhiteSpace('r');
    LeadingNonDigitIsNaN("red");
  }

  lemma FirstFieldOf(p: string, s: string)
    requires ',' !in p && s != [] && s[0] == ','
    ensures Split(p + s, ',')[0] == p
  {
    SplitPiece(p, s, ',');
  }

  /** A missing third field is `undefined`, whose parseInt is NaN, and the call throws. */
  lemma MissingChannelThrows()
    ensures DetermineNewColor("rgb(1, 2)") == Failure(MalformedColor)
  {
    var s := "rgb(1, 2)";
    assert s == "rgb(1" + ", 2)";
    SplitPiece("rgb(1", ", 2)", ',');
    assert ", 2)"[1..] == " 2)" + [];
    SplitPiece(" 2)", [], ',');
    assert |Split(s, ',')| == 2;
    MalformedThrows(s, 1.0, 0.25);
  }

  /**
   * determineNewColor on `rgb(R,G,B)` written without spaces, when the
   * components come out as `hsl` and print as `out`.
   */
  lemma ConvertsCompact(c: Channels, input: string, hsl: Hsl, output: string)
    requires input == Triple("rgb(", c.r, [], [], c.g, [], [], c.b, ")")
    requires HslOf(c, 1.0, 0.25) == hsl && FormatHsl(hsl) == output
    ensures DetermineNewColor(input) == Success(output)
  {
    ParseTriple("rgb(", c.r, [], [], c.g, [], [], c.b, ")");
    MalformedThrows(input, 1.0, 0.25);
  }

  /** Pure red, with the defaults saturation 1.0 and luminosity 0.25. */
  lemma RedExample()
    ensures DetermineNewColor("rgb(255,0,0)") == Success("hsl(0,100%,25%)")
  {
    RedFacts();
    ConvertsCompact(Channels(255, 0, 0), "rgb(255,0,0)", Hsl(0, 100, 25), "hsl(0,100%,25%)");
  }

  lemma RedFacts()
    ensures "rgb(255,0,0)" == Triple("rgb(", 255, [], [], 0, [], [], 0, ")")
    ensures HslOf(Channels(255, 0, 0), 1.0, 0.25) == Hsl(0, 100, 25)
    ensures FormatHsl(Hsl(0, 100, 25)) == "hsl(0,100%,25%)"
  {
    assert IntToString(255) == "255" && IntToString(0) == "0";
    assert IntToString(100) == "100" && IntToString(25) == "25";
  }

  /** Pure green: a third of a turn. */
  lemma GreenExample()
    ensures DetermineNewColor("rgb(0,255,0)") == Success("hsl(120,100%,25%)")
  {
    GreenFacts();
    ConvertsCompact(Channels(0, 255, 0), "rgb(0,255,0)", Hsl(120, 100, 25), "hsl(120,100%,25%)");
  }

  lemma GreenFacts()
    ensures "rgb(0,255,0)" == Triple("rgb(", 0, [], [], 255, [], [], 0, ")")
    ensures HslOf(Channels(0, 255, 0), 1.0, 0.25) == Hsl(120, 100, 25)
    ensures FormatHsl(Hsl(120, 100, 25)) == "hsl(120,100%,25%)"
  {
    assert IntToString(255) == "255" && IntToString(0) == "0";
    assert IntToString(120) == "120" && IntToString(100) == "100" && IntToString(25) == "25";
  }

  /** Pure blue: two thirds of a turn. */
  lemma BlueExample()
    ensures DetermineNewColor("rgb(0,0,255)") == Success("hsl(240,100%,25%)")
  {
    BlueFacts();
    ConvertsCompact(Channels(0, 0, 255), "rgb(0,0,255)", Hsl(240, 100, 25), "hsl(240,100%,25%)");
  }

  lemma BlueFacts()
    ensures "rgb(0,0,255)" == Triple("rgb(", 0, [], [], 0, [], [], 255, ")")
    ensures HslOf(Channels(0, 0, 255), 1.0, 0.25) == Hsl(240, 100, 25)
    ensures FormatHsl(Hsl(240, 100, 25)) == "hsl(240,100%,25%)"
  {
    assert IntToString(255) == "255" && IntToString(0) == "0";
    assert IntToString(240) == "240" && IntToString(100) == "100" && IntToString(25) == "25";
  }

  /** A gray: hue and saturation forced to 0 although saturation 1.0 was asked for. */
  lemma GrayExample()
    ensures DetermineNewColor("rgb(10,10,10)") == Success("hsl(0,0%,25%)")
  {
    GrayFacts();
    ConvertsCompact(Channels(10, 10, 10), "rgb(10,10,10)", Hsl(0, 0, 25), "hsl(0,0%,25%)");
  }

  lemma GrayFacts()
    ensures "rgb(10,10,10)" == Triple("rgb(", 10, [], [], 10, [], [], 10, ")")
    ensures HslOf(Channels(10, 10, 10), 1.0, 0.25) == Hsl(0, 0, 25)
    ensures FormatHsl(Hsl(0, 0, 25)) == "hsl(0,0%,25%)"
  {
    assert IntToString(10) == "10" && IntToString(0) == "0" && IntToString(25) == "25";
  }
}
