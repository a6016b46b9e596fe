/**
 * ANSI SGR ("select graphic rendition", ECMA-48 section 8.3.117) helpers:
 * building one SGR control sequence from a colour definition, parsing the
 * colour tokens a theme may use, removing SGR sequences again, and the
 * rainbow colouring.
 */
module Ansi {
  import opened Text
  import opened Wrappers

  /** A theme's colour: optional foreground, background and list of style names. */
  datatype ColorDefinition = ColorDefinition(fg: Option<string>, bg: Option<string>, style: Option<seq<string>>)

  /** Whether a colour token is meant for the foreground or the background. */
  datatype Layer = Fg | Bg

  datatype Rgb = Rgb(r: nat, g: nat, b: nat)

  /** ESC [ : the control sequence introducer. */
  const Csi: string := [Esc, '[']

  /** ESC [ 0 m : resets every attribute. */
  const Reset: string := [Esc, '[', '0', 'm']

  /** A string value is truthy in JavaScript when it is present and non-empty. */
  predicate Truthy(s: Option<string>) {
    s.Some? && s.value != ""
  }

  /** The STYLE_CODES table. */
  function StyleCode(name: string): Option<nat> {
    match name
    case "bold" => Some(1)
    case "dim" => Some(2)
    case "italic" => Some(3)
    case "underline" => Some(4)
    case "blink" => Some(5)
    case "reverse" => Some(7)
    case "hidden" => Some(8)
    case "strikethrough" => Some(9)
    case _ => None
  }

  /** The BASIC_COLORS table (foreground codes). */
  function BasicColor(name: string): Option<nat> {
    match name
    case "black" => Some(30)
    case "red" => Some(31)
    case "green" => Some(32)
    case "yellow" => Some(33)
    case "blue" => Some(34)
    case "magenta" => Some(35)
    case "cyan" => Some(36)
    case "white" => Some(37)
    case "gray" => Some(90)
    case "brightRed" => Some(91)
    case "brightGreen" => Some(92)
    case "brightYellow" => Some(93)
    case "brightBlue" => Some(94)
    case "brightMagenta" => Some(95)
    case "brightCyan" => Some(96)
    case "brightWhite" => Some(97)
    case _ => None
  }

  /**
   * ECMAScript white space and line terminators: the characters `\s` matches
   * and the characters parseInt skips before the number.
   */
  predicate IsJsSpace(c: char) {
    c == '\t' || c == '\n' || c == '\U{0B}' || c == '\U{0C}' || c == '\r' || c == ' '
    || c == '\U{A0}' || c == '\U{1680}' || ('\U{2000}' <= c <= '\U{200A}')
    || c == '\U{2028}' || c == '\U{2029}' || c == '\U{202F}' || c == '\U{205F}'
    || c == '\U{3000}' || c == '\U{FEFF}'
  }

  /** The position after the white space starting at i. */
  function SpacesEnd(s: string, i: nat): (j: nat)
    requires i <= |s|
    ensures i <= j <= |s|
    ensures j == |s| || !IsJsSpace(s[j])
    decreases |s| - i
  {
    if i < |s| && IsJsSpace(s[i]) then SpacesEnd(s, i + 1) else i
  }

  /** The position after the run of decimal digits starting at i. */
  function DigitsEnd(s: string, i: nat): (j: nat)
    requires i <= |s|
    ensures i <= j <= |s|
    ensures j == |s| || !IsDigit(s[j])
    decreases |s| - i
  {
    if i < |s| && IsDigit(s[i]) then DigitsEnd(s, i + 1) else i
  }

  /** The run DigitsEnd passes over is made of digits. */
  lemma {:induction false} DigitsEndDigits(s: string, i: nat)
    requires i <= |s|
    ensures AllDigits(s[i..DigitsEnd(s, i)])
    decreases |s| - i
  {
    if i < |s| && IsDigit(s[i]) {
      DigitsEndDigits(s, i + 1);
      var j := DigitsEnd(s, i);
      assert s[i..j] == [s[i]] + s[i + 1..j];
    }
  }

  /** parseInt(s, 10): optional white space and sign, then the longest run of digits; None for NaN. */
  function ParseInt(s: string): Option<int> {
    var t := SpacesEnd(s, 0);
    var negative := t < |s| && s[t] == '-';
    var u := if t < |s| && (s[t] == '-' || s[t] == '+') then t + 1 else t;
    var e := DigitsEnd(s, u);
    if e == u then None
    else
      DigitsEndDigits(s, u);
      var magnitude: int := DigitsValue(s[u..e]);
      Some(if negative then -magnitude else magnitude)
  }

  predicate IsHexDigit(c: char) {
    IsDigit(c) || 'a' <= c <= 'f' || 'A' <= c <= 'F'
  }

  function HexValue(c: char): (v: nat)
    requires IsHexDigit(c)
    ensures v < 16
  {
    if IsDigit(c) then DigitValue(c)
    else if 'a' <= c <= 'f' then (c as int) - ('a' as int) + 10
    else (c as int) - ('A' as int) + 10
  }

  /** hexToRgb: an optional `#` and exactly six hex digits, case-insensitive; else None. */
  function HexToRgb(hex: string): (rgb: Option<Rgb>)
    ensures rgb.Some? ==> rgb.value.r < 256 && rgb.value.g < 256 && rgb.value.b < 256
  {
    var body := if |hex| > 0 && hex[0] == '#' then hex[1..] else hex;
    if |body| == 6 && forall i :: 0 <= i < 6 ==> IsHexDigit(body[i]) then
      Some(Rgb(HexValue(body[0]) * 16 + HexValue(body[1]),
               HexValue(body[2]) * 16 + HexValue(body[3]),
               HexValue(body[4]) * 16 + HexValue(body[5])))
    else None
  }

  /** The three digit groups of `rgb(D,\s*D,\s*D)` when the text has such a match at position i. */
  function RgbGroupsAt(s: string, i: nat): Option<(string, string, string)>
    requires i <= |s|
  {
    if !(i + 4 <= |s| && s[i..i + 4] == "rgb(") then None
    else
      var a := DigitsEnd(s, i + 4);
      if a == i + 4 || a == |s| || s[a] != ',' then None
      else
        var b0 := SpacesEnd(s, a + 1);
        var b := DigitsEnd(s, b0);
        if b == b0 || b == |s| || s[b] != ',' then None
        else
          var c0 := SpacesEnd(s, b + 1);
          var c := DigitsEnd(s, c0);
          if c == c0 || c == |s| || s[c] != ')' then None
          else Some((s[i + 4..a], s[b0..b], s[c0..c]))
  }

  /** The leftmost match at position i or later. */
  function RgbMatchFrom(s: string, i: nat): Option<(string, string, string)>
    requires i <= |s|
    decreases |s| - i
  {
    if RgbGroupsAt(s, i).Some? then RgbGroupsAt(s, i)
    else if i == |s| then None
    else RgbMatchFrom(s, i + 1)
  }

  /** color.match(/rgb\((\d+),\s*(\d+),\s*(\d+)\)/): the leftmost match anywhere in the text. */
  function RgbMatch(s: string): Option<(string, string, string)> {
    RgbMatchFrom(s, 0)
  }

  /** A basic colour name: its code, plus 10 on the background layer. */
  function BasicCode(color: string, layer: Layer): (code: Option<string>)
    ensures code.Some? <==> BasicColor(color).Some?
  {
    match BasicColor(color)
    case Some(v) =>
      var n := v + (if layer == Bg then 10 else 0);
      Some(NatToString(n))
    case None => None
  }

  /** Every colour name starts with a lower-case letter. */
  lemma BasicColorNames(name: string)
    ensures BasicColor(name).Some? ==> |name| > 0 && 'a' <= name[0] <= 'z'
  {
  }

  /** The parameters that open a 256-colour code: `38;5;` for text, `48;5;` for the background. */
  function PalettePrefix(layer: Layer): string {
    if layer == Fg then "38;5;" else "48;5;"
  }

  /** The parameters that open a true-colour code: `38;2;` for text, `48;2;` for the background. */
  function TrueColorPrefix(layer: Layer): string {
    if layer == Fg then "38;2;" else "48;2;"
  }

  /** A 256-colour palette index: parseInt succeeds with a value in 0..255. */
  function PaletteCode(color: string, layer: Layer): (code: Option<string>)
    ensures code.Some? <==> ParseInt(color).Some? && 0 <= ParseInt(color).value <= 255
  {
    match ParseInt(color)
    case Some(v) =>
      if 0 <= v <= 255 then Some(PalettePrefix(layer) + NatToString(v))
      else None
    case None => None
  }

  /** A `#rrggbb` true colour. */
  function HexCode(color: string, layer: Layer): (code: Option<string>)
    ensures code.Some? <==> StartsWith(color, "#") && HexToRgb(color).Some?
  {
    if StartsWith(color, "#") && HexToRgb(color).Some? then
      var rgb := HexToRgb(color).value;
      var prefix := TrueColorPrefix(layer);
      Some(prefix + NatToString(rgb.r) + ";" + NatToString(rgb.g) + ";" + NatToString(rgb.b))
    else None
  }

  /** An `rgb(r, g, b)` true colour: the matched digit groups, copied verbatim. */
  function RgbCode(color: string, layer: Layer): (code: Option<string>)
    ensures code.Some? <==> RgbMatch(color).Some?
  {
    match RgbMatch(color)
    case Some(g) =>
      var prefix := TrueColorPrefix(layer);
      Some(prefix + g.0 + ";" + g.1 + ";" + g.2)
    case None => None
  }

  /** Whatever form the colour takes, its code consists only of digits and ';'. */
  lemma ParseColorIsParams(color: string, layer: Layer)
    ensures ParseColor(color, layer).Some? ==> IsParams(ParseColor(color, layer).value)
  {
    var pal := PalettePrefix(layer);
    var tru := TrueColorPrefix(layer);
    assert IsParams(pal) && IsParams(tru);
    if BasicCode(color, layer).Some? {
      NatToStringIsParams(BasicColor(color).value + (if layer == Bg then 10 else 0));
    } else if PaletteCode(color, layer).Some? {
      NatToStringIsParams(ParseInt(color).value);
      ParamsConcat(pal, NatToString(ParseInt(color).value));
    } else if HexCode(color, layer).Some? {
      var rgb := HexToRgb(color).value;
      NatToStringShape(rgb.r); NatToStringShape(rgb.g); NatToStringShape(rgb.b);
      TripleIsParams(tru, NatToString(rgb.r), NatToString(rgb.g), NatToString(rgb.b));
    } else if RgbCode(color, layer).Some? {
      RgbGroupsAreParams(color, tru);
    }
  }

  lemma RgbGroupsAreParams(color: string, prefix: string)
    requires RgbMatch(color).Some? && IsParams(prefix)
    ensures var g := RgbMatch(color).value; IsParams(prefix + g.0 + ";" + g.1 + ";" + g.2)
  {
    var g := RgbMatch(color).value;
    RgbMatchDigits(color);
    TripleIsParams(prefix, g.0, g.1, g.2);
  }

  /**
   * parseColor: the SGR parameters for one colour token, or None when it names
   * no colour. The forms are tried in order: basic name, palette index, hex, rgb().
   */
  function ParseColor(color: string, layer: Layer): Option<string> {
    if BasicCode(color, layer).Some? then BasicCode(color, layer)
    else if PaletteCode(color, layer).Some? then PaletteCode(color, layer)
    else if HexCode(color, layer).Some? then HexCode(color, layer)
    else RgbCode(color, layer)
  }

  /** The style codes of a style list, in list order, unknown names skipped. */
  function StyleCodes(styles: seq<string>): seq<string> {
    if |styles| == 0 then []
    else
      var code := StyleCode(styles[0]);
      (if code.Some? then [NatToString(code.value)] else []) + StyleCodes(styles[1..])
  }

  /** The code a colour token contributes for one layer: none when it is absent, empty or unknown. */
  function LayerCode(color: Option<string>, layer: Layer): seq<string> {
    if Truthy(color) && ParseColor(color.value, layer).Some? then [ParseColor(color.value, layer).value] else []
  }

  /** Every SGR parameter the definition resolves to: styles, then foreground, then background. */
  function Codes(c: ColorDefinition): seq<string> {
    (if c.style.Some? then StyleCodes(c.style.value) else []) + LayerCode(c.fg, Fg) + LayerCode(c.bg, Bg)
  }

  /** The characters an SGR parameter string may contain. */
  predicate IsParamChar(ch: char) {
    IsDigit(ch) || ch == ';'
  }

  predicate IsParams(s: string) {
    forall i :: 0 <= i < |s| ==> IsParamChar(s[i])
  }

  /** ESC [ params m */
  function Sgr(params: string): string {
    Csi + params + "m"
  }

  /** The text `colorize` returns: the text wrapped in one SGR sequence and a reset, or the text alone. */
  function Colorized(text: string, c: ColorDefinition): string {
    var codes := Codes(c);
    if codes == [] then text else Sgr(Join(codes, ";")) + text + Reset
  }

  /**
   * colorize: builds the parameter list with a loop over the styles, then
   * the foreground and the background code, and wraps the text.
   */
  method Colorize(text: string, color: ColorDefinition) returns (r: string)
    ensures r == Colorized(text, color)
  {
    if !Truthy(color.fg) && !Truthy(color.bg) && (color.style.None? || |color.style.value| == 0) {
      assert LayerCode(color.fg, Fg) == [] && LayerCode(color.bg, Bg) == [];
      return text;
    }
    var codes: seq<string> := [];
    if color.style.Some? {
      var styles := color.style.value;
      var i := 0;
      while i < |styles|
        invariant 0 <= i <= |styles|
        invariant codes + StyleCodes(styles[i..]) == StyleCodes(styles)
      {
        assert styles[i..][1..] == styles[i + 1..];
        var code := StyleCode(styles[i]);
        if code.Some? {
          codes := codes + [NatToString(code.value)];
        }
        i := i + 1;
      }
      assert styles[i..] == [];
    }
    ghost var styleCodes := codes;
    if Truthy(color.fg) {
      var fgCode := ParseColor(color.fg.value, Fg);
      if fgCode.Some? {
        codes := codes + [fgCode.value];
      }
    }
    assert codes == styleCodes + LayerCode(color.fg, Fg);
    ghost var fgCodes := codes;
    if Truthy(color.bg) {
      var bgCode := ParseColor(color.bg.value, Bg);
      if bgCode.Some? {
        codes := codes + [bgCode.value];
      }
    }
    assert codes == fgCodes + LayerCode(color.bg, Bg);
    assert codes == Codes(color);
    if |codes| == 0 {
      return text;
    }
    r := Sgr(Join(codes, ";")) + text + Reset;
  }

  // ---------------------------------------------------------------------
  // stripAnsi: text.replace(/\x1b\[[0-9;]*m/g, '')
  // ---------------------------------------------------------------------

  /** The length of the longest prefix of parameter characters. */
  function ParamRun(s: string): (k: nat)
    ensures k <= |s|
    ensures k == |s| || !IsParamChar(s[k])
  {
    if |s| > 0 && IsParamChar(s[0]) then 1 + ParamRun(s[1..]) else 0
  }

  /** The length of the SGR sequence the text starts with, or 0 when it starts with none. */
  function SgrLength(s: string): (n: nat)
    ensures n == 0 || 3 <= n <= |s|
  {
    if |s| >= 2 && s[0] == Esc && s[1] == '[' then
      var k := ParamRun(s[2..]);
      if 2 + k < |s| && s[2 + k] == 'm' then 3 + k else 0
    else 0
  }

  /** stripAnsi: one left-to-right pass deleting every SGR sequence it meets. */
  function StripAnsi(s: string): (r: string)
    ensures |r| <= |s|
    decreases |s|
  {
    if |s| == 0 then ""
    else if SgrLength(s) > 0 then StripAnsi(s[SgrLength(s)..])
    else [s[0]] + StripAnsi(s[1..])
  }

  /** Text without the escape character passes through stripAnsi unchanged, whatever follows. */
  lemma {:induction false} StripAnsiPlainPrefix(t: string, rest: string)
    requires Esc !in t
    ensures StripAnsi(t + rest) == t + StripAnsi(rest)
    decreases |t|
  {
    if |t| == 0 {
      assert t + rest == rest;
    } else {
      var s := t + rest;
      assert s[1..] == t[1..] + rest;
      assert SgrLength(s) == 0 by {
        assert s[0] == t[0] && t[0] != Esc;
      }
      StripAnsiKeepsFirst(s);
      StripAnsiPlainPrefix(t[1..], rest);
      AppendAssoc([t[0]], t[1..], StripAnsi(rest));
      assert [t[0]] + t[1..] == t;
    }
  }

  lemma StripAnsiPlain(t: string)
    requires Esc !in t
    ensures StripAnsi(t) == t
  {
    StripAnsiPlainPrefix(t, "");
    assert t + "" == t;
  }

  /** The parameter run of `params m ...` ends exactly at the `m`. */
  lemma {:induction false} ParamRunStops(params: string, rest: string)
    requires IsParams(params)
    ensures ParamRun(params + "m" + rest) == |params|
    decreases |params|
  {
    var s := params + "m" + rest;
    if |params| > 0 {
      assert s[1..] == params[1..] + "m" + rest;
      ParamRunStops(params[1..], rest);
    } else {
      assert s[0] == 'm';
    }
  }

  /** A complete SGR sequence at the front is deleted, whatever follows. */
  lemma StripAnsiSgrPrefix(params: string, rest: string)
    requires IsParams(params)
    ensures StripAnsi(Sgr(params) + rest) == StripAnsi(rest)
  {
    var s := Sgr(params) + rest;
    assert s[2..] == params + "m" + rest;
    ParamRunStops(params, rest);
    assert s[2 + |params|] == 'm';
    assert SgrLength(s) == 3 + |params|;
    assert s[3 + |params|..] == rest;
  }

  lemma ParamsConcat(a: string, b: string)
    requires IsParams(a) && IsParams(b)
    ensures IsParams(a + b)
  {
    assert forall i :: 0 <= i < |a + b| ==> (a + b)[i] == if i < |a| then a[i] else b[i - |a|];
  }

  lemma DigitsAreParams(s: string)
    requires AllDigits(s)
    ensures IsParams(s)
  {
  }

  lemma NatToStringIsParams(n: nat)
    ensures IsParams(NatToString(n))
  {
    NatToStringShape(n);
    DigitsAreParams(NatToString(n));
  }

  lemma {:induction false} StyleCodesAreParams(styles: seq<string>)
    ensures forall i :: 0 <= i < |StyleCodes(styles)| ==> IsParams(StyleCodes(styles)[i])
    decreases |styles|
  {
    if |styles| > 0 {
      StyleCodesAreParams(styles[1..]);
    }
  }

  /** Three numbers after a prefix, separated by ';', are SGR parameters. */
  lemma TripleIsParams(prefix: string, a: string, b: string, c: string)
    requires IsParams(prefix) && AllDigits(a) && AllDigits(b) && AllDigits(c)
    ensures IsParams(prefix + a + ";" + b + ";" + c)
  {
    DigitsAreParams(a);
    DigitsAreParams(b);
    DigitsAreParams(c);
    ParamsConcat(prefix, a);
    ParamsConcat(prefix + a, ";");
    ParamsConcat(prefix + a + ";", b);
    ParamsConcat(prefix + a + ";" + b, ";");
    ParamsConcat(prefix + a + ";" + b + ";", c);
  }

  lemma RgbMatchDigits(s: string)
    requires RgbMatch(s).Some?
    ensures AllDigits(RgbMatch(s).value.0) && AllDigits(RgbMatch(s).value.1) && AllDigits(RgbMatch(s).value.2)
  {
    RgbMatchFromDigits(s, 0);
  }

  /** Every group of a match is a run of digits. */
  lemma {:induction false} RgbMatchFromDigits(s: string, i: nat)
    requires i <= |s| && RgbMatchFrom(s, i).Some?
    ensures var g := RgbMatchFrom(s, i).value; AllDigits(g.0) && AllDigits(g.1) && AllDigits(g.2)
    decreases |s| - i
  {
    if RgbGroupsAt(s, i).Some? {
      var a := DigitsEnd(s, i + 4);
      var b0 := SpacesEnd(s, a + 1);
      var c0 := SpacesEnd(s, DigitsEnd(s, b0) + 1);
      DigitsEndDigits(s, i + 4);
      DigitsEndDigits(s, b0);
      DigitsEndDigits(s, c0);
    } else {
      RgbMatchFromDigits(s, i + 1);
    }
  }

  lemma {:induction false} JoinIsParams(parts: seq<string>)
    requires forall i :: 0 <= i < |parts| ==> IsParams(parts[i])
    ensures IsParams(Join(parts, ";"))
    decreases |parts|
  {
    if |parts| > 1 {
      JoinIsParams(parts[1..]);
      ParamsConcat(parts[0], ";");
      ParamsConcat(parts[0] + ";", Join(parts[1..], ";"));
    }
  }

  /** Every parameter string colorize emits consists only of digits and ';'. */
  lemma CodesAreParams(c: ColorDefinition)
    ensures IsParams(Join(Codes(c), ";"))
  {
    var styles := if c.style.Some? then StyleCodes(c.style.value) else [];
    if c.style.Some? {
      StyleCodesAreParams(c.style.value);
    }
    if Truthy(c.fg) {
      ParseColorIsParams(c.fg.value, Fg);
    }
    if Truthy(c.bg) {
      ParseColorIsParams(c.bg.value, Bg);
    }
    JoinIsParams(Codes(c));
  }

  /** The reset colorize appends after the text: none when the definition resolves to no code. */
  function ClosingReset(c: ColorDefinition): string {
    if Codes(c) == [] then "" else Reset
  }

  lemma ResetIsSgr()
    ensures Reset == Sgr("0") && IsParams("0")
  {
  }

  /** The closing reset at the front is deleted, whatever follows. */
  lemma StripAnsiClosingReset(c: ColorDefinition, rest: string)
    ensures StripAnsi(ClosingReset(c) + rest) == StripAnsi(rest)
  {
    if Codes(c) != [] {
      ResetIsSgr();
      StripAnsiSgrPrefix("0", rest);
    } else {
      assert ClosingReset(c) + rest == rest;
    }
  }

  /**
   * Stripping a coloured unit followed by anything: the opening sequence
   * vanishes and only the unit and its closing reset remain to strip.
   */
  lemma StripAnsiColorizedPrefix(u: string, c: ColorDefinition, rest: string)
    ensures StripAnsi(Colorized(u, c) + rest) == StripAnsi(u + (ClosingReset(c) + rest))
  {
    var codes := Codes(c);
    if codes != [] {
      CodesAreParams(c);
      var p := Join(codes, ";");
      assert Colorized(u, c) + rest == Sgr(p) + (u + (Reset + rest));
      StripAnsiSgrPrefix(p, u + (Reset + rest));
    } else {
      assert ClosingReset(c) + rest == rest;
    }
  }

  /** A coloured escape-free unit strips to the unit itself, whatever follows. */
  lemma StripAnsiColorizedPlain(t: string, c: ColorDefinition, rest: string)
    requires Esc !in t
    ensures StripAnsi(Colorized(t, c) + rest) == t + StripAnsi(rest)
  {
    StripAnsiColorizedPrefix(t, c, rest);
    StripAnsiPlainPrefix(t, ClosingReset(c) + rest);
    StripAnsiClosingReset(c, rest);
  }

  /** Round trip: stripping the output of colorize gives back escape-free text. */
  lemma StripAnsiColorized(t: string, c: ColorDefinition)
    requires Esc !in t
    ensures StripAnsi(Colorized(t, c)) == t
  {
    StripAnsiColorizedPlain(t, c, "");
    assert Colorized(t, c) + "" == Colorized(t, c);
  }

  /**
   * stripAnsi is a single pass, so it is not idempotent: deleting the inner
   * `ESC[0m` of `ESC[ESC[0m` + p + `m` leaves a fresh `ESC[` + p + `m`
   * behind, which a second pass deletes (p = "31" gives `ESC[ESC[0m31m`).
   */
  lemma StripAnsiNotIdempotent(p: string)
    requires IsParams(p)
    ensures StripAnsi([Esc, '['] + Sgr("0") + (p + "m")) == Sgr(p)
    ensures StripAnsi(Sgr(p)) == ""
  {
    StripAnsiFirstPass(p);
    StripAnsiSgrPrefix(p, "");
    assert Sgr(p) + "" == Sgr(p);
  }

  lemma StripAnsiFirstPass(p: string)
    requires IsParams(p)
    ensures StripAnsi([Esc, '['] + Sgr("0") + (p + "m")) == Sgr(p)
  {
    var tail := p + "m";
    var inner := Sgr("0") + tail;
    assert inner[0] == Esc;
    AppendAssoc([Esc, '['], Sgr("0"), tail);
    StripAnsiBrokenIntroducer(inner);
    StripAnsiSgrPrefix("0", tail);
    ParamsHaveNoEsc(p);
    StripAnsiPlain(tail);
    AppendAssoc([Esc, '['], p, "m");
  }

  /** Parameter text followed by its final `m` holds no escape character. */
  lemma ParamsHaveNoEsc(p: string)
    requires IsParams(p)
    ensures Esc !in p + "m"
  {
    var tail := p + "m";
    assert forall i :: 0 <= i < |tail| ==> tail[i] == if i < |p| then p[i] else 'm';
  }

  /** `ESC[` immediately followed by another escape is no SGR sequence: both characters are kept. */
  lemma StripAnsiBrokenIntroducer(x: string)
    requires |x| > 0 && x[0] == Esc
    ensures StripAnsi([Esc, '['] + x) == [Esc, '['] + StripAnsi(x)
  {
    StripAnsiBracketKept(x);
    StripAnsiEscKept(['['] + x);
    AppendAssoc([Esc], ['['], x);
    AppendAssoc([Esc], ['['], StripAnsi(x));
    assert [Esc] + ['['] == [Esc, '['];
  }

  lemma StripAnsiBracketKept(x: string)
    ensures StripAnsi(['['] + x) == ['['] + StripAnsi(x)
  {
    var s := ['['] + x;
    assert s[1..] == x;
    StripAnsiKeepsFirst(s);
  }

  lemma StripAnsiEscKept(s: string)
    requires |s| > 1 && s[0] == '[' && s[1] == Esc
    ensures StripAnsi([Esc] + s) == [Esc] + StripAnsi(s)
  {
    var t := [Esc] + s;
    assert t[1..] == s;
    assert t[2..][0] == Esc;
    StripAnsiKeepsFirst(t);
  }

  /** A text that does not start with an SGR sequence keeps its first character. */
  lemma StripAnsiKeepsFirst(s: string)
    requires |s| > 0 && SgrLength(s) == 0
    ensures StripAnsi(s) == [s[0]] + StripAnsi(s[1..])
  {
  }

  lemma AppendAssoc(a: string, b: string, c: string)
    ensures a + b + c == a + (b + c)
  {
  }

  /** The colours rainbow cycles through, and their foreground codes. */
  const RainbowColors: seq<string> := ["red", "yellow", "green", "cyan", "blue", "magenta"]
  const RainbowCodes: seq<string> := ["31", "33", "32", "36", "34", "35"]

  function FgOnly(name: string): ColorDefinition {
    ColorDefinition(Some(name), None, None)
  }

  /** Characters rainbow leaves uncoloured. */
  predicate Unpainted(ch: char) {
    ch == '\n' || ch == ' '
  }

  /** How many characters of `s` get a colour, i.e. how far the colour index advances over `s`. */
  function Painted(s: string): (n: nat)
    ensures n <= |s|
  {
    if |s| == 0 then 0 else (if Unpainted(s[0]) then 0 else 1) + Painted(s[1..])
  }

  /** The coloured unit for one character at colour index k: `ESC[<code>m`, the character, the reset. */
  function RainbowUnit(ch: char, k: nat): string {
    Sgr(RainbowCodes[k % 6]) + [ch] + Reset
  }

  /** The rainbow of `s` with the colour index starting at k. */
  function RainbowFrom(s: string, k: nat): string
    decreases |s|
  {
    if |s| == 0 then ""
    else if Unpainted(s[0]) then [s[0]] + RainbowFrom(s[1..], k)
    else RainbowUnit(s[0], k) + RainbowFrom(s[1..], k + 1)
  }

  /** rainbow(text): colour the stripped text, colour index starting at 0. */
  function Rainbowed(text: string): string {
    RainbowFrom(StripAnsi(text), 0)
  }

  /**
   * rainbow: a loop over the stripped text appending each character, coloured
   * with the next rainbow colour unless it is a space or a newline.
   */
  method Rainbow(text: string) returns (r: string)
    ensures r == Rainbowed(text)
  {
    var stripped := StripAnsi(text);
    r := "";
    var colorIndex := 0;
    var i := 0;
    while i < |stripped|
      invariant 0 <= i <= |stripped|
      invariant r + RainbowFrom(stripped[i..], colorIndex) == RainbowFrom(stripped, 0)
    {
      assert stripped[i..][1..] == stripped[i + 1..];
      var unit: string;
      if stripped[i] == '\n' || stripped[i] == ' ' {
        unit := [stripped[i]];
        AppendAssoc(r, unit, RainbowFrom(stripped[i + 1..], colorIndex));
      } else {
        unit := Colorize([stripped[i]], FgOnly(RainbowColors[colorIndex % |RainbowColors|]));
        RainbowUnitShape(stripped[i], colorIndex);
        AppendAssoc(r, unit, RainbowFrom(stripped[i + 1..], colorIndex + 1));
        colorIndex := colorIndex + 1;
      }
      r := r + unit;
      i := i + 1;
    }
    assert stripped[i..] == [];
    assert r + "" == r;
  }

  /** The rainbow colour names resolve to the foreground codes 31, 33, 32, 36, 34, 35. */
  lemma RainbowCodeOf(j: nat)
    requires j < 6
    ensures BasicCode(RainbowColors[j], Fg) == Some(RainbowCodes[j])
  {
    var v := [31, 33, 32, 36, 34, 35][j];
    assert BasicColor(RainbowColors[j]) == Some(v) by {
      if j == 0 {} else if j == 1 {} else if j == 2 {} else if j == 3 {} else if j == 4 {} else {}
    }
    assert NatToString(v) == [DigitChar(3), DigitChar(v % 10)];
  }

  /** colorize with the colour at index k produces exactly the rainbow unit. */
  lemma RainbowUnitShape(ch: char, k: nat)
    ensures Colorized([ch], FgOnly(RainbowColors[k % 6])) == RainbowUnit(ch, k)
  {
    RainbowCodeOf(k % 6);
    var c := FgOnly(RainbowColors[k % 6]);
    assert LayerCode(c.fg, Fg) == [RainbowCodes[k % 6]];
    assert Codes(c) == [RainbowCodes[k % 6]];
  }

  /** Rainbowing a concatenation: the colour index advances only over painted characters. */
  lemma {:induction false} RainbowFromAppend(s: string, t: string, k: nat)
    ensures RainbowFrom(s + t, k) == RainbowFrom(s, k) + RainbowFrom(t, k + Painted(s))
    decreases |s|
  {
    if |s| == 0 {
      assert s + t == t;
    } else {
      var st := s + t;
      assert st[0] == s[0] && st[1..] == s[1..] + t;
      var k' := if Unpainted(s[0]) then k else k + 1;
      var head := if Unpainted(s[0]) then [s[0]] else RainbowUnit(s[0], k);
      assert RainbowFrom(st, k) == head + RainbowFrom(s[1..] + t, k');
      assert RainbowFrom(s, k) == head + RainbowFrom(s[1..], k');
      RainbowFromAppend(s[1..], t, k');
      AppendAssoc(head, RainbowFrom(s[1..], k'), RainbowFrom(t, k + Painted(s)));
    }
  }

  /** Spaces and newlines pass through uncoloured. */
  lemma RainbowUnpainted(ch: char, k: nat)
    requires Unpainted(ch)
    ensures RainbowFrom([ch], k) == [ch]
  {
  }

  /** Any other character is coloured with the colour at index k. */
  lemma RainbowPainted(ch: char, k: nat)
    requires !Unpainted(ch)
    ensures RainbowFrom([ch], k) == Sgr(RainbowCodes[k % 6]) + [ch] + Reset
  {
    assert RainbowFrom([ch], k) == RainbowUnit(ch, k) + "";
  }

  /** The colours repeat with period six. */
  lemma {:induction false} RainbowPeriodic(s: string, k: nat)
    ensures RainbowFrom(s, k + 6) == RainbowFrom(s, k)
    decreases |s|
  {
    if |s| > 0 {
      if Unpainted(s[0]) {
        RainbowPeriodic(s[1..], k);
      } else {
        assert (k + 6) % 6 == k % 6;
        RainbowPeriodic(s[1..], k + 1);
      }
    }
  }

  /** Stripping a rainbow of escape-free text gives the text back. */
  lemma {:induction false} StripAnsiRainbowFrom(s: string, k: nat)
    requires Esc !in s
    ensures StripAnsi(RainbowFrom(s, k)) == s
    decreases |s|
  {
    if |s| > 0 {
      assert s == [s[0]] + s[1..];
      assert Esc !in s[1..];
      StripAnsiRainbowFrom(s[1..], k + (if Unpainted(s[0]) then 0 else 1));
      if Unpainted(s[0]) {
        StripAnsiPlainPrefix([s[0]], RainbowFrom(s[1..], k));
      } else {
        RainbowUnitShape(s[0], k);
        StripAnsiColorizedPlain([s[0]], FgOnly(RainbowColors[k % 6]), RainbowFrom(s[1..], k + 1));
      }
    }
  }

  /** rainbow keeps the visible text: its output strips back to the stripped input. */
  lemma StripAnsiRainbow(text: string)
    requires Esc !in StripAnsi(text)
    ensures StripAnsi(Rainbowed(text)) == StripAnsi(text)
  {
    StripAnsiRainbowFrom(StripAnsi(text), 0);
  }

  /** colorize leaves the text alone when fg, bg and style are all absent or empty. */
  lemma ColorizedNoSpec(text: string, c: ColorDefinition)
    requires !Truthy(c.fg) && !Truthy(c.bg) && (c.style.None? || |c.style.value| == 0)
    ensures Colorized(text, c) == text
  {
    assert LayerCode(c.fg, Fg) == [] && LayerCode(c.bg, Bg) == [];
  }

  /** The rgb() form needs an opening parenthesis. */
  lemma {:induction false} RgbMatchNeedsParen(s: string, i: nat)
    requires i <= |s| && '(' !in s
    ensures RgbMatchFrom(s, i).None?
    decreases |s| - i
  {
    if i + 4 <= |s| {
      assert s[i + 3] in s;
      assert s[i..i + 4][3] == s[i + 3];
    }
    if i < |s| {
      RgbMatchNeedsParen(s, i + 1);
    }
  }

  /**
   * parseColor returns null exactly when every form fails: no colour name,
   * no palette index in 0..255, no `#rrggbb` and no rgb() match anywhere.
   */
  lemma ParseColorNoneIff(color: string, layer: Layer)
    ensures ParseColor(color, layer).None? <==>
      BasicColor(color).None? && !(ParseInt(color).Some? && 0 <= ParseInt(color).value <= 255) &&
      !(StartsWith(color, "#") && HexToRgb(color).Some?) && RgbMatch(color).None?
  {
  }

  /** A token that is no colour name, does not start with a digit or sign, `#` or `(` resolves to nothing. */
  lemma ParseColorNone(color: string, layer: Layer)
    requires BasicColor(color).None?
    requires |color| > 0 && !IsJsSpace(color[0]) && !IsDigit(color[0]) && color[0] !in "+-#"
    requires '(' !in color
    ensures ParseColor(color, layer).None?
  {
    assert SpacesEnd(color, 0) == 0;
    assert DigitsEnd(color, 0) == 0;
    RgbMatchNeedsParen(color, 0);
  }

  /** It also leaves the text alone when nothing resolves, e.g. an unknown colour name. */
  lemma ColorizedUnknownColor(text: string)
    ensures Colorized(text, FgOnly("purple")) == text
  {
    assert BasicColor("purple").None?;
    ParseColorNone("purple", Fg);
    assert Codes(FgOnly("purple")) == [];
  }

  /** Styles come first in list order, then the foreground, then the background. */
  lemma ColorizedCodeOrder(text: string)
    ensures Colorized(text, ColorDefinition(Some("red"), Some("blue"), Some(["underline", "bold"])))
         == Sgr("4;1;31;44") + text + Reset
  {
    var c := ColorDefinition(Some("red"), Some("blue"), Some(["underline", "bold"]));
    assert StyleCodes(["underline", "bold"]) == ["4", "1"] by {
      assert ["underline", "bold"][1..] == ["bold"];
    }
    assert LayerCode(c.fg, Fg) == ["31"] by {
      RainbowCodeOf(0);
    }
    assert LayerCode(c.bg, Bg) == ["44"] by {
      assert BasicColor("blue") == Some(34);
      assert NatToString(44) == [DigitChar(4), DigitChar(4)];
    }
    assert Codes(c) == ["4", "1"] + ["31"] + ["44"];
    assert ["4", "1"] + ["31"] + ["44"] == ["4", "1", "31", "44"];
    assert Join(["44"], ";") == "44";
    assert Join(["31", "44"], ";") == "31;44" by {
      assert ["31", "44"][1..] == ["44"];
    }
    assert Join(["1", "31", "44"], ";") == "1;31;44" by {
      assert ["1", "31", "44"][1..] == ["31", "44"];
    }
    assert Join(["4", "1", "31", "44"], ";") == "4;1;31;44" by {
      assert ["4", "1", "31", "44"][1..] == ["1", "31", "44"];
    }
  }

  /** A lower-case hex digit. */
  function HexDigitChar(d: nat): (c: char)
    requires d < 16
    ensures IsHexDigit(c) && HexValue(c) == d
  {
    if d < 10 then DigitChar(d) else (('a' as int) + d - 10) as char
  }

  /** Two hex digits for a byte. */
  function Hex2(v: nat): (s: string)
    requires v < 256
    ensures |s| == 2 && IsHexDigit(s[0]) && IsHexDigit(s[1])
    ensures HexValue(s[0]) * 16 + HexValue(s[1]) == v
  {
    [HexDigitChar(v / 16), HexDigitChar(v % 16)]
  }

  /** hexToRgb reads back any colour written as `#rrggbb`. */
  lemma HexToRgbRoundTrip(r: nat, g: nat, b: nat)
    requires r < 256 && g < 256 && b < 256
    ensures HexToRgb("#" + Hex2(r) + Hex2(g) + Hex2(b)) == Some(Rgb(r, g, b))
  {
    var hex := "#" + Hex2(r) + Hex2(g) + Hex2(b);
    var body := hex[1..];
    assert body == Hex2(r) + Hex2(g) + Hex2(b);
    assert forall i :: 0 <= i < 6 ==> IsHexDigit(body[i]);
  }

  /** Colour names start with a lower-case letter. */
  lemma BasicColorNeedsLetter(s: string)
    requires |s| > 0 && !('a' <= s[0] <= 'z')
    ensures BasicColor(s).None?
  {
  }

  /** parseInt fails on a token that starts with `#`. */
  lemma HashNotNumber(s: string)
    requires |s| > 0 && s[0] == '#'
    ensures ParseInt(s).None?
  {
    assert !IsJsSpace(s[0]);
    assert SpacesEnd(s, 0) == 0;
    assert DigitsEnd(s, 0) == 0;
  }

  /** A `#rrggbb` token becomes the true-colour parameters `38;2;r;g;b` or `48;2;r;g;b`. */
  lemma ParseColorHex(r: nat, g: nat, b: nat, layer: Layer)
    requires r < 256 && g < 256 && b < 256
    ensures ParseColor("#" + Hex2(r) + Hex2(g) + Hex2(b), layer)
         == Some(TrueColorPrefix(layer) + NatToString(r) + ";" + NatToString(g) + ";" + NatToString(b))
  {
    var hex := "#" + Hex2(r) + Hex2(g) + Hex2(b);
    HexToRgbRoundTrip(r, g, b);
    assert hex[0] == '#';
    HashNotNumber(hex);
    BasicColorNeedsLetter(hex);
    assert BasicCode(hex, layer).None?;
    assert PaletteCode(hex, layer).None?;
    assert HexCode(hex, layer).Some?;
  }

  /** A digit string is one run of digits to its end. */
  lemma {:induction false} DigitsEndAll(s: string, i: nat)
    requires i <= |s| && AllDigits(s)
    ensures DigitsEnd(s, i) == |s|
    decreases |s| - i
  {
    if i < |s| {
      DigitsEndAll(s, i + 1);
    }
  }

  /** parseInt of a non-empty digit string is its value. */
  lemma ParseIntDigits(s: string)
    requires |s| > 0 && AllDigits(s)
    ensures ParseInt(s) == Some(DigitsValue(s))
  {
    assert IsDigit(s[0]);
    assert !IsJsSpace(s[0]);
    assert SpacesEnd(s, 0) == 0;
    assert s[0] != '-' && s[0] != '+';
    DigitsEndAll(s, 0);
    assert s[0..|s|] == s;
  }

  /** parseInt reads back the decimal printing of a number. */
  lemma ParseIntNat(n: nat)
    ensures ParseInt(NatToString(n)) == Some(n)
  {
    NatToStringShape(n);
    ParseIntDigits(NatToString(n));
    NatToStringRoundTrip(n);
  }

  /** A palette index 0..255 becomes `38;5;n` or `48;5;n`: the number test precedes hex and rgb(). */
  lemma ParseColorPalette(n: nat, layer: Layer)
    requires n <= 255
    ensures ParseColor(NatToString(n), layer) == Some(PalettePrefix(layer) + NatToString(n))
  {
    DigitsNotBasic(n, layer);
    PaletteCodeNat(n, layer);
  }

  lemma DigitsNotBasic(n: nat, layer: Layer)
    ensures BasicCode(NatToString(n), layer).None?
  {
    NatToStringShape(n);
    BasicColorNames(NatToString(n));
  }

  lemma PaletteCodeNat(n: nat, layer: Layer)
    requires n <= 255
    ensures PaletteCode(NatToString(n), layer) == Some(PalettePrefix(layer) + NatToString(n))
  {
    ParseIntNat(n);
  }

  /**
   * `u` strips to `t` whatever follows it: the building block for showing that
   * stripping a coloured text gives back the plain text, unit by unit.
   */
  ghost predicate StripsTo(u: string, t: string) {
    forall rest: string {:trigger StripAnsi(u + rest)} :: StripAnsi(u + rest) == t + StripAnsi(rest)
  }

  lemma StripsToEmpty()
    ensures StripsTo("", "")
  {
    forall rest: string ensures StripAnsi("" + rest) == "" + StripAnsi(rest) {
      assert "" + rest == rest;
    }
  }

  lemma StripsToPlain(t: string)
    requires Esc !in t
    ensures StripsTo(t, t)
  {
    forall rest: string ensures StripAnsi(t + rest) == t + StripAnsi(rest) {
      StripAnsiPlainPrefix(t, rest);
    }
  }

  /** Colouring a unit keeps what it strips to; nested colourings strip through every layer. */
  lemma StripsToColorized(u: string, t: string, c: ColorDefinition)
    requires StripsTo(u, t)
    ensures StripsTo(Colorized(u, c), t)
  {
    forall rest: string ensures StripAnsi(Colorized(u, c) + rest) == t + StripAnsi(rest) {
      StripAnsiColorizedPrefix(u, c, rest);
      assert StripAnsi(u + (ClosingReset(c) + rest)) == t + StripAnsi(ClosingReset(c) + rest);
      StripAnsiClosingReset(c, rest);
    }
  }

  lemma StripsToAppend(u1: string, t1: string, u2: string, t2: string)
    requires StripsTo(u1, t1) && StripsTo(u2, t2)
    ensures StripsTo(u1 + u2, t1 + t2)
  {
    forall rest: string ensures StripAnsi(u1 + u2 + rest) == t1 + t2 + StripAnsi(rest) {
      AppendAssoc(u1, u2, rest);
      assert StripAnsi(u1 + (u2 + rest)) == t1 + StripAnsi(u2 + rest);
      AppendAssoc(t1, t2, StripAnsi(rest));
    }
  }

  lemma StripsToResult(u: string, t: string)
    requires StripsTo(u, t)
    ensures StripAnsi(u) == t
  {
    assert StripAnsi(u + "") == t + StripAnsi("");
    assert u + "" == u && t + "" == t;
  }
}
