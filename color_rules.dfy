/**
 * The four ways a colour theme paints ASCII art: by line ranges, by patterns
 * (literal strings consumed atomically, or one-character regular-expression
 * classes), by single characters, and by rectangular regions of the
 * character grid. Each mode has a specification function and the looping
 * method that computes it; the lemmas state what each mode promises.
 */
module ColorRules {
  import opened Wrappers
  import opened Text
  import opened Ansi

  /**
   * A RegExp built with the global flag from a pattern string of the form
   * `[...]`. `members` is the set of characters whose one-character string it
   * matches; `lastIndex` is the position the next test starts from.
   */
  datatype Regex = Regex(source: string, members: set<char>, lastIndex: nat)

  /** What a rule matches: a string, a compiled pattern, or an object read for its numeric fields. */
  datatype Match =
    | Literal(text: string)
    | Pattern(regex: Regex)
    | Fields(fields: map<string, int>)

  datatype ColorRule = ColorRule(matcher: Match, color: ColorDefinition)

  datatype ColorTheme = ColorTheme(
    name: string,
    version: string,
    description: string,
    author: Option<string>,
    mode: string,
    rules: seq<ColorRule>)

  /** isLineRange: an object with `start` and `end` properties. */
  predicate IsLineRange(m: Match) {
    m.Fields? && "start" in m.fields && "end" in m.fields
  }

  /** isRegion: an object with `x`, `y`, `width` and `height` properties. */
  predicate IsRegion(m: Match) {
    m.Fields? && "x" in m.fields && "y" in m.fields && "width" in m.fields && "height" in m.fields
  }

  // ---------------------------------------------------------------- line mode

  /** Rule `m` is a line range containing line i. */
  predicate InRange(m: Match, i: int) {
    IsLineRange(m) && m.fields["start"] <= i <= m.fields["end"]
  }

  /** The index of the first rule whose range contains line i, or -1. */
  function FirstRange(rules: seq<ColorRule>, i: int): (k: int)
    ensures -1 <= k < |rules|
    ensures k == -1 <==> forall j :: 0 <= j < |rules| ==> !InRange(rules[j].matcher, i)
    ensures k >= 0 ==> InRange(rules[k].matcher, i) && forall j :: 0 <= j < k ==> !InRange(rules[j].matcher, i)
  {
    if |rules| == 0 then -1
    else if InRange(rules[0].matcher, i) then 0
    else
      var k := FirstRange(rules[1..], i);
      assert forall j :: 1 <= j < |rules| ==> rules[j] == rules[1..][j - 1];
      if k == -1 then -1 else k + 1
  }

  /** Line i after line mode: coloured by the first range containing it, else unchanged. */
  function ColorLine(line: string, i: int, rules: seq<ColorRule>): string {
    var k := FirstRange(rules, i);
    if k == -1 then line else Colorized(line, rules[k].color)
  }

  function LineColored(lines: seq<string>, rules: seq<ColorRule>): (out: seq<string>)
    ensures |out| == |lines|
    ensures forall i :: 0 <= i < |lines| ==> out[i] == ColorLine(lines[i], i, rules)
  {
    seq(|lines|, i requires 0 <= i < |lines| => ColorLine(lines[i], i, rules))
  }

  function LineColors(art: string, rules: seq<ColorRule>): string {
    Join(LineColored(Split(art, '\n'), rules), "\n")
  }

  /** applyLineColors: colour every line, then join the lines again. */
  method ApplyLineColors(art: string, rules: seq<ColorRule>) returns (r: string)
    ensures r == LineColors(art, rules)
  {
    var lines := Split(art, '\n');
    var coloredLines: seq<string> := [];
    for i := 0 to |lines|
      invariant |coloredLines| == i
      invariant forall k :: 0 <= k < i ==> coloredLines[k] == ColorLine(lines[k], k, rules)
    {
      var s := ColorOneLine(lines[i], i, rules);
      coloredLines := coloredLines + [s];
    }
    assert coloredLines == LineColored(lines, rules);
    r := Join(coloredLines, "\n");
  }

  /** The inner loop of applyLineColors: scan the rules for the first range containing line i. */
  method ColorOneLine(line: string, i: int, rules: seq<ColorRule>) returns (s: string)
    ensures s == ColorLine(line, i, rules)
  {
    for j := 0 to |rules|
      invariant forall q :: 0 <= q < j ==> !InRange(rules[q].matcher, i)
    {
      if IsLineRange(rules[j].matcher) {
        var range := rules[j].matcher.fields;
        if i >= range["start"] && i <= range["end"] {
          s := Colorize(line, rules[j].color);
          assert FirstRange(rules, i) == j;
          return;
        }
      }
    }
    s := line;
  }

  /** A coloured line is still a single line. */
  lemma ColorizedNoNewline(line: string, c: ColorDefinition)
    requires '\n' !in line
    ensures '\n' !in Colorized(line, c)
  {
    if Codes(c) != [] {
      var p := Join(Codes(c), ";");
      CodesAreParams(c);
      assert '\n' !in p by {
        forall k | 0 <= k < |p| ensures p[k] != '\n' {
          assert IsParamChar(p[k]);
        }
      }
      assert Colorized(line, c) == Csi + p + "m" + line + Reset;
    }
  }

  /**
   * Line mode keeps the lines: the output has as many lines as the input, and
   * line i of the output is line i coloured by the first range containing i.
   */
  lemma LineColorsLines(art: string, rules: seq<ColorRule>)
    ensures Split(LineColors(art, rules), '\n') == LineColored(Split(art, '\n'), rules)
    ensures |Split(LineColors(art, rules), '\n')| == |Split(art, '\n')|
  {
    var lines := Split(art, '\n');
    var out := LineColored(lines, rules);
    forall i | 0 <= i < |out| ensures '\n' !in out[i] {
      var k := FirstRange(rules, i);
      if k >= 0 {
        ColorizedNoNewline(lines[i], rules[k].color);
      }
    }
    SplitJoin(out, '\n');
  }

  /** Joining units that strip to given texts strips to the joined texts. */
  lemma {:induction false} StripsToJoin(us: seq<string>, ts: seq<string>, sep: string)
    requires |us| == |ts|
    requires forall k :: 0 <= k < |us| ==> StripsTo(us[k], ts[k])
    requires Esc !in sep
    ensures StripsTo(Join(us, sep), Join(ts, sep))
    decreases |us|
  {
    if |us| == 0 {
      StripsToEmpty();
    } else if |us| > 1 {
      StripsToJoin(us[1..], ts[1..], sep);
      StripsToPlain(sep);
      StripsToAppend(us[0], ts[0], sep, sep);
      StripsToAppend(us[0] + sep, ts[0] + sep, Join(us[1..], sep), Join(ts[1..], sep));
    }
  }

  /** Line mode on escape-free text only adds SGR sequences: stripping them gives the text back. */
  lemma StripLineColors(art: string, rules: seq<ColorRule>)
    requires Esc !in art
    ensures StripsTo(LineColors(art, rules), art)
  {
    var lines := Split(art, '\n');
    var out := LineColored(lines, rules);
    forall i | 0 <= i < |lines| ensures StripsTo(out[i], lines[i]) {
      assert Esc !in lines[i] by {
        SplitPiecesFrom(art, '\n', i);
      }
      StripsToPlain(lines[i]);
      var k := FirstRange(rules, i);
      if k >= 0 {
        StripsToColorized(lines[i], lines[i], rules[k].color);
      }
    }
    StripsToJoin(out, lines, "\n");
  }

  /** Every piece of a split consists of characters of the split text. */
  lemma SplitPiecesFrom(s: string, c: char, i: nat)
    requires i < |Split(s, c)|
    ensures forall ch :: ch in Split(s, c)[i] ==> ch in s
  {
    var parts := Split(s, c);
    JoinPartsFrom(parts, [c], i);
  }

  lemma {:induction false} JoinPartsFrom(parts: seq<string>, sep: string, i: nat)
    requires i < |parts|
    ensures forall ch :: ch in parts[i] ==> ch in Join(parts, sep)
    decreases |parts|
  {
    if |parts| > 1 {
      var j := Join(parts, sep);
      assert j == parts[0] + sep + Join(parts[1..], sep);
      if i > 0 {
        JoinPartsFrom(parts[1..], sep, i - 1);
        assert parts[1..][i - 1] == parts[i];
      }
    }
  }

  // ----------------------------------------------------------- character mode

  /** The index of the first rule whose match is the string holding just `ch`, or -1. */
  function FirstCharRule(rules: seq<ColorRule>, ch: char): (k: int)
    ensures -1 <= k < |rules|
    ensures k == -1 <==> forall j :: 0 <= j < |rules| ==> rules[j].matcher != Literal([ch])
    ensures k >= 0 ==> rules[k].matcher == Literal([ch]) && forall j :: 0 <= j < k ==> rules[j].matcher != Literal([ch])
  {
    if |rules| == 0 then -1
    else if rules[0].matcher == Literal([ch]) then 0
    else
      var k := FirstCharRule(rules[1..], ch);
      assert forall j :: 1 <= j < |rules| ==> rules[j] == rules[1..][j - 1];
      if k == -1 then -1 else k + 1
  }

  /** One character after character mode. */
  function CharUnit(ch: char, rules: seq<ColorRule>): string {
    var k := FirstCharRule(rules, ch);
    if k == -1 then [ch] else Colorized([ch], rules[k].color)
  }

  function CharColors(s: string, rules: seq<ColorRule>): string
    decreases |s|
  {
    if |s| == 0 then "" else CharUnit(s[0], rules) + CharColors(s[1..], rules)
  }

  /** applyCharacterColors: for each character, scan the rules for one equal to it. */
  method ApplyCharacterColors(art: string, rules: seq<ColorRule>) returns (result: string)
    ensures result == CharColors(art, rules)
  {
    result := "";
    for i := 0 to |art|
      invariant result + CharColors(art[i..], rules) == CharColors(art, rules)
    {
      assert art[i..][1..] == art[i + 1..];
      var unit := ColorChar(art[i], rules);
      AppendAssoc(result, unit, CharColors(art[i + 1..], rules));
      result := result + unit;
    }
    assert art[|art|..] == [];
    assert result + "" == result;
  }

  /** The inner loop of applyCharacterColors: the first rule equal to the character colours it. */
  method ColorChar(ch: char, rules: seq<ColorRule>) returns (unit: string)
    ensures unit == CharUnit(ch, rules)
  {
    for j := 0 to |rules|
      invariant forall q :: 0 <= q < j ==> rules[q].matcher != Literal([ch])
    {
      if rules[j].matcher.Literal? && [ch] == rules[j].matcher.text {
        assert FirstCharRule(rules, ch) == j;
        unit := Colorize([ch], rules[j].color);
        return;
      }
    }
    unit := [ch];
  }

  /** A rule whose string is not a single character never colours anything. */
  lemma CharRuleNeedsOneChar(rules: seq<ColorRule>, ch: char, k: nat)
    requires k < |rules| && rules[k].matcher.Literal? && |rules[k].matcher.text| != 1
    ensures FirstCharRule(rules, ch) != k
  {
  }

  /** Character mode on escape-free text strips back to the text. */
  lemma {:induction false} StripCharColors(s: string, rules: seq<ColorRule>)
    requires Esc !in s
    ensures StripsTo(CharColors(s, rules), s)
    decreases |s|
  {
    if |s| == 0 {
      StripsToEmpty();
    } else {
      assert s == [s[0]] + s[1..];
      assert Esc !in s[1..];
      StripCharColors(s[1..], rules);
      StripsToPlain([s[0]]);
      var k := FirstCharRule(rules, s[0]);
      if k >= 0 {
        StripsToColorized([s[0]], [s[0]], rules[k].color);
      }
      StripsToAppend(CharUnit(s[0], rules), [s[0]], CharColors(s[1..], rules), s[1..]);
    }
  }

  // ------------------------------------------------------------- pattern mode

  /** art.substr(i, n): up to n code units starting at i. */
  function Substr(s: string, i: nat, n: nat): (r: string)
    requires i <= |s|
    ensures |r| <= n
  {
    s[i..if i + n <= |s| then i + n else |s|]
  }

  /**
   * One piece of pattern mode's output: a character no rule matched, kept as
   * it is, or the text a rule matched together with the rule's colour.
   */
  datatype Piece = Kept(ch: char) | Colored(text: string, color: ColorDefinition)

  /** What a piece appends to the result: the character, or the matched text colourized. */
  function Render(p: Piece): string {
    match p
    case Kept(ch) => [ch]
    case Colored(text, color) => Colorized(text, color)
  }

  /** The result string for a list of pieces, in order. */
  function RenderAll(ps: seq<Piece>): string
    decreases |ps|
  {
    if |ps| == 0 then "" else Render(ps[0]) + RenderAll(ps[1..])
  }

  /** The part of the art a piece stands for: the character, or the matched text. */
  function Covered(p: Piece): string {
    match p
    case Kept(ch) => [ch]
    case Colored(text, _) => text
  }

  function CoveredAll(ps: seq<Piece>): string
    decreases |ps|
  {
    if |ps| == 0 then "" else Covered(ps[0]) + CoveredAll(ps[1..])
  }

  /** Rendering one more piece appends its text to the result. */
  lemma {:induction false} RenderAllAppend(ps: seq<Piece>, p: Piece)
    ensures RenderAll(ps + [p]) == RenderAll(ps) + Render(p)
    decreases |ps|
  {
    if |ps| == 0 {
      assert ps + [p] == [p];
    } else {
      assert (ps + [p])[1..] == ps[1..] + [p];
      RenderAllAppend(ps[1..], p);
      AppendAssoc(Render(ps[0]), RenderAll(ps[1..]), Render(p));
    }
  }

  /** Rendered pieces strip back to the text they stand for, when that text is escape-free. */
  lemma {:induction false} StripRenderAll(ps: seq<Piece>)
    requires Esc !in CoveredAll(ps)
    ensures StripsTo(RenderAll(ps), CoveredAll(ps))
    decreases |ps|
  {
    if |ps| == 0 {
      StripsToEmpty();
    } else {
      var front := Covered(ps[0]);
      assert CoveredAll(ps) == front + CoveredAll(ps[1..]);
      assert Esc !in front && Esc !in CoveredAll(ps[1..]);
      StripRenderAll(ps[1..]);
      StripsToPlain(front);
      if ps[0].Colored? {
        StripsToColorized(front, front, ps[0].color);
      }
      StripsToAppend(Render(ps[0]), front, RenderAll(ps[1..]), CoveredAll(ps[1..]));
    }
  }

  /**
   * A rule that matched at the current position: the matched text and the
   * rule's colour, and the new skip count for a string rule (a pattern rule
   * leaves it alone).
   */
  datatype Hit = Hit(text: string, color: ColorDefinition, skip: Option<int>)

  /**
   * Testing one rule at position i: the hit, if any, and the rule afterwards.
   * Testing a pattern advances its lastIndex to 1 on success and resets it to
   * 0 on failure, so a pattern that has just matched fails its next test.
   */
  function TestRule(art: string, i: nat, rule: ColorRule): (res: (Option<Hit>, ColorRule))
    requires i < |art|
    ensures res.1.color == rule.color
    ensures res.1.matcher.Pattern? == rule.matcher.Pattern?
    ensures !rule.matcher.Pattern? ==> res.1 == rule
  {
    match rule.matcher
    case Pattern(re) =>
      if re.lastIndex == 0 && art[i] in re.members then
        (Some(Hit([art[i]], rule.color, None)), ColorRule(Pattern(re.(lastIndex := 1)), rule.color))
      else
        (None, ColorRule(Pattern(re.(lastIndex := 0)), rule.color))
    case Literal(text) =>
      if Substr(art, i, |text|) == text then (Some(Hit(text, rule.color, Some(|text| - 1))), rule)
      else (None, rule)
    case Fields(_) => (None, rule)
  }

  /** The inner scan of applyPatternColors at position i: the first rule that matches, and the rules afterwards. */
  function MatchRules(art: string, i: nat, rules: seq<ColorRule>): (res: (Option<Hit>, seq<ColorRule>))
    requires i < |art|
    ensures |res.1| == |rules|
    decreases |rules|
  {
    if |rules| == 0 then (None, [])
    else
      var t := TestRule(art, i, rules[0]);
      if t.0.Some? then (t.0, [t.1] + rules[1..])
      else
        var next := MatchRules(art, i, rules[1..]);
        (next.0, [t.1] + next.1)
  }

  /** Pattern mode from position i with `skip` characters still to skip: the pieces and the final rules. */
  function PatternFrom(art: string, i: nat, skip: int, rules: seq<ColorRule>): (res: (seq<Piece>, seq<ColorRule>))
    requires i <= |art|
    ensures |res.1| == |rules|
    decreases |art| - i
  {
    if i == |art| then ([], rules)
    else if skip > 0 then PatternFrom(art, i + 1, skip - 1, rules)
    else
      var m := MatchRules(art, i, rules);
      var piece := if m.0.Some? then Colored(m.0.value.text, m.0.value.color) else Kept(art[i]);
      var skip' := if m.0.Some? && m.0.value.skip.Some? then m.0.value.skip.value else skip;
      var rest := PatternFrom(art, i + 1, skip', m.1);
      ([piece] + rest.0, rest.1)
  }

  /** applyPatternColors on the whole text: the result string and the rules afterwards. */
  function PatternColors(art: string, rules: seq<ColorRule>): (string, seq<ColorRule>) {
    var p := PatternFrom(art, 0, 0, rules);
    (RenderAll(p.0), p.1)
  }

  /** The inner loop of applyPatternColors: test the rules in order at position i. */
  method MatchAt(art: string, i: nat, rules: seq<ColorRule>) returns (hit: Option<Hit>, after: seq<ColorRule>)
    requires i < |art|
    ensures (hit, after) == MatchRules(art, i, rules)
  {
    after := rules;
    ghost var done: seq<ColorRule> := [];
    assert rules[0..] == rules;
    for j := 0 to |rules|
      invariant |done| == j && after == done + rules[j..]
      invariant MatchRules(art, i, rules).0 == MatchRules(art, i, rules[j..]).0
      invariant MatchRules(art, i, rules).1 == done + MatchRules(art, i, rules[j..]).1
    {
      var t := TestRule(art, i, rules[j]);
      MatchRulesStep(art, i, rules, j);
      ReplaceAt(done, rules, j, t.1);
      after := after[j := t.1];
      if t.0.Some? {
        hit := t.0;
        return;
      }
      AppendAssoc2(done, t.1, MatchRules(art, i, rules[j + 1..]).1);
      done := done + [t.1];
    }
    hit := None;
    assert rules[|rules|..] == [];
  }

  /** Replacing the element after a prefix. */
  lemma ReplaceAt(done: seq<ColorRule>, rules: seq<ColorRule>, j: nat, x: ColorRule)
    requires |done| == j < |rules|
    ensures (done + rules[j..])[j := x] == done + [x] + rules[j + 1..]
    ensures (done + rules[j..])[j := x] == done + ([x] + rules[j + 1..])
  {
  }

  /** Scanning from rule j: test rule j, and go on to rule j + 1 only when it fails. */
  lemma MatchRulesStep(art: string, i: nat, rules: seq<ColorRule>, j: nat)
    requires i < |art| && j < |rules|
    ensures var t := TestRule(art, i, rules[j]);
      MatchRules(art, i, rules[j..])
      == if t.0.Some? then (t.0, [t.1] + rules[j + 1..])
         else (MatchRules(art, i, rules[j + 1..]).0, [t.1] + MatchRules(art, i, rules[j + 1..]).1)
  {
    assert rules[j..][1..] == rules[j + 1..];
  }

  lemma AppendAssoc2(a: seq<ColorRule>, b: ColorRule, c: seq<ColorRule>)
    ensures a + ([b] + c) == (a + [b]) + c
  {
  }

  /**
   * applyPatternColors: walk the text once; skip characters a string rule
   * consumed, otherwise append the first matching rule's coloured text or the
   * character itself. Returns the rules with their patterns' lastIndex updated.
   */
  method ApplyPatternColors(art: string, rules: seq<ColorRule>) returns (result: string, after: seq<ColorRule>)
    ensures (result, after) == PatternColors(art, rules)
  {
    result := "";
    after := rules;
    var skipNext := 0;
    ghost var pieces: seq<Piece> := [];
    for i := 0 to |art|
      invariant result == RenderAll(pieces)
      invariant pieces + PatternFrom(art, i, skipNext, after).0 == PatternFrom(art, 0, 0, rules).0
      invariant PatternFrom(art, i, skipNext, after).1 == PatternFrom(art, 0, 0, rules).1
    {
      if skipNext > 0 {
        skipNext := skipNext - 1;
        continue;
      }
      ghost var before := after;
      ghost var skipBefore := skipNext;
      var hit;
      hit, after := MatchAt(art, i, after);
      var unit: string;
      ghost var piece: Piece;
      if hit.Some? {
        unit := Colorize(hit.value.text, hit.value.color);
        piece := Colored(hit.value.text, hit.value.color);
        if hit.value.skip.Some? {
          skipNext := hit.value.skip.value;
        }
      } else {
        unit := [art[i]];
        piece := Kept(art[i]);
      }
      ghost var rest := PatternFrom(art, i + 1, skipNext, after);
      assert PatternFrom(art, i, skipBefore, before) == ([piece] + rest.0, rest.1);
      PiecesAssoc(pieces, piece, rest.0);
      RenderStep(result, pieces, unit, piece);
      result := result + unit;
      pieces := pieces + [piece];
    }
    assert pieces + [] == pieces;
  }

  lemma PiecesAssoc(a: seq<Piece>, b: Piece, c: seq<Piece>)
    ensures a + ([b] + c) == (a + [b]) + c
  {
  }

  /** Appending a piece's text to the rendering of the pieces so far renders one more piece. */
  lemma RenderStep(result: string, pieces: seq<Piece>, unit: string, piece: Piece)
    requires result == RenderAll(pieces) && unit == Render(piece)
    ensures result + unit == RenderAll(pieces + [piece])
  {
    RenderAllAppend(pieces, piece);
  }

  /** Skipping: k pending skips pass over the next k characters untouched. */
  lemma {:induction false} PatternSkip(art: string, i: nat, k: int, j: nat, rules: seq<ColorRule>)
    requires k >= 0 && j == i + k && j <= |art|
    ensures PatternFrom(art, i, k, rules) == PatternFrom(art, j, 0, rules)
    decreases k
  {
    if k > 1 {
      PatternSkip(art, i + 1, k - 1, j, rules);
    }
  }

  /** No rule is the empty string. */
  predicate NoEmptyLiteral(rules: seq<ColorRule>)
    decreases |rules|
  {
    |rules| == 0 || (rules[0].matcher != Literal("") && NoEmptyLiteral(rules[1..]))
  }

  /**
   * A hit at position i stands for the text it covers: a pattern hit for the
   * character at i, a string hit for the string, which occurs at i, with the
   * rest of it to be skipped.
   */
  predicate HitCovers(art: string, i: nat, h: Hit) {
    i < |art| &&
    ((h.skip.None? && h.text == [art[i]]) ||
     (h.skip == Some(|h.text| - 1) && 1 <= |h.text| && i + |h.text| <= |art| && art[i..i + |h.text|] == h.text))
  }

  /** Without an empty string rule, every hit covers what it claims, and the scan keeps that property of the rules. */
  lemma {:induction false} MatchRulesCovers(art: string, i: nat, rules: seq<ColorRule>)
    requires i < |art| && NoEmptyLiteral(rules)
    ensures var m := MatchRules(art, i, rules);
      NoEmptyLiteral(m.1) && (m.0.Some? ==> HitCovers(art, i, m.0.value))
    decreases |rules|
  {
    if |rules| > 0 {
      var t := TestRule(art, i, rules[0]);
      var tail := if t.0.Some? then rules[1..] else MatchRules(art, i, rules[1..]).1;
      if t.0.None? {
        MatchRulesCovers(art, i, rules[1..]);
      }
      assert ([t.1] + tail)[0] == t.1 && ([t.1] + tail)[1..] == tail;
    }
  }

  /**
   * Without an empty string rule, pattern mode loses and duplicates nothing:
   * its pieces stand for the text, in order. The rules may be strings or
   * patterns.
   */
  lemma {:induction false} PatternCovers(art: string, i: nat, skip: int, rules: seq<ColorRule>)
    requires i <= |art| && skip <= 0 && NoEmptyLiteral(rules)
    ensures CoveredAll(PatternFrom(art, i, skip, rules).0) == art[i..]
    decreases |art| - i
  {
    if i < |art| {
      MatchRulesCovers(art, i, rules);
      var m := MatchRules(art, i, rules);
      if m.0.None? || m.0.value.skip.None? {
        PatternCovers(art, i + 1, skip, m.1);
        CoversOne(art, i, skip, rules);
      } else {
        PatternCovers(art, i + |m.0.value.text|, 0, m.1);
        CoversString(art, i, skip, rules);
      }
    }
  }

  /** PatternCovers at a position where no rule matches, or a pattern rule matches one character. */
  lemma CoversOne(art: string, i: nat, skip: int, rules: seq<ColorRule>)
    requires i < |art| && skip <= 0
    requires var m := MatchRules(art, i, rules);
      (m.0.None? || (m.0.value.skip.None? && HitCovers(art, i, m.0.value)))
      && CoveredAll(PatternFrom(art, i + 1, skip, m.1).0) == art[i + 1..]
    ensures CoveredAll(PatternFrom(art, i, skip, rules).0) == art[i..]
  {
    var m := MatchRules(art, i, rules);
    var piece := if m.0.Some? then Colored(m.0.value.text, m.0.value.color) else Kept(art[i]);
    CoveredCons(piece, PatternFrom(art, i + 1, skip, m.1).0);
    assert art[i..] == [art[i]] + art[i + 1..];
  }

  /** PatternCovers at a position where a string rule matches and the rest of it is skipped. */
  lemma CoversString(art: string, i: nat, skip: int, rules: seq<ColorRule>)
    requires i < |art| && skip <= 0
    requires var m := MatchRules(art, i, rules);
      m.0.Some? && m.0.value.skip.Some? && HitCovers(art, i, m.0.value)
      && CoveredAll(PatternFrom(art, i + |m.0.value.text|, 0, m.1).0) == art[i + |m.0.value.text|..]
    ensures CoveredAll(PatternFrom(art, i, skip, rules).0) == art[i..]
  {
    var m := MatchRules(art, i, rules);
    var h := m.0.value;
    var n := |h.text|;
    var rest := PatternFrom(art, i + n, 0, m.1).0;
    assert h.skip.value == n - 1;
    PatternStepHit(art, i, skip, rules, h, m.1);
    PatternSkip(art, i + 1, n - 1, i + n, m.1);
    assert PatternFrom(art, i, skip, rules).0 == [Colored(h.text, h.color)] + rest;
    CoveredCons(Colored(h.text, h.color), rest);
    SliceSplit(art, i, i + n);
  }

  lemma SliceSplit(s: string, i: nat, j: nat)
    requires i <= j <= |s|
    ensures s[i..] == s[i..j] + s[j..]
  {
  }

  lemma CoveredCons(p: Piece, ps: seq<Piece>)
    ensures CoveredAll([p] + ps) == Covered(p) + CoveredAll(ps)
  {
    assert ([p] + ps)[1..] == ps;
  }

  /** Without an empty string rule, pattern mode on escape-free text only adds SGR sequences. */
  lemma StripPatternColors(art: string, rules: seq<ColorRule>)
    requires Esc !in art && NoEmptyLiteral(rules)
    ensures StripAnsi(PatternColors(art, rules).0) == art
  {
    var ps := PatternFrom(art, 0, 0, rules).0;
    PatternCovers(art, 0, 0, rules);
    assert art[0..] == art;
    StripRenderAll(ps);
    StripsToResult(RenderAll(ps), art);
  }

  /** Rules made only of strings. */
  predicate AllLiterals(rules: seq<ColorRule>)
    decreases |rules|
  {
    |rules| == 0 || (rules[0].matcher.Literal? && AllLiterals(rules[1..]))
  }

  /** Rules made only of strings, none of them empty. */
  predicate NonEmptyLiterals(rules: seq<ColorRule>)
    decreases |rules|
  {
    |rules| == 0 || (rules[0].matcher.Literal? && |rules[0].matcher.text| > 0 && NonEmptyLiterals(rules[1..]))
  }

  /** Every rule of a list of non-empty strings is a non-empty string. */
  lemma {:induction false} NonEmptyLiteralAt(rules: seq<ColorRule>, k: nat)
    requires NonEmptyLiterals(rules) && k < |rules|
    ensures rules[k].matcher.Literal? && |rules[k].matcher.text| > 0
    decreases |rules|
  {
    if k > 0 {
      NonEmptyLiteralAt(rules[1..], k - 1);
    }
  }

  /** A list of non-empty strings is made of strings only. */
  lemma {:induction false} NonEmptyAreLiterals(rules: seq<ColorRule>)
    requires NonEmptyLiterals(rules)
    ensures AllLiterals(rules)
    decreases |rules|
  {
    if |rules| > 0 {
      NonEmptyAreLiterals(rules[1..]);
    }
  }

  /** The string rule `m` occurs at position i. */
  predicate LiteralAt(art: string, i: nat, m: Match)
    requires i <= |art|
  {
    m.Literal? && Substr(art, i, |m.text|) == m.text
  }

  /** The first string rule occurring at position i, or -1. */
  function FirstLiteralAt(art: string, i: nat, rules: seq<ColorRule>): (k: int)
    requires i <= |art|
    ensures -1 <= k < |rules|
    ensures k >= 0 ==> rules[k].matcher.Literal?
  {
    if |rules| == 0 then -1
    else if LiteralAt(art, i, rules[0].matcher) then 0
    else
      var k := FirstLiteralAt(art, i, rules[1..]);
      if k == -1 then -1 else k + 1
  }

  /** FirstLiteralAt finds the first string rule occurring at i, and -1 means none occurs there. */
  lemma {:induction false} FirstLiteralAtSpec(art: string, i: nat, rules: seq<ColorRule>)
    requires i <= |art|
    ensures var k := FirstLiteralAt(art, i, rules);
      (k == -1 <==> forall j :: 0 <= j < |rules| ==> !LiteralAt(art, i, rules[j].matcher)) &&
      (k >= 0 ==> LiteralAt(art, i, rules[k].matcher) && forall j :: 0 <= j < k ==> !LiteralAt(art, i, rules[j].matcher))
    decreases |rules|
  {
    if |rules| > 0 && !LiteralAt(art, i, rules[0].matcher) {
      FirstLiteralAtSpec(art, i, rules[1..]);
      assert forall j :: 1 <= j < |rules| ==> rules[j] == rules[1..][j - 1];
    }
  }

  /** With string rules only, the scan at i picks the first string occurring there and changes no rule. */
  lemma {:induction false} MatchRulesLiterals(art: string, i: nat, rules: seq<ColorRule>)
    requires i < |art| && AllLiterals(rules)
    ensures var k := FirstLiteralAt(art, i, rules);
      MatchRules(art, i, rules)
      == (if k == -1 then None
          else Some(Hit(rules[k].matcher.text, rules[k].color, Some(|rules[k].matcher.text| - 1))),
          rules)
    decreases |rules|
  {
    if |rules| > 0 {
      assert [rules[0]] + rules[1..] == rules;
      if !LiteralAt(art, i, rules[0].matcher) {
        MatchRulesLiterals(art, i, rules[1..]);
      }
    }
  }

  /**
   * A string rule is consumed atomically: when the first string occurring at i
   * is `text`, the output is `text` coloured, followed by the output for the
   * text after it.
   */
  lemma PatternLiteralHit(art: string, i: nat, rules: seq<ColorRule>, k: nat)
    requires i < |art| && AllLiterals(rules) && k == FirstLiteralAt(art, i, rules)
    requires 0 < |rules[k].matcher.text| && i + |rules[k].matcher.text| <= |art|
    ensures PatternFrom(art, i, 0, rules).0
         == [Colored(rules[k].matcher.text, rules[k].color)] + PatternFrom(art, i + |rules[k].matcher.text|, 0, rules).0
  {
    var text := rules[k].matcher.text;
    MatchRulesLiterals(art, i, rules);
    PatternHitSkips(art, i, rules, Hit(text, rules[k].color, Some(|text| - 1)), |text|);
  }

  /** A hit that skips the rest of its n characters resumes pattern mode n characters on. */
  lemma PatternHitSkips(art: string, i: nat, rules: seq<ColorRule>, h: Hit, n: nat)
    requires i < |art| && 1 <= n && i + n <= |art|
    requires MatchRules(art, i, rules) == (Some(h), rules) && h.skip == Some(n - 1)
    ensures PatternFrom(art, i, 0, rules).0 == [Colored(h.text, h.color)] + PatternFrom(art, i + n, 0, rules).0
  {
    PatternStepHit(art, i, 0, rules, h, rules);
    PatternSkip(art, i + 1, n - 1, i + n, rules);
  }

  /** A non-empty string occurring at i lies within the text. */
  lemma LiteralFits(art: string, i: nat, m: Match)
    requires i <= |art| && LiteralAt(art, i, m) && |m.text| > 0
    ensures i + |m.text| <= |art| && art[i..i + |m.text|] == m.text
  {
  }

  /** One step of pattern mode when the scan at i hits a string rule. */
  lemma PatternStepHit(art: string, i: nat, skip: int, rules: seq<ColorRule>, h: Hit, after: seq<ColorRule>)
    requires i < |art| && skip <= 0
    requires MatchRules(art, i, rules) == (Some(h), after) && h.skip.Some?
    ensures PatternFrom(art, i, skip, rules)
         == ([Colored(h.text, h.color)] + PatternFrom(art, i + 1, h.skip.value, after).0, PatternFrom(art, i + 1, h.skip.value, after).1)
  {
  }

  /** One step of pattern mode when no rule matches at i. */
  lemma PatternStepMiss(art: string, i: nat, skip: int, rules: seq<ColorRule>, after: seq<ColorRule>)
    requires i < |art| && skip <= 0
    requires MatchRules(art, i, rules) == (None, after)
    ensures PatternFrom(art, i, skip, rules)
         == ([Kept(art[i])] + PatternFrom(art, i + 1, skip, after).0, PatternFrom(art, i + 1, skip, after).1)
  {
  }

  /** When no string occurs at i, the character passes through unchanged. */
  lemma PatternLiteralMiss(art: string, i: nat, rules: seq<ColorRule>)
    requires i < |art| && AllLiterals(rules) && FirstLiteralAt(art, i, rules) == -1
    ensures PatternFrom(art, i, 0, rules).0 == [Kept(art[i])] + PatternFrom(art, i + 1, 0, rules).0
  {
    MatchRulesLiterals(art, i, rules);
    PatternStepMiss(art, i, 0, rules, rules);
  }

  /** String rules never change, so pattern mode with string rules only returns the rules as they were. */
  lemma {:induction false} PatternLiteralsKeepRules(art: string, i: nat, skip: int, rules: seq<ColorRule>)
    requires i <= |art| && AllLiterals(rules)
    ensures PatternFrom(art, i, skip, rules).1 == rules
    decreases |art| - i
  {
    if i < |art| {
      if skip <= 0 {
        MatchRulesLiterals(art, i, rules);
        var m := MatchRules(art, i, rules);
        var skip' := if m.0.Some? && m.0.value.skip.Some? then m.0.value.skip.value else skip;
        PatternLiteralsKeepRules(art, i + 1, skip', rules);
      } else {
        PatternLiteralsKeepRules(art, i + 1, skip - 1, rules);
      }
    }
  }

  /**
   * Pattern mode with string rules only, stated directly: at each position the
   * first string occurring there is coloured and consumed whole, and a
   * position where none occurs keeps its character.
   */
  function LiteralPieces(art: string, i: nat, rules: seq<ColorRule>): seq<Piece>
    requires i <= |art|
    decreases |art| - i
  {
    if i == |art| then []
    else
      var step := LiteralStep(art, i, rules);
      [step.0] + LiteralPieces(art, i + step.1, rules)
  }

  /** The piece LiteralPieces emits at position i, and how many characters it consumes (at least one). */
  function LiteralStep(art: string, i: nat, rules: seq<ColorRule>): (step: (Piece, nat))
    requires i < |art|
    ensures 1 <= step.1 <= |art| - i
  {
    var k := FirstLiteralAt(art, i, rules);
    if k == -1 then (Kept(art[i]), 1)
    else
      var n := |Substr(art, i, |rules[k].matcher.text|)|;
      // an empty string occurring at i is outside this definition's use (NonEmptyLiterals)
      if n == 0 then (Kept(art[i]), 1)
      else (Colored(rules[k].matcher.text, rules[k].color), n)
  }

  /** LiteralPieces at a position where no string occurs. */
  lemma LiteralPiecesMiss(art: string, i: nat, rules: seq<ColorRule>)
    requires i < |art| && FirstLiteralAt(art, i, rules) == -1
    ensures LiteralPieces(art, i, rules) == [Kept(art[i])] + LiteralPieces(art, i + 1, rules)
  {
    assert LiteralStep(art, i, rules) == (Kept(art[i]), 1);
  }

  /** LiteralPieces at a position where a non-empty string occurs. */
  lemma LiteralPiecesHit(art: string, i: nat, rules: seq<ColorRule>, k: nat)
    requires i < |art| && k == FirstLiteralAt(art, i, rules)
    requires 0 < |rules[k].matcher.text| && i + |rules[k].matcher.text| <= |art|
    ensures LiteralPieces(art, i, rules)
         == [Colored(rules[k].matcher.text, rules[k].color)] + LiteralPieces(art, i + |rules[k].matcher.text|, rules)
  {
    assert LiteralStep(art, i, rules) == (Colored(rules[k].matcher.text, rules[k].color), |rules[k].matcher.text|);
  }

  /** The first string occurring at i is non-empty and lies within the text. */
  lemma LiteralOccurs(art: string, i: nat, rules: seq<ColorRule>, k: nat)
    requires i < |art| && NonEmptyLiterals(rules) && k == FirstLiteralAt(art, i, rules)
    ensures 0 < |rules[k].matcher.text| && i + |rules[k].matcher.text| <= |art|
    ensures art[i..i + |rules[k].matcher.text|] == rules[k].matcher.text
  {
    FirstLiteralAtSpec(art, i, rules);
    NonEmptyLiteralAt(rules, k);
    LiteralFits(art, i, rules[k].matcher);
  }

  /** With non-empty string rules only, pattern mode computes LiteralPieces. */
  lemma {:induction false} PatternLiterals(art: string, i: nat, rules: seq<ColorRule>)
    requires i <= |art| && NonEmptyLiterals(rules)
    ensures PatternFrom(art, i, 0, rules).0 == LiteralPieces(art, i, rules)
    decreases |art| - i
  {
    if i < |art| {
      NonEmptyAreLiterals(rules);
      var k := FirstLiteralAt(art, i, rules);
      if k == -1 {
        PatternLiterals(art, i + 1, rules);
        PatternLiteralMiss(art, i, rules);
        LiteralPiecesMiss(art, i, rules);
      } else {
        LiteralOccurs(art, i, rules, k);
        PatternLiterals(art, i + |rules[k].matcher.text|, rules);
        PatternLiteralHit(art, i, rules, k);
        LiteralPiecesHit(art, i, rules, k);
      }
    }
  }

  /**
   * A single empty-string rule matches everywhere and skips nothing back: each
   * character is replaced by the coloured empty string, so nothing of the text
   * is left.
   */
  lemma {:induction false} EmptyLiteralSwallows(art: string, i: nat, skip: int, rules: seq<ColorRule>)
    requires i <= |art| && skip <= 0
    requires |rules| == 1 && rules[0].matcher == Literal("")
    ensures CoveredAll(PatternFrom(art, i, skip, rules).0) == ""
    ensures |PatternFrom(art, i, skip, rules).0| == |art| - i
    decreases |art| - i
  {
    if i < |art| {
      var h := Hit("", rules[0].color, Some(-1));
      EmptyLiteralHits(art, i, rules);
      PatternStepHit(art, i, skip, rules, h, rules);
      EmptyLiteralSwallows(art, i + 1, -1, rules);
      CoveredCons(Colored("", h.color), PatternFrom(art, i + 1, -1, rules).0);
    }
  }

  /** The empty string occurs everywhere: the scan hits it with one character to skip back. */
  lemma EmptyLiteralHits(art: string, i: nat, rules: seq<ColorRule>)
    requires i < |art| && |rules| == 1 && rules[0].matcher == Literal("")
    ensures MatchRules(art, i, rules) == (Some(Hit("", rules[0].color, Some(-1))), rules)
  {
    assert Substr(art, i, 0) == "";
    assert [rules[0]] + rules[1..] == rules;
  }

  /** With a single empty-string rule, the output strips to nothing at all. */
  lemma EmptyLiteralStripsToNothing(art: string, rules: seq<ColorRule>)
    requires |rules| == 1 && rules[0].matcher == Literal("")
    ensures StripAnsi(PatternColors(art, rules).0) == ""
  {
    var ps := PatternFrom(art, 0, 0, rules).0;
    EmptyLiteralSwallows(art, 0, 0, rules);
    StripRenderAll(ps);
    StripsToResult(RenderAll(ps), "");
  }

  /** Every other character coloured, starting with a coloured one when `on` holds. */
  function Alternating(s: string, on: bool, c: ColorDefinition): seq<Piece>
    decreases |s|
  {
    if |s| == 0 then []
    else [if on then Colored([s[0]], c) else Kept(s[0])] + Alternating(s[1..], !on, c)
  }

  /**
   * A lone pattern rule whose class contains every character of the text
   * colours only every other character: after a successful test its lastIndex
   * is 1 and the next test fails and resets it to 0.
   */
  lemma {:induction false} PatternAlternates(art: string, i: nat, skip: int, re: Regex, c: ColorDefinition)
    requires i <= |art| && skip <= 0 && re.lastIndex <= 1
    requires forall k :: 0 <= k < |art| ==> art[k] in re.members
    ensures PatternFrom(art, i, skip, [ColorRule(Pattern(re), c)]).0 == Alternating(art[i..], re.lastIndex == 0, c)
    decreases |art| - i
  {
    if i < |art| {
      var next := re.(lastIndex := if re.lastIndex == 0 then 1 else 0);
      assert MatchRules(art, i, [ColorRule(Pattern(re), c)]).1 == [ColorRule(Pattern(next), c)];
      PatternAlternates(art, i + 1, skip, next, c);
      assert art[i..][1..] == art[i + 1..];
    }
  }

  // -------------------------------------------------------------- region mode

  /** The grid region mode works on: one row per line, one one-character cell per code unit. */
  type Grid = seq<seq<string>>

  /** The message of the TypeError thrown when grid[y] is undefined for a negative y. */
  const UndefinedLength := "Cannot read properties of undefined (reading 'length')"

  /** Math.min */
  function Min(a: int, b: int): int {
    if a <= b then a else b
  }

  /** lines.map(line => line.split('')) */
  function GridOf(lines: seq<string>): Grid {
    seq(|lines|, y requires 0 <= y < |lines| => seq(|lines[y]|, x requires 0 <= x < |lines[y]| => [lines[y][x]]))
  }

  /** grid.map(row => row.join('')) */
  function Rows(g: Grid): seq<string> {
    seq(|g|, y requires 0 <= y < |g| => Concat(g[y]))
  }

  /** Cell (y, x) lies inside the rectangle of region `m`. */
  predicate Covers(m: Match, y: int, x: int)
    requires IsRegion(m)
  {
    m.fields["y"] <= y < m.fields["y"] + m.fields["height"] && m.fields["x"] <= x < m.fields["x"] + m.fields["width"]
  }

  /**
   * The row loop of region `m` runs at least once with a negative y: it then
   * reads the length of grid[y], which is undefined, and throws.
   */
  predicate Throws(m: Match, rows: int)
    requires IsRegion(m)
  {
    m.fields["y"] < 0 && m.fields["y"] < Min(m.fields["y"] + m.fields["height"], rows)
  }

  /** A row after region `rule`: the non-empty cells of its column range coloured once. */
  function PaintedRow(row: seq<string>, rule: ColorRule): seq<string>
    requires IsRegion(rule.matcher)
  {
    var x0 := rule.matcher.fields["x"];
    var w := rule.matcher.fields["width"];
    seq(|row|, x requires 0 <= x < |row| =>
      if x0 <= x < x0 + w && |row[x]| > 0 then Colorized(row[x], rule.color) else row[x])
  }

  /** The grid after region `rule` when it does not throw: the rows of its row range painted. */
  function Painted(g: Grid, rule: ColorRule): Grid
    requires IsRegion(rule.matcher)
  {
    var y0 := rule.matcher.fields["y"];
    var h := rule.matcher.fields["height"];
    seq(|g|, y requires 0 <= y < |g| => if y0 <= y < y0 + h then PaintedRow(g[y], rule) else g[y])
  }

  /** The rules applied to the grid in order; the first region that throws ends the run. */
  function RegionFrom(g: Grid, rules: seq<ColorRule>): Result<Grid>
    decreases |rules|
  {
    if |rules| == 0 then Success(g)
    else if !IsRegion(rules[0].matcher) then RegionFrom(g, rules[1..])
    else if Throws(rules[0].matcher, |g|) then Failure(UndefinedLength)
    else RegionFrom(Painted(g, rules[0]), rules[1..])
  }

  function RegionColors(art: string, rules: seq<ColorRule>): Result<string> {
    match RegionFrom(GridOf(Split(art, '\n')), rules)
    case Failure(e) => Failure(e)
    case Success(g) => Success(Join(Rows(g), "\n"))
  }

  /** applyRegionColors: paint each region rule into the grid, then join cells and rows. */
  method ApplyRegionColors(art: string, rules: seq<ColorRule>) returns (r: Result<string>)
    ensures r == RegionColors(art, rules)
  {
    var lines := Split(art, '\n');
    var grid := GridOf(lines);
    assert rules[0..] == rules;
    for k := 0 to |rules|
      invariant RegionFrom(GridOf(lines), rules) == RegionFrom(grid, rules[k..])
    {
      assert rules[k..][1..] == rules[k + 1..];
      if IsRegion(rules[k].matcher) {
        var res := PaintRegion(grid, rules[k]);
        if res.Failure? {
          return Failure(res.error);
        }
        grid := res.value;
      }
    }
    assert rules[|rules|..] == [];
    r := Success(Join(Rows(grid), "\n"));
  }

  /** The row loop of applyRegionColors for one region rule. */
  method PaintRegion(grid: Grid, rule: ColorRule) returns (res: Result<Grid>)
    requires IsRegion(rule.matcher)
    ensures res == if Throws(rule.matcher, |grid|) then Failure(UndefinedLength) else Success(Painted(grid, rule))
  {
    var region := rule.matcher.fields;
    var g := grid;
    var y := region["y"];
    while y < Min(region["y"] + region["height"], |g|)
      invariant |g| == |grid|
      invariant region["y"] <= y && (y == region["y"] || region["y"] >= 0)
      invariant y == region["y"] || y <= Min(region["y"] + region["height"], |grid|)
      invariant forall j :: 0 <= j < |g| ==> g[j] == if region["y"] <= j < y then PaintedRow(grid[j], rule) else grid[j]
      decreases |g| - y
    {
      if y < 0 {
        // grid[y] is undefined: reading its length throws
        return Failure(UndefinedLength);
      }
      var row := PaintRow(g[y], rule);
      g := g[y := row];
      y := y + 1;
    }
    assert !Throws(rule.matcher, |grid|);
    assert g == Painted(grid, rule);
    res := Success(g);
  }

  /** The column loop of applyRegionColors for one row. */
  method PaintRow(row: seq<string>, rule: ColorRule) returns (r: seq<string>)
    requires IsRegion(rule.matcher)
    ensures r == PaintedRow(row, rule)
  {
    var region := rule.matcher.fields;
    r := row;
    var x := region["x"];
    while x < Min(region["x"] + region["width"], |r|)
      invariant |r| == |row| && region["x"] <= x
      invariant x == region["x"] || x <= Min(region["x"] + region["width"], |row|)
      invariant forall j :: 0 <= j < |r| ==>
        r[j] == (if region["x"] <= j < x && |row[j]| > 0 then Colorized(row[j], rule.color) else row[j])
      decreases |r| - x
    {
      // grid[y][x] is undefined, hence falsy, for a negative x
      if 0 <= x && |r[x]| > 0 {
        var cell := Colorize(r[x], rule.color);
        r := r[x := cell];
      }
      x := x + 1;
    }
  }

  /** Reference definition of one cell: wrapped once by each region rule covering it, in rule order. */
  function CellAfter(cell: string, y: int, x: int, rules: seq<ColorRule>): string
    decreases |rules|
  {
    if |rules| == 0 then cell
    else
      var m := rules[0].matcher;
      var next := if IsRegion(m) && Covers(m, y, x) && |cell| > 0 then Colorized(cell, rules[0].color) else cell;
      CellAfter(next, y, x, rules[1..])
  }

  /**
   * Region mode keeps the shape of the grid, and each cell ends up as the
   * reference definition says: coloured once per covering region, the first
   * rule innermost.
   */
  lemma {:induction false} RegionCells(g: Grid, rules: seq<ColorRule>)
    requires RegionFrom(g, rules).Success?
    ensures |RegionFrom(g, rules).value| == |g|
    ensures forall y :: 0 <= y < |g| ==> |RegionFrom(g, rules).value[y]| == |g[y]|
    ensures forall y, x :: 0 <= y < |g| && 0 <= x < |g[y]| ==>
      RegionFrom(g, rules).value[y][x] == CellAfter(g[y][x], y, x, rules)
    decreases |rules|
  {
    if |rules| > 0 {
      var next := if IsRegion(rules[0].matcher) then Painted(g, rules[0]) else g;
      assert RegionFrom(g, rules) == RegionFrom(next, rules[1..]);
      RegionCells(next, rules[1..]);
      forall y, x | 0 <= y < |g| && 0 <= x < |g[y]|
        ensures next[y][x] == if IsRegion(rules[0].matcher) && Covers(rules[0].matcher, y, x) && |g[y][x]| > 0
                              then Colorized(g[y][x], rules[0].color) else g[y][x]
      {
      }
    }
  }

  /** Region mode throws exactly when some region rule starts above the grid and its row loop runs. */
  lemma {:induction false} RegionThrows(g: Grid, rules: seq<ColorRule>)
    ensures RegionFrom(g, rules).Failure? <==>
      exists k :: 0 <= k < |rules| && IsRegion(rules[k].matcher) && Throws(rules[k].matcher, |g|)
    ensures RegionFrom(g, rules).Failure? ==> RegionFrom(g, rules).error == UndefinedLength
    decreases |rules|
  {
    if |rules| > 0 {
      var next := if IsRegion(rules[0].matcher) then Painted(g, rules[0]) else g;
      RegionThrows(next, rules[1..]);
      assert forall k :: 1 <= k < |rules| ==> rules[k] == rules[1..][k - 1];
      if IsRegion(rules[0].matcher) && Throws(rules[0].matcher, |g|) {
      } else {
        assert |next| == |g|;
        assert forall k :: 0 <= k < |rules[1..]| ==> rules[1..][k] == rules[k + 1];
      }
    }
  }

  /** A cell coloured by any number of regions strips back to what it was. */
  lemma {:induction false} StripCellAfter(cell: string, t: string, y: int, x: int, rules: seq<ColorRule>)
    requires StripsTo(cell, t)
    ensures StripsTo(CellAfter(cell, y, x, rules), t)
    decreases |rules|
  {
    if |rules| > 0 {
      var m := rules[0].matcher;
      if IsRegion(m) && Covers(m, y, x) && |cell| > 0 {
        StripsToColorized(cell, t, rules[0].color);
        StripCellAfter(Colorized(cell, rules[0].color), t, y, x, rules[1..]);
      } else {
        StripCellAfter(cell, t, y, x, rules[1..]);
      }
    }
  }

  /** Concatenating units that strip to given texts strips to the concatenated texts. */
  lemma {:induction false} StripsToConcat(us: seq<string>, ts: seq<string>)
    requires |us| == |ts|
    requires forall k :: 0 <= k < |us| ==> StripsTo(us[k], ts[k])
    ensures StripsTo(Concat(us), Concat(ts))
    decreases |us|
  {
    if |us| == 0 {
      StripsToEmpty();
    } else {
      StripsToConcat(us[1..], ts[1..]);
      StripsToAppend(us[0], ts[0], Concat(us[1..]), Concat(ts[1..]));
    }
  }

  /** Joining the one-character cells of a line gives the line back. */
  lemma {:induction false} ConcatCells(line: string)
    ensures Concat(seq(|line|, x requires 0 <= x < |line| => [line[x]])) == line
    decreases |line|
  {
    if |line| > 0 {
      var cells := seq(|line|, x requires 0 <= x < |line| => [line[x]]);
      var tail := line[1..];
      ConcatCells(tail);
      assert cells[1..] == seq(|tail|, x requires 0 <= x < |tail| => [tail[x]]);
      assert line == [line[0]] + tail;
    }
  }

  /** Region mode on escape-free text, when it does not throw, strips back to the text. */
  lemma StripRegionColors(art: string, rules: seq<ColorRule>)
    requires Esc !in art && RegionColors(art, rules).Success?
    ensures StripsTo(RegionColors(art, rules).value, art)
  {
    var lines := Split(art, '\n');
    var g := GridOf(lines);
    RegionCells(g, rules);
    var out := RegionFrom(g, rules).value;
    forall y | 0 <= y < |lines| ensures StripsTo(Rows(out)[y], lines[y]) {
      var cells := g[y];
      assert Esc !in lines[y] by {
        SplitPiecesFrom(art, '\n', y);
      }
      forall x | 0 <= x < |cells| ensures StripsTo(out[y][x], cells[x]) {
        assert Esc !in cells[x] by {
          assert cells[x] == [lines[y][x]];
        }
        StripsToPlain(cells[x]);
        StripCellAfter(cells[x], cells[x], y, x, rules);
      }
      StripsToConcat(out[y], cells);
      ConcatCells(lines[y]);
    }
    StripsToJoin(Rows(out), lines, "\n");
  }
}
