/**
 * The colour engine: applying a theme (strip, then paint in the theme's mode),
 * checking and parsing theme files, the cache-first theme lookup over the
 * user's theme directory and the two built-in locations, and the list of
 * available themes.
 *
 * The file system is a map from path to what reading and JSON-parsing that
 * file gives; a directory listing is passed in as an optional list of names.
 */
module ColorEngine {
  import opened Wrappers
  import opened Text
  import opened Ansi
  import opened Json
  import opened ColorRules

  /**
   * The outcome of applying a theme: the coloured text, and the theme's rules
   * afterwards. Pattern mode advances the lastIndex of the theme's own RegExp
   * objects, so the rules after a run are part of its result.
   */
  datatype Applied = Applied(text: string, rules: seq<ColorRule>)

  /** applyTheme: strip existing colours, then dispatch on the mode; an unknown mode returns the stripped text. */
  function Themed(art: string, theme: ColorTheme): Result<Applied> {
    var clean := StripAnsi(art);
    if theme.mode == "line" then Success(Applied(LineColors(clean, theme.rules), theme.rules))
    else if theme.mode == "pattern" then
      var p := PatternColors(clean, theme.rules);
      Success(Applied(p.0, p.1))
    else if theme.mode == "character" then Success(Applied(CharColors(clean, theme.rules), theme.rules))
    else if theme.mode == "region" then
      match RegionColors(clean, theme.rules)
      case Failure(e) => Failure(e)
      case Success(t) => Success(Applied(t, theme.rules))
    else Success(Applied(clean, theme.rules))
  }

  /** Themes whose re-application is stable: every mode except pattern mode with an empty string rule. */
  predicate Stable(theme: ColorTheme) {
    theme.mode != "pattern" || NoEmptyLiteral(theme.rules)
  }

  /**
   * A stable theme applied to text that strips to escape-free text only adds
   * SGR sequences: the result strips back to the stripped input.
   */
  lemma ThemedStrips(art: string, theme: ColorTheme)
    requires Esc !in StripAnsi(art) && Stable(theme) && Themed(art, theme).Success?
    ensures StripAnsi(Themed(art, theme).value.text) == StripAnsi(art)
  {
    var clean := StripAnsi(art);
    var out := Themed(art, theme).value.text;
    if theme.mode == "line" {
      StripLineColors(clean, theme.rules);
      StripsToResult(out, clean);
    } else if theme.mode == "pattern" {
      StripPatternColors(clean, theme.rules);
    } else if theme.mode == "character" {
      StripCharColors(clean, theme.rules);
      StripsToResult(out, clean);
    } else if theme.mode == "region" {
      StripRegionColors(clean, theme.rules);
      StripsToResult(out, clean);
    } else {
      StripAnsiPlain(clean);
    }
  }

  /**
   * Only pattern rules change while a theme is applied: with no pattern rule
   * (or outside pattern mode) the rules come back as they were.
   */
  lemma ThemedKeepsRules(art: string, theme: ColorTheme)
    requires theme.mode != "pattern" || AllLiterals(theme.rules)
    requires Themed(art, theme).Success?
    ensures Themed(art, theme).value.rules == theme.rules
  {
    if theme.mode == "pattern" {
      PatternLiteralsKeepRules(StripAnsi(art), 0, 0, theme.rules);
    }
  }

  /**
   * Applying a stable theme a second time to its own output gives the same
   * output and the same rules, provided the input strips to escape-free
   * text. (Stripping is a single pass, so text that still holds an escape
   * after stripping is not covered. The model applies the same theme value
   * both times, so pattern rules start from the same lastIndex.)
   */
  lemma ThemedIdempotent(art: string, theme: ColorTheme)
    requires Esc !in StripAnsi(art) && Stable(theme) && Themed(art, theme).Success?
    ensures Themed(Themed(art, theme).value.text, theme) == Themed(art, theme)
  {
    ThemedStrips(art, theme);
  }

  // ----------------------------------------------------------- theme files

  /** A theme file as reading and JSON-parsing it turns out: an error message, or the value together with its typed reading. */
  datatype ThemeFile = Unreadable(message: string) | Parsed(json: Json, theme: ColorTheme)

  const ValidModes: seq<string> := ["pattern", "line", "character", "region"]

  /**
   * The typed theme is what JSON.parse gave, read through the ColorTheme
   * interface: a string `name`, `version` and `colors.mode` are the theme's,
   * and an array `colors.rules` holds the theme's rules one for one.
   */
  predicate Reads(json: Json, theme: ColorTheme) {
    json.JObj? ==>
      ("name" in json.fields && json.fields["name"].JStr? ==> theme.name == json.fields["name"].s)
      && ("version" in json.fields && json.fields["version"].JStr? ==> theme.version == json.fields["version"].s)
      && ("colors" in json.fields && json.fields["colors"].JObj? ==> ColorsRead(json.fields["colors"].fields, theme))
  }

  /** The `colors` object of a theme file read as the theme's mode and rules. */
  predicate ColorsRead(colors: map<string, Json>, theme: ColorTheme) {
    ("mode" in colors && colors["mode"].JStr? ==> theme.mode == colors["mode"].s)
    && ("rules" in colors && colors["rules"].JArr? ==> RulesRead(colors["rules"].items, theme.rules))
  }

  /** A rules array read one for one: a string `match` is a string rule with that text, anything else is not. */
  predicate RulesRead(items: seq<Json>, rules: seq<ColorRule>) {
    |items| == |rules| &&
    forall k :: 0 <= k < |items| && items[k].JObj? && "match" in items[k].fields ==>
      (items[k].fields["match"].JStr? <==> rules[k].matcher.Literal?) &&
      (items[k].fields["match"].JStr? ==> rules[k].matcher.text == items[k].fields["match"].s)
  }

  /** Every parsed file of a file system is read faithfully. */
  predicate FilesRead(fs: map<string, ThemeFile>) {
    forall p | p in fs :: fs[p].Parsed? ==> Reads(fs[p].json, fs[p].theme)
  }

  /**
   * validateTheme: an object with truthy `name`, `version` and `colors`,
   * whose `colors` has a truthy `mode` that is one of the four modes and an
   * array `rules`.
   */
  function ValidateTheme(v: Json): (ok: bool)
    ensures ok <==>
      v.JObj? && "name" in v.fields && TruthyValue(v.fields["name"]) && "version" in v.fields && TruthyValue(v.fields["version"])
      && "colors" in v.fields && v.fields["colors"].JObj?
      && "mode" in v.fields["colors"].fields && "rules" in v.fields["colors"].fields
      && v.fields["colors"].fields["rules"].JArr?
      && v.fields["colors"].fields["mode"].JStr? && v.fields["colors"].fields["mode"].s in ValidModes
  {
    if !TruthyValue(v) || TypeOf(v) != "object" then false
    else if !TruthyField(v, "name") || !TruthyField(v, "version") || !TruthyField(v, "colors") then false
    else
      var colors := Get(v, "colors").value;
      var rules := Get(colors, "rules");
      if !TruthyField(colors, "mode") || rules.None? || !rules.value.JArr? then false
      else
        var mode := Get(colors, "mode").value;
        mode.JStr? && mode.s in ValidModes
  }

  /** A rule string that looks like a character class, `[...]`. */
  predicate Bracketed(s: string) {
    StartsWith(s, "[") && EndsWith(s, "]")
  }

  /**
   * One rule of a pattern theme after parsing: a bracketed string becomes a
   * global RegExp with lastIndex 0, which `compile` may reject with a
   * SyntaxError message; any other rule is kept.
   */
  function CompileRule(rule: ColorRule, compile: string -> Result<set<char>>): Result<ColorRule> {
    if rule.matcher.Literal? && Bracketed(rule.matcher.text) then
      match compile(rule.matcher.text)
      case Failure(e) => Failure(e)
      case Success(members) => Success(ColorRule(Pattern(Regex(rule.matcher.text, members, 0)), rule.color))
    else Success(rule)
  }

  /** The first rule whose compilation fails, or -1. */
  function FirstBadRule(rules: seq<ColorRule>, compile: string -> Result<set<char>>): (k: int)
    ensures -1 <= k < |rules|
    ensures k == -1 <==> forall j :: 0 <= j < |rules| ==> CompileRule(rules[j], compile).Success?
    ensures k >= 0 ==>
      CompileRule(rules[k], compile).Failure? && forall j :: 0 <= j < k ==> CompileRule(rules[j], compile).Success?
    decreases |rules|
  {
    if |rules| == 0 then -1
    else if CompileRule(rules[0], compile).Failure? then 0
    else
      var k := FirstBadRule(rules[1..], compile);
      assert forall j :: 1 <= j < |rules| ==> rules[j] == rules[1..][j - 1];
      if k == -1 then -1 else k + 1
  }

  /** Every bracketed string of the rules compiled, or the error of the first that does not compile. */
  function CompileAll(rules: seq<ColorRule>, compile: string -> Result<set<char>>): (r: Result<seq<ColorRule>>)
    ensures r.Success? <==> FirstBadRule(rules, compile) == -1
    ensures r.Success? ==> |r.value| == |rules|
    ensures r.Success? ==> forall k :: 0 <= k < |rules| ==> Success(r.value[k]) == CompileRule(rules[k], compile)
    ensures r.Failure? ==> r.error == CompileRule(rules[FirstBadRule(rules, compile)], compile).error
    decreases |rules|
  {
    if |rules| == 0 then Success([])
    else
      match CompileRule(rules[0], compile)
      case Failure(e) => Failure(e)
      case Success(first) =>
        assert forall j :: 1 <= j < |rules| ==> rules[j] == rules[1..][j - 1];
        match CompileAll(rules[1..], compile)
        case Failure(e) => Failure(e)
        case Success(rest) => Success([first] + rest)
  }

  /**
   * The loop of parseTheme over a pattern theme's rules: every bracketed
   * string compiled in place, or the error of the first that does not compile.
   */
  method CompilePatterns(rules: seq<ColorRule>, compile: string -> Result<set<char>>) returns (r: Result<seq<ColorRule>>)
    ensures r == CompileAll(rules, compile)
    ensures r.Success? <==> FirstBadRule(rules, compile) == -1
    ensures r.Success? ==> |r.value| == |rules|
    ensures r.Success? ==> forall k :: 0 <= k < |rules| ==> Success(r.value[k]) == CompileRule(rules[k], compile)
    ensures r.Failure? ==> r.error == CompileRule(rules[FirstBadRule(rules, compile)], compile).error
  {
    var out := rules;
    for k := 0 to |rules|
      invariant |out| == |rules|
      invariant forall j :: 0 <= j < k ==> Success(out[j]) == CompileRule(rules[j], compile)
      invariant forall j :: k <= j < |rules| ==> out[j] == rules[j]
    {
      var rule := rules[k];
      if rule.matcher.Literal? && Bracketed(rule.matcher.text) {
        var compiled := compile(rule.matcher.text);
        if compiled.Failure? {
          assert FirstBadRule(rules, compile) == k;
          return Failure(compiled.error);
        }
        out := out[k := ColorRule(Pattern(Regex(rule.matcher.text, compiled.value, 0)), rule.color)];
      }
    }
    r := Success(out);
    var all := CompileAll(rules, compile);
    assert all.Success? && |all.value| == |out|;
    assert forall k :: 0 <= k < |out| ==> Success(all.value[k]) == Success(out[k]);
    assert all.value == out;
  }

  /** The text every parseTheme error starts with. */
  const ParseErrorPrefix := "Failed to parse theme: "

  /**
   * What parseTheme gives for a file: the file's error, `Invalid theme
   * format`, or the first compile error, each behind the parse-error prefix;
   * or the theme, with its bracketed strings compiled when it is a pattern
   * theme.
   */
  function ParsedTheme(file: ThemeFile, compile: string -> Result<set<char>>): (r: Result<ColorTheme>)
    ensures r.Failure? ==> StartsWith(r.error, ParseErrorPrefix)
    ensures r.Success? <==> ParseSucceeds(file, compile)
    ensures r.Success? ==> r.value.(rules := file.theme.rules) == file.theme && |r.value.rules| == |file.theme.rules|
  {
    match file
    case Unreadable(message) => Failure(ParseErrorPrefix + message)
    case Parsed(json, theme) =>
      if !ValidateTheme(json) then Failure(ParseErrorPrefix + "Invalid theme format")
      else if theme.mode == "pattern" then
        match CompileAll(theme.rules, compile)
        case Failure(e) => Failure(ParseErrorPrefix + e)
        case Success(rules) => Success(theme.(rules := rules))
      else Success(theme)
  }

  /**
   * A theme parsed from a faithfully read file has the file's own mode, one
   * of the four modes, and the file's name, version and number of rules.
   */
  lemma ParsedThemeReadsJson(file: ThemeFile, compile: string -> Result<set<char>>)
    requires file.Parsed? ==> Reads(file.json, file.theme)
    ensures var r := ParsedTheme(file, compile);
      r.Success? ==> (file.Parsed? &&
        var colors := file.json.fields["colors"].fields;
        r.value.mode == colors["mode"].s && r.value.mode in ValidModes &&
        |r.value.rules| == |colors["rules"].items| &&
        (file.json.fields["name"].JStr? ==> r.value.name == file.json.fields["name"].s) &&
        (file.json.fields["version"].JStr? ==> r.value.version == file.json.fields["version"].s))
  {
  }

  /**
   * parseTheme: read and parse the file, check it with validateTheme, and in
   * a pattern theme compile the bracketed strings. Every error is rethrown
   * with the parse-error prefix.
   */
  method ParseTheme(file: ThemeFile, compile: string -> Result<set<char>>) returns (r: Result<ColorTheme>)
    requires file.Parsed? ==> Reads(file.json, file.theme)
    ensures r == ParsedTheme(file, compile)
    ensures r.Success? ==> r.value.mode in ValidModes
    ensures r.Failure? ==> StartsWith(r.error, ParseErrorPrefix)
    ensures file.Unreadable? ==> r == Failure(ParseErrorPrefix + file.message)
    ensures file.Parsed? && !ValidateTheme(file.json) ==> r == Failure(ParseErrorPrefix + "Invalid theme format")
    ensures r.Success? <==> ParseSucceeds(file, compile)
    ensures r.Success? && file.theme.mode != "pattern" ==> r.value == file.theme
    ensures r.Success? && file.theme.mode == "pattern" ==>
      r.value.(rules := file.theme.rules) == file.theme && |r.value.rules| == |file.theme.rules|
    ensures r.Success? && file.theme.mode == "pattern" ==>
      forall k :: 0 <= k < |file.theme.rules| ==> Success(r.value.rules[k]) == CompileRule(file.theme.rules[k], compile)
  {
    if file.Unreadable? {
      return Failure(ParseErrorPrefix + file.message);
    }
    if !ValidateTheme(file.json) {
      return Failure(ParseErrorPrefix + "Invalid theme format");
    }
    var theme := file.theme;
    if theme.mode == "pattern" {
      var rules := CompilePatterns(theme.rules, compile);
      if rules.Failure? {
        return Failure(ParseErrorPrefix + rules.error);
      }
      theme := theme.(rules := rules.value);
    }
    r := Success(theme);
  }

  // --------------------------------------------------------- theme lookup

  /** path.join(dir, file), without normalisation. */
  function PathJoin(dir: string, file: string): string {
    dir + "/" + file
  }

  /** The index of the first path that exists, or -1 (fs.existsSync in order). */
  function FirstExisting(fs: map<string, ThemeFile>, paths: seq<string>): (k: int)
    ensures -1 <= k < |paths|
    ensures k == -1 <==> forall j :: 0 <= j < |paths| ==> paths[j] !in fs
    ensures k >= 0 ==> paths[k] in fs && forall j :: 0 <= j < k ==> paths[j] !in fs
    decreases |paths|
  {
    if |paths| == 0 then -1
    else if paths[0] in fs then 0
    else
      var k := FirstExisting(fs, paths[1..]);
      assert forall j :: 1 <= j < |paths| ==> paths[j] == paths[1..][j - 1];
      if k == -1 then -1 else k + 1
  }

  const BuiltInThemes: seq<string> := ["rainbow", "neon", "ocean", "fire", "retro"]

  /** The file names a theme directory listing contributes: the `.json` files, with the first `.json` removed. */
  function UserThemes(files: seq<string>): (names: seq<string>)
    ensures |names| <= |files|
  {
    if |files| == 0 then []
    else
      var last := files[|files| - 1];
      UserThemes(files[..|files| - 1]) + (if EndsWith(last, ".json") then [ReplaceFirst(last, ".json", "")] else [])
  }

  /** The built-in names appended in order, each only when not already listed. */
  function WithBuiltIns(names: seq<string>, builtIns: seq<string>): seq<string> {
    if |builtIns| == 0 then names
    else
      var acc := WithBuiltIns(names, builtIns[..|builtIns| - 1]);
      var b := builtIns[|builtIns| - 1];
      if b in acc then acc else acc + [b]
  }

  /** The names of `bs` that are not in `names`, in order. */
  function Missing(names: seq<string>, bs: seq<string>): (r: seq<string>)
    ensures forall x :: x in r <==> x in bs && x !in names
  {
    if |bs| == 0 then []
    else
      var rest := Missing(names, bs[..|bs| - 1]);
      var b := bs[|bs| - 1];
      assert bs == bs[..|bs| - 1] + [b];
      if b in names then rest else rest + [b]
  }

  /**
   * Merging keeps the listed names first, in order, and then adds the
   * built-in names missing from them, in order, once each.
   */
  lemma {:induction false} WithBuiltInsIsAppend(names: seq<string>, bs: seq<string>)
    requires forall i, j :: 0 <= i < j < |bs| ==> bs[i] != bs[j]
    ensures WithBuiltIns(names, bs) == names + Missing(names, bs)
    decreases |bs|
  {
    if |bs| > 0 {
      var init := bs[..|bs| - 1];
      var b := bs[|bs| - 1];
      WithBuiltInsIsAppend(names, init);
      assert b !in Missing(names, init) by {
        assert forall x :: x in init ==> x != b;
      }
    }
  }

  /** A `.json` name holding `.json` only at its end lists as the name without it. */
  lemma UserThemeName(f: string)
    requires EndsWith(f, ".json")
    requires forall j :: 0 <= j < |f| - 5 ==> !OccursAt(f, ".json", j)
    ensures ReplaceFirst(f, ".json", "") == f[..|f| - 5]
  {
    assert OccursAt(f, ".json", |f| - 5);
    assert f[..|f| - 5] + "" + f[|f|..] == f[..|f| - 5];
  }

  /** The user directory is read for `name`.json first, then the source tree, then the installed package. */
  class Engine {
    const themesDir: string
    /** The directory of the compiled color-engine module (__dirname). */
    const moduleDir: string
    /** The JavaScript RegExp constructor, for `[...]` classes: the characters a class matches, or the SyntaxError message. */
    const compile: string -> Result<set<char>>
    var cachedThemes: map<string, ColorTheme>

    /** Every cached theme has one of the four modes. */
    predicate ModesValid()
      reads this
    {
      forall n | n in cachedThemes :: cachedThemes[n].mode in ValidModes
    }

    /** themesDir, or $HOME/.aahook/themes; an empty argument counts as absent. */
    constructor(themesDir: Option<string>, home: string, moduleDir: string, compile: string -> Result<set<char>>)
      ensures this.themesDir == if themesDir.Some? && |themesDir.value| > 0 then themesDir.value
                                else if home == "" then ".aahook/themes" else PathJoin(PathJoin(home, ".aahook"), "themes")
      ensures this.moduleDir == moduleDir && this.compile == compile
      ensures cachedThemes == map[] && ModesValid()
    {
      this.themesDir := if themesDir.Some? && |themesDir.value| > 0 then themesDir.value
                        else if home == "" then ".aahook/themes" else PathJoin(PathJoin(home, ".aahook"), "themes");
      this.moduleDir := moduleDir;
      this.compile := compile;
      cachedThemes := map[];
    }

    /** The three places loadTheme looks for `name`.json, in order. */
    function SearchPaths(name: string): (paths: seq<string>)
      ensures |paths| == 3 && paths[0] == PathJoin(themesDir, name + ".json")
    {
      [PathJoin(themesDir, name + ".json"),
       PathJoin(moduleDir, "../../../src/lib/color/themes/" + name + ".json"),
       PathJoin(moduleDir, "themes/" + name + ".json")]
    }

    /** applyTheme */
    method ApplyTheme(art: string, theme: ColorTheme) returns (r: Result<Applied>)
      ensures r == Themed(art, theme)
    {
      var cleanArt := StripAnsi(art);
      if theme.mode == "line" {
        var t := ApplyLineColors(cleanArt, theme.rules);
        r := Success(Applied(t, theme.rules));
      } else if theme.mode == "pattern" {
        var t, rules := ApplyPatternColors(cleanArt, theme.rules);
        r := Success(Applied(t, rules));
      } else if theme.mode == "character" {
        var t := ApplyCharacterColors(cleanArt, theme.rules);
        r := Success(Applied(t, theme.rules));
      } else if theme.mode == "region" {
        var t := ApplyRegionColors(cleanArt, theme.rules);
        r := if t.Failure? then Failure(t.error) else Success(Applied(t.value, theme.rules));
      } else {
        r := Success(Applied(cleanArt, theme.rules));
      }
    }

    /**
     * loadTheme: a cached theme is returned without looking at the files;
     * otherwise the first of the three paths that exists is parsed, and only
     * a successfully parsed theme is cached. With no file at all the lookup
     * fails with `Theme not found`.
     */
    method LoadTheme(fs: map<string, ThemeFile>, name: string) returns (r: Result<ColorTheme>)
      requires FilesRead(fs) && ModesValid()
      modifies this
      ensures ModesValid()
      ensures r.Success? ==> r.value.mode in ValidModes
      ensures old(name in cachedThemes) ==> r == Success(old(cachedThemes[name])) && cachedThemes == old(cachedThemes)
      ensures old(name !in cachedThemes) && FirstExisting(fs, SearchPaths(name)) == -1 ==>
        r == Failure("Theme not found: " + name) && cachedThemes == old(cachedThemes)
      ensures old(name !in cachedThemes) && FirstExisting(fs, SearchPaths(name)) >= 0 ==>
        r == ParsedTheme(fs[SearchPaths(name)[FirstExisting(fs, SearchPaths(name))]], compile)
      ensures r.Success? ==> cachedThemes == old(cachedThemes)[name := r.value]
      ensures r.Failure? ==> cachedThemes == old(cachedThemes)
    {
      if name in cachedThemes {
        return Success(cachedThemes[name]);
      }
      var paths := SearchPaths(name);
      for k := 0 to 3
        invariant forall j :: 0 <= j < k ==> paths[j] !in fs
        invariant cachedThemes == old(cachedThemes)
      {
        if paths[k] in fs {
          assert FirstExisting(fs, paths) == k;
          r := ParseTheme(fs[paths[k]], compile);
          if r.Success? {
            cachedThemes := cachedThemes[name := r.value];
          }
          return;
        }
      }
      r := Failure("Theme not found: " + name);
    }

    /**
     * listThemes: the `.json` files of the theme directory (when it exists)
     * without their extension, then each built-in theme not already listed.
     */
    method ListThemes(listing: Option<seq<string>>) returns (themes: seq<string>)
      ensures themes == WithBuiltIns(if listing.Some? then UserThemes(listing.value) else [], BuiltInThemes)
    {
      themes := [];
      if listing.Some? {
        var files := listing.value;
        for i := 0 to |files|
          invariant themes == UserThemes(files[..i])
        {
          assert files[..i + 1][..i] == files[..i];
          if EndsWith(files[i], ".json") {
            themes := themes + [ReplaceFirst(files[i], ".json", "")];
          }
        }
        assert files[..|files|] == files;
      }
      ghost var listed := themes;
      for i := 0 to |BuiltInThemes|
        invariant themes == WithBuiltIns(listed, BuiltInThemes[..i])
      {
        assert BuiltInThemes[..i + 1][..i] == BuiltInThemes[..i];
        if BuiltInThemes[i] !in themes {
          themes := themes + [BuiltInThemes[i]];
        }
      }
      assert BuiltInThemes[..|BuiltInThemes|] == BuiltInThemes;
    }
  }

  /** The file parses: readable, valid, and in a pattern theme every bracketed string compiles. */
  predicate ParseSucceeds(file: ThemeFile, compile: string -> Result<set<char>>) {
    file.Parsed? && ValidateTheme(file.json) && (file.theme.mode == "pattern" ==> FirstBadRule(file.theme.rules, compile) == -1)
  }

  /**
   * The theme list starts with the directory's themes, in listing order, and
   * ends with exactly the built-in themes missing from them; so every
   * built-in theme is listed.
   */
  lemma ThemeListShape(user: seq<string>)
    ensures WithBuiltIns(user, BuiltInThemes) == user + Missing(user, BuiltInThemes)
    ensures forall b :: b in BuiltInThemes ==> b in WithBuiltIns(user, BuiltInThemes)
  {
    WithBuiltInsIsAppend(user, BuiltInThemes);
  }
}
