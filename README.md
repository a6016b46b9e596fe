# aahook core, modelled in Dafny

aahook runs a shell command and then shows a piece of ASCII art, chosen by the
command line and its exit code. It can also colour the art with a theme,
animate it in the terminal, and check art files for dangerous content. This
project models the core of that program and proves properties of the model.
It has these parts:

- **ANSI helper** (`ansi.dfy`, module `Ansi`):
  - `colorize` builds one SGR sequence from a `{fg, bg, style}` definition;
  - `parseColor` and `hexToRgb` turn a colour token into SGR parameters (a basic name, a 0..255 palette index, `#rrggbb` or `rgb(r, g, b)`);
  - `stripAnsi` deletes SGR sequences in one left-to-right pass;
  - `rainbow` colours the visible characters in a cycle of six colours.
- **Colour engine** (`color_rules.dfy`, module `ColorRules`, and `color_engine.dfy`, module `ColorEngine`):
  - the four theme modes: line ranges, patterns (strings and one-character `[...]` classes), single characters, and rectangular regions on a grid;
  - `applyTheme`, `validateTheme` and `parseTheme`;
  - the cache-first `loadTheme` over three search paths, with the file system as a map from path to parsed file;
  - `listThemes`.
- **Timing controller** (`timing.dfy`, module `Timing`): a class with the defaulted options and the clock state.
  - It covers the easing curves, `calculateDelay`, the loop rule, and start, pause, resume, elapsed and reset.
  - The clock reading is a parameter.
- **Renderer** (`renderer.dfy`, module `Render`): a class whose output buffer receives the exact escape strings each call writes, or nothing off a terminal.
- **Animation engine** (`animation.dfy`, module `Animation`): a class whose methods issue renderer calls and timer waits. Each method is proved against a trace function in `animation_trace.dfy` (module `AnimationTrace`).
  - The styles are typing, fade, frames, blink and slide.
  - SIGINT is an oracle: a sequence of booleans consumed at each timer wait. When a signal reaches the registered handler, it raises `interrupted`, shows the cursor and removes itself.
- **Hooks and configuration**:
  - `execute.dfy` (`Execute`): the hook lookup and the choice of art;
  - `config.dfy` (`Config`): `validateConfig` and `DEFAULT_CONFIG`;
  - `utils.dfy` (`Utils`): `parseArgs` and the `getTimestamp` format;
  - `list.dfy` (`HookList`): the hooks table;
  - `aa_manager.dfy` (`ArtManager`): hook suggestions for an art.
- **Art validator** (`validate_arts.dfy`, module `ArtValidation`): the content checks of `validateFile` as a function of a file's text, and the counting in `validate`.
- **Shared helpers**: `text.dfy` (decimal printing, split, join and padding), `json.dfy` (JSON values and JavaScript truthiness) and `wrappers.dfy` (`Option`, `Result`).

The model follows the code as written where it differs from what a reader
might expect. Each of these is proved:

- The timing constructor does not copy `charDelay` and `lineDelay`, so the character delay is always 50 ms and the line delay always 100 ms (`Timing.ConstructedDelays`). The test at test/animation.spec.js:51-52 expects the supplied value.
- The cubic-bezier easing ends at 0.2 and is not monotone (`Timing.EaseEndpoints`, `Timing.CubicBezierNotMonotone`).
- `stripAnsi` is not idempotent (`Ansi.StripAnsiNotIdempotent`).
- In pattern mode, a global `[...]` pattern that has just matched fails its next test, so a lone class colours every other character (`ColorRules.PatternAlternates`).
- An empty string rule swallows the whole text (`ColorRules.EmptyLiteralSwallows`).
- A region with a negative `y` throws (`ColorRules.RegionThrows`).
- A right slide throws when a line is wider than the terminal (`AnimationTrace.FinalRowsThrows`).
- Any escape character makes an art file invalid, so the allowed colour codes never save a file (`ArtValidation.ColourCodeInvalid`).
- The `;` inside a multi-parameter SGR code counts as a shell command (`ArtValidation.BoldRedInvalid`).
- A second `validate()` on the same validator counts every file twice (`ArtValidation.SecondRunDoubleCounts`).

## Model

All paths are relative to the repository root.

| member | source | states |
|---|---|---|
| Ansi.HexToRgb | src/lib/color/ansi-helper.ts:123-130 | a decoded colour has every component below 256 |
| Ansi.HexToRgbRoundTrip | src/lib/color/ansi-helper.ts:123-130 | hexToRgb reads back any colour written as `#` and six hex digits |
| Ansi.BasicCode | src/lib/color/ansi-helper.ts:85-90 | a token gets a basic code exactly when it is a name in the colour table (background adds 10) |
| Ansi.BasicColorNames | src/lib/color/ansi-helper.ts:24-41 | every basic colour name starts with a lower-case letter |
| Ansi.PaletteCode | src/lib/color/ansi-helper.ts:93-96 | a palette code exists exactly when parseInt succeeds with a value in 0..255 |
| Ansi.ParseColorPalette | src/lib/color/ansi-helper.ts:93-96 | a printed index 0..255 becomes `38;5;n` or `48;5;n`, ahead of the hex and rgb forms |
| Ansi.ParseIntNat | src/lib/color/ansi-helper.ts:93-96 | parseInt reads back the decimal printing of any natural number |
| Ansi.HashNotNumber | src/lib/color/ansi-helper.ts:93-96 | parseInt fails on a token starting with `#`, so a hex colour never reaches the palette branch |
| Ansi.HexCode | src/lib/color/ansi-helper.ts:99-106 | a hex code exists exactly when the token starts with `#` and hexToRgb accepts it |
| Ansi.ParseColorHex | src/lib/color/ansi-helper.ts:99-106 | `#rrggbb` becomes `38;2;r;g;b` or `48;2;r;g;b` with the decoded components |
| Ansi.RgbCode | src/lib/color/ansi-helper.ts:109-115 | an rgb code exists exactly when the token holds an `rgb(d,d,d)` match |
| Ansi.ParseColorIsParams | src/lib/color/ansi-helper.ts:84-118 | whatever form a colour takes, its parameters contain only digits and `;` |
| Ansi.ParseColorNone | src/lib/color/ansi-helper.ts:84-118 | a non-empty token that is no colour name, starts with no space, digit, sign or `#`, and holds no `(` resolves to null |
| Ansi.ParseColorNoneIff | src/lib/color/ansi-helper.ts:84-118 | null exactly when the token is no colour name, no palette index in 0..255, no `#` hex colour and holds no rgb() form |
| Ansi.Colorize | src/lib/color/ansi-helper.ts:46-79 | the loop over styles, then foreground and background, produces the reference text Colorized |
| Ansi.CodesAreParams | src/lib/color/ansi-helper.ts:51-72 | the joined parameter list colorize emits contains only digits and `;` |
| Ansi.ColorizedNoSpec | src/lib/color/ansi-helper.ts:47-49 | with fg, bg and style all absent or empty the text is returned unchanged |
| Ansi.ColorizedUnknownColor | src/lib/color/ansi-helper.ts:74-76 | when no code resolves (an unknown colour name) the text is returned unchanged |
| Ansi.ColorizedCodeOrder | src/lib/color/ansi-helper.ts:51-78 | styles come first in list order, then foreground, then background: `ESC[4;1;31;44m` |
| Ansi.StripAnsi | src/lib/color/ansi-helper.ts:135-139 | stripping never lengthens the text |
| Ansi.StripAnsiPlain | src/lib/color/ansi-helper.ts:135-139 | text without an escape character is unchanged |
| Ansi.StripAnsiSgrPrefix | src/lib/color/ansi-helper.ts:137-138 | a complete SGR sequence is deleted, whatever follows it |
| Ansi.StripAnsiColorized | src/lib/color/ansi-helper.ts:135-139 | round trip: stripping colorize's output gives back any escape-free text |
| Ansi.StripsToColorized | src/lib/color/ansi-helper.ts:46-79 | colouring a unit, however often, keeps what it strips back to |
| Ansi.StripAnsiNotIdempotent | src/lib/color/ansi-helper.ts:135-139 | `ESC[ESC[0m31m` strips to `ESC[31m`, which a second pass strips to nothing |
| Ansi.StripAnsiBrokenIntroducer | src/lib/color/ansi-helper.ts:137-138 | `ESC[` followed by another escape is not a sequence and is kept |
| Ansi.Rainbow | src/lib/color/ansi-helper.ts:194-209 | the loop over the stripped text produces the reference text Rainbowed |
| Ansi.RainbowCodeOf | src/lib/color/ansi-helper.ts:195 | the six rainbow colours resolve to codes 31, 33, 32, 36, 34, 35 |
| Ansi.RainbowUnpainted | src/lib/color/ansi-helper.ts:200-207 | spaces and newlines pass through uncoloured |
| Ansi.RainbowPainted | src/lib/color/ansi-helper.ts:200-207 | any other character gets the colour at the current index, then a reset |
| Ansi.RainbowFromAppend | src/lib/color/ansi-helper.ts:200-207 | the colour index advances only over coloured characters |
| Ansi.RainbowPeriodic | src/lib/color/ansi-helper.ts:194-209 | the colours repeat with period six |
| Ansi.StripAnsiRainbow | src/lib/color/ansi-helper.ts:194-209 | rainbow keeps the visible text: its output strips back to the stripped input |
| ColorRules.FirstRange | src/lib/color/color-engine.ts:136-160 | the first rule whose range contains line i, or -1 exactly when none does |
| ColorRules.LineColored | src/lib/color/color-engine.ts:136-160 | line mode keeps the number of lines and colours each line by itself |
| ColorRules.ColorOneLine | src/lib/color/color-engine.ts:136-160 | the inner rule scan colours a line by the first range containing it |
| ColorRules.ApplyLineColors | src/lib/color/color-engine.ts:136-160 | the loop over lines computes the reference definition LineColors |
| ColorRules.LineColorsLines | src/lib/color/color-engine.ts:136-160 | splitting the result gives the input's lines, each coloured by the first range containing it |
| ColorRules.StripLineColors | src/lib/color/color-engine.ts:136-160 | line mode on escape-free text strips back to the text |
| ColorRules.FirstCharRule | src/lib/color/color-engine.ts:209-230 | the first rule equal to the one-character string, or -1 exactly when none is |
| ColorRules.ColorChar | src/lib/color/color-engine.ts:209-230 | the inner rule scan colours a character with the first rule equal to it |
| ColorRules.ApplyCharacterColors | src/lib/color/color-engine.ts:209-230 | the loop over characters computes the reference definition CharColors |
| ColorRules.CharRuleNeedsOneChar | src/lib/color/color-engine.ts:209-230 | a rule string that is not one character never colours anything |
| ColorRules.StripCharColors | src/lib/color/color-engine.ts:209-230 | character mode on escape-free text strips back to the text |
| ColorRules.TestRule | src/lib/color/color-engine.ts:180-186 | testing a rule keeps its colour and kind; only a pattern rule changes (its lastIndex) |
| ColorRules.MatchRules | src/lib/color/color-engine.ts:165-204 | the scan at one position returns every rule, possibly updated |
| ColorRules.MatchAt | src/lib/color/color-engine.ts:165-204 | the inner rule loop computes MatchRules: the first rule that matches, and the rules afterwards |
| ColorRules.ApplyPatternColors | src/lib/color/color-engine.ts:165-204 | the walk over the text computes the reference definition PatternColors, rules included |
| ColorRules.PatternSkip | src/lib/color/color-engine.ts:165-204 | k pending skips pass over the next k characters untouched |
| ColorRules.MatchRulesCovers | src/lib/color/color-engine.ts:165-204 | without an empty string rule every hit is text that occurs at the position |
| ColorRules.PatternCovers | src/lib/color/color-engine.ts:165-204 | without an empty string rule pattern mode loses and duplicates no character |
| ColorRules.StripPatternColors | src/lib/color/color-engine.ts:165-204 | without an empty string rule pattern mode on escape-free text strips back to the text |
| ColorRules.FirstLiteralAtSpec | src/lib/color/color-engine.ts:187-194 | the first string rule occurring at i, or -1 exactly when none occurs |
| ColorRules.MatchRulesLiterals | src/lib/color/color-engine.ts:187-194 | with string rules only, the first string occurring at i wins and no rule changes |
| ColorRules.PatternLiteralHit | src/lib/color/color-engine.ts:187-194 | a string rule is consumed whole: it is coloured and the output goes on after it |
| ColorRules.PatternLiteralMiss | src/lib/color/color-engine.ts:165-204 | where no string occurs the character passes through |
| ColorRules.PatternLiteralsKeepRules | src/lib/color/color-engine.ts:187-194 | with string rules only the rules come back unchanged |
| ColorRules.PatternLiterals | src/lib/color/color-engine.ts:165-204 | with non-empty string rules, pattern mode equals the direct definition LiteralPieces |
| ColorRules.EmptyLiteralHits | src/lib/color/color-engine.ts:187-194 | an empty string rule matches everywhere and skips nothing |
| ColorRules.EmptyLiteralSwallows | src/lib/color/color-engine.ts:187-194 | an empty string rule replaces every character by a coloured empty string |
| ColorRules.EmptyLiteralStripsToNothing | src/lib/color/color-engine.ts:165-204 | with a single empty string rule the output strips to the empty text |
| ColorRules.PatternAlternates | src/lib/color/color-engine.ts:180-186 | a lone class that matches every character colours every other one |
| ColorRules.PaintRow | src/lib/color/color-engine.ts:235-254 | the column loop colours the cells of the region's column range that exist |
| ColorRules.PaintRegion | src/lib/color/color-engine.ts:235-254 | the row loop throws for a negative y that it reaches, else paints the rows that exist |
| ColorRules.ApplyRegionColors | src/lib/color/color-engine.ts:235-254 | the region loop computes the reference definition RegionColors |
| ColorRules.RegionCells | src/lib/color/color-engine.ts:235-254 | the grid keeps its shape and each cell is wrapped once per covering region, first rule innermost |
| ColorRules.RegionThrows | src/lib/color/color-engine.ts:235-254 | region mode throws exactly when some region reaches a row above the grid |
| ColorRules.StripRegionColors | src/lib/color/color-engine.ts:235-254 | region mode on escape-free text strips back to the text when it does not throw |
| ColorEngine.ThemedStrips | src/lib/color/color-engine.ts:31-47 | a stable theme only adds SGR sequences: the result strips to the stripped input |
| ColorEngine.ThemedKeepsRules | src/lib/color/color-engine.ts:31-47 | outside pattern mode, or with string rules only, the theme's rules are unchanged |
| ColorEngine.ThemedIdempotent | src/lib/color/color-engine.ts:31-47 | applying a stable theme to its own output gives the same output and rules |
| ColorEngine.Engine.ApplyTheme | src/lib/color/color-engine.ts:31-47 | applyTheme computes the reference definition Themed |
| ColorEngine.ValidateTheme | src/lib/color/color-engine.ts:115-124 | true exactly for an object with truthy name, version and colors, a valid mode and an array of rules |
| ColorEngine.FirstBadRule | src/lib/color/color-engine.ts:59-66 | the first rule that fails to compile, or -1 exactly when all compile |
| ColorEngine.CompileAll | src/lib/color/color-engine.ts:59-66 | every bracketed string compiled, one rule for one, or the error of the first that does not compile |
| ColorEngine.CompilePatterns | src/lib/color/color-engine.ts:59-66 | the in-place loop gives exactly CompileAll's result |
| ColorEngine.ParsedTheme | src/lib/color/color-engine.ts:52-74 | errors carry the parse prefix; success exactly when the file is readable, valid and its patterns compile; only the rules change |
| ColorEngine.ParsedThemeReadsJson | src/lib/color/color-engine.ts:52-74 | a parsed theme has the file's mode, one of the four, and its name, version and rule count |
| ColorEngine.ParseTheme | src/lib/color/color-engine.ts:52-74 | gives exactly ParsedTheme: the file's error, `Invalid theme format`, the first compile error, or the theme with its patterns compiled, in a valid mode |
| ColorEngine.FirstExisting | src/lib/color/color-engine.ts:79-110 | the first search path that exists, or -1 exactly when none does |
| ColorEngine.Engine.SearchPaths | src/lib/color/color-engine.ts:79-110 | three paths, the user theme directory first |
| ColorEngine.Engine.LoadTheme | src/lib/color/color-engine.ts:79-110 | a cache hit returns without search; a miss gives ParsedTheme of the first existing path, or `Theme not found`; only a parsed theme is cached, and every cached theme keeps a valid mode |
| ColorEngine.Engine.constructor | src/lib/color/color-engine.ts:20-26 | the theme directory defaults to `$HOME/.aahook/themes`; the cache starts empty |
| ColorEngine.UserThemes | src/lib/color/color-engine.ts:273-295 | a directory contributes at most one name per file |
| ColorEngine.UserThemeName | src/lib/color/color-engine.ts:273-295 | a `.json` file lists as its name without the extension |
| ColorEngine.Missing | src/lib/color/color-engine.ts:273-295 | the built-in names not already listed, and only those |
| ColorEngine.WithBuiltInsIsAppend | src/lib/color/color-engine.ts:273-295 | merging keeps the listed names first and appends each missing built-in once |
| ColorEngine.Engine.ListThemes | src/lib/color/color-engine.ts:273-295 | the directory's themes, then the built-ins not yet listed |
| ColorEngine.ThemeListShape | src/lib/color/color-engine.ts:273-295 | every built-in theme is listed, after the directory's own themes |
| Timing.OrReal | src/lib/animation/timing-controller.ts:11-19 | JavaScript's logical or with a default: the value when it is present and non-zero, else the default |
| Timing.OrInt | src/lib/animation/timing-controller.ts:11-19 | JavaScript's logical or with a default, for an integer option |
| Timing.TimingController.constructor | src/lib/animation/timing-controller.ts:11-19 | options defaulted (a falsy value counts as absent), a stopped clock, character delay 50 and line delay 100 |
| Timing.ConstructedDelays | src/lib/animation/timing-controller.ts:11-19 | charDelay and lineDelay are dropped whatever is given; fps is kept, 30 when absent |
| Timing.DelayEndpoints | src/lib/animation/timing-controller.ts:33-39 | the first delay is 0 and the last the whole duration, a fifth of it under cubic-bezier |
| Timing.LinearDelays | src/lib/animation/timing-controller.ts:33-39 | linear easing over 1000 ms and ten steps gives 0, 5000/9 and 1000 |
| Timing.EaseEndpoints | src/lib/animation/timing-controller.ts:44-91 | every curve maps 0 to 0; all but cubic-bezier map 1 to 1; ease-in-out maps 1/2 to 1/2 |
| Timing.EaseBounded | src/lib/animation/timing-controller.ts:44-91 | on [0, 1] every curve stays within [0, 1] |
| Timing.EaseMonotone | src/lib/animation/timing-controller.ts:44-91 | every curve but cubic-bezier is non-decreasing on [0, 1] |
| Timing.CubicBezierNotMonotone | src/lib/animation/timing-controller.ts:86-91 | cubic-bezier is higher at 2/3 than at 1 |
| Timing.LoopPasses | src/lib/animation/timing-controller.ts:117-120 | loop -1 runs for ever, absent or 0 once, n > 0 n times, other negatives never |
| Timing.TimingController.Start | src/lib/animation/timing-controller.ts:125-128 | the clock starts at the given time, unpaused |
| Timing.TimingController.Pause | src/lib/animation/timing-controller.ts:133-138 | a running clock records the pause time; a paused one is unchanged |
| Timing.TimingController.Resume | src/lib/animation/timing-controller.ts:143-149 | a paused clock moves its start on by the paused time; a running one is unchanged |
| Timing.TimingController.GetElapsed | src/lib/animation/timing-controller.ts:154-159 | the elapsed time of the current clock state |
| Timing.TimingController.Reset | src/lib/animation/timing-controller.ts:164-168 | start 0, paused time 0, not paused |
| Timing.PauseResumeNoops | src/lib/animation/timing-controller.ts:133-149 | pausing twice, or resuming a running clock, changes nothing |
| Timing.ElapsedFrozen | src/lib/animation/timing-controller.ts:154-159 | while paused the elapsed time does not move |
| Timing.PauseExcluded | src/lib/animation/timing-controller.ts:133-159 | a pause is left out of the elapsed time, which never drops after resuming |
| Render.Renderer.constructor | src/lib/animation/renderer.ts:11-14 | interactive exactly when stdout is a terminal; empty output |
| Render.Renderer.HideCursor | src/lib/animation/renderer.ts:19-23 | appends `ESC[?25l` on a terminal, nothing otherwise |
| Render.Renderer.ShowCursor | src/lib/animation/renderer.ts:28-32 | appends `ESC[?25h` on a terminal, nothing otherwise |
| Render.Renderer.ClearLine | src/lib/animation/renderer.ts:37-41 | appends `ESC[2K` and a carriage return on a terminal |
| Render.Renderer.ClearScreen | src/lib/animation/renderer.ts:46-50 | appends `ESC[0J` on a terminal |
| Render.Renderer.MoveCursor | src/lib/animation/renderer.ts:55-59 | appends `ESC[y;xH`, row first, on a terminal |
| Render.Renderer.MoveCursorUp | src/lib/animation/renderer.ts:64-68 | appends `ESC[nA` on a terminal when n > 0 |
| Render.Renderer.MoveCursorDown | src/lib/animation/renderer.ts:73-77 | appends `ESC[nB` on a terminal when n > 0 |
| Render.MoveFormats | src/lib/animation/renderer.ts:64-77 | the count is written in decimal, and a count that is not positive writes nothing |
| Render.Renderer.SavePosition | src/lib/animation/renderer.ts:82-86 | appends `ESC 7` on a terminal |
| Render.Renderer.RestorePosition | src/lib/animation/renderer.ts:91-95 | appends `ESC 8` on a terminal |
| Render.Renderer.Write | src/lib/animation/renderer.ts:100-102 | appends the content verbatim, terminal or not |
| Render.Renderer.WriteLine | src/lib/animation/renderer.ts:107-109 | appends the content and a newline |
| Render.Renderer.Cleanup | src/lib/animation/renderer.ts:114-117 | does exactly what showCursor does |
| Render.Renderer.TerminalSize | src/lib/animation/renderer.ts:129-137 | 80 by 24 off a terminal; on one the reported size, 80 and 24 for a missing or zero value |
| Render.PlayedAppend | src/lib/animation/renderer.ts:19-109 | the output of two call sequences is the output of the first, then the second |
| Render.PlayedNonInteractive | src/lib/animation/renderer.ts:19-109 | off a terminal a sequence of calls writes exactly its text and no escape sequence |
| Animation.AnimationEngine.constructor | src/lib/animation/animation-engine.ts:13-17 | a fresh renderer and timing controller; the interrupt handler is registered |
| Animation.AnimationEngine.Cleanup | src/lib/animation/animation-engine.ts:390-397 | shows the cursor and removes the interrupt handler |
| Animation.AnimationEngine.Animate | src/lib/animation/animation-engine.ts:22-54 | animate issues exactly the calls of the reference trace Animated, and returns what it throws |
| Animation.StaticDisplay | src/lib/animation/animation-engine.ts:27-31 | without animation support or preview the output is the content, arrays joined by newlines |
| Animation.TextAsFrames | src/lib/animation/animation-engine.ts:42-44 | a text given as frames animates its characters and writes the text once per pass |
| Animation.TypingAfterInterrupt | src/lib/animation/animation-engine.ts:375-398 | once the handler has run it is removed and animate does not register it again; a later typing that receives no signal writes all its content |
| Animation.AnimationEngine.TypeChar | src/lib/animation/animation-engine.ts:65-68 | one character, then a wait unless it is a newline |
| Animation.AnimationEngine.TypeContent | src/lib/animation/animation-engine.ts:64-69 | the typing loop, which stops once interrupted, issues the reference loop's calls |
| Animation.AnimationEngine.AnimateTyping | src/lib/animation/animation-engine.ts:59-77 | hide, the characters, a final newline if missing, show: the reference trace TypingRun |
| Animation.AnimationEngine.OpenFade | src/lib/animation/animation-engine.ts:88-101 | hide, n empty lines, n moves up, save |
| Animation.AnimationEngine.RenderFadeFrame | src/lib/animation/animation-engine.ts:158-169 | restore, then every row cleared and rewritten, hidden rows blank |
| Animation.AnimationEngine.FadeTop | src/lib/animation/animation-engine.ts:106-112 | step i shows rows 0..i, stopping once interrupted |
| Animation.AnimationEngine.FadeBottom | src/lib/animation/animation-engine.ts:113-119 | step i shows the last i + 1 rows, stopping once interrupted |
| Animation.AnimationEngine.FadeChars | src/lib/animation/animation-engine.ts:120-149 | step c shows c characters of every row, from the left or the right |
| Animation.AnimationEngine.AnimateFade | src/lib/animation/animation-engine.ts:82-153 | fade issues the calls of the reference trace FadeRun for its direction |
| Animation.AnimationEngine.ClearFrame | src/lib/animation/animation-engine.ts:362-370 | clears each row of the frame, moving down between rows |
| Animation.AnimationEngine.ShowFrame | src/lib/animation/animation-engine.ts:188-192 | restore, clear, write the frame, wait the frame delay |
| Animation.AnimationEngine.FramePass | src/lib/animation/animation-engine.ts:185-193 | one pass over the frames, stopping before the next frame once interrupted |
| Animation.AnimationEngine.FramePasses | src/lib/animation/animation-engine.ts:183-195 | passes while the loop rule allows and no interrupt has come |
| Animation.AnimationEngine.AnimateFrames | src/lib/animation/animation-engine.ts:174-198 | nothing for no frames; else hide and save, the passes, show: the reference trace FramesRun |
| Animation.AnimationEngine.BlinkOnce | src/lib/animation/animation-engine.ts:218-225 | write, wait 500, clear, carriage return, wait 500 |
| Animation.AnimationEngine.BlinkRounds | src/lib/animation/animation-engine.ts:216-226 | rounds while below the loop count and uninterrupted |
| Animation.AnimationEngine.AnimateBlink | src/lib/animation/animation-engine.ts:203-229 | one write with the matches marked, the SyntaxError of an invalid pattern, or the rounds and a last write: the reference trace BlinkRun |
| Animation.AnimationEngine.ClearArea | src/lib/animation/animation-engine.ts:270-275 | clears n rows, an empty line between each two |
| Animation.AnimationEngine.OpenSlide | src/lib/animation/animation-engine.ts:267-280 | hide, clear the area, move back up one row per line |
| Animation.AnimationEngine.SlideFrameRows | src/lib/animation/animation-engine.ts:286-302 | each row cleared and written after its padding, a newline decided by indexOf |
| Animation.AnimationEngine.SlideFrame | src/lib/animation/animation-engine.ts:284-307 | save, the padded rows, wait 20, restore |
| Animation.AnimationEngine.SlideFrames | src/lib/animation/animation-engine.ts:282-308 | frames i = 0..steps with padding steps - i (left) or i (right), stopping once interrupted |
| Animation.AnimationEngine.FinalRender | src/lib/animation/animation-engine.ts:312-320 | the final rows in place or right-aligned; a negative padding throws |
| Animation.AnimationEngine.FinishSlide | src/lib/animation/animation-engine.ts:311-322 | save, the final render, and show unless it threw |
| Animation.AnimationEngine.SlideHorizontal | src/lib/animation/animation-engine.ts:257-323 | the reference trace SlideHorizontalRun, and what it throws |
| Animation.AnimationEngine.SlideLine | src/lib/animation/animation-engine.ts:337-338 | one line, then wait 20 |
| Animation.AnimationEngine.SlideVertical | src/lib/animation/animation-engine.ts:328-340 | the lines in order, or reversed, stopping once interrupted |
| Animation.AnimationEngine.AnimateSlide | src/lib/animation/animation-engine.ts:234-252 | horizontal for left and right, vertical for the other four directions, nothing otherwise |
| AnimationTrace.ExecQuiet | src/lib/animation/animation-engine.ts:375-385 | with no signal to deliver, a plan runs exactly as written |
| AnimationTrace.LoopQuiet | src/lib/animation/animation-engine.ts:64-69 | with no signal, a guarded loop runs every step |
| AnimationTrace.LoopCut | src/lib/animation/animation-engine.ts:375-385 | an interrupt cuts a loop at a step boundary, and only an interrupt does |
| AnimationTrace.TypingTypesPrefix | src/lib/animation/animation-engine.ts:64-69 | however it is interrupted, typing writes a prefix of the content |
| AnimationTrace.TypingQuietWritten | src/lib/animation/animation-engine.ts:64-69 | without interrupt, the typing loop writes exactly the content |
| AnimationTrace.TypingTypesAll | src/lib/animation/animation-engine.ts:59-77 | without interrupt: hide first, show last, the content and a final newline if missing |
| AnimationTrace.FadeFrameWritten | src/lib/animation/animation-engine.ts:158-169 | a frame that reveals every row writes every line once, in order |
| AnimationTrace.FadeProgress | src/lib/animation/animation-engine.ts:106-119 | after step i exactly rows 0..i (top) or the last i + 1 rows (bottom) are shown |
| AnimationTrace.FadeRowShape | src/lib/animation/animation-engine.ts:120-149 | a left fade shows a prefix; a right fade keeps the row's width with its end visible |
| AnimationTrace.FadeCompletes | src/lib/animation/animation-engine.ts:82-153 | the last step of every direction shows every row in full |
| AnimationTrace.FrameStepsWritten | src/lib/animation/animation-engine.ts:185-193 | a pass without interrupt writes every frame once, in order |
| AnimationTrace.FramesWritten | src/lib/animation/animation-engine.ts:174-198 | without interrupt: hide and save first, show last, the frames once per pass |
| AnimationTrace.PassCountAgrees | src/lib/animation/timing-controller.ts:117-120 | the pass count agrees with shouldContinueLoop; an endless loop is cut at the fuel bound |
| AnimationTrace.BlinkRounds | src/lib/animation/animation-engine.ts:214-228 | without interrupt: `loops` rounds of the content and a carriage return, then the content |
| AnimationTrace.BlinkedStrips | src/lib/animation/animation-engine.ts:209-213 | marking the matches only adds blink codes: the result strips back to the content |
| AnimationTrace.BlinkPatternStrips | src/lib/animation/animation-engine.ts:209-213 | with a pattern, blink is one write that strips back to the content |
| AnimationTrace.BlinkBadPattern | src/lib/animation/animation-engine.ts:209-213 | an invalid pattern throws its SyntaxError before anything is written |
| AnimationTrace.FadeShowsAll | src/lib/animation/animation-engine.ts:88-152 | a fade that receives no signal hides the cursor first, plays every frame and shows the cursor last |
| AnimationTrace.SlideHorizontalShown | src/lib/animation/animation-engine.ts:257-323 | a horizontal slide that receives no signal hides the cursor first; it throws exactly when sliding right with a line wider than the terminal, otherwise shows the cursor last; sliding left ends with the lines as they are |
| AnimationTrace.FinalRowsThrows | src/lib/animation/animation-engine.ts:311-322 | a right slide throws exactly when some row is wider than the terminal; a left slide never throws |
| AnimationTrace.FinalRowsLeft | src/lib/animation/animation-engine.ts:312-320 | a left slide ends with every row written in place, one per line |
| AnimationTrace.SlideRowNewline | src/lib/animation/animation-engine.ts:299-301 | every row but the last gets a newline, and the last one does when it repeats an earlier row |
| AnimationTrace.Reversed | src/lib/animation/animation-engine.ts:333-334 | element i of the reversed lines is element n - 1 - i |
| AnimationTrace.VerticalWritten | src/lib/animation/animation-engine.ts:336-339 | the vertical loop writes its lines in order, one per line |
| AnimationTrace.SlideVerticalOrder | src/lib/animation/animation-engine.ts:328-340 | without interrupt: the lines in order from the top, reversed from the bottom |
| Config.ValidateConfig | src/lib/config.ts:76-90 | true exactly for an object with a non-empty string version and an object or array of hooks |
| Config.ValidateConfigIgnoresOtherFields | src/lib/config.ts:76-90 | fields other than version and hooks do not change the verdict |
| Config.DefaultConfigShape | src/lib/config.ts:27-42 | the default is valid, with hooks `git push`, `ls` and `npm test`; `ls` has no error art |
| Execute.FindHook | src/lib/execute.ts:100-111 | a hook exactly when hooks is an object holding a truthy entry under exactly the command |
| Execute.DetermineArtFile | src/lib/execute.ts:116-127 | exit code 0 reads success, any other reads error; no hook or a falsy name gives nothing |
| Execute.ArtAfter | src/lib/execute.ts:79-91 | art is shown only when a hook was found for the joined command line |
| Execute.ArtNeedsExactKey | src/lib/execute.ts:82-108 | a command line without an exact key shows nothing; there is no prefix match |
| Execute.DefaultGitPush | src/lib/execute.ts:82-91 | with the default configuration `git push` shows dragon.txt on success, error.txt on failure |
| Execute.DefaultLs | src/lib/execute.ts:82-91 | `ls` shows cat.txt on success and nothing on failure |
| Execute.DefaultGitPushOrigin | src/lib/execute.ts:82-91 | an extra argument changes the key: `git push origin` shows nothing |
| Utils.ParseArgs | src/lib/utils.ts:54-69 | no arguments give no command; a flag is the command with the rest as arguments; otherwise the joined line is the command |
| Utils.ParseArgsKeepsArguments | src/lib/utils.ts:54-69 | no argument is lost |
| Utils.ParseArgsCommandSplits | src/lib/utils.ts:69 | with space-free arguments, splitting the command on spaces gives the arguments back |
| Utils.TwoDigitsRoundTrip | src/lib/utils.ts:42-46 | a number below 100 pads to two digits that read back as the number |
| Utils.YearRoundTrip | src/lib/utils.ts:41 | a four-digit year prints as four digits that read back as the year |
| Utils.TimestampFields | src/lib/utils.ts:39-49 | 15 characters, `-` at index 8, each field (month 1-based) read back from its fixed slice |
| HookList.Cell | src/lib/list.ts:82-84 | a missing or empty art shows as `(default)`, so no cell is empty |
| HookList.WidestTitle | src/lib/list.ts:52-65 | the title fits the column |
| HookList.WidestBounds | src/lib/list.ts:52-65 | every cell fits the column |
| HookList.WidestAttained | src/lib/list.ts:52-65 | the widest length is the title's or some cell's |
| HookList.MeasureColumns | src/lib/list.ts:51-65 | the width loop computes each column's widest cell or title, plus 2 |
| HookList.ColumnsFit | src/lib/list.ts:52-65 | the measured widths leave two spaces after every title and cell |
| HookList.Rows | src/lib/list.ts:82-91 | one row per hook |
| HookList.RowsAt | src/lib/list.ts:82-91 | row i is hook i's row, in entry order |
| HookList.EmitLines | src/lib/list.ts:67-91 | header, separator, then one row per hook, pushed in order |
| HookList.PaddedCell | src/lib/list.ts:68-90 | padEnd of a cell that fits reaches exactly the column width and keeps the cell |
| HookList.LineAt | src/lib/list.ts:82-91 | line i + 2 holds hook i's row |
| HookList.TableShape | src/lib/list.ts:48-93 | two lines more than hooks; header and rows exactly as wide as the columns, the separator one less |
| HookList.RowLayout | src/lib/list.ts:82-91 | row i holds the command, success and error cells at the column offsets, each followed by two spaces |
| HookList.FormatTable | src/lib/list.ts:48-93 | the two passes produce the table lines joined by newlines |
| HookList.DisplayHooks | src/lib/list.ts:30-43 | no hooks print the two-line notice; otherwise the table is printed |
| ArtManager.SuggestHooks | src/lib/aa-manager.ts:123-156 | suggested lists decide each side; otherwise the category does, emotions by the name; never both sides without lists |
| ArtManager.GetSuggestedCommands | src/lib/aa-manager.ts:161-178 | the loops push the reference list SuggestedCommands |
| ArtManager.SuggestedCommandsOrder | src/lib/aa-manager.ts:161-178 | every success command in order, then every error command, each tagged; nothing without suggestions |
| ArtManager.SuggestedKindsHaveLists | src/lib/aa-manager.ts:123-178 | a command is suggested for a side only when suggestHooks sets that side |
| ArtValidation.CsiLen | scripts/validate-arts.ts:33-35 | a control sequence match lies within the text |
| ArtValidation.ShellLen | scripts/validate-arts.ts:45 | a shell-command match lies within the text |
| ArtValidation.UrlLen | scripts/validate-arts.ts:128 | a URL match lies within the text |
| ArtValidation.MatchLen | scripts/validate-arts.ts:31-49 | a pattern match starting at p lies within the text |
| ArtValidation.MatchesEmpty | scripts/validate-arts.ts:89-91 | content.match finds nothing exactly when no position starts a match |
| ArtValidation.FirstMatch | scripts/validate-arts.ts:90 | the first match is the one at the first position that starts a match |
| ArtValidation.PatternStep | scripts/validate-arts.ts:89-107 | one more pattern adds its error, if any, and clears the verdict exactly then |
| ArtValidation.PatternScan | scripts/validate-arts.ts:89-107 | the pattern loop leaves the verdict Clean and pushes the errors PatternErrors |
| ArtValidation.CleanIffNoErrors | scripts/validate-arts.ts:89-107 | no pattern reports an error exactly when the error list is empty |
| ArtValidation.CleanAll | scripts/validate-arts.ts:89-107 | the patterns are clean exactly when each one is |
| ArtValidation.ErrorIffMatch | scripts/validate-arts.ts:89-107 | every pattern but escapeCharacter reports an error exactly when it matches somewhere |
| ArtValidation.EscapeNeedsControl | scripts/validate-arts.ts:39-42 | escapeCharacter only reports where controlChars already matches |
| ArtValidation.LongLineScan | scripts/validate-arts.ts:81-86 | the line loop pushes the warnings LongLineWarnings |
| ArtValidation.LongLineHasWarning | scripts/validate-arts.ts:81-86 | every line over 120 code units has its warning |
| ArtValidation.WarningHasLongLine | scripts/validate-arts.ts:81-86 | every line warning belongs to a line over 120 code units |
| ArtValidation.LongLineWarningsIff | scripts/validate-arts.ts:81-86 | the warnings are exactly one per long line, citing its 1-based number |
| ArtValidation.LongLineWarned | scripts/validate-arts.ts:81-86 | a long line's warning, with its number and length, is among the file's warnings |
| ArtValidation.Flagged | scripts/validate-arts.ts:113-119 | every kept code unit is non-printable and outside the excused ranges |
| ArtValidation.External | scripts/validate-arts.ts:130-133 | a URL is suspicious exactly when it was found and names neither github.com nor npmjs.com |
| ArtValidation.ExternalUrlWarns | scripts/validate-arts.ts:128-137 | any URL naming neither github.com nor npmjs.com is listed in the warning, which is among the file's warnings |
| ArtValidation.UrlWarningIff | scripts/validate-arts.ts:128-137 | the URL warning appears exactly when some URL found is external |
| ArtValidation.ExternalUrlFirst | scripts/validate-arts.ts:128-137 | an external first URL opens the warning's list |
| ArtValidation.ArtValidator.constructor | scripts/validate-arts.ts:54-56 | keeps the arts directory; no results yet |
| ArtValidation.ArtValidator.ValidateFile | scripts/validate-arts.ts:61-145 | validateFile computes the reference result Check |
| ArtValidation.ValidIffNoErrors | scripts/validate-arts.ts:61-145 | a file is invalid exactly when some error was recorded |
| ArtValidation.ValidIff | scripts/validate-arts.ts:61-145 | valid exactly when at most 10240 UTF-8 bytes and no pattern but escapeCharacter matches; warnings play no part |
| ArtValidation.OversizeInvalid | scripts/validate-arts.ts:74-78 | over 10240 UTF-8 bytes the file is invalid and the size error comes first |
| ArtValidation.InvalidIfMatch | scripts/validate-arts.ts:102-105 | a match of any pattern but escapeCharacter makes the file invalid |
| ArtValidation.ControlCharInvalid | scripts/validate-arts.ts:42 | a C0 control other than tab, newline and carriage return, or DEL, makes the file invalid |
| ArtValidation.ColourCodeInvalid | scripts/validate-arts.ts:52 | even an allowed colour code makes the file invalid |
| ArtValidation.BidiInvalid | scripts/validate-arts.ts:48 | a direction override or isolate character makes the file invalid |
| ArtValidation.ShellCharInvalid | scripts/validate-arts.ts:45 | `$(`, a backtick, a double ampersand, a double bar or `;` anywhere makes the file invalid |
| ArtValidation.BoldRedInvalid | scripts/validate-arts.ts:45 | the `;` of a bold red SGR code makes the file invalid |
| ArtValidation.ShellWordLineInvalid | scripts/validate-arts.ts:45 | a newline, white space and a shell word, even as a word's start, makes the file invalid |
| ArtValidation.Checks | scripts/validate-arts.ts:181-184 | one result per file |
| ArtValidation.ArtValidator.Validate | scripts/validate-arts.ts:178-196 | results grow by this run's results; counts cover every result so far |
| ArtValidation.ValidOnesAppend | scripts/validate-arts.ts:186-191 | the valid and invalid filters distribute over appended results |
| ArtValidation.PartitionCounts | scripts/validate-arts.ts:186-191 | every result is counted once, as valid or invalid |
| ArtValidation.FreshSummary | scripts/validate-arts.ts:178-196 | on a fresh validator valid and invalid add up to the file count |
| ArtValidation.SecondRunDoubleCounts | scripts/validate-arts.ts:178-196 | a second run on the same files counts each twice |

## Left out

- I/O: reading and writing files, `console.log` and process exit are not modelled. The theme files are a map from path to their parsed form, a directory listing is an input, and `displayHooks` returns the lines it would log.
- Clocks: `Date.now()` and the local date fields are parameters (`now` and `getTimestamp`'s fields).
- Timers: `wait` is a `Wait` event in the trace, not a delay. SIGINT is an oracle consumed at each wait, so `setupInterruptHandler` and `process.on` are that oracle, not code.
- Numbers: floating-point arithmetic is modelled with exact reals. `1000 / fps` and the easing curves carry no rounding.
- Regular expressions: the blink pattern is arbitrary, so `new RegExp(pattern, 'g')` and its matches are a parameter giving the match spans, or the SyntaxError message of an invalid pattern. A theme's `[...]` class is modelled by the set of characters it matches, with the RegExp constructor as a parameter.
- AnimationTrace.Waited: a SIGINT that arrives while no handler is registered ends the process under Node's default action, leaving the cursor hidden. The model passes over such a signal, so the lemmas about whole runs require that none arrives (`Quiet`).
- ColorEngine.PathJoin: `path.join` normalises the joined path (a trailing slash, `.` and `..`, a theme name holding `/`); the model only concatenates with `/`, so the search paths keep `../../..` literally.
- ColorRules: a rule's object `match` holds only the integer fields `start`, `end`, `x`, `y`, `width` and `height`. Non-integer numbers and strings in those fields, which JavaScript compares after coercion, are not represented.
- ColorEngine.ParseTheme: the typed theme is given beside the parsed JSON; `Reads` ties its name, version, mode and rules to the JSON, but descriptions, authors and colour values are taken as read.
- Animation.AnimationEngine.FramePasses: an endless frame loop (`loop` -1) stops after `fuel` passes, so the model does not capture a loop that never ends without an interrupt.
- Text: strings are sequences of Unicode scalar values. Where `.length` counts UTF-16 code units (the validator's line length and non-printable check), `CodeUnits` and `Utf16Length` count them. Everywhere else a character beyond U+FFFF counts as one unit, not two, and lone surrogates cannot be written.
- ArtValidation.EscapeWindow: the nine characters after the first escape are counted in characters, not UTF-16 code units. It never affects the verdict, since escapeCharacter only reports where controlChars does.
- JavaScript object semantics: keys inherited from the prototype, integer-like keys listed before other keys, and hook values that are not strings are not modelled. `findHook` and the hooks table see a map from command line to art names, in entry order.
- `getColorSupport`, `createGradient`, `saveColoredArt` and `stripColors` (a direct call of `stripAnsi`) are not part of this model.
- `getOrderedLines` is never called, and it is not part of this model.
- `executeCommand` and `runWithHook` are not modelled: they run a shell command and exit. Their hook decision is modelled by `Execute.ArtAfter` on the joined command line.
- `loadConfig` and `saveConfig` read and write the configuration file and are not modelled.
- The AAManager file operations (install, list, remove and the index) are not part of this model.
- `findArtFiles`, `printReport` and the validator's `main` walk the file system and print. The walk's result is an input list of files, each readable or not, with `path.relative` already applied.
