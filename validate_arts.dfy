/**
 * The art validator of scripts/validate-arts.ts. Each art file is checked for
 * size, line length, dangerous control sequences, shell metacharacters,
 * non-printable code units and external URLs. Errors make a file invalid;
 * warnings do not. The file system walk and the printed report are not part
 * of this model: the files arrive as a list of readable contents (path
 * relative to the arts directory) or read failures.
 *
 * The regular expressions of the validator are fixed, so each one is
 * modelled by the length of the match it finds at a position (`MatchLen`)
 * and the global match list by a left-to-right scan (`Matches`).
 */
module ArtValidation {
  import opened Wrappers
  import opened Text

  /** The escape character U+001B. */
  const Esc: char := '\U{1B}'

  function Min(a: int, b: int): int {
    if a <= b then a else b
  }

  /** The validator's regular expressions: the eight dangerous patterns and the URL pattern. */
  datatype Regex =
    | AnsiCursorControl  // \x1b\[[0-9;]*[HfABCDEFGJKSTsu]
    | AnsiEraseScreen    // \x1b\[[0-9;]*[JK]
    | AnsiDeviceControl  // \x1b\[[\?!][0-9;]*[a-zA-Z]
    | BellCharacter      // \x07
    | EscapeCharacter    // \x1b(?!\[)
    | ControlChars       // [\x00-\x08\x0B\x0C\x0E-\x1F\x7F]
    | ShellCommands      // (\$\(|`|&&|\|\||;|\n\s*(rm|curl|wget|sh|bash|eval|exec))
    | UnicodeOverride    // [‪-‮⁦-⁩]
    | Url                // https?:\/\/[^\s]+

  /** The dangerous patterns, in the order Object.entries visits them. */
  const DangerousPatterns: seq<Regex> := [
    AnsiCursorControl, AnsiEraseScreen, AnsiDeviceControl, BellCharacter,
    EscapeCharacter, ControlChars, ShellCommands, UnicodeOverride]

  function Name(re: Regex): string {
    match re
    case AnsiCursorControl => "ansiCursorControl"
    case AnsiEraseScreen => "ansiEraseScreen"
    case AnsiDeviceControl => "ansiDeviceControl"
    case BellCharacter => "bellCharacter"
    case EscapeCharacter => "escapeCharacter"
    case ControlChars => "controlChars"
    case ShellCommands => "shellCommands"
    case UnicodeOverride => "unicodeOverride"
    case Url => "url"
  }

  /** A C0 control other than tab, line feed and carriage return, or DEL. */
  predicate IsControl(c: char) {
    var x := c as int;
    x <= 0x08 || x == 0x0B || x == 0x0C || (0x0E <= x <= 0x1F) || x == 0x7F
  }

  /** A bidirectional embedding, override or isolate character. */
  predicate IsBidi(c: char) {
    var x := c as int;
    (0x202A <= x <= 0x202E) || (0x2066 <= x <= 0x2069)
  }

  /** JavaScript's `\s`: white space and line terminators. */
  predicate IsSpace(c: char) {
    var x := c as int;
    x == 0x09 || x == 0x0A || x == 0x0B || x == 0x0C || x == 0x0D || x == 0x20 || x == 0xA0 ||
    x == 0x1680 || (0x2000 <= x <= 0x200A) || x == 0x2028 || x == 0x2029 || x == 0x202F ||
    x == 0x205F || x == 0x3000 || x == 0xFEFF
  }

  predicate IsLetter(c: char) {
    ('a' <= c <= 'z') || ('A' <= c <= 'Z')
  }

  /** The character classes repeated by `*` or `+` in the patterns. */
  datatype CharClass = Params | Spaces | NonSpaces

  predicate InClass(c: char, cls: CharClass) {
    match cls
    case Params => ('0' <= c <= '9') || c == ';'
    case Spaces => IsSpace(c)
    case NonSpaces => !IsSpace(c)
  }

  /** The end of the longest run of `cls` characters starting at i (a greedy repetition). */
  function RunEnd(s: string, i: nat, cls: CharClass): (q: nat)
    requires i <= |s|
    ensures i <= q <= |s|
    ensures forall k :: i <= k < q ==> InClass(s[k], cls)
    ensures q < |s| ==> !InClass(s[q], cls)
    decreases |s| - i
  {
    if i < |s| && InClass(s[i], cls) then RunEnd(s, i + 1, cls) else i
  }

  /** A control sequence introducer, parameters and one of `finals`, at p. */
  function CsiLen(s: string, p: nat, finals: string): (n: nat)
    requires p < |s|
    ensures p + n <= |s|
  {
    if p + 1 < |s| && s[p] == Esc && s[p + 1] == '[' then
      var q := RunEnd(s, p + 2, Params);
      if q < |s| && s[q] in finals then q + 1 - p else 0
    else 0
  }

  const ShellWords: seq<string> := ["rm", "curl", "wget", "sh", "bash", "eval", "exec"]

  /** The length of the first of `words` that occurs at q, or 0. */
  function WordLen(s: string, q: nat, words: seq<string>): (n: nat)
    requires q <= |s|
    ensures q + n <= |s|
  {
    if |words| == 0 then 0
    else if OccursAt(s, words[0], q) then |words[0]|
    else WordLen(s, q, words[1..])
  }

  /** The shell-command pattern at p: `$(`, a backtick, `&&`, `||`, `;`, or a line feed, spaces and a command word. */
  function ShellLen(s: string, p: nat): (n: nat)
    requires p < |s|
    ensures p + n <= |s|
  {
    if OccursAt(s, "$(", p) then 2
    else if s[p] == '`' then 1
    else if OccursAt(s, "&&", p) then 2
    else if OccursAt(s, "||", p) then 2
    else if s[p] == ';' then 1
    else if s[p] == '\n' then
      var q := RunEnd(s, p + 1, Spaces);
      var k := WordLen(s, q, ShellWords);
      if k > 0 then q + k - p else 0
    else 0
  }

  /** `http://` or `https://` followed by at least one non-space character, taken greedily. */
  function UrlLen(s: string, p: nat): (n: nat)
    requires p < |s|
    ensures p + n <= |s|
  {
    if OccursAt(s, "https://", p) && p + 8 < |s| && !IsSpace(s[p + 8]) then RunEnd(s, p + 8, NonSpaces) - p
    else if OccursAt(s, "http://", p) && p + 7 < |s| && !IsSpace(s[p + 7]) then RunEnd(s, p + 7, NonSpaces) - p
    else 0
  }

  /**
   * The length of the match of `re` that starts at p, or 0 when none does. Every
   * pattern needs at least one character, and backtracking never finds a match
   * the greedy runs miss, because no run character can start what follows it.
   */
  function MatchLen(re: Regex, s: string, p: nat): (n: nat)
    requires p < |s|
    ensures p + n <= |s|
  {
    match re
    case AnsiCursorControl => CsiLen(s, p, "HfABCDEFGJKSTsu")
    case AnsiEraseScreen => CsiLen(s, p, "JK")
    case AnsiDeviceControl =>
      if p + 2 < |s| && s[p] == Esc && s[p + 1] == '[' && (s[p + 2] == '?' || s[p + 2] == '!') then
        var q := RunEnd(s, p + 3, Params);
        if q < |s| && IsLetter(s[q]) then q + 1 - p else 0
      else 0
    case BellCharacter => if s[p] as int == 0x07 then 1 else 0
    case EscapeCharacter => if s[p] == Esc && (p + 1 == |s| || s[p + 1] != '[') then 1 else 0
    case ControlChars => if IsControl(s[p]) then 1 else 0
    case ShellCommands => ShellLen(s, p)
    case UnicodeOverride => if IsBidi(s[p]) then 1 else 0
    case Url => UrlLen(s, p)
  }

  /** content.match(re) for a global pattern: the matches found scanning from `from`, left to right. */
  function Matches(re: Regex, s: string, from: nat): seq<string>
    requires from <= |s|
    decreases |s| - from
  {
    if from == |s| then []
    else
      var n := MatchLen(re, s, from);
      if n > 0 then [s[from..from + n]] + Matches(re, s, from + n) else Matches(re, s, from + 1)
  }

  /** There are no matches exactly when no position from `from` on starts one. */
  lemma {:induction false} MatchesEmpty(re: Regex, s: string, from: nat)
    requires from <= |s|
    ensures |Matches(re, s, from)| == 0 <==> forall p :: from <= p < |s| ==> MatchLen(re, s, p) == 0
    decreases |s| - from
  {
    if from < |s| {
      MatchesEmpty(re, s, from + 1);
    }
  }

  /** The allowed colour codes: ESC [ (0|[34][0-7]|[019]|2[1-9]|[34]9|[56]0) m. */
  predicate AllowedColorAt(t: string, j: nat) {
    j + 3 < |t| && t[j] == Esc && t[j + 1] == '[' &&
    ((t[j + 2] in "019" && t[j + 3] == 'm') ||
     (j + 4 < |t| && t[j + 4] == 'm' &&
      ((t[j + 2] in "34" && (('0' <= t[j + 3] <= '7') || t[j + 3] == '9')) ||
       (t[j + 2] == '2' && '1' <= t[j + 3] <= '9') ||
       (t[j + 2] in "56" && t[j + 3] == '0'))))
  }

  predicate HasAllowedColor(t: string) {
    exists j :: 0 <= j < |t| && AllowedColorAt(t, j)
  }

  /**
   * The text each escapeCharacter match is checked against: ESC and the nine
   * characters after the FIRST escape of the content (content.indexOf(m) with
   * m always "\x1b"), so every match is checked against the same text.
   */
  function EscapeWindow(content: string): string {
    var k := IndexOf(content, Esc);
    if k < 0 then "" else [Esc] + content[k + 1..Min(k + 10, |content|)]
  }

  /** The error a dangerous pattern reports, if any. */
  function PatternError(re: Regex, content: string): Option<string> {
    var matches := Matches(re, content, 0);
    if |matches| == 0 then None
    else if re == EscapeCharacter then
      if HasAllowedColor(EscapeWindow(content)) then None
      else Some("Dangerous escape sequences found: " + Name(re))
    else Some("Dangerous pattern found: " + Name(re) + " (" + NatToString(|matches|) + " occurrences)")
  }

  /** The errors of the patterns, in order. */
  function PatternErrors(patterns: seq<Regex>, content: string): seq<string>
    decreases |patterns|
  {
    if |patterns| == 0 then []
    else
      var last := PatternError(patterns[|patterns| - 1], content);
      PatternErrors(patterns[..|patterns| - 1], content) + (if last.Some? then [last.value] else [])
  }

  /** None of the patterns reports an error. */
  predicate Clean(patterns: seq<Regex>, content: string)
    decreases |patterns|
  {
    |patterns| == 0 ||
    (Clean(patterns[..|patterns| - 1], content) && PatternError(patterns[|patterns| - 1], content).None?)
  }

  /** One more pattern adds its error, if any, and its verdict. */
  lemma PatternStep(patterns: seq<Regex>, k: nat, content: string)
    requires k < |patterns|
    ensures PatternErrors(patterns[..k + 1], content) ==
      PatternErrors(patterns[..k], content) + Listed(PatternError(patterns[k], content))
    ensures Clean(patterns[..k + 1], content) <==>
      Clean(patterns[..k], content) && PatternError(patterns[k], content).None?
  {
    assert patterns[..k + 1][..k] == patterns[..k];
  }

  /** The UTF-8 length of a character (Buffer.byteLength counts these). */
  function Utf8Width(c: char): nat {
    var x := c as int;
    if x < 0x80 then 1 else if x < 0x800 then 2 else if x < 0x10000 then 3 else 4
  }

  function Utf8Length(s: string): nat
    decreases |s|
  {
    if |s| == 0 then 0 else Utf8Width(s[0]) + Utf8Length(s[1..])
  }

  /** The UTF-16 code units of a string: two surrogates for a character beyond U+FFFF. */
  function CodeUnits(s: string): seq<nat>
    decreases |s|
  {
    if |s| == 0 then []
    else
      var x := s[0] as int;
      (if x < 0x10000 then [x] else [0xD800 + (x - 0x10000) / 0x400, 0xDC00 + (x - 0x10000) % 0x400])
      + CodeUnits(s[1..])
  }

  /** `line.length`: the number of UTF-16 code units. */
  function Utf16Length(s: string): nat {
    |CodeUnits(s)|
  }

  /** The size error: more than 10240 UTF-8 bytes. */
  function SizeError(content: string): Option<string> {
    var size := Utf8Length(content);
    if size > 10240 then Some("File too large: " + NatToString(size) + " bytes (max: 10240)") else None
  }

  function LineWarning(index: nat, line: string): string {
    "Line " + NatToString(index + 1) + " too long: " + NatToString(Utf16Length(line)) + " chars (recommended max: 120)"
  }

  /** A warning for each line longer than 120 code units, in line order. */
  function LongLineWarnings(lines: seq<string>): seq<string>
    decreases |lines|
  {
    if |lines| == 0 then []
    else
      var i := |lines| - 1;
      LongLineWarnings(lines[..i]) + (if Utf16Length(lines[i]) > 120 then [LineWarning(i, lines[i])] else [])
  }

  /** Outside [\x20-\x7E\n\r\t]. */
  predicate NonPrintable(u: nat) {
    !((0x20 <= u <= 0x7E) || u == 0x0A || u == 0x0D || u == 0x09)
  }

  /** The emoji, miscellaneous-symbol and general-punctuation ranges the filter lets through. */
  predicate Excused(u: nat) {
    (0x1F300 <= u <= 0x1F9FF) || (0x2600 <= u <= 0x27BF) || (0x2000 <= u <= 0x206F)
  }

  /** The non-printable code units the filter keeps, in order. */
  function Flagged(units: seq<nat>): (r: seq<nat>)
    ensures forall k :: 0 <= k < |r| ==> NonPrintable(r[k]) && !Excused(r[k])
    decreases |units|
  {
    if |units| == 0 then []
    else (if NonPrintable(units[0]) && !Excused(units[0]) then [units[0]] else []) + Flagged(units[1..])
  }

  function HexDigit(d: nat): char
    requires d < 16
  {
    if d < 10 then ('0' as int + d) as char else ('a' as int + d - 10) as char
  }

  /** n.toString(16): lower-case hexadecimal without leading zeros. */
  function Hex(n: nat): string
    decreases n
  {
    if n < 16 then [HexDigit(n)] else Hex(n / 16) + [HexDigit(n % 16)]
  }

  function HexCodes(units: seq<nat>): (r: seq<string>)
    ensures |r| == |units|
    decreases |units|
  {
    if |units| == 0 then [] else ["0x" + Hex(units[0])] + HexCodes(units[1..])
  }

  /** The non-printable warning: the first five flagged code units in hex, then `...` if there are more. */
  function NonPrintableWarning(content: string): Option<string> {
    var flagged := Flagged(CodeUnits(content));
    if |flagged| == 0 then None
    else
      Some("Non-printable characters found: " + Join(HexCodes(flagged[..Min(5, |flagged|)]), ", ") +
        (if |flagged| > 5 then "..." else ""))
  }

  /** The URLs that mention neither github.com nor npmjs.com, in order. */
  function External(urls: seq<string>): (r: seq<string>)
    ensures forall k :: 0 <= k < |r| ==> r[k] in urls
    ensures forall u :: u in r <==> u in urls && !Contains(u, "github.com") && !Contains(u, "npmjs.com")
    decreases |urls|
  {
    if |urls| == 0 then []
    else
      (if !Contains(urls[0], "github.com") && !Contains(urls[0], "npmjs.com") then [urls[0]] else []) +
      External(urls[1..])
  }

  function UrlWarning(content: string): Option<string> {
    var suspicious := External(Matches(Url, content, 0));
    if |suspicious| > 0 then Some("External URLs found: " + Join(suspicious, ", ")) else None
  }

  function Listed(o: Option<string>): seq<string> {
    if o.Some? then [o.value] else []
  }

  /** An art file as the walk hands it over: its text, or the message of the read failure. */
  datatype ArtFile = Readable(path: string, content: string) | Unreadable(path: string, message: string)

  datatype ValidationResult = ValidationResult(file: string, valid: bool, errors: seq<string>, warnings: seq<string>)

  datatype ValidationSummary = ValidationSummary(
    totalFiles: nat, validFiles: nat, invalidFiles: nat,
    errors: seq<ValidationResult>, warnings: seq<ValidationResult>)

  /** What validateFile reports for a file. */
  function Check(file: ArtFile): ValidationResult {
    match file
    case Unreadable(path, message) => ValidationResult(path, false, ["Failed to read file: " + message], [])
    case Readable(path, content) =>
      ValidationResult(
        path,
        SizeError(content).None? && Clean(DangerousPatterns, content),
        Listed(SizeError(content)) + PatternErrors(DangerousPatterns, content),
        LongLineWarnings(Split(content, '\n')) + Listed(NonPrintableWarning(content)) + Listed(UrlWarning(content)))
  }

  lemma CheckReadable(path: string, content: string)
    ensures Check(Readable(path, content)) == ValidationResult(
      path,
      SizeError(content).None? && Clean(DangerousPatterns, content),
      Listed(SizeError(content)) + PatternErrors(DangerousPatterns, content),
      LongLineWarnings(Split(content, '\n')) + Listed(NonPrintableWarning(content)) + Listed(UrlWarning(content)))
  {
  }

  function Checks(files: seq<ArtFile>): (rs: seq<ValidationResult>)
    ensures |rs| == |files|
    decreases |files|
  {
    if |files| == 0 then [] else Checks(files[..|files| - 1]) + [Check(files[|files| - 1])]
  }

  function ValidOnes(rs: seq<ValidationResult>): seq<ValidationResult>
    decreases |rs|
  {
    if |rs| == 0 then [] else (if rs[0].valid then [rs[0]] else []) + ValidOnes(rs[1..])
  }

  function InvalidOnes(rs: seq<ValidationResult>): seq<ValidationResult>
    decreases |rs|
  {
    if |rs| == 0 then [] else (if !rs[0].valid then [rs[0]] else []) + InvalidOnes(rs[1..])
  }

  function Warned(rs: seq<ValidationResult>): seq<ValidationResult>
    decreases |rs|
  {
    if |rs| == 0 then [] else (if |rs[0].warnings| > 0 then [rs[0]] else []) + Warned(rs[1..])
  }

  /** The summary validate() returns: this run's file count, but counts over every result so far. */
  function Summarize(results: seq<ValidationResult>, total: nat): ValidationSummary {
    ValidationSummary(total, |ValidOnes(results)|, |InvalidOnes(results)|, InvalidOnes(results), Warned(results))
  }

  /** No pattern reports an error exactly when their error list is empty. */
  lemma {:induction false} CleanIffNoErrors(patterns: seq<Regex>, content: string)
    ensures Clean(patterns, content) <==> |PatternErrors(patterns, content)| == 0
    decreases |patterns|
  {
    if |patterns| > 0 {
      CleanIffNoErrors(patterns[..|patterns| - 1], content);
    }
  }

  /** A file is invalid exactly when at least one error was recorded for it. */
  lemma ValidIffNoErrors(file: ArtFile)
    ensures Check(file).valid <==> |Check(file).errors| == 0
  {
    if file.Readable? {
      CleanIffNoErrors(DangerousPatterns, file.content);
    }
  }

  lemma {:induction false} CleanAll(patterns: seq<Regex>, content: string)
    ensures Clean(patterns, content) <==> forall k :: 0 <= k < |patterns| ==> PatternError(patterns[k], content).None?
    decreases |patterns|
  {
    if |patterns| > 0 {
      var init := patterns[..|patterns| - 1];
      CleanAll(init, content);
      assert forall k :: 0 <= k < |init| ==> init[k] == patterns[k];
    }
  }

  /** No position of the content starts a match of `re`. */
  predicate Harmless(re: Regex, content: string) {
    forall p :: 0 <= p < |content| ==> MatchLen(re, content, p) == 0
  }

  /** Every pattern but escapeCharacter reports an error exactly when it matches somewhere. */
  lemma ErrorIffMatch(re: Regex, content: string)
    requires re != EscapeCharacter
    ensures PatternError(re, content).None? <==> Harmless(re, content)
  {
    MatchesEmpty(re, content, 0);
  }

  /** ESC is itself a control character, so escapeCharacter only matches where controlChars does. */
  lemma EscapeNeedsControl(content: string)
    requires Harmless(ControlChars, content)
    ensures PatternError(EscapeCharacter, content).None?
  {
    MatchesEmpty(EscapeCharacter, content, 0);
    forall p | 0 <= p < |content|
      ensures MatchLen(EscapeCharacter, content, p) == 0
    {
      assert MatchLen(ControlChars, content, p) == 0;
    }
  }

  /**
   * A readable file is valid exactly when it has at most 10240 UTF-8 bytes and
   * no dangerous pattern other than escapeCharacter matches anywhere in it.
   * Warnings play no part, and the colour-code allowance of escapeCharacter
   * never decides the verdict.
   */
  lemma ValidIff(path: string, content: string)
    ensures Check(Readable(path, content)).valid <==>
      Utf8Length(content) <= 10240 &&
      forall re :: re in DangerousPatterns && re != EscapeCharacter ==> Harmless(re, content)
  {
    CleanAll(DangerousPatterns, content);
    forall re | re in DangerousPatterns && re != EscapeCharacter
      ensures PatternError(re, content).None? <==> Harmless(re, content)
    {
      ErrorIffMatch(re, content);
    }
    if Harmless(ControlChars, content) {
      EscapeNeedsControl(content);
    }
  }

  /** A match of any dangerous pattern but escapeCharacter makes a file invalid. */
  lemma InvalidIfMatch(path: string, content: string, k: nat, p: nat)
    requires k < |DangerousPatterns| && DangerousPatterns[k] != EscapeCharacter
    requires p < |content| && MatchLen(DangerousPatterns[k], content, p) > 0
    ensures !Check(Readable(path, content)).valid
  {
    ValidIff(path, content);
    assert !Harmless(DangerousPatterns[k], content);
  }

  /** A C0 control character other than tab, line feed and carriage return (BEL and ESC among them), or DEL, makes a file invalid. */
  lemma ControlCharInvalid(path: string, content: string, p: nat)
    requires p < |content| && IsControl(content[p])
    ensures !Check(Readable(path, content)).valid
  {
    assert MatchLen(DangerousPatterns[5], content, p) == 1;
    InvalidIfMatch(path, content, 5, p);
  }

  /** Even an allowed colour code makes a file invalid: its ESC is a control character. */
  lemma ColourCodeInvalid(path: string, content: string)
    requires HasAllowedColor(content)
    ensures !Check(Readable(path, content)).valid
  {
    var j :| 0 <= j < |content| && AllowedColorAt(content, j);
    ControlCharInvalid(path, content, j);
  }

  /** A bidirectional embedding, override or isolate character makes a file invalid. */
  lemma BidiInvalid(path: string, content: string, p: nat)
    requires p < |content| && IsBidi(content[p])
    ensures !Check(Readable(path, content)).valid
  {
    assert MatchLen(DangerousPatterns[7], content, p) == 1;
    InvalidIfMatch(path, content, 7, p);
  }

  lemma ShellCharMatch(content: string, p: nat)
    requires p < |content|
    requires content[p] == ';' || content[p] == '`' ||
      OccursAt(content, "$(", p) || OccursAt(content, "&&", p) || OccursAt(content, "||", p)
    ensures ShellLen(content, p) > 0
  {
  }

  /** `$(`, a backtick, `&&`, `||` or `;` anywhere makes a file invalid. */
  lemma ShellCharInvalid(path: string, content: string, p: nat)
    requires p < |content|
    requires content[p] == ';' || content[p] == '`' ||
      OccursAt(content, "$(", p) || OccursAt(content, "&&", p) || OccursAt(content, "||", p)
    ensures !Check(Readable(path, content)).valid
  {
    ShellCharMatch(content, p);
    assert MatchLen(DangerousPatterns[6], content, p) > 0;
    InvalidIfMatch(path, content, 6, p);
  }

  /** The semicolon between SGR parameters, as in bold red, is a shell metacharacter too. */
  lemma BoldRedInvalid(path: string)
    ensures !Check(Readable(path, [Esc] + "[1;31m")).valid
  {
    ShellCharInvalid(path, [Esc] + "[1;31m", 3);
  }

  lemma {:induction false} WordLenFinds(s: string, q: nat, words: seq<string>, w: string)
    requires q <= |s| && w in words && |w| > 0 && OccursAt(s, w, q)
    requires forall k :: 0 <= k < |words| ==> |words[k]| > 0
    ensures WordLen(s, q, words) > 0
    decreases |words|
  {
    if !OccursAt(s, words[0], q) {
      assert w in words[1..];
      WordLenFinds(s, q, words[1..], w);
    }
  }

  lemma ShellWordMatch(content: string, p: nat, q: nat, w: string)
    requires p < q <= |content| && content[p] == '\n'
    requires forall k :: p < k < q ==> IsSpace(content[k])
    requires w in ShellWords && OccursAt(content, w, q)
    ensures ShellLen(content, p) > 0
  {
    assert content[q] == w[0];
    var r := RunEnd(content, p + 1, Spaces);
    assert r == q;
    WordLenFinds(content, q, ShellWords, w);
  }

  /**
   * A line feed followed by white space and then rm, curl, wget, sh, bash,
   * eval or exec makes a file invalid, even as the start of a longer word
   * such as "sheep".
   */
  lemma ShellWordLineInvalid(path: string, content: string, p: nat, q: nat, w: string)
    requires p < q <= |content| && content[p] == '\n'
    requires forall k :: p < k < q ==> IsSpace(content[k])
    requires w in ShellWords && OccursAt(content, w, q)
    ensures !Check(Readable(path, content)).valid
  {
    ShellWordMatch(content, p, q, w);
    assert MatchLen(DangerousPatterns[6], content, p) > 0;
    InvalidIfMatch(path, content, 6, p);
  }

  /** More than 10240 UTF-8 bytes: the file is invalid and the size error comes first. */
  lemma OversizeInvalid(path: string, content: string)
    requires Utf8Length(content) > 10240
    ensures !Check(Readable(path, content)).valid
    ensures Check(Readable(path, content)).errors[0] ==
      "File too large: " + NatToString(Utf8Length(content)) + " bytes (max: 10240)"
  {
  }

  /** Every line over 120 code units has its warning. */
  lemma {:induction false} LongLineHasWarning(lines: seq<string>, i: nat)
    requires i < |lines| && Utf16Length(lines[i]) > 120
    ensures LineWarning(i, lines[i]) in LongLineWarnings(lines)
    decreases |lines|
  {
    var init := lines[..|lines| - 1];
    if i < |init| {
      assert init[i] == lines[i];
      LongLineHasWarning(init, i);
    }
  }

  /** Every line warning belongs to a line over 120 code units. */
  lemma {:induction false} WarningHasLongLine(lines: seq<string>, w: string)
    requires w in LongLineWarnings(lines)
    ensures exists i :: 0 <= i < |lines| && Utf16Length(lines[i]) > 120 && w == LineWarning(i, lines[i])
    decreases |lines|
  {
    var init := lines[..|lines| - 1];
    if w in LongLineWarnings(init) {
      WarningHasLongLine(init, w);
      var i :| 0 <= i < |init| && Utf16Length(init[i]) > 120 && w == LineWarning(i, init[i]);
      assert lines[i] == init[i];
    }
  }

  /** The line warnings are exactly one per line over 120 code units, citing its 1-based number. */
  lemma LongLineWarningsIff(lines: seq<string>, w: string)
    ensures w in LongLineWarnings(lines) <==>
      exists i :: 0 <= i < |lines| && Utf16Length(lines[i]) > 120 && w == LineWarning(i, lines[i])
  {
    if w in LongLineWarnings(lines) {
      WarningHasLongLine(lines, w);
    }
    if exists i :: 0 <= i < |lines| && Utf16Length(lines[i]) > 120 && w == LineWarning(i, lines[i]) {
      var i :| 0 <= i < |lines| && Utf16Length(lines[i]) > 120 && w == LineWarning(i, lines[i]);
      LongLineHasWarning(lines, i);
    }
  }

  /** A line over 120 code units is warned about, by its 1-based number and its length. */
  lemma LongLineWarned(path: string, content: string, i: nat)
    requires i < |Split(content, '\n')| && Utf16Length(Split(content, '\n')[i]) > 120
    ensures "Line " + NatToString(i + 1) + " too long: " + NatToString(Utf16Length(Split(content, '\n')[i])) +
      " chars (recommended max: 120)" in Check(Readable(path, content)).warnings
  {
    LongLineHasWarning(Split(content, '\n'), i);
  }

  /** The scan's first match is the one at the first position that starts a match. */
  lemma {:induction false} FirstMatch(re: Regex, s: string, from: nat, p: nat)
    requires from <= p < |s| && MatchLen(re, s, p) > 0
    requires forall k :: from <= k < p ==> MatchLen(re, s, k) == 0
    ensures |Matches(re, s, from)| > 0 && Matches(re, s, from)[0] == s[p..p + MatchLen(re, s, p)]
    decreases p - from
  {
    if from < p {
      FirstMatch(re, s, from + 1, p);
    }
  }

  lemma JoinStartsWith(parts: seq<string>, sep: string)
    requires |parts| > 0
    ensures parts[0] <= Join(parts, sep)
  {
  }

  /**
   * Every URL of a file that mentions neither github.com nor npmjs.com,
   * wherever it occurs, is listed in the external-URL warning, which is among
   * the file's warnings; URLs alone are never errors.
   */
  lemma ExternalUrlWarns(path: string, content: string, u: string)
    requires u in Matches(Url, content, 0)
    requires !Contains(u, "github.com") && !Contains(u, "npmjs.com")
    ensures u in External(Matches(Url, content, 0))
    ensures UrlWarning(content) == Some("External URLs found: " + Join(External(Matches(Url, content, 0)), ", "))
    ensures UrlWarning(content).value in Check(Readable(path, content)).warnings
  {
  }

  /** The external-URL warning appears exactly when some URL of the file is external. */
  lemma UrlWarningIff(content: string)
    ensures UrlWarning(content).Some? <==>
      exists u :: u in Matches(Url, content, 0) && !Contains(u, "github.com") && !Contains(u, "npmjs.com")
  {
    var urls := Matches(Url, content, 0);
    var ext := External(urls);
    if |ext| > 0 {
      var u := ext[0];
      assert u in ext;
      assert u in urls && !Contains(u, "github.com") && !Contains(u, "npmjs.com");
    }
  }

  /** The first URL of a file, when it is external, opens the warning's list. */
  lemma ExternalUrlFirst(content: string, p: nat)
    requires p < |content| && MatchLen(Url, content, p) > 0
    requires forall k :: 0 <= k < p ==> MatchLen(Url, content, k) == 0
    requires !Contains(content[p..p + MatchLen(Url, content, p)], "github.com")
    requires !Contains(content[p..p + MatchLen(Url, content, p)], "npmjs.com")
    ensures UrlWarning(content).Some?
    ensures "External URLs found: " + content[p..p + MatchLen(Url, content, p)] <= UrlWarning(content).value
  {
    FirstMatch(Url, content, 0, p);
    var urls := Matches(Url, content, 0);
    assert External(urls)[0] == urls[0];
    JoinStartsWith(External(urls), ", ");
  }

  lemma {:induction false} ValidOnesAppend(a: seq<ValidationResult>, b: seq<ValidationResult>)
    ensures ValidOnes(a + b) == ValidOnes(a) + ValidOnes(b)
    ensures InvalidOnes(a + b) == InvalidOnes(a) + InvalidOnes(b)
    decreases |a|
  {
    if |a| == 0 {
      assert a + b == b;
    } else {
      assert (a + b)[0] == a[0] && (a + b)[1..] == a[1..] + b;
      ValidOnesAppend(a[1..], b);
    }
  }

  /** Every result is counted once, as valid or as invalid. */
  lemma {:induction false} PartitionCounts(rs: seq<ValidationResult>)
    ensures |ValidOnes(rs)| + |InvalidOnes(rs)| == |rs|
    decreases |rs|
  {
    if |rs| > 0 {
      PartitionCounts(rs[1..]);
    }
  }

  /** On a fresh validator the valid and invalid counts add up to the number of files. */
  lemma FreshSummary(files: seq<ArtFile>)
    ensures var s := Summarize([] + Checks(files), |files|);
      s.validFiles + s.invalidFiles == s.totalFiles
  {
    assert [] + Checks(files) == Checks(files);
    PartitionCounts(Checks(files));
  }

  /** A second validate() of the same files double-counts: twice the files of this run. */
  lemma SecondRunDoubleCounts(files: seq<ArtFile>)
    ensures var s := Summarize(Checks(files) + Checks(files), |files|);
      s.validFiles == 2 * |ValidOnes(Checks(files))| &&
      s.invalidFiles == 2 * |InvalidOnes(Checks(files))| &&
      s.validFiles + s.invalidFiles == 2 * s.totalFiles
  {
    ValidOnesAppend(Checks(files), Checks(files));
    PartitionCounts(Checks(files));
  }

  /** The lines.forEach of validateFile: a warning for each over-long line, in order. */
  method LongLineScan(lines: seq<string>) returns (warnings: seq<string>)
    ensures warnings == LongLineWarnings(lines)
  {
    warnings := [];
    for index := 0 to |lines|
      invariant warnings == LongLineWarnings(lines[..index])
    {
      assert lines[..index + 1][..index] == lines[..index];
      var line := lines[index];
      if Utf16Length(line) > 120 {
        warnings := warnings + [LineWarning(index, line)];
      }
    }
    assert lines[..|lines|] == lines;
  }

  /**
   * The dangerous-pattern loop of validateFile: pushes each pattern's error in
   * order and clears `valid` with each push.
   */
  method PatternScan(content: string) returns (valid: bool, errors: seq<string>)
    ensures valid == Clean(DangerousPatterns, content)
    ensures errors == PatternErrors(DangerousPatterns, content)
  {
    valid := true;
    errors := [];
    var patterns := DangerousPatterns;
    for k := 0 to |patterns|
      invariant valid == Clean(patterns[..k], content)
      invariant errors == PatternErrors(patterns[..k], content)
    {
      PatternStep(patterns, k, content);
      var pattern := patterns[k];
      var matches := Matches(pattern, content, 0);
      if |matches| > 0 {
        if pattern == EscapeCharacter {
          var testStr := EscapeWindow(content);
          if !HasAllowedColor(testStr) {
            errors := errors + ["Dangerous escape sequences found: " + Name(pattern)];
            valid := false;
          }
        } else {
          errors := errors + ["Dangerous pattern found: " + Name(pattern) + " (" + NatToString(|matches|) + " occurrences)"];
          valid := false;
        }
      }
    }
    assert patterns[..|patterns|] == patterns;
  }

  class ArtValidator {
    const artsDir: string
    /** Every result so far; validate() appends and never clears. */
    var results: seq<ValidationResult>

    constructor(artsDir: string)
      ensures this.artsDir == artsDir && results == []
    {
      this.artsDir := artsDir;
      results := [];
    }

    /**
     * validateFile: starts valid with no messages; every error it pushes
     * makes the file invalid, warnings do not. The two loops are the methods
     * LongLineScan and PatternScan.
     */
    method ValidateFile(file: ArtFile) returns (result: ValidationResult)
      ensures result == Check(file)
    {
      var valid := true;
      var errors: seq<string> := [];
      var warnings: seq<string> := [];
      if file.Unreadable? {
        errors := errors + ["Failed to read file: " + file.message];
        valid := false;
        result := ValidationResult(file.path, valid, errors, warnings);
        return;
      }
      var content := file.content;
      var fileSize := Utf8Length(content);
      if fileSize > 10240 {
        errors := errors + ["File too large: " + NatToString(fileSize) + " bytes (max: 10240)"];
        valid := false;
      }
      assert errors == Listed(SizeError(content)) && valid == SizeError(content).None?;
      var lines := Split(content, '\n');
      warnings := LongLineScan(lines);
      var clean, patternErrors := PatternScan(content);
      errors := errors + patternErrors;
      valid := valid && clean;
      ghost var lineWarnings := warnings;
      var nonPrintable := NonPrintableWarning(content);
      if nonPrintable.Some? {
        warnings := warnings + [nonPrintable.value];
      }
      assert warnings == lineWarnings + Listed(nonPrintable);
      ghost var shown := warnings;
      var urls := UrlWarning(content);
      if urls.Some? {
        warnings := warnings + [urls.value];
      }
      assert warnings == shown + Listed(urls);
      result := ValidationResult(file.path, valid, errors, warnings);
      CheckReadable(file.path, content);
      assert file == Readable(file.path, content);
    }

    /**
     * validate: validates every file in order and appends the results to
     * `results`; the summary counts valid and invalid files over all results
     * so far but reports this run's file count.
     */
    method Validate(files: seq<ArtFile>) returns (summary: ValidationSummary)
      modifies this
      ensures results == old(results) + Checks(files)
      ensures summary == Summarize(results, |files|)
    {
      for i := 0 to |files|
        invariant results == old(results) + Checks(files[..i])
      {
        assert files[..i + 1][..i] == files[..i];
        var result := ValidateFile(files[i]);
        results := results + [result];
      }
      assert files[..|files|] == files;
      var errors := InvalidOnes(results);
      var warnings := Warned(results);
      summary := ValidationSummary(|files|, |ValidOnes(results)|, |errors|, errors, warnings);
    }
  }
}
