/**
 * Command-line parsing and the backup timestamp. The clock is not read here:
 * the date fields `Date.prototype.getFullYear` … `getSeconds` return are
 * parameters.
 */
module Utils {
  import opened Wrappers
  import opened Text

  /** The parsed command line: the command (null when there is none) and its arguments. */
  datatype ParsedArgs = ParsedArgs(command: Option<string>, args: seq<string>)

  /**
   * parseArgs: the first two entries (node and the script) are dropped. A first
   * argument starting with `-` is a flag command with the rest as arguments;
   * otherwise the whole command line is the command and every argument is kept.
   */
  function ParseArgs(argv: seq<string>): (p: ParsedArgs)
    ensures p.command.None? <==> |argv| <= 2
    ensures p.command.None? ==> p.args == []
    ensures p.command.Some? && StartsWith(argv[2], "-") ==> p.command.value == argv[2] && p.args == argv[3..]
    ensures p.command.Some? && !StartsWith(argv[2], "-") ==> p.command.value == Join(argv[2..], " ") && p.args == argv[2..]
  {
    var args := if |argv| >= 2 then argv[2..] else [];
    if |args| == 0 then ParsedArgs(None, [])
    else
      var firstArg := args[0];
      if StartsWith(firstArg, "-") then ParsedArgs(Some(firstArg), args[1..])
      else ParsedArgs(Some(Join(args, " ")), args)
  }

  /** No argument is lost: a flag command and its arguments, or the arguments alone, are argv[2..]. */
  lemma ParseArgsKeepsArguments(argv: seq<string>)
    requires |argv| > 2
    ensures var p := ParseArgs(argv);
      if StartsWith(argv[2], "-") then [p.command.value] + p.args == argv[2..] else p.args == argv[2..]
  {
    var p := ParseArgs(argv);
    if StartsWith(argv[2], "-") {
      assert [argv[2]] + argv[3..] == argv[2..];
    }
  }

  /** When no argument holds a space, splitting a plain command on spaces gives its arguments back. */
  lemma ParseArgsCommandSplits(argv: seq<string>)
    requires |argv| > 2 && !StartsWith(argv[2], "-")
    requires forall i :: 2 <= i < |argv| ==> ' ' !in argv[i]
    ensures var p := ParseArgs(argv); Split(p.command.value, ' ') == p.args
  {
    var args := argv[2..];
    forall i | 0 <= i < |args| ensures ' ' !in args[i] {
      assert args[i] == argv[i + 2];
    }
    SplitJoin(args, ' ');
  }

  /** String(n).padStart(2, '0') */
  function TwoDigits(n: nat): string {
    PadStart(NatToString(n), 2, '0')
  }

  /**
   * getTimestamp: YYYYMMDD-HHMMSS from the local date fields, with the
   * 0-based month shifted to 1-based and every field after the year padded to
   * two digits.
   */
  function Timestamp(year: int, month: int, day: int, hour: int, minute: int, second: int): string
    requires 0 <= month <= 11 && 1 <= day <= 31 && 0 <= hour <= 23 && 0 <= minute <= 59 && 0 <= second <= 59
  {
    IntToString(year) + TwoDigits(month + 1) + TwoDigits(day) + "-" + TwoDigits(hour) + TwoDigits(minute) + TwoDigits(second)
  }

  /** The number of decimal digits of n. */
  function DigitCount(n: nat): (k: nat)
    ensures k >= 1
  {
    if n < 10 then 1 else 1 + DigitCount(n / 10)
  }

  lemma {:induction false} NatToStringLength(n: nat)
    ensures |NatToString(n)| == DigitCount(n)
    decreases n
  {
    if n >= 10 {
      NatToStringLength(n / 10);
    }
  }

  /** A number below 100 pads to exactly two digits that read back as the number. */
  lemma TwoDigitsRoundTrip(n: nat)
    requires n < 100
    ensures |TwoDigits(n)| == 2 && AllDigits(TwoDigits(n)) && DigitsValue(TwoDigits(n)) == n
  {
    NatToStringRoundTrip(n);
    NatToStringLength(n);
    var s := NatToString(n);
    var t := TwoDigits(n);
    if n < 10 {
      assert t == "0" + s;
      assert t[..1] == "0";
      assert t[..1][..0] == "";
      assert DigitsValue(t[..1]) == 0;
      assert s == [DigitChar(n)];
    } else {
      assert DigitCount(n) == 2;
      assert t == s;
    }
  }

  /** A four-digit year prints as four digits that read back as the year. */
  lemma YearRoundTrip(year: int)
    requires 1000 <= year <= 9999
    ensures |IntToString(year)| == 4 && AllDigits(IntToString(year)) && DigitsValue(IntToString(year)) == year
  {
    NatToStringRoundTrip(year);
    NatToStringLength(year);
    assert DigitCount(year / 1000) == 1;
    assert DigitCount(year / 100) == 2;
    assert DigitCount(year / 10) == 3;
  }

  /**
   * For a four-digit year the timestamp has 15 characters with `-` at index 8,
   * and each field reads back from its fixed slice.
   */
  lemma TimestampFields(year: int, month: int, day: int, hour: int, minute: int, second: int)
    requires 1000 <= year <= 9999
    requires 0 <= month <= 11 && 1 <= day <= 31 && 0 <= hour <= 23 && 0 <= minute <= 59 && 0 <= second <= 59
    ensures var ts := Timestamp(year, month, day, hour, minute, second);
      |ts| == 15 && ts[8] == '-' &&
      AllDigits(ts[..4]) && DigitsValue(ts[..4]) == year &&
      AllDigits(ts[4..6]) && DigitsValue(ts[4..6]) == month + 1 &&
      AllDigits(ts[6..8]) && DigitsValue(ts[6..8]) == day &&
      AllDigits(ts[9..11]) && DigitsValue(ts[9..11]) == hour &&
      AllDigits(ts[11..13]) && DigitsValue(ts[11..13]) == minute &&
      AllDigits(ts[13..15]) && DigitsValue(ts[13..15]) == second
  {
    var y := IntToString(year);
    var mo := TwoDigits(month + 1);
    var d := TwoDigits(day);
    var h := TwoDigits(hour);
    var mi := TwoDigits(minute);
    var s := TwoDigits(second);
    YearRoundTrip(year);
    TwoDigitsRoundTrip(month + 1);
    TwoDigitsRoundTrip(day);
    TwoDigitsRoundTrip(hour);
    TwoDigitsRoundTrip(minute);
    TwoDigitsRoundTrip(second);
    TimestampLayout(y, mo, d, h, mi, s);
  }

  /** Where the fields of a YYYYMMDD-HHMMSS string sit. */
  lemma TimestampLayout(y: string, mo: string, d: string, h: string, mi: string, s: string)
    requires |y| == 4 && |mo| == 2 && |d| == 2 && |h| == 2 && |mi| == 2 && |s| == 2
    ensures var ts := y + mo + d + "-" + h + mi + s;
      |ts| == 15 && ts[8] == '-' && ts[..4] == y && ts[4..6] == mo && ts[6..8] == d &&
      ts[9..11] == h && ts[11..13] == mi && ts[13..15] == s
  {
    var p1 := y + mo;
    var p2 := p1 + d;
    var p3 := p2 + "-";
    var p4 := p3 + h;
    var p5 := p4 + mi;
    var ts := p5 + s;
    PeelField(ts, p5, s);
    PeelField(ts, p4, mi);
    PeelField(ts, p3, h);
    PeelField(ts, p2, "-");
    PeelField(ts, p1, d);
    PeelField(ts, y, mo);
  }

  /** A prefix q + f of ts holds q as its prefix and f right after it. */
  lemma PeelField(ts: string, q: string, f: string)
    requires |q + f| <= |ts| && ts[..|q + f|] == q + f
    ensures ts[..|q|] == q && ts[|q|..|q| + |f|] == f
  {
    assert ts[..|q|] == ts[..|q + f|][..|q|];
    assert ts[|q|..|q| + |f|] == ts[..|q + f|][|q|..];
  }
}
