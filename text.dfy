/**
 * String helpers shared by every other module: decimal printing as JavaScript's
 * Number.prototype.toString prints integers, String.prototype.split/join on a
 * single separator character, padStart/padEnd/repeat, and the search helpers
 * startsWith/endsWith/includes/indexOf.
 *
 * A string is a sequence of chars, each a Unicode scalar value. For text in
 * the Basic Multilingual Plane one char is one UTF-16 code unit, so there
 * `|s|` is JavaScript's `s.length`; a character beyond U+FFFF is one char
 * here but two code units in JavaScript.
 */
module Text {

  /** The escape character, U+001B. */
  const Esc: char := '\U{1B}'

  predicate IsDigit(c: char) {
    '0' <= c <= '9'
  }

  predicate AllDigits(s: string) {
    forall i :: 0 <= i < |s| ==> IsDigit(s[i])
  }

  function DigitChar(d: nat): (c: char)
    requires d < 10
    ensures IsDigit(c)
  {
    (('0' as int) + d) as char
  }

  function DigitValue(c: char): (d: nat)
    requires IsDigit(c)
    ensures d < 10
  {
    (c as int) - ('0' as int)
  }

  /** Decimal digits of `n`, without leading zeros (String(n) for a non-negative integer). */
  function NatToString(n: nat): (s: string)
    decreases n
  {
    if n < 10 then [DigitChar(n)] else NatToString(n / 10) + [DigitChar(n % 10)]
  }

  /** The decimal printing is a non-empty run of digits without a leading zero, one digit exactly below ten. */
  lemma {:induction false} NatToStringShape(n: nat)
    ensures |NatToString(n)| >= 1
    ensures AllDigits(NatToString(n))
    ensures n < 10 <==> |NatToString(n)| == 1
    ensures |NatToString(n)| == 1 || NatToString(n)[0] != '0'
    decreases n
  {
    if n >= 10 {
      NatToStringShape(n / 10);
      var s := NatToString(n);
      assert s == NatToString(n / 10) + [DigitChar(n % 10)];
      assert s[0] == NatToString(n / 10)[0];
    }
  }

  /** String(i) for an integer. */
  function IntToString(i: int): string {
    if i < 0 then "-" + NatToString(-i) else NatToString(i)
  }

  /** The value of a string of decimal digits. */
  function DigitsValue(s: string): nat
    requires AllDigits(s)
  {
    if |s| == 0 then 0 else DigitsValue(s[..|s| - 1]) * 10 + DigitValue(s[|s| - 1])
  }

  /** Printing a number in decimal and reading the digits back gives the number. */
  lemma {:induction false} NatToStringRoundTrip(n: nat)
    ensures AllDigits(NatToString(n)) && DigitsValue(NatToString(n)) == n
    decreases n
  {
    NatToStringShape(n);
    if n >= 10 {
      var s := NatToString(n);
      assert s[..|s| - 1] == NatToString(n / 10);
      NatToStringRoundTrip(n / 10);
    }
  }

  /** NatToString is injective: different numbers print differently. */
  lemma NatToStringInjective(m: nat, n: nat)
    requires NatToString(m) == NatToString(n)
    ensures m == n
  {
    NatToStringRoundTrip(m);
    NatToStringRoundTrip(n);
  }

  /** parts.join(sep) */
  function Join(parts: seq<string>, sep: string): string {
    if |parts| == 0 then ""
    else if |parts| == 1 then parts[0]
    else parts[0] + sep + Join(parts[1..], sep)
  }

  lemma JoinSingleton(s: string, sep: string)
    ensures Join([s], sep) == s
  {
  }

  /** Prepending text to the first part prepends it to the joined string. */
  lemma JoinConsFirst(pre: string, parts: seq<string>, sep: string)
    requires |parts| >= 1
    ensures Join([pre + parts[0]] + parts[1..], sep) == pre + Join(parts, sep)
  {
    var ps := [pre + parts[0]] + parts[1..];
    if |parts| > 1 {
      assert ps[1..] == parts[1..];
    }
  }

  /** s.split(c): the pieces between occurrences of `c`; at least one piece. */
  function Split(s: string, c: char): (parts: seq<string>)
    ensures |parts| >= 1
    ensures forall i :: 0 <= i < |parts| ==> c !in parts[i]
    ensures Join(parts, [c]) == s
    decreases |s|
  {
    if |s| == 0 then [""]
    else if s[0] == c then
      var rest := Split(s[1..], c);
      assert [""] + rest == [""] + rest;
      assert ([""] + rest)[1..] == rest;
      assert s == [c] + s[1..];
      [""] + rest
    else
      var rest := Split(s[1..], c);
      JoinConsFirst([s[0]], rest, [c]);
      assert s == [s[0]] + s[1..];
      [[s[0]] + rest[0]] + rest[1..]
  }

  /** The number of pieces s.split(c) yields: one more than the occurrences of `c`. */
  function Count(s: string, c: char): (n: nat)
    ensures n <= |s|
  {
    if |s| == 0 then 0 else (if s[0] == c then 1 else 0) + Count(s[1..], c)
  }

  lemma {:induction false} SplitCount(s: string, c: char)
    ensures |Split(s, c)| == Count(s, c) + 1
    decreases |s|
  {
    if |s| > 0 {
      SplitCount(s[1..], c);
    }
  }

  /** Splitting a joined list of separator-free pieces gives the pieces back. */
  lemma {:induction false} SplitJoin(parts: seq<string>, c: char)
    requires |parts| >= 1
    requires forall i :: 0 <= i < |parts| ==> c !in parts[i]
    ensures Split(Join(parts, [c]), c) == parts
    decreases |parts|, |parts[0]|
  {
    if |parts[0]| > 0 {
      var p0 := parts[0];
      var tail := [p0[1..]] + parts[1..];
      assert tail[0] == p0[1..] && tail[1..] == parts[1..];
      forall i | 0 <= i < |tail| ensures c !in tail[i] {
        if i == 0 {
          assert forall k :: 0 <= k < |p0[1..]| ==> p0[1..][k] == p0[k + 1];
        } else {
          assert tail[i] == parts[i];
        }
      }
      SplitJoin(tail, c);
      JoinConsFirst([p0[0]], tail, [c]);
      assert [p0[0]] + p0[1..] == p0;
      assert [[p0[0]] + tail[0]] + tail[1..] == parts;
      var j := Join(parts, [c]);
      assert j[0] == p0[0];
      assert j[1..] == Join(tail, [c]);
    } else if |parts| > 1 {
      SplitJoin(parts[1..], c);
      var j := Join(parts, [c]);
      assert j == [c] + Join(parts[1..], [c]);
      assert j[1..] == Join(parts[1..], [c]);
      assert [""] + parts[1..] == parts;
    }
  }

  /** n copies of `c`; empty when n <= 0. */
  function Repeat(c: char, n: int): (s: string)
    ensures |s| == if n <= 0 then 0 else n
    ensures forall i :: 0 <= i < |s| ==> s[i] == c
    decreases n
  {
    if n <= 0 then "" else [c] + Repeat(c, n - 1)
  }

  /** s.padEnd(w): right-pads with spaces to width w, never truncates. */
  function PadEnd(s: string, w: int): (r: string)
    ensures |r| == if |s| >= w then |s| else w
    ensures r[..|s|] == s
  {
    if |s| >= w then s else s + Repeat(' ', w - |s|)
  }

  /** s.padStart(w, c): left-pads with `c` to width w, never truncates. */
  function PadStart(s: string, w: int, c: char): (r: string)
    ensures |r| == if |s| >= w then |s| else w
    ensures r[|r| - |s|..] == s
  {
    if |s| >= w then s else Repeat(c, w - |s|) + s
  }

  predicate StartsWith(s: string, prefix: string) {
    |prefix| <= |s| && s[..|prefix|] == prefix
  }

  predicate EndsWith(s: string, suffix: string) {
    |suffix| <= |s| && s[|s| - |suffix|..] == suffix
  }

  /** s.includes(p) */
  predicate Contains(s: string, p: string)
    decreases |s|
  {
    StartsWith(s, p) || (|s| > 0 && Contains(s[1..], p))
  }

  /** xs.indexOf(x): the first index holding x, or -1. */
  function IndexOf<T(==)>(xs: seq<T>, x: T): (k: int)
    ensures -1 <= k < |xs|
    ensures k == -1 <==> x !in xs
    ensures k >= 0 ==> xs[k] == x && x !in xs[..k]
  {
    if |xs| == 0 then -1
    else if xs[0] == x then 0
    else
      var k := IndexOf(xs[1..], x);
      assert k >= 0 ==> xs[1..][..k] == xs[1..k + 1];
      if k == -1 then -1 else k + 1
  }

  /** The concatenation of a list of strings. */
  function Concat(parts: seq<string>): string {
    if |parts| == 0 then "" else parts[0] + Concat(parts[1..])
  }

  lemma {:induction false} ConcatAppend(parts: seq<string>, last: string)
    ensures Concat(parts + [last]) == Concat(parts) + last
    decreases |parts|
  {
    if |parts| == 0 {
      assert parts + [last] == [last];
    } else {
      assert (parts + [last])[1..] == parts[1..] + [last];
      ConcatAppend(parts[1..], last);
    }
  }

  /** The largest length among the lines (Math.max(...lines.map(l => l.length))). */
  function MaxLength(lines: seq<string>): (m: nat)
    requires |lines| >= 1
    ensures forall i :: 0 <= i < |lines| ==> |lines[i]| <= m
    ensures exists i :: 0 <= i < |lines| && |lines[i]| == m
  {
    if |lines| == 1 then |lines[0]|
    else
      var r := MaxLength(lines[1..]);
      assert forall i :: 1 <= i < |lines| ==> lines[i] == lines[1..][i - 1];
      if |lines[0]| >= r then |lines[0]| else r
  }


  /** `p` occurs in `s` at index j. */
  predicate OccursAt(s: string, p: string, j: int) {
    0 <= j && j + |p| <= |s| && s[j..j + |p|] == p
  }

  /** s.indexOf(p, i): the first index from i on where p occurs, or -1. */
  function FindFrom(s: string, p: string, i: nat): (k: int)
    ensures k == -1 || (i <= k && OccursAt(s, p, k))
    ensures k == -1 ==> forall j :: i <= j ==> !OccursAt(s, p, j)
    ensures k >= 0 ==> forall j :: i <= j < k ==> !OccursAt(s, p, j)
    decreases |s| - i
  {
    if i + |p| > |s| then -1
    else if OccursAt(s, p, i) then i
    else FindFrom(s, p, i + 1)
  }

  /** s.replace(p, r) with a string pattern: only the first occurrence is replaced. */
  function ReplaceFirst(s: string, p: string, r: string): string {
    var k := FindFrom(s, p, 0);
    if k == -1 then s else s[..k] + r + s[k + |p|..]
  }
}
