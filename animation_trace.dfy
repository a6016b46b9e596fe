/**
 * What each animation style does, as a trace of renderer calls and timer
 * waits (Render.Event), and how an interrupt cuts it short.
 *
 * Each style is a plan: opening calls, a loop of steps guarded by "not yet
 * interrupted", and closing calls. Interrupt signals can only be delivered
 * while the engine awaits a timer, so they are an oracle consumed one per
 * wait: a signal arriving while the engine's handler is registered sets the
 * interrupted flag, shows the cursor and removes the handler. A signal that
 * arrives with no handler registered ends the process; Waited passes over
 * it, so the properties of whole runs are stated for runs in which no such
 * signal arrives (Quiet).
 */
module AnimationTrace {
  import opened Wrappers
  import opened Text
  import opened Render
  import Ansi

  /** The interrupt oracle and the engine's interrupt state. */
  datatype Interrupts = Interrupts(pending: seq<bool>, listening: bool, interrupted: bool)

  /** What an animation did, how it left the interrupt state, and what it threw. */
  datatype Outcome = Outcome(events: seq<Event>, after: Interrupts, thrown: Option<string>)

  function Min(a: int, b: int): int {
    if a <= b then a else b
  }

  function MaxReal(a: real, b: real): real {
    if a >= b then a else b
  }

  /** One timer wait, and the interrupt handler if a signal arrives during it. */
  function Waited(s: Interrupts, ms: real): (seq<Event>, Interrupts) {
    var fired := |s.pending| > 0 && s.pending[0];
    var rest := if |s.pending| > 0 then s.pending[1..] else [];
    if fired && s.listening then ([Wait(ms), Show], Interrupts(rest, false, true))
    else ([Wait(ms)], s.(pending := rest))
  }

  function StepEvent(e: Event, s: Interrupts): (seq<Event>, Interrupts) {
    if e.Wait? then Waited(s, e.ms) else ([e], s)
  }

  /** Carry out a plan: every call happens; each wait may deliver a signal. */
  function Exec(plan: seq<Event>, s: Interrupts): (seq<Event>, Interrupts)
    decreases |plan|
  {
    if |plan| == 0 then ([], s)
    else
      var h := StepEvent(plan[0], s);
      var t := Exec(plan[1..], h.1);
      (h.0 + t.0, t.1)
  }

  /** Steps i.. of a loop that checks the interrupted flag before each step. */
  function Loop(steps: seq<seq<Event>>, i: nat, s: Interrupts): (seq<Event>, Interrupts)
    requires i <= |steps|
    decreases |steps| - i
  {
    if i == |steps| || s.interrupted then ([], s)
    else
      var a := Exec(steps[i], s);
      var b := Loop(steps, i + 1, a.1);
      (a.0 + b.0, b.1)
  }

  /** A loop of `count` passes over the same steps, each pass guarded like Loop. */
  function Passes(steps: seq<seq<Event>>, count: int, s: Interrupts): (seq<Event>, Interrupts)
    decreases if count <= 0 then 0 else count
  {
    if count <= 0 || s.interrupted then ([], s)
    else
      var a := Loop(steps, 0, s);
      var b := Passes(steps, count - 1, a.1);
      (a.0 + b.0, b.1)
  }

  function Flat(steps: seq<seq<Event>>): seq<Event> {
    if |steps| == 0 then [] else steps[0] + Flat(steps[1..])
  }

  predicate Waitless(plan: seq<Event>) {
    forall i :: 0 <= i < |plan| ==> !plan[i].Wait?
  }

  /** Nothing interrupts: the flag is clear and no wait delivers a signal. */
  predicate Quiet(s: Interrupts) {
    !s.interrupted && forall k :: 0 <= k < |s.pending| ==> !s.pending[k]
  }

  /** A trace without the cursor-showing calls. */
  function Unshown(trace: seq<Event>): seq<Event> {
    if |trace| == 0 then []
    else (if trace[0] == Show then [] else [trace[0]]) + Unshown(trace[1..])
  }

  predicate NoShow(steps: seq<seq<Event>>) {
    forall i, k :: 0 <= i < |steps| && 0 <= k < |steps[i]| ==> steps[i][k] != Show
  }

  function Repeated(e: Event, n: nat): seq<Event> {
    seq(n, _ => e)
  }

  // ---------------------------------------------------------------- plans

  /** typing: one character per step, and a wait after each that is not a newline. */
  function TypingStep(c: char, delay: real): seq<Event> {
    [Write([c])] + (if c != '\n' then [Wait(delay)] else [])
  }

  function TypingSteps(content: string, delay: real): seq<seq<Event>> {
    seq(|content|, i requires 0 <= i < |content| => TypingStep(content[i], delay))
  }

  function TypingRun(content: string, delay: real, s: Interrupts): Outcome {
    var l := Loop(TypingSteps(content, delay), 0, s);
    Outcome([Hide] + l.0 + (if EndsWith(content, "\n") then [] else [Write("\n")]) + [Show], l.1, None)
  }

  /** Which part of each line a fade frame shows. */
  datatype Reveal =
    | Shown(rows: seq<int>)   // the listed rows in full, the others empty
    | Leading(c: nat)         // the first c characters of every row
    | Trailing(c: nat)        // the last c characters, right-aligned with spaces

  function RowText(line: string, j: int, r: Reveal): string {
    match r
    case Shown(rows) => if j in rows then line else ""
    case Leading(c) => line[..Min(c, |line|)]
    case Trailing(c) =>
      var k := Min(c, |line|);
      Repeat(' ', |line| - k) + line[|line| - k..]
  }

  function FadeRows(lines: seq<string>, r: Reveal, j: nat): seq<Event>
    decreases |lines| - j
  {
    if j >= |lines| then []
    else [ClearLine, WriteLine(RowText(lines[j], j, r))] + FadeRows(lines, r, j + 1)
  }

  /** One fade frame: back to the saved position, then every row cleared and rewritten. */
  function FadeFrame(lines: seq<string>, r: Reveal): seq<Event> {
    [Restore] + FadeRows(lines, r, 0)
  }

  function Upto(n: nat): seq<int> {
    seq(n, k => k)
  }

  /** Rows n-1-s .. n-1: the rows shown after s+1 steps from the bottom. */
  function LastRows(n: nat, s: nat): seq<int> {
    seq(s + 1, k => n - 1 - s + k)
  }

  function FadeStep(lines: seq<string>, r: Reveal, delay: real): seq<Event> {
    FadeFrame(lines, r) + [Wait(delay)]
  }

  function TopSteps(lines: seq<string>, delay: real): seq<seq<Event>> {
    seq(|lines|, i requires 0 <= i < |lines| => FadeStep(lines, Shown(Upto(i + 1)), delay))
  }

  function BottomSteps(lines: seq<string>, delay: real): seq<seq<Event>> {
    seq(|lines|, i requires 0 <= i < |lines| => FadeStep(lines, Shown(LastRows(|lines|, i)), delay))
  }

  function CharReveal(leading: bool, c: nat): Reveal {
    if leading then Leading(c) else Trailing(c)
  }

  function CharSteps(lines: seq<string>, delay: real, leading: bool): seq<seq<Event>>
    requires |lines| >= 1
  {
    seq(MaxLength(lines), i => CharStep(lines, delay, leading, i))
  }

  /** Step i of a character fade shows i + 1 characters of every row. */
  function CharStep(lines: seq<string>, delay: real, leading: bool, i: int): seq<Event> {
    FadeStep(lines, CharReveal(leading, if i < 0 then 0 else i + 1), delay)
  }

  lemma CharStepAt(lines: seq<string>, delay: real, leading: bool, i: nat)
    requires |lines| >= 1 && i < MaxLength(lines)
    ensures CharSteps(lines, delay, leading)[i] == FadeStep(lines, CharReveal(leading, i + 1), delay)
  {
    assert CharSteps(lines, delay, leading)[i] == CharStep(lines, delay, leading, i);
  }

  function FadeOpening(n: nat): seq<Event> {
    [Hide] + Repeated(WriteLine(""), n) + Repeated(MoveUp(1), n) + [Save]
  }

  /** The steps of a fade for each direction; an unknown direction has none. */
  function FadeSteps(lines: seq<string>, delay: real, direction: string): seq<seq<Event>>
    requires |lines| >= 1
  {
    if direction == "top" || direction == "up" then TopSteps(lines, delay)
    else if direction == "bottom" || direction == "down" then BottomSteps(lines, delay)
    else if direction == "left" || direction == "right" then CharSteps(lines, delay / 2.0, direction == "left")
    else []
  }

  /** fade: lines revealed top-down, bottom-up, or character by character from either side. */
  function FadeRun(content: string, delay: real, direction: string, s: Interrupts): Outcome {
    var lines := Split(content, '\n');
    var l := Loop(FadeSteps(lines, delay, direction), 0, s);
    Outcome(FadeOpening(|lines|) + l.0 + [Show], l.1, None)
  }

  /** ClearLine for each of n rows, with `between` after every row but the last. */
  function ClearRows(n: nat, j: nat, between: Event): seq<Event>
    decreases n - j
  {
    if j >= n then []
    else [ClearLine] + (if j < n - 1 then [between] else []) + ClearRows(n, j + 1, between)
  }

  function ClearFrame(frame: string): seq<Event> {
    ClearRows(|Split(frame, '\n')|, 0, MoveDown(1))
  }

  function FrameStep(frame: string, delay: real): seq<Event> {
    [Restore] + ClearFrame(frame) + [Write(frame), Wait(delay)]
  }

  function FrameSteps(frames: seq<string>, delay: real): seq<seq<Event>> {
    seq(|frames|, i requires 0 <= i < |frames| => FrameStep(frames[i], delay))
  }

  /** frames: nothing for no frames; otherwise `passes` passes over the frames. */
  function FramesRun(frames: seq<string>, delay: real, passes: int, s: Interrupts): Outcome {
    if |frames| == 0 then Outcome([], s, None)
    else
      var p := Passes(FrameSteps(frames, delay), passes, s);
      Outcome([Hide, Save] + p.0 + [Show], p.1, None)
  }

  /** The passes a loop setting gives: -1 is endless, bounded here by fuel. */
  function PassCount(loop: int, fuel: nat): nat {
    if loop == -1 then fuel else if loop < 0 then 0 else loop
  }

  /** A regular-expression match, relative to the end of the previous one. */
  datatype Span = Span(gap: nat, width: nat)

  const BlinkOn: string := Ansi.Sgr("5")
  const BlinkOff: string := Ansi.Sgr("25")

  /** Every match wrapped in blink on / blink off (replacement `\x1b[5m$&\x1b[25m`). */
  function Blinked(text: string, spans: seq<Span>): string
    decreases |spans|
  {
    if |spans| == 0 then text
    else
      var a := Min(spans[0].gap, |text|);
      var b := Min(spans[0].width, |text| - a);
      text[..a] + BlinkOn + text[a..a + b] + BlinkOff + Blinked(text[a + b..], spans[1..])
  }

  function BlinkRound(content: string): seq<Event> {
    [Write(content), Wait(500.0), ClearLine, Write("\r"), Wait(500.0)]
  }

  function BlinkSteps(content: string, loops: int): seq<seq<Event>> {
    seq(if loops < 0 then 0 else loops, _ => BlinkRound(content))
  }

  /**
   * blink: with a pattern, one write of the content with the matches
   * blinking, unless the pattern is no valid regular expression and building
   * it throws; without, `loops` rounds of show, wait, clear, wait, then the
   * content once more.
   */
  function BlinkRun(content: string, pattern: Option<string>, spans: Result<seq<Span>>, loops: int, s: Interrupts): Outcome {
    if Ansi.Truthy(pattern) then
      if spans.Failure? then Outcome([], s, Some(spans.error))
      else Outcome([Write(Blinked(content, spans.value))], s, None)
    else
      var l := Loop(BlinkSteps(content, loops), 0, s);
      Outcome(l.0 + [Write(content)], l.1, None)
  }

  /** Each row cleared and written after `pad` spaces; a newline after rows whose first occurrence is not last. */
  function SlideRows(lines: seq<string>, pad: int, j: nat): seq<Event>
    decreases |lines| - j
  {
    if j >= |lines| then []
    else
      [ClearLine, Write(Repeat(' ', pad) + lines[j])]
      + (if IndexOf(lines, lines[j]) < |lines| - 1 then [WriteLine("")] else [])
      + SlideRows(lines, pad, j + 1)
  }

  function SlideStep(lines: seq<string>, pad: int): seq<Event> {
    [Save] + SlideRows(lines, pad, 0) + [Wait(20.0), Restore]
  }

  function SlideSteps(lines: seq<string>, left: bool, steps: int): seq<seq<Event>> {
    seq(if steps < 0 then 0 else steps + 1, i => SlideStep(lines, if left then steps - i else i))
  }

  lemma SlideStepAt(lines: seq<string>, left: bool, steps: int, i: nat)
    requires i <= steps
    ensures SlideSteps(lines, left, steps)[i] == SlideStep(lines, if left then steps - i else i)
  {
  }

  const RangeErrorPrefix := "Invalid count value: "

  /**
   * The final render: rows in place (left), or right-aligned by
   * min(steps, width - length) spaces, which throws for a negative count.
   */
  function FinalRows(lines: seq<string>, left: bool, steps: int, width: int, j: nat): (seq<Event>, Option<string>)
    decreases |lines| - j
  {
    if j >= |lines| then ([], None)
    else
      var count := Min(steps, width - |lines[j]|);
      if !left && count < 0 then ([ClearLine], Some(RangeErrorPrefix + IntToString(count)))
      else
        var text := if left then lines[j] else Repeat(' ', count) + lines[j];
        var rest := FinalRows(lines, left, steps, width, j + 1);
        ([ClearLine, WriteLine(text)] + rest.0, rest.1)
  }

  /** Hide the cursor, clear n rows (a newline between them), move back up. */
  function SlideOpening(n: nat): seq<Event> {
    [Hide] + ClearRows(n, 0, WriteLine("")) + Repeated(MoveUp(1), n)
  }

  /** Save, the final render, and show the cursor unless the render threw. */
  function SlideClosing(f: (seq<Event>, Option<string>)): seq<Event> {
    [Save] + f.0 + (if f.1.None? then [Show] else [])
  }

  function SlideHorizontalRun(lines: seq<string>, left: bool, width: int, s: Interrupts): Outcome
    requires |lines| >= 1
  {
    var steps := Min(MaxLength(lines) + 10, width);
    var l := Loop(SlideSteps(lines, left, steps), 0, s);
    var f := FinalRows(lines, left, steps, width, 0);
    Outcome(SlideOpening(|lines|) + l.0 + SlideClosing(f), l.1, f.1)
  }

  function Reversed<T>(xs: seq<T>): (r: seq<T>)
    ensures |r| == |xs|
    ensures forall i :: 0 <= i < |xs| ==> r[i] == xs[|xs| - 1 - i]
  {
    seq(|xs|, i requires 0 <= i < |xs| => xs[|xs| - 1 - i])
  }

  function VerticalStep(line: string): seq<Event> {
    [WriteLine(line), Wait(20.0)]
  }

  function VerticalSteps(ordered: seq<string>): seq<seq<Event>> {
    seq(|ordered|, i requires 0 <= i < |ordered| => VerticalStep(ordered[i]))
  }

  function SlideVerticalRun(lines: seq<string>, fromTop: bool, s: Interrupts): Outcome {
    var l := Loop(VerticalSteps(if fromTop then lines else Reversed(lines)), 0, s);
    Outcome(l.0, l.1, None)
  }

  /** slide: horizontal for left and right, vertical for top, up, bottom and down, nothing otherwise. */
  function SlideRun(content: string, direction: string, width: int, s: Interrupts): Outcome {
    var lines := Split(content, '\n');
    if direction == "left" || direction == "right" then
      SlideHorizontalRun(lines, direction == "left", width, s)
    else if direction in {"top", "up", "bottom", "down"} then
      SlideVerticalRun(lines, direction == "top" || direction == "up", s)
    else Outcome([], s, None)
  }

  // ---------------------------------------------------------- Exec and Loop

  lemma {:induction false} ExecAppend(a: seq<Event>, b: seq<Event>, s: Interrupts)
    ensures Exec(a + b, s) == (Exec(a, s).0 + Exec(b, Exec(a, s).1).0, Exec(b, Exec(a, s).1).1)
    decreases |a|
  {
    if |a| == 0 {
      assert a + b == b;
      assert [] + Exec(b, s).0 == Exec(b, s).0;
    } else {
      var h := StepEvent(a[0], s);
      assert (a + b)[0] == a[0];
      assert (a + b)[1..] == a[1..] + b;
      ExecAppend(a[1..], b, h.1);
      var r := Exec(a[1..], h.1);
      var t := Exec(b, r.1);
      assert Exec(a + b, s) == (h.0 + (r.0 + t.0), t.1);
      assert Exec(a, s) == (h.0 + r.0, r.1);
      assert h.0 + (r.0 + t.0) == (h.0 + r.0) + t.0;
    }
  }

  lemma {:induction false} ExecWaitless(plan: seq<Event>, s: Interrupts)
    requires Waitless(plan)
    ensures Exec(plan, s) == (plan, s)
    decreases |plan|
  {
    if |plan| > 0 {
      assert Waitless(plan[1..]) by {
        forall i | 0 <= i < |plan[1..]| ensures !plan[1..][i].Wait? {
          assert plan[1..][i] == plan[i + 1];
        }
      }
      assert !plan[0].Wait?;
      ExecWaitless(plan[1..], s);
      assert [plan[0]] + plan[1..] == plan;
    }
  }

  /** Calls without a wait, then one wait: only the wait can bring the handler in. */
  lemma ExecThenWait(p: seq<Event>, ms: real, s: Interrupts)
    requires Waitless(p)
    ensures Exec(p + [Wait(ms)], s) == (p + Waited(s, ms).0, Waited(s, ms).1)
  {
    ExecAppend(p, [Wait(ms)], s);
    ExecWaitless(p, s);
    ExecOne(Wait(ms), s);
  }

  lemma ExecOne(e: Event, s: Interrupts)
    ensures Exec([e], s) == StepEvent(e, s)
  {
    assert [e][1..] == [];
    var h := StepEvent(e, s);
    assert Exec([e], s) == (h.0 + [], h.1);
    assert h.0 + [] == h.0;
  }

  /** A loop that has done step i moves on to step i + 1 with the same overall result. */
  lemma Advanced(steps: seq<seq<Event>>, i: nat, s: Interrupts, t: seq<Event>, total: seq<Event>, final: Interrupts)
    requires i < |steps| && !s.interrupted
    requires t + Loop(steps, i, s).0 == total && Loop(steps, i, s).1 == final
    ensures var a := Exec(steps[i], s);
      (t + a.0) + Loop(steps, i + 1, a.1).0 == total && Loop(steps, i + 1, a.1).1 == final
  {
    var a := Exec(steps[i], s);
    var b := Loop(steps, i + 1, a.1);
    assert Loop(steps, i, s) == (a.0 + b.0, b.1);
    assert (t + a.0) + b.0 == t + (a.0 + b.0);
  }

  /** Concatenation regrouped: a trace extended three times is extended once by the three parts. */
  lemma Regroup(a: seq<Event>, b: seq<Event>, c: seq<Event>, d: seq<Event>)
    ensures a + b + c + d == a + (b + c + d)
  {
  }

  lemma Regroup5(a: seq<Event>, b: seq<Event>, c: seq<Event>, d: seq<Event>, e: seq<Event>)
    ensures a + b + c + d + e == a + (b + c + d + e)
  {
  }

  lemma Regroup3(a: seq<Event>, b: seq<Event>, c: seq<Event>)
    ensures a + b + c == a + (b + c)
  {
  }

  /** A loop past its last step, or interrupted, does nothing. */
  lemma LoopDone(steps: seq<seq<Event>>, i: nat, s: Interrupts)
    requires i <= |steps| && (i == |steps| || s.interrupted)
    ensures Loop(steps, i, s) == ([], s)
  {
  }

  lemma PassesDone(steps: seq<seq<Event>>, count: int, s: Interrupts)
    requires count <= 0 || s.interrupted
    ensures Passes(steps, count, s) == ([], s)
  {
  }

  /** Showing row i as well as those below it. */
  lemma RowPrepended(n: nat, i: nat)
    requires i < n
    ensures [i] + (if i == n - 1 then [] else LastRows(n, n - 2 - i)) == LastRows(n, n - 1 - i)
  {
    var r := [i] + (if i == n - 1 then [] else LastRows(n, n - 2 - i));
    assert |r| == n - i;
    forall k | 0 <= k < n - i
      ensures r[k] == LastRows(n, n - 1 - i)[k]
    {
      if k > 0 {
        assert r[k] == LastRows(n, n - 2 - i)[k - 1];
      }
    }
  }

  lemma PassAdvanced(steps: seq<seq<Event>>, count: int, s: Interrupts, t: seq<Event>, total: seq<Event>, final: Interrupts)
    requires count > 0 && !s.interrupted
    requires t + Passes(steps, count, s).0 == total && Passes(steps, count, s).1 == final
    ensures var a := Loop(steps, 0, s);
      (t + a.0) + Passes(steps, count - 1, a.1).0 == total && Passes(steps, count - 1, a.1).1 == final
  {
    var a := Loop(steps, 0, s);
    var b := Passes(steps, count - 1, a.1);
    assert Passes(steps, count, s) == (a.0 + b.0, b.1);
    assert (t + a.0) + b.0 == t + (a.0 + b.0);
  }

  /** Waiting keeps a quiet state quiet and a raised flag raised. */
  lemma WaitedQuiet(s: Interrupts, ms: real)
    ensures Quiet(s) ==> Waited(s, ms).0 == [Wait(ms)] && Quiet(Waited(s, ms).1)
    ensures Quiet(s) ==> Waited(s, ms).1.listening == s.listening
    ensures s.interrupted ==> Waited(s, ms).1.interrupted
  {
    if Quiet(s) && |s.pending| > 0 {
      assert !s.pending[0];
      var rest := s.pending[1..];
      forall k | 0 <= k < |rest| ensures !rest[k] {
        assert rest[k] == s.pending[k + 1];
      }
    }
  }

  /** Without an interrupt, a plan runs exactly as written. */
  lemma {:induction false} ExecQuiet(plan: seq<Event>, s: Interrupts)
    requires Quiet(s)
    ensures Exec(plan, s).0 == plan && Quiet(Exec(plan, s).1)
    ensures Exec(plan, s).1.listening == s.listening
    decreases |plan|
  {
    if |plan| > 0 {
      if plan[0].Wait? {
        WaitedQuiet(s, plan[0].ms);
      }
      ExecQuiet(plan[1..], StepEvent(plan[0], s).1);
    }
  }

  /** The only call the interrupt handler adds is Show. */
  lemma {:induction false} ExecUnshown(plan: seq<Event>, s: Interrupts)
    requires forall k :: 0 <= k < |plan| ==> plan[k] != Show
    ensures Unshown(Exec(plan, s).0) == plan
    decreases |plan|
  {
    if |plan| > 0 {
      var h := StepEvent(plan[0], s);
      ExecUnshown(plan[1..], h.1);
      UnshownAppend(h.0, Exec(plan[1..], h.1).0);
      if plan[0].Wait? {
        assert Unshown(h.0) == [plan[0]] by {
          if |h.0| == 2 {
            assert h.0[1..] == [Show];
            assert Unshown([Show]) == [] + Unshown([]);
          }
        }
      } else {
        assert Unshown(h.0) == [plan[0]] + Unshown([]);
      }
    }
  }

  lemma {:induction false} UnshownAppend(a: seq<Event>, b: seq<Event>)
    ensures Unshown(a + b) == Unshown(a) + Unshown(b)
    decreases |a|
  {
    if |a| == 0 {
      assert a + b == b;
    } else {
      assert (a + b)[1..] == a[1..] + b;
      UnshownAppend(a[1..], b);
    }
  }

  lemma {:induction false} FlatSnoc(steps: seq<seq<Event>>, i: nat, m: nat)
    requires i <= m < |steps|
    ensures Flat(steps[i..m + 1]) == Flat(steps[i..m]) + steps[m]
    decreases m - i
  {
    if i == m {
      assert steps[i..m + 1] == [steps[m]];
      assert Flat([steps[m]]) == steps[m] + Flat([]);
    } else {
      FlatSnoc(steps, i + 1, m);
      assert steps[i..m + 1][1..] == steps[i + 1..m + 1];
      assert steps[i..m][1..] == steps[i + 1..m];
    }
  }

  /** Without an interrupt, a loop runs every step as planned. */
  lemma {:induction false} LoopQuiet(steps: seq<seq<Event>>, i: nat, s: Interrupts)
    requires i <= |steps| && Quiet(s)
    ensures Loop(steps, i, s).0 == Flat(steps[i..]) && Quiet(Loop(steps, i, s).1)
    ensures Loop(steps, i, s).1.listening == s.listening
    decreases |steps| - i
  {
    if i < |steps| {
      ExecQuiet(steps[i], s);
      LoopQuiet(steps, i + 1, Exec(steps[i], s).1);
      assert steps[i..][1..] == steps[i + 1..];
    }
  }

  /**
   * An interrupt cuts a loop short at a step boundary, and nothing else
   * does: apart from the handler's Show, the loop did exactly its first m
   * steps, and it stopped before the end only with the flag raised.
   */
  lemma {:induction false} LoopCut(steps: seq<seq<Event>>, i: nat, s: Interrupts)
    requires i <= |steps| && NoShow(steps)
    ensures exists m :: i <= m <= |steps| && Unshown(Loop(steps, i, s).0) == Flat(steps[i..m])
                        && (m < |steps| ==> Loop(steps, i, s).1.interrupted)
    decreases |steps| - i
  {
    if i == |steps| || s.interrupted {
      assert Unshown([]) == Flat(steps[i..i]);
    } else {
      var a := Exec(steps[i], s);
      LoopCut(steps, i + 1, a.1);
      var m :| i + 1 <= m <= |steps| && Unshown(Loop(steps, i + 1, a.1).0) == Flat(steps[i + 1..m])
               && (m < |steps| ==> Loop(steps, i + 1, a.1).1.interrupted);
      ExecUnshown(steps[i], s);
      UnshownAppend(a.0, Loop(steps, i + 1, a.1).0);
      assert steps[i..m][1..] == steps[i + 1..m];
      assert Unshown(Loop(steps, i, s).0) == Flat(steps[i..m]);
    }
  }

  lemma {:induction false} PassesQuiet(steps: seq<seq<Event>>, count: int, s: Interrupts)
    requires Quiet(s)
    ensures Passes(steps, count, s).0 == Flat(seq(if count < 0 then 0 else count, _ => Flat(steps)))
    decreases if count <= 0 then 0 else count
  {
    if count > 0 {
      LoopQuiet(steps, 0, s);
      assert steps[0..] == steps;
      PassesQuiet(steps, count - 1, Loop(steps, 0, s).1);
      var all := seq(count, _ => Flat(steps));
      assert all[1..] == seq(count - 1, _ => Flat(steps));
    } else {
      assert seq(0, _ => Flat(steps)) == [];
    }
  }

  // ------------------------------------------------------ written content

  lemma {:induction false} WrittenUnshown(trace: seq<Event>)
    ensures Written(Unshown(trace)) == Written(trace)
    decreases |trace|
  {
    if |trace| > 0 {
      WrittenUnshown(trace[1..]);
      var h := if trace[0] == Show then [] else [trace[0]];
      WrittenAppend(h, Unshown(trace[1..]));
      WrittenOne(trace[0]);
    }
  }

  lemma {:induction false} TypingWrittenPrefix(content: string, delay: real, m: nat)
    requires m <= |content|
    ensures Written(Flat(TypingSteps(content, delay)[0..m])) == content[..m]
    decreases m
  {
    var steps := TypingSteps(content, delay);
    if m == 0 {
      assert steps[0..0] == [];
    } else {
      TypingWrittenPrefix(content, delay, m - 1);
      FlatSnoc(steps, 0, m - 1);
      WrittenAppend(Flat(steps[0..m - 1]), steps[m - 1]);
      TypingStepAt(content, delay, m - 1);
      TypingStepWritten(content[m - 1], delay);
      PrefixSnoc(content, m);
    }
  }

  lemma TypingStepAt(content: string, delay: real, k: nat)
    requires k < |content|
    ensures TypingSteps(content, delay)[k] == TypingStep(content[k], delay)
  {
  }

  lemma PrefixSnoc(s: string, m: nat)
    requires 0 < m <= |s|
    ensures s[..m] == s[..m - 1] + [s[m - 1]]
  {
  }

  lemma TypingStepWritten(c: char, delay: real)
    ensures Written(TypingStep(c, delay)) == [c]
  {
    WrittenOne(Write([c]));
    if c != '\n' {
      WrittenAppend([Write([c])], [Wait(delay)]);
      WrittenOne(Wait(delay));
    }
  }

  /**
   * Typing types a prefix of the content: however the run is interrupted,
   * the text its loop writes is content[..m] for some m.
   */
  lemma TypingTypesPrefix(content: string, delay: real, s: Interrupts)
    ensures exists m :: (0 <= m <= |content| &&
      Written(Loop(TypingSteps(content, delay), 0, s).0) == content[..m])
  {
    var steps := TypingSteps(content, delay);
    var l := Loop(steps, 0, s);
    LoopCut(steps, 0, s);
    var m :| 0 <= m <= |steps| && Unshown(l.0) == Flat(steps[0..m]) && (m < |steps| ==> l.1.interrupted);
    WrittenUnshown(l.0);
    TypingWrittenPrefix(content, delay, m);
  }

  /**
   * Without interrupt, typing writes the whole content and ends it with a
   * newline when it lacks one; the cursor is hidden first and shown last.
   */
  lemma TypingTypesAll(content: string, delay: real, s: Interrupts)
    requires Quiet(s)
    ensures var o := TypingRun(content, delay, s);
      o.events[0] == Hide && o.events[|o.events| - 1] == Show && o.thrown.None? &&
      Written(o.events) == content + (if EndsWith(content, "\n") then "" else "\n")
  {
    var l := Loop(TypingSteps(content, delay), 0, s);
    TypingQuietWritten(content, delay, s);
    var newline := if EndsWith(content, "\n") then [] else [Write("\n")];
    BracketedWritten(l.0, newline);
    WrittenOne(Write("\n"));
  }

  /** Calls between hiding and showing the cursor write what the calls in between write. */
  lemma BracketedWritten(a: seq<Event>, b: seq<Event>)
    ensures Written([Hide] + a + b + [Show]) == Written(a) + Written(b)
  {
    var x := [Hide] + a;
    var y := x + b;
    assert Written(x) == Written(a) by {
      WrittenAppend([Hide], a);
      WrittenOne(Hide);
    }
    assert Written(y) == Written(a) + Written(b) by {
      WrittenAppend(x, b);
    }
    assert Written(y + [Show]) == Written(y) by {
      WrittenAppend(y, [Show]);
      WrittenOne(Show);
    }
  }

  /** Typing without interrupt writes exactly the content. */
  lemma TypingQuietWritten(content: string, delay: real, s: Interrupts)
    requires Quiet(s)
    ensures Written(Loop(TypingSteps(content, delay), 0, s).0) == content
  {
    var steps := TypingSteps(content, delay);
    LoopQuiet(steps, 0, s);
    assert steps[0..] == steps[0..|content|];
    TypingWrittenPrefix(content, delay, |content|);
    assert content[..|content|] == content;
  }

  /** The lines, each followed by a newline. */
  function Lined(lines: seq<string>): string {
    if |lines| == 0 then "" else lines[0] + "\n" + Lined(lines[1..])
  }

  /** Lines each ended by a newline are the lines joined by newlines, plus one final newline. */
  lemma {:induction false} LinedJoin(lines: seq<string>)
    requires |lines| >= 1
    ensures Lined(lines) == Join(lines, "\n") + "\n"
    decreases |lines|
  {
    if |lines| == 1 {
      assert Lined(lines[1..]) == "";
    } else {
      LinedJoin(lines[1..]);
    }
  }

  /** A cleared and rewritten row says its text and a newline. */
  lemma RowWritten(text: string)
    ensures Written([ClearLine, WriteLine(text)]) == text + "\n"
  {
    assert [ClearLine, WriteLine(text)] == [ClearLine] + [WriteLine(text)];
    WrittenAppend([ClearLine], [WriteLine(text)]);
    WrittenOne(ClearLine);
    WrittenOne(WriteLine(text));
  }

  lemma LinedFrom(lines: seq<string>, j: nat)
    requires j < |lines|
    ensures Lined(lines[j..]) == lines[j] + "\n" + Lined(lines[j + 1..])
  {
    assert lines[j..][1..] == lines[j + 1..];
  }

  lemma {:induction false} FadeRowsWritten(lines: seq<string>, r: Reveal, j: nat)
    requires j <= |lines|
    requires forall k :: j <= k < |lines| ==> RowText(lines[k], k, r) == lines[k]
    ensures Written(FadeRows(lines, r, j)) == Lined(lines[j..])
    decreases |lines| - j
  {
    if j < |lines| {
      FadeRowsWritten(lines, r, j + 1);
      var head := [ClearLine, WriteLine(lines[j])];
      assert FadeRows(lines, r, j) == head + FadeRows(lines, r, j + 1);
      WrittenAppend(head, FadeRows(lines, r, j + 1));
      RowWritten(lines[j]);
      LinedFrom(lines, j);
    } else {
      assert lines[j..] == [];
    }
  }

  predicate RevealsAll(lines: seq<string>, r: Reveal) {
    forall k :: 0 <= k < |lines| ==> RowText(lines[k], k, r) == lines[k]
  }

  lemma FadeFrameWritten(lines: seq<string>, r: Reveal)
    requires RevealsAll(lines, r)
    ensures Written(FadeFrame(lines, r)) == Lined(lines)
  {
    FadeRowsWritten(lines, r, 0);
    WrittenAppend([Restore], FadeRows(lines, r, 0));
    WrittenOne(Restore);
    assert lines[0..] == lines;
  }

  /**
   * Fade reveals progressively: after step i from the top exactly rows
   * 0..i are shown, after step i from the bottom exactly rows n-1-i..n-1.
   */
  lemma FadeProgress(n: nat, line: string, i: nat, j: nat)
    requires i < n && j < n
    ensures RowText(line, j, Shown(Upto(i + 1))) == (if j <= i then line else "")
    ensures RowText(line, j, Shown(LastRows(n, i))) == (if j >= n - 1 - i then line else "")
  {
    if j <= i {
      assert Upto(i + 1)[j] == j;
    }
    if j >= n - 1 - i {
      assert LastRows(n, i)[j - (n - 1 - i)] == j;
    }
  }

  /** The last step of every fade direction shows every row in full. */
  lemma FadeCompletes(lines: seq<string>)
    requires |lines| >= 1
    ensures RevealsAll(lines, Shown(Upto(|lines|)))
    ensures RevealsAll(lines, Shown(LastRows(|lines|, |lines| - 1)))
    ensures RevealsAll(lines, Leading(MaxLength(lines)))
    ensures RevealsAll(lines, Trailing(MaxLength(lines)))
  {
    var n := |lines|;
    var m := MaxLength(lines);
    forall k | 0 <= k < n
      ensures RowText(lines[k], k, Shown(Upto(n))) == lines[k]
      ensures RowText(lines[k], k, Shown(LastRows(n, n - 1))) == lines[k]
      ensures RowText(lines[k], k, Leading(m)) == lines[k]
      ensures RowText(lines[k], k, Trailing(m)) == lines[k]
    {
      ShownEveryRow(n, lines[k], k);
      FullWidthRow(lines[k], k, m);
    }
  }

  lemma ShownEveryRow(n: nat, line: string, j: nat)
    requires j < n
    ensures RowText(line, j, Shown(Upto(n))) == line
    ensures RowText(line, j, Shown(LastRows(n, n - 1))) == line
  {
    assert Upto(n)[j] == j;
    assert LastRows(n, n - 1)[j] == j;
  }

  lemma FullWidthRow(line: string, j: int, c: nat)
    requires |line| <= c
    ensures RowText(line, j, Leading(c)) == line
    ensures RowText(line, j, Trailing(c)) == line
  {
    assert Repeat(' ', 0) == "";
    assert line[0..] == line;
  }

  /**
   * A fade that receives no signal hides the cursor, runs every step of its
   * direction in order and shows the cursor again (the last step of each
   * direction shows every row in full: FadeCompletes).
   */
  lemma FadeShowsAll(content: string, delay: real, direction: string, s: Interrupts)
    requires Quiet(s)
    ensures var lines := Split(content, '\n');
      var o := FadeRun(content, delay, direction, s);
      o.events == FadeOpening(|lines|) + Flat(FadeSteps(lines, delay, direction)) + [Show] && o.thrown.None? &&
      o.events[0] == Hide && o.events[|o.events| - 1] == Show
  {
    var lines := Split(content, '\n');
    var steps := FadeSteps(lines, delay, direction);
    LoopQuiet(steps, 0, s);
    assert steps[0..] == steps;
  }

  /** A left fade shows a prefix of each row; a right fade keeps each row at its full width, its end visible. */
  lemma FadeRowShape(line: string, j: int, c: nat)
    ensures RowText(line, j, Leading(c)) <= line
    ensures |RowText(line, j, Trailing(c))| == |line|
    ensures var k := Min(c, |line|); RowText(line, j, Trailing(c))[|line| - k..] == line[|line| - k..]
  {
  }

  /** Frames without interrupt: every pass writes every frame once, in order. */
  lemma {:induction false} FrameStepsWritten(frames: seq<string>, delay: real, i: nat)
    requires i <= |frames|
    ensures Written(Flat(FrameSteps(frames, delay)[i..])) == Concat(frames[i..])
    decreases |frames| - i
  {
    var steps := FrameSteps(frames, delay);
    if i < |frames| {
      FrameStepsWritten(frames, delay, i + 1);
      assert steps[i..][1..] == steps[i + 1..];
      assert frames[i..][1..] == frames[i + 1..];
      WrittenAppend(steps[i], Flat(steps[i + 1..]));
      var cleared := ClearFrame(frames[i]);
      assert Written(cleared) == "" by { ClearRowsSilent(|Split(frames[i], '\n')|, 0, MoveDown(1)); }
      assert steps[i] == [Restore] + cleared + [Write(frames[i]), Wait(delay)];
      WrittenAppend([Restore] + cleared, [Write(frames[i]), Wait(delay)]);
      WrittenAppend([Restore], cleared);
      WrittenAppend([Write(frames[i])], [Wait(delay)]);
      WrittenOne(Restore);
      WrittenOne(Write(frames[i]));
      WrittenOne(Wait(delay));
    } else {
      assert steps[i..] == [];
    }
  }

  lemma {:induction false} ClearRowsSilent(n: nat, j: nat, between: Event)
    requires !between.Write? && !between.WriteLine?
    ensures Written(ClearRows(n, j, between)) == ""
    decreases n - j
  {
    if j < n {
      ClearRowsSilent(n, j + 1, between);
      var head := [ClearLine] + (if j < n - 1 then [between] else []);
      WrittenAppend(head, ClearRows(n, j + 1, between));
      WrittenOne(ClearLine);
      if j < n - 1 {
        WrittenAppend([ClearLine], [between]);
        WrittenOne(between);
      }
    }
  }

  lemma {:induction false} FlatRepeatWritten(block: seq<Event>, count: nat)
    ensures Written(Flat(seq(count, _ => block))) == Concat(seq(count, _ => Written(block)))
    decreases count
  {
    if count > 0 {
      var all := seq(count, _ => block);
      assert all[1..] == seq(count - 1, _ => block);
      FlatRepeatWritten(block, count - 1);
      WrittenAppend(block, Flat(all[1..]));
      assert seq(count, _ => Written(block))[1..] == seq(count - 1, _ => Written(block));
    }
  }

  /**
   * A frame animation with frames, run without interrupt, writes the
   * concatenated frames once per pass, between a hidden and a shown cursor.
   */
  lemma FramesWritten(frames: seq<string>, delay: real, passes: int, s: Interrupts)
    requires Quiet(s) && |frames| > 0
    ensures var o := FramesRun(frames, delay, passes, s);
      o.events[..2] == [Hide, Save] && o.events[|o.events| - 1] == Show &&
      Written(o.events) == Concat(seq(if passes < 0 then 0 else passes, _ => Concat(frames)))
  {
    var steps := FrameSteps(frames, delay);
    var p := Passes(steps, passes, s);
    var count := if passes < 0 then 0 else passes;
    PassesQuiet(steps, passes, s);
    FlatRepeatWritten(Flat(steps), count);
    FrameStepsWritten(frames, delay, 0);
    assert steps[0..] == steps && frames[0..] == frames;
    WrittenAppend([Hide, Save] + p.0, [Show]);
    WrittenAppend([Hide, Save], p.0);
    WrittenAppend([Hide], [Save]);
    WrittenOne(Hide);
    WrittenOne(Save);
    WrittenOne(Show);
    assert [Hide, Save] == [Hide] + [Save];
    var events := [Hide, Save] + p.0 + [Show];
    assert events[..2] == [Hide, Save];
  }

  /** The loop rule: for any setting but -1, pass k runs exactly while k is below the pass count. */
  lemma PassCountAgrees(loop: int, fuel: nat, k: nat)
    ensures loop != -1 ==> (k < PassCount(loop, fuel) <==> (loop == -1 || k < loop))
    ensures loop == -1 ==> PassCount(loop, fuel) == fuel
  {
  }

  /**
   * Blinking without a pattern, run without interrupt: `loops` rounds each
   * writing the content and a carriage return, then the content once more,
   * with two half-second waits per round.
   */
  lemma {:induction false} BlinkRounds(content: string, loops: int, s: Interrupts)
    requires Quiet(s)
    ensures var rounds := if loops < 0 then 0 else loops;
      Written(BlinkRun(content, None, Success([]), loops, s).events)
        == Concat(seq(rounds, _ => content + "\r")) + content
  {
    var rounds := if loops < 0 then 0 else loops;
    var steps := BlinkSteps(content, loops);
    var block := [Write(content), Wait(500.0), ClearLine, Write("\r"), Wait(500.0)];
    assert steps == seq(rounds, _ => block);
    LoopQuiet(steps, 0, s);
    assert steps[0..] == steps;
    FlatRepeatWritten(block, rounds);
    BlinkRoundWritten(content);
    var l := Loop(steps, 0, s);
    WrittenAppend(l.0, [Write(content)]);
    WrittenOne(Write(content));
  }

  lemma BlinkRoundWritten(content: string)
    ensures Written([Write(content), Wait(500.0), ClearLine, Write("\r"), Wait(500.0)]) == content + "\r"
  {
    var block := [Write(content), Wait(500.0), ClearLine, Write("\r"), Wait(500.0)];
    assert block == [Write(content)] + ([Wait(500.0)] + ([ClearLine] + ([Write("\r")] + [Wait(500.0)])));
    WrittenAppend([Write(content)], [Wait(500.0)] + ([ClearLine] + ([Write("\r")] + [Wait(500.0)])));
    WrittenAppend([Wait(500.0)], [ClearLine] + ([Write("\r")] + [Wait(500.0)]));
    WrittenAppend([ClearLine], [Write("\r")] + [Wait(500.0)]);
    WrittenAppend([Write("\r")], [Wait(500.0)]);
    WrittenOne(Write(content));
    WrittenOne(Wait(500.0));
    WrittenOne(ClearLine);
    WrittenOne(Write("\r"));
  }

  /** Blinking only marks the matches: removing the escape codes gives back the content. */
  lemma {:induction false} BlinkedStrips(text: string, spans: seq<Span>)
    requires Esc !in text
    ensures Ansi.StripsTo(Blinked(text, spans), text)
    decreases |spans|
  {
    if |spans| == 0 {
      Ansi.StripsToPlain(text);
    } else {
      var a := Min(spans[0].gap, |text|);
      var b := Min(spans[0].width, |text| - a);
      assert text == text[..a] + text[a..a + b] + text[a + b..];
      assert Esc !in text[..a] && Esc !in text[a..a + b] && Esc !in text[a + b..] by {
        forall k | 0 <= k < |text| ensures text[k] != Esc { assert text[k] in text; }
      }
      BlinkedStrips(text[a + b..], spans[1..]);
      Ansi.StripsToPlain(text[..a]);
      Ansi.StripsToPlain(text[a..a + b]);
      SgrStrips("5");
      SgrStrips("25");
      Ansi.StripsToAppend(text[..a], text[..a], BlinkOn, "");
      Ansi.StripsToAppend(text[..a] + BlinkOn, text[..a] + "", text[a..a + b], text[a..a + b]);
      Ansi.StripsToAppend(text[..a] + BlinkOn + text[a..a + b], text[..a] + "" + text[a..a + b], BlinkOff, "");
      Ansi.StripsToAppend(text[..a] + BlinkOn + text[a..a + b] + BlinkOff, text[..a] + "" + text[a..a + b] + "",
                          Blinked(text[a + b..], spans[1..]), text[a + b..]);
      assert text[..a] + "" + text[a..a + b] + "" + text[a + b..] == text;
    }
  }

  lemma SgrStrips(params: string)
    requires Ansi.IsParams(params)
    ensures Ansi.StripsTo(Ansi.Sgr(params), "")
  {
    forall rest: string ensures Ansi.StripAnsi(Ansi.Sgr(params) + rest) == "" + Ansi.StripAnsi(rest) {
      Ansi.StripAnsiSgrPrefix(params, rest);
    }
  }

  lemma BlinkPatternStrips(content: string, pattern: string, spans: seq<Span>, loops: int, s: Interrupts)
    requires Esc !in content && pattern != ""
    ensures var o := BlinkRun(content, Some(pattern), Success(spans), loops, s);
      o.thrown.None? && |o.events| == 1 && o.events[0].Write? && Ansi.StripAnsi(o.events[0].text) == content && o.after == s
  {
    BlinkedStrips(content, spans);
    Ansi.StripsToResult(Blinked(content, spans), content);
  }

  /** An invalid blink pattern throws its SyntaxError before anything is written. */
  lemma BlinkBadPattern(content: string, pattern: string, message: string, loops: int, s: Interrupts)
    requires pattern != ""
    ensures var o := BlinkRun(content, Some(pattern), Failure(message), loops, s);
      o.events == [] && o.after == s && o.thrown == Some(message)
  {
  }

  /**
   * The final right-aligned render throws exactly when some row is wider
   * than the terminal; the message names the first such row's negative
   * count. A left slide never throws.
   */
  lemma {:induction false} FinalRowsThrows(lines: seq<string>, left: bool, steps: int, width: int, j: nat)
    requires j <= |lines| && steps <= width && (steps >= 0 || width < 0)
    ensures var f := FinalRows(lines, left, steps, width, j);
      (f.1.Some? <==> !left && exists k :: j <= k < |lines| && |lines[k]| > width) &&
      (f.1.Some? ==> exists k :: j <= k < |lines| && |lines[k]| > width &&
                      f.1.value == RangeErrorPrefix + IntToString(Min(steps, width - |lines[k]|)))
    decreases |lines| - j
  {
    if j < |lines| {
      FinalRowsThrows(lines, left, steps, width, j + 1);
      var count := Min(steps, width - |lines[j]|);
      assert count < 0 <==> |lines[j]| > width;
      if !left && count < 0 {
        assert j <= j < |lines| && |lines[j]| > width;
      }
    }
  }

  /** A left slide ends with every row written in place, one per line. */
  lemma {:induction false} FinalRowsLeft(lines: seq<string>, steps: int, width: int, j: nat)
    requires j <= |lines|
    ensures Written(FinalRows(lines, true, steps, width, j).0) == Lined(lines[j..])
    decreases |lines| - j
  {
    if j < |lines| {
      FinalRowsLeft(lines, steps, width, j + 1);
      var rest := FinalRows(lines, true, steps, width, j + 1);
      var head := [ClearLine, WriteLine(lines[j])];
      assert FinalRows(lines, true, steps, width, j).0 == head + rest.0;
      WrittenAppend(head, rest.0);
      RowWritten(lines[j]);
      LinedFrom(lines, j);
    } else {
      assert lines[j..] == [];
    }
  }

  /**
   * A horizontal slide that receives no signal hides the cursor, runs every
   * frame from step 0 to `steps` in order, then renders the rows at their
   * target; it throws exactly when sliding right with a row wider than the
   * terminal, and otherwise ends by showing the cursor. Sliding left, the
   * final render writes the content in place.
   */
  lemma SlideHorizontalShown(lines: seq<string>, left: bool, width: int, s: Interrupts)
    requires |lines| >= 1 && Quiet(s)
    ensures var steps := Min(MaxLength(lines) + 10, width);
      var f := FinalRows(lines, left, steps, width, 0);
      var o := SlideHorizontalRun(lines, left, width, s);
      o.events == SlideOpening(|lines|) + Flat(SlideSteps(lines, left, steps)) + SlideClosing(f) &&
      o.events[0] == Hide &&
      (o.thrown.Some? <==> !left && exists k :: 0 <= k < |lines| && |lines[k]| > width) &&
      (o.thrown.None? ==> o.events[|o.events| - 1] == Show) &&
      (left ==> Written(f.0) == Join(lines, "\n") + "\n")
  {
    var steps := Min(MaxLength(lines) + 10, width);
    var slides := SlideSteps(lines, left, steps);
    LoopQuiet(slides, 0, s);
    assert slides[0..] == slides;
    FinalRowsThrows(lines, left, steps, width, 0);
    if left {
      FinalRowsLeft(lines, steps, width, 0);
      assert lines[0..] == lines;
      LinedJoin(lines);
    }
  }

  /**
   * Rows are separated by looking each row up with indexOf: a row whose
   * text first occurs before the last row gets a newline after it, so when
   * the last row repeats an earlier one it gets a newline too, and a frame
   * ends one line lower than the rows it drew.
   */
  lemma SlideRowNewline(lines: seq<string>, pad: int)
    requires |lines| >= 1
    ensures var last := |lines| - 1;
      (lines[last] in lines[..last]) <==> IndexOf(lines, lines[last]) < last
    ensures forall j :: 0 <= j < |lines| - 1 ==> IndexOf(lines, lines[j]) < |lines| - 1
  {
    var last := |lines| - 1;
    if lines[last] in lines[..last] {
      var k :| 0 <= k < last && lines[..last][k] == lines[last];
      assert lines[k] == lines[last];
    }
  }

  /** A vertical slide, run without interrupt, writes its rows in order, or reversed from the bottom. */
  lemma {:induction false} VerticalWritten(ordered: seq<string>, i: nat)
    requires i <= |ordered|
    ensures Written(Flat(VerticalSteps(ordered)[i..])) == Lined(ordered[i..])
    decreases |ordered| - i
  {
    var steps := VerticalSteps(ordered);
    if i < |ordered| {
      VerticalWritten(ordered, i + 1);
      assert steps[i..][1..] == steps[i + 1..];
      assert Flat(steps[i..]) == steps[i] + Flat(steps[i + 1..]);
      WrittenAppend(steps[i], Flat(steps[i + 1..]));
      assert steps[i] == [WriteLine(ordered[i])] + [Wait(20.0)];
      WrittenAppend([WriteLine(ordered[i])], [Wait(20.0)]);
      WrittenOne(WriteLine(ordered[i]));
      WrittenOne(Wait(20.0));
      assert ordered[i..][1..] == ordered[i + 1..];
    } else {
      assert steps[i..] == [];
      assert ordered[i..] == [];
    }
  }

  lemma SlideVerticalOrder(lines: seq<string>, fromTop: bool, s: Interrupts)
    requires Quiet(s)
    ensures Written(SlideVerticalRun(lines, fromTop, s).events) == Lined(if fromTop then lines else Reversed(lines))
  {
    var ordered := if fromTop then lines else Reversed(lines);
    LoopQuiet(VerticalSteps(ordered), 0, s);
    VerticalWritten(ordered, 0);
    assert VerticalSteps(ordered)[0..] == VerticalSteps(ordered);
    assert ordered[0..] == ordered;
  }
}
