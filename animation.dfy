/**
 * The animation engine: it dispatches on the animation type and drives the
 * renderer call by call, awaiting timer waits between steps, and stops a
 * loop as soon as an interrupt has been handled.
 *
 * The engine records every renderer call and wait it issues in `trace`;
 * `Synced` ties that record to what the renderer actually wrote. Each style
 * method is proved to issue exactly the plan of AnimationTrace for its
 * inputs and the interrupt oracle `pending`.
 */
module Animation {
  import opened Wrappers
  import opened Text
  import opened Render
  import opened Timing
  import opened AnimationTrace
  import Ansi

  datatype Effects = Effects(direction: Option<string>, pattern: Option<string>)

  /** Engine options; None is an absent property. */
  datatype AnimationOptions = AnimationOptions(
    timing: Option<TimingOptions>,
    effects: Option<Effects>,
    preview: Option<bool>)

  /** What animate is given: one text, or (for frames) a list of frames. */
  datatype Content = Whole(text: string) | FrameList(frames: seq<string>)

  /** The static display: the text, or the frames joined by newlines. */
  function Joined(c: Content): string {
    match c
    case Whole(t) => t
    case FrameList(fs) => Join(fs, "\n")
  }

  /** Iterating a text gives its characters: a text animated as frames is one frame per character. */
  function FramesOf(c: Content): seq<string> {
    match c
    case FrameList(fs) => fs
    case Whole(t) => seq(|t|, i requires 0 <= i < |t| => [t[i]])
  }

  /** Everything animate's behaviour depends on besides its arguments and the interrupt oracle. */
  datatype Setting = Setting(
    supports: bool,
    preview: bool,
    charDelay: real,
    lineDelay: real,
    frameDelay: real,
    passes: nat,
    blinkLoops: int,
    direction: Option<string>,
    pattern: Option<string>,
    matches: (string, string) -> Result<seq<Span>>,
    width: int)

  /** An array is only ever passed for frames (or reaches the static display). */
  predicate Accepts(content: Content, kind: string) {
    content.FrameList? ==> kind != "typing" && kind != "fade" && kind != "blink" && kind != "slide"
  }

  function BlinkSpans(st: Setting, text: string): Result<seq<Span>> {
    if st.pattern.Some? then st.matches(st.pattern.value, text) else Success([])
  }

  /**
   * animate: the static display when animation is unsupported and this is
   * no preview; otherwise the interrupted flag is cleared and the style runs;
   * an unknown type is the static display.
   */
  function Animated(content: Content, kind: string, st: Setting, s: Interrupts): Outcome
    requires Accepts(content, kind)
  {
    if !st.supports && !st.preview then Outcome([Write(Joined(content))], s, None)
    else
      var s' := s.(interrupted := false);
      if kind == "typing" then TypingRun(content.text, MaxReal(10.0, st.charDelay), s')
      else if kind == "fade" then FadeRun(content.text, MaxReal(30.0, st.lineDelay), OrString(st.direction, "top"), s')
      else if kind == "frames" then FramesRun(FramesOf(content), st.frameDelay, st.passes, s')
      else if kind == "blink" then BlinkRun(content.text, st.pattern, BlinkSpans(st, content.text), st.blinkLoops, s')
      else if kind == "slide" then SlideRun(content.text, OrString(st.direction, "left"), st.width, s')
      else Outcome([Write(Joined(content))], s', None)
  }

  /** Without animation support and preview, the output is the content itself and nothing can interrupt. */
  lemma StaticDisplay(content: Content, kind: string, st: Setting, s: Interrupts)
    requires Accepts(content, kind) && !st.supports && !st.preview
    ensures var o := Animated(content, kind, st, s);
      o.after == s && o.thrown.None? &&
      Concat(Played(false, o.events)) == Joined(content) && Concat(Played(true, o.events)) == Joined(content)
  {
    var o := Animated(content, kind, st, s);
    PlayedNonInteractive(o.events);
    WrittenOne(Write(Joined(content)));
    assert Played(true, o.events) == [Joined(content)] + Played(true, []);
    assert Concat([Joined(content)]) == Joined(content) + Concat([]);
  }

  /**
   * Once an interrupt has been handled its handler is gone and animate does
   * not register it again: a later typing animation on the same engine that
   * receives no signal types the whole content, and the handler stays
   * removed (so a signal would now meet no handler at all).
   */
  lemma TypingAfterInterrupt(text: string, st: Setting, s: Interrupts)
    requires (st.supports || st.preview) && !s.listening
    requires forall k :: 0 <= k < |s.pending| ==> !s.pending[k]
    ensures var o := Animated(Whole(text), "typing", st, s);
      Written(o.events) == text + (if EndsWith(text, "\n") then "" else "\n") && !o.after.listening
  {
    var s' := s.(interrupted := false);
    TypingTypesAll(text, MaxReal(10.0, st.charDelay), s');
    LoopQuiet(TypingSteps(text, MaxReal(10.0, st.charDelay)), 0, s');
  }

  /** Frames given one text animate its characters: a quiet pass writes the text once. */
  lemma TextAsFrames(text: string, st: Setting, s: Interrupts)
    requires (st.supports || st.preview) && Quiet(s.(interrupted := false)) && |text| > 0
    ensures Written(Animated(Whole(text), "frames", st, s).events) == Concat(seq(st.passes, _ => text))
  {
    var frames := FramesOf(Whole(text));
    FramesWritten(frames, st.frameDelay, st.passes, s.(interrupted := false));
    assert Concat(frames) == text by { ConcatChars(text); }
  }

  lemma {:induction false} ConcatChars(t: string)
    ensures Concat(seq(|t|, i requires 0 <= i < |t| => [t[i]])) == t
    decreases |t|
  {
    var parts := seq(|t|, i requires 0 <= i < |t| => [t[i]]);
    if |t| > 0 {
      ConcatChars(t[1..]);
      assert parts[1..] == seq(|t[1..]|, i requires 0 <= i < |t[1..]| => [t[1..][i]]);
      assert t == [t[0]] + t[1..];
    }
  }

  lemma Singleton(e: Event)
    requires !e.Wait?
    ensures Waitless([e])
  {
  }

  // ------------------------------------------------ what one step carries out

  lemma TypingStepExec(c: char, delay: real, s: Interrupts)
    ensures Exec(TypingStep(c, delay), s)
      == ([Write([c])] + (if c != '\n' then Waited(s, delay).0 else []), if c != '\n' then Waited(s, delay).1 else s)
  {
    Singleton(Write([c]));
    if c != '\n' {
      ExecThenWait([Write([c])], delay, s);
    } else {
      assert TypingStep(c, delay) == [Write([c])];
      ExecWaitless([Write([c])], s);
    }
  }

  lemma {:induction false} FadeRowsWaitless(lines: seq<string>, r: Reveal, j: nat)
    ensures Waitless(FadeRows(lines, r, j))
    decreases |lines| - j
  {
    if j < |lines| {
      FadeRowsWaitless(lines, r, j + 1);
    }
  }

  lemma FadeStepExec(lines: seq<string>, r: Reveal, ms: real, s: Interrupts)
    ensures Exec(FadeStep(lines, r, ms), s) == (FadeFrame(lines, r) + Waited(s, ms).0, Waited(s, ms).1)
  {
    FadeRowsWaitless(lines, r, 0);
    assert Waitless(FadeFrame(lines, r));
    ExecThenWait(FadeFrame(lines, r), ms, s);
  }

  lemma {:induction false} ClearRowsWaitless(n: nat, j: nat, between: Event)
    requires !between.Wait?
    ensures Waitless(ClearRows(n, j, between))
    decreases n - j
  {
    if j < n {
      ClearRowsWaitless(n, j + 1, between);
    }
  }

  lemma FrameStepExec(frame: string, ms: real, s: Interrupts)
    ensures var body := [Restore] + AnimationTrace.ClearFrame(frame) + [Write(frame)];
      Exec(FrameStep(frame, ms), s) == (body + Waited(s, ms).0, Waited(s, ms).1)
  {
    var body := [Restore] + AnimationTrace.ClearFrame(frame) + [Write(frame)];
    ClearRowsWaitless(|Split(frame, '\n')|, 0, MoveDown(1));
    assert Waitless(body);
    assert FrameStep(frame, ms) == body + [Wait(ms)];
    ExecThenWait(body, ms, s);
  }

  lemma BlinkRoundExec(content: string, s: Interrupts)
    ensures var w1 := Waited(s, 500.0); var w2 := Waited(w1.1, 500.0);
      Exec(BlinkRound(content), s) == ([Write(content)] + w1.0 + [ClearLine, Write("\r")] + w2.0, w2.1)
  {
    var a := [Write(content), Wait(500.0)];
    var b := [ClearLine, Write("\r"), Wait(500.0)];
    assert BlinkRound(content) == a + b;
    assert a == [Write(content)] + [Wait(500.0)];
    assert b == [ClearLine, Write("\r")] + [Wait(500.0)];
    ExecAppend(a, b, s);
    ExecThenWait([Write(content)], 500.0, s);
    ExecThenWait([ClearLine, Write("\r")], 500.0, Waited(s, 500.0).1);
    var w1 := Waited(s, 500.0);
    var w2 := Waited(w1.1, 500.0);
    Regroup3([Write(content)] + w1.0, [ClearLine, Write("\r")], w2.0);
  }

  lemma {:induction false} SlideRowsWaitless(lines: seq<string>, pad: int, j: nat)
    ensures Waitless(SlideRows(lines, pad, j))
    decreases |lines| - j
  {
    if j < |lines| {
      SlideRowsWaitless(lines, pad, j + 1);
    }
  }

  lemma SlideStepExec(lines: seq<string>, pad: int, s: Interrupts)
    ensures var w := Waited(s, 20.0);
      Exec(SlideStep(lines, pad), s) == ([Save] + SlideRows(lines, pad, 0) + w.0 + [Restore], w.1)
  {
    var rows := SlideRows(lines, pad, 0);
    var w := Waited(s, 20.0);
    SlideRowsWaitless(lines, pad, 0);
    assert SlideStep(lines, pad) == ([Save] + rows + [Wait(20.0)]) + [Restore];
    assert Waitless([Save] + rows);
    ExecThenWait([Save] + rows, 20.0, s);
    ExecAppend([Save] + rows + [Wait(20.0)], [Restore], s);
    ExecOne(Restore, w.1);
  }

  lemma VerticalStepExec(line: string, s: Interrupts)
    ensures Exec(VerticalStep(line), s) == ([WriteLine(line)] + Waited(s, 20.0).0, Waited(s, 20.0).1)
  {
    Singleton(WriteLine(line));
    ExecThenWait([WriteLine(line)], 20.0, s);
  }

  class AnimationEngine {
    const options: AnimationOptions
    const renderer: Renderer
    const timing: TimingController
    /** The CI and TERM environment variables. */
    const ci: Option<string>
    const term: Option<string>
    /**
     * new RegExp(pattern, 'g') and its matches in a text: the match spans, or
     * the message of the SyntaxError an invalid pattern throws.
     */
    const matches: (string, string) -> Result<seq<Span>>
    /** The interrupt oracle: whether a signal arrives during each coming wait. */
    var pending: seq<bool>
    /** Whether the interrupt handler is registered. */
    var listening: bool
    var interrupted: bool
    var trace: seq<Event>

    /** A fresh renderer and timing controller; the interrupt handler is registered. */
    constructor(options: AnimationOptions, isTTY: Option<bool>, columns: Option<int>, rows: Option<int>,
                ci: Option<string>, term: Option<string>, matches: (string, string) -> Result<seq<Span>>, pending: seq<bool>)
      ensures this.options == options && this.ci == ci && this.term == term && this.matches == matches
      ensures renderer.isInteractive == (isTTY == Some(true)) && renderer.columns == columns && renderer.rows == rows
      ensures timing.options == Defaulted(if options.timing.Some? then options.timing.value else NoOptions)
      ensures Signals() == Interrupts(pending, true, false) && trace == []
      ensures Synced()
    {
      this.options := options;
      this.ci := ci;
      this.term := term;
      this.matches := matches;
      renderer := new Renderer(isTTY, columns, rows);
      timing := new TimingController(if options.timing.Some? then options.timing.value else NoOptions);
      this.pending := pending;
      listening := true;
      interrupted := false;
      trace := [];
    }

    function Signals(): Interrupts
      reads this
    {
      Interrupts(pending, listening, interrupted)
    }

    /** The renderer has written exactly what the recorded calls write. */
    predicate Synced()
      reads this, renderer
    {
      renderer.output == Played(renderer.isInteractive, trace)
    }

    function Direction(): Option<string> {
      if options.effects.Some? then options.effects.value.direction else None
    }

    function Pattern(): Option<string> {
      if options.effects.Some? then options.effects.value.pattern else None
    }

    /** Blink reads the loop count from the options as given: `loop || 3`. */
    function BlinkLoops(): int {
      if options.timing.Some? then OrInt(options.timing.value.loop, 3) else 3
    }

    function Configured(fuel: nat): Setting {
      Setting(
        renderer.SupportsAnimation(ci, term),
        options.preview == Some(true),
        timing.CharDelay(),
        timing.LineDelay(),
        timing.FrameDelay(),
        PassCount(OrInt(timing.options.loop, 1), fuel),
        BlinkLoops(),
        Direction(),
        Pattern(),
        matches,
        renderer.TerminalSize().0)
    }

    /** One renderer call, recorded. */
    method Emit(e: Event)
      requires Synced()
      modifies this, renderer
      ensures Synced()
      ensures trace == old(trace) + [e] && Signals() == old(Signals())
    {
      renderer.Perform(e);
      PlayedAppend(renderer.isInteractive, trace, [e]);
      trace := trace + [e];
    }

    /** Two renderer calls in a row, recorded. */
    method EmitPair(a: Event, b: Event)
      requires Synced()
      modifies this, renderer
      ensures Synced()
      ensures trace == old(trace) + [a, b] && Signals() == old(Signals())
    {
      Emit(a);
      Emit(b);
    }

    /** Await a timer; a signal arriving meanwhile runs the handler. */
    method AwaitDelay(ms: real)
      requires Synced()
      modifies this, renderer
      ensures Synced()
      ensures trace == old(trace) + Waited(old(Signals()), ms).0 && Signals() == Waited(old(Signals()), ms).1
    {
      Emit(Event.Wait(ms));
      var fired := |pending| > 0 && pending[0];
      if |pending| > 0 {
        pending := pending[1..];
      }
      if fired && listening {
        interrupted := true;
        Cleanup();
      }
    }

    /** Show the cursor and remove the interrupt handler. */
    method Cleanup()
      requires Synced()
      modifies this, renderer
      ensures Synced()
      ensures trace == old(trace) + [Show] && Signals() == old(Signals()).(listening := false)
    {
      Emit(Show);
      listening := false;
    }

    /** One character of typing, and the wait after it unless it is a newline. */
    method TypeChar(c: char, delay: real)
      requires Synced()
      modifies this, renderer
      ensures Synced()
      ensures var a := Exec(TypingStep(c, delay), old(Signals())); trace == old(trace) + a.0 && Signals() == a.1
    {
      TypingStepExec(c, delay, Signals());
      Emit(Write([c]));
      if c != '\n' {
        AwaitDelay(delay);
      }
    }

    /** The characters of typing, stopping once interrupted. */
    method TypeContent(content: string, delay: real)
      requires Synced()
      modifies this, renderer
      ensures Synced()
      ensures var l := Loop(TypingSteps(content, delay), 0, old(Signals())); trace == old(trace) + l.0 && Signals() == l.1
    {
      ghost var steps := TypingSteps(content, delay);
      ghost var l := Loop(steps, 0, Signals());
      ghost var total := trace + l.0;
      var i := 0;
      while i < |content| && !interrupted
        invariant 0 <= i <= |content|
        invariant Synced()
        invariant trace + Loop(steps, i, Signals()).0 == total && Loop(steps, i, Signals()).1 == l.1
      {
        Advanced(steps, i, Signals(), trace, total, l.1);
        TypeChar(content[i], delay);
        i := i + 1;
      }
      LoopDone(steps, i, Signals());
    }

    method AnimateTyping(content: string)
      requires Synced()
      modifies this, renderer
      ensures Synced()
      ensures var o := TypingRun(content, MaxReal(10.0, timing.CharDelay()), old(Signals()));
        trace == old(trace) + o.events && Signals() == o.after
    {
      Emit(Hide);
      var delay := MaxReal(10.0, timing.CharDelay());
      TypeContent(content, delay);
      ghost var l := Loop(TypingSteps(content, delay), 0, old(Signals()));
      ghost var typed := trace;
      if !EndsWith(content, "\n") {
        Emit(Write("\n"));
      }
      ghost var newline := if EndsWith(content, "\n") then [] else [Write("\n")];
      assert trace == typed + newline;
      Emit(Show);
      Regroup(old(trace), [Hide], l.0, newline);
    }

    /** n calls of the same kind in a row. */
    method EmitRepeated(e: Event, n: nat)
      requires Synced()
      modifies this, renderer
      ensures Synced()
      ensures trace == old(trace) + Repeated(e, n) && Signals() == old(Signals())
    {
      for j := 0 to n
        invariant Synced() && Signals() == old(Signals())
        invariant trace == old(trace) + Repeated(e, j)
      {
        Emit(e);
        assert Repeated(e, j + 1) == Repeated(e, j) + [e];
      }
    }

    /** The opening of fade: hide the cursor, n empty lines, n moves up, save the position. */
    method OpenFade(n: nat)
      requires Synced()
      modifies this, renderer
      ensures Synced()
      ensures trace == old(trace) + FadeOpening(n) && Signals() == old(Signals())
    {
      Emit(Hide);
      EmitRepeated(WriteLine(""), n);
      EmitRepeated(MoveUp(1), n);
      Emit(Save);
    }

    /** renderFadeFrame, and the inline frames of the character fades: restore, then every row rewritten. */
    method RenderFadeFrame(lines: seq<string>, r: Reveal)
      requires Synced()
      modifies this, renderer
      ensures Synced()
      ensures trace == old(trace) + FadeFrame(lines, r) && Signals() == old(Signals())
    {
      Emit(Restore);
      for i := 0 to |lines|
        invariant Synced() && Signals() == old(Signals())
        invariant trace + FadeRows(lines, r, i) == old(trace) + FadeFrame(lines, r)
      {
        ghost var ti := trace;
        EmitPair(ClearLine, WriteLine(RowText(lines[i], i, r)));
        Regroup3(ti, [ClearLine, WriteLine(RowText(lines[i], i, r))], FadeRows(lines, r, i + 1));
      }
    }

    /** One fade frame and the wait after it. */
    method FadeFrameStep(lines: seq<string>, r: Reveal, delay: real)
      requires Synced()
      modifies this, renderer
      ensures Synced()
      ensures var a := Exec(FadeStep(lines, r, delay), old(Signals())); trace == old(trace) + a.0 && Signals() == a.1
    {
      FadeStepExec(lines, r, delay, Signals());
      RenderFadeFrame(lines, r);
      AwaitDelay(delay);
    }

    /** The top-down fade: row i joins the shown rows at step i. */
    method FadeTop(lines: seq<string>, delay: real)
      requires Synced()
      modifies this, renderer
      ensures Synced()
      ensures var l := Loop(TopSteps(lines, delay), 0, old(Signals())); trace == old(trace) + l.0 && Signals() == l.1
    {
      ghost var steps := TopSteps(lines, delay);
      ghost var l := Loop(steps, 0, Signals());
      ghost var total := trace + l.0;
      var linesToShow: seq<int> := [];
      var i := 0;
      while i < |lines| && !interrupted
        invariant 0 <= i <= |lines| && linesToShow == Upto(i)
        invariant Synced()
        invariant trace + Loop(steps, i, Signals()).0 == total && Loop(steps, i, Signals()).1 == l.1
      {
        Advanced(steps, i, Signals(), trace, total, l.1);
        linesToShow := linesToShow + [i];
        assert linesToShow == Upto(i + 1);
        FadeFrameStep(lines, Shown(linesToShow), delay);
        i := i + 1;
      }
      LoopDone(steps, i, Signals());
    }

    /** The bottom-up fade: rows join the shown rows from the last one upwards. */
    method FadeBottom(lines: seq<string>, delay: real)
      requires Synced()
      modifies this, renderer
      ensures Synced()
      ensures var l := Loop(BottomSteps(lines, delay), 0, old(Signals())); trace == old(trace) + l.0 && Signals() == l.1
    {
      ghost var n := |lines|;
      ghost var steps := BottomSteps(lines, delay);
      ghost var l := Loop(steps, 0, Signals());
      ghost var total := trace + l.0;
      var linesToShow: seq<int> := [];
      var i := |lines| - 1;
      while i >= 0 && !interrupted
        invariant -1 <= i < |lines|
        invariant linesToShow == if i == n - 1 then [] else LastRows(n, n - 2 - i)
        invariant Synced()
        invariant trace + Loop(steps, n - 1 - i, Signals()).0 == total && Loop(steps, n - 1 - i, Signals()).1 == l.1
      {
        Advanced(steps, n - 1 - i, Signals(), trace, total, l.1);
        RowPrepended(n, i);
        linesToShow := [i] + linesToShow;
        FadeFrameStep(lines, Shown(linesToShow), delay);
        i := i - 1;
      }
      LoopDone(steps, n - 1 - i, Signals());
    }

    /** The character fades: c characters of every row at step c - 1, from the left or the right. */
    method FadeChars(lines: seq<string>, delay: real, leading: bool)
      requires Synced() && |lines| >= 1
      modifies this, renderer
      ensures Synced()
      ensures var l := Loop(CharSteps(lines, delay, leading), 0, old(Signals())); trace == old(trace) + l.0 && Signals() == l.1
    {
      var maxLength := MaxLength(lines);
      ghost var steps := CharSteps(lines, delay, leading);
      ghost var l := Loop(steps, 0, Signals());
      ghost var total := trace + l.0;
      var charIndex := 1;
      ghost var done: nat := 0;
      while charIndex <= maxLength && !interrupted
        invariant 1 <= charIndex <= maxLength + 1 && done == charIndex - 1
        invariant Synced()
        invariant trace + Loop(steps, done, Signals()).0 == total && Loop(steps, done, Signals()).1 == l.1
      {
        Advanced(steps, done, Signals(), trace, total, l.1);
        CharStepAt(lines, delay, leading, done);
        FadeFrameStep(lines, CharReveal(leading, charIndex), delay);
        charIndex := charIndex + 1;
        done := done + 1;
      }
      LoopDone(steps, done, Signals());
    }

    method AnimateFade(content: string)
      requires Synced()
      modifies this, renderer
      ensures Synced()
      ensures var o := FadeRun(content, MaxReal(30.0, timing.LineDelay()), OrString(Direction(), "top"), old(Signals()));
        trace == old(trace) + o.events && Signals() == o.after
    {
      var lines := Split(content, '\n');
      var delay := MaxReal(30.0, timing.LineDelay());
      var direction := OrString(Direction(), "top");
      ghost var steps := FadeSteps(lines, delay, direction);
      OpenFade(|lines|);
      ghost var begun := trace;
      if direction == "top" || direction == "up" {
        FadeTop(lines, delay);
      } else if direction == "bottom" || direction == "down" {
        FadeBottom(lines, delay);
      } else if direction == "left" || direction == "right" {
        FadeChars(lines, delay / 2.0, direction == "left");
      } else {
        LoopDone(steps, 0, Signals());
      }
      ghost var l := Loop(steps, 0, old(Signals()));
      assert trace == begun + l.0 && Signals() == l.1;
      Emit(Show);
      Regroup(old(trace), FadeOpening(|lines|), l.0, [Show]);
    }

    /** clearFrame: clear each row of the frame, moving down between rows. */
    method ClearFrame(frame: string)
      requires Synced()
      modifies this, renderer
      ensures Synced()
      ensures trace == old(trace) + AnimationTrace.ClearFrame(frame) && Signals() == old(Signals())
    {
      var lines := Split(frame, '\n');
      for i := 0 to |lines|
        invariant Synced() && Signals() == old(Signals())
        invariant trace + ClearRows(|lines|, i, MoveDown(1)) == old(trace) + ClearRows(|lines|, 0, MoveDown(1))
      {
        ghost var ti := trace;
        Emit(ClearLine);
        if i < |lines| - 1 {
          Emit(MoveDown(1));
        }
        Regroup(ti, [ClearLine], if i < |lines| - 1 then [MoveDown(1)] else [], ClearRows(|lines|, i + 1, MoveDown(1)));
      }
    }

    /** One frame: restore, clear, write, then the frame delay. */
    method ShowFrame(frame: string, delay: real)
      requires Synced()
      modifies this, renderer
      ensures Synced()
      ensures var a := Exec(FrameStep(frame, delay), old(Signals())); trace == old(trace) + a.0 && Signals() == a.1
    {
      FrameStepExec(frame, delay, Signals());
      Emit(Restore);
      ClearFrame(frame);
      Emit(Write(frame));
      AwaitDelay(delay);
    }

    /** One pass over the frames, stopping before the next frame once interrupted. */
    method FramePass(frames: seq<string>, delay: real)
      requires Synced()
      modifies this, renderer
      ensures Synced()
      ensures var l := Loop(FrameSteps(frames, delay), 0, old(Signals())); trace == old(trace) + l.0 && Signals() == l.1
    {
      ghost var steps := FrameSteps(frames, delay);
      ghost var l := Loop(steps, 0, Signals());
      ghost var total := trace + l.0;
      var j := 0;
      while j < |frames|
        invariant 0 <= j <= |frames|
        invariant Synced()
        invariant trace + Loop(steps, j, Signals()).0 == total && Loop(steps, j, Signals()).1 == l.1
      {
        if interrupted {
          break;
        }
        Advanced(steps, j, Signals(), trace, total, l.1);
        ShowFrame(frames[j], delay);
        j := j + 1;
      }
      LoopDone(steps, j, Signals());
    }

    /**
     * The passes of frames: while the loop rule allows and no interrupt has
     * been handled. An endless loop (-1) stops after `fuel` passes.
     */
    method FramePasses(frames: seq<string>, delay: real, fuel: nat)
      requires Synced()
      modifies this, renderer
      ensures Synced()
      ensures var p := Passes(FrameSteps(frames, delay), PassCount(OrInt(timing.options.loop, 1), fuel), old(Signals()));
        trace == old(trace) + p.0 && Signals() == p.1
    {
      var loop := OrInt(timing.options.loop, 1);
      var endless := loop == -1;
      ghost var count := PassCount(loop, fuel);
      ghost var steps := FrameSteps(frames, delay);
      ghost var p := Passes(steps, count, Signals());
      ghost var total := trace + p.0;
      var currentLoop := 0;
      while timing.ShouldContinueLoop(currentLoop) && !interrupted && (!endless || currentLoop < fuel)
        invariant 0 <= currentLoop
        invariant Synced()
        invariant trace + Passes(steps, count - currentLoop, Signals()).0 == total
        invariant Passes(steps, count - currentLoop, Signals()).1 == p.1
        decreases count - currentLoop
      {
        PassCountAgrees(loop, fuel, currentLoop);
        assert currentLoop < count;
        PassAdvanced(steps, count - currentLoop, Signals(), trace, total, p.1);
        FramePass(frames, delay);
        currentLoop := currentLoop + 1;
      }
      PassCountAgrees(loop, fuel, currentLoop);
      assert count - currentLoop <= 0 || interrupted;
      PassesDone(steps, count - currentLoop, Signals());
    }

    /** frames: nothing for no frames; otherwise hide and save, the passes, then show. */
    method AnimateFrames(frames: seq<string>, fuel: nat)
      requires Synced()
      modifies this, renderer
      ensures Synced()
      ensures var o := FramesRun(frames, timing.FrameDelay(), PassCount(OrInt(timing.options.loop, 1), fuel), old(Signals()));
        trace == old(trace) + o.events && Signals() == o.after
    {
      if |frames| == 0 {
        return;
      }
      var frameDelay := timing.FrameDelay();
      ghost var p := Passes(FrameSteps(frames, frameDelay), PassCount(OrInt(timing.options.loop, 1), fuel), Signals());
      ghost var o := FramesRun(frames, frameDelay, PassCount(OrInt(timing.options.loop, 1), fuel), Signals());
      assert o.events == [Hide, Save] + p.0 + [Show] && o.after == p.1;
      EmitPair(Hide, Save);
      FramePasses(frames, frameDelay, fuel);
      Emit(Show);
      Regroup(old(trace), [Hide, Save], p.0, [Show]);
    }

    /** One blink round: show, wait, clear, wait. */
    method BlinkOnce(content: string)
      requires Synced()
      modifies this, renderer
      ensures Synced()
      ensures var a := Exec(BlinkRound(content), old(Signals())); trace == old(trace) + a.0 && Signals() == a.1
    {
      ghost var t0 := trace;
      ghost var w1 := Waited(Signals(), 500.0);
      ghost var w2 := Waited(w1.1, 500.0);
      BlinkRoundExec(content, Signals());
      Emit(Write(content));
      AwaitDelay(500.0);
      ghost var t1 := trace;
      assert t1 == t0 + [Write(content)] + w1.0 && Signals() == w1.1;
      EmitPair(ClearLine, Write("\r"));
      AwaitDelay(500.0);
      assert trace == t1 + [ClearLine, Write("\r")] + w2.0;
      Regroup5(t0, [Write(content)], w1.0, [ClearLine, Write("\r")], w2.0);
    }

    /** The blink rounds: while below the loop count and uninterrupted. */
    method BlinkRounds(content: string, loops: int)
      requires Synced()
      modifies this, renderer
      ensures Synced()
      ensures var l := Loop(BlinkSteps(content, loops), 0, old(Signals())); trace == old(trace) + l.0 && Signals() == l.1
    {
      ghost var steps := BlinkSteps(content, loops);
      ghost var l := Loop(steps, 0, Signals());
      ghost var total := trace + l.0;
      var currentLoop := 0;
      while currentLoop < loops && !interrupted
        invariant 0 <= currentLoop <= |steps|
        invariant Synced()
        invariant trace + Loop(steps, currentLoop, Signals()).0 == total && Loop(steps, currentLoop, Signals()).1 == l.1
      {
        Advanced(steps, currentLoop, Signals(), trace, total, l.1);
        BlinkOnce(content);
        currentLoop := currentLoop + 1;
      }
      LoopDone(steps, currentLoop, Signals());
    }

    /**
     * blink: with a pattern, one write with the matches blinking (or the
     * SyntaxError of an invalid pattern, thrown before anything is written);
     * without, the rounds, then the content once more.
     */
    method AnimateBlink(content: string) returns (thrown: Option<string>)
      requires Synced()
      modifies this, renderer
      ensures Synced()
      ensures var spans := if Pattern().Some? then matches(Pattern().value, content) else Success([]);
        var o := BlinkRun(content, Pattern(), spans, BlinkLoops(), old(Signals()));
        trace == old(trace) + o.events && Signals() == o.after && thrown == o.thrown
    {
      thrown := None;
      var pattern := Pattern();
      if Ansi.Truthy(pattern) {
        var regex := matches(pattern.value, content);
        if regex.Failure? {
          return Some(regex.error);
        }
        Emit(Write(Blinked(content, regex.value)));
      } else {
        BlinkRounds(content, BlinkLoops());
        ghost var blinked := trace;
        Emit(Write(content));
        assert trace == blinked + [Write(content)];
      }
    }

    /** The rows of one horizontal slide frame, each after `pad` spaces. */
    method SlideFrameRows(lines: seq<string>, pad: int)
      requires Synced()
      modifies this, renderer
      ensures Synced()
      ensures trace == old(trace) + SlideRows(lines, pad, 0) && Signals() == old(Signals())
    {
      for j := 0 to |lines|
        invariant Synced() && Signals() == old(Signals())
        invariant trace + SlideRows(lines, pad, j) == old(trace) + SlideRows(lines, pad, 0)
      {
        ghost var tj := trace;
        ghost var row := [ClearLine, Write(Repeat(' ', pad) + lines[j])];
        EmitPair(ClearLine, Write(Repeat(' ', pad) + lines[j]));
        if IndexOf(lines, lines[j]) < |lines| - 1 {
          Emit(WriteLine(""));
        }
        Regroup(tj, row, if IndexOf(lines, lines[j]) < |lines| - 1 then [WriteLine("")] else [], SlideRows(lines, pad, j + 1));
      }
    }

    /** One horizontal slide frame: save, the padded rows, a wait, restore. */
    method SlideFrame(lines: seq<string>, pad: int)
      requires Synced()
      modifies this, renderer
      ensures Synced()
      ensures var a := Exec(SlideStep(lines, pad), old(Signals())); trace == old(trace) + a.0 && Signals() == a.1
    {
      SlideStepExec(lines, pad, Signals());
      Emit(Save);
      SlideFrameRows(lines, pad);
      AwaitDelay(20.0);
      Emit(Restore);
    }

    /** Clear n rows, writing an empty line between each two. */
    method ClearArea(n: nat)
      requires Synced()
      modifies this, renderer
      ensures Synced()
      ensures trace == old(trace) + ClearRows(n, 0, WriteLine("")) && Signals() == old(Signals())
    {
      for j := 0 to n
        invariant Synced() && Signals() == old(Signals())
        invariant trace + ClearRows(n, j, WriteLine("")) == old(trace) + ClearRows(n, 0, WriteLine(""))
      {
        ghost var tj := trace;
        Emit(ClearLine);
        if j < n - 1 {
          Emit(WriteLine(""));
        }
        Regroup(tj, [ClearLine], if j < n - 1 then [WriteLine("")] else [], ClearRows(n, j + 1, WriteLine("")));
      }
    }

    /** The opening of a horizontal slide: hide the cursor, clear the area, then move back up. */
    method OpenSlide(n: nat)
      requires Synced()
      modifies this, renderer
      ensures Synced()
      ensures trace == old(trace) + SlideOpening(n) && Signals() == old(Signals())
    {
      Emit(Hide);
      ClearArea(n);
      EmitRepeated(MoveUp(1), n);
    }

    /** The final render of a horizontal slide; a negative padding count throws. */
    method FinalRender(lines: seq<string>, left: bool, steps: int, width: int) returns (thrown: Option<string>)
      requires Synced()
      modifies this, renderer
      ensures Synced()
      ensures var f := FinalRows(lines, left, steps, width, 0);
        trace == old(trace) + f.0 && thrown == f.1 && Signals() == old(Signals())
    {
      for j := 0 to |lines|
        invariant Synced() && Signals() == old(Signals())
        invariant trace + FinalRows(lines, left, steps, width, j).0 == old(trace) + FinalRows(lines, left, steps, width, 0).0
        invariant FinalRows(lines, left, steps, width, j).1 == FinalRows(lines, left, steps, width, 0).1
      {
        ghost var tj := trace;
        var count := Min(steps, width - |lines[j]|);
        if !left && count < 0 {
          // the line is cleared before the padding is built, and building it throws
          Emit(ClearLine);
          return Some(RangeErrorPrefix + IntToString(count));
        }
        var text := if left then lines[j] else Repeat(' ', count) + lines[j];
        EmitPair(ClearLine, WriteLine(text));
        Regroup3(tj, [ClearLine, WriteLine(text)], FinalRows(lines, left, steps, width, j + 1).0);
      }
      return None;
    }

    /** The frames of a horizontal slide, i = 0 .. steps, stopping once interrupted. */
    method SlideFrames(lines: seq<string>, left: bool, steps: int)
      requires Synced()
      modifies this, renderer
      ensures Synced()
      ensures var l := Loop(SlideSteps(lines, left, steps), 0, old(Signals())); trace == old(trace) + l.0 && Signals() == l.1
    {
      ghost var plan := SlideSteps(lines, left, steps);
      ghost var l := Loop(plan, 0, Signals());
      ghost var total := trace + l.0;
      var i := 0;
      while i <= steps && !interrupted
        invariant 0 <= i <= |plan|
        invariant Synced()
        invariant trace + Loop(plan, i, Signals()).0 == total && Loop(plan, i, Signals()).1 == l.1
      {
        var pad := if left then steps - i else i;
        SlideStepAt(lines, left, steps, i);
        Advanced(plan, i, Signals(), trace, total, l.1);
        SlideFrame(lines, pad);
        i := i + 1;
      }
      LoopDone(plan, i, Signals());
    }

    /** The end of a horizontal slide: save, the final render, and show unless it threw. */
    method FinishSlide(lines: seq<string>, left: bool, steps: int, width: int) returns (thrown: Option<string>)
      requires Synced()
      modifies this, renderer
      ensures Synced()
      ensures var f := FinalRows(lines, left, steps, width, 0);
        trace == old(trace) + SlideClosing(f) && thrown == f.1 && Signals() == old(Signals())
    {
      Emit(Save);
      ghost var saved := trace;
      thrown := FinalRender(lines, left, steps, width);
      ghost var rendered := trace;
      if thrown.None? {
        Emit(Show);
      }
      assert trace == rendered + (if thrown.None? then [Show] else []);
    }

    method SlideHorizontal(lines: seq<string>, left: bool, width: int) returns (thrown: Option<string>)
      requires Synced() && |lines| >= 1
      modifies this, renderer
      ensures Synced()
      ensures var o := SlideHorizontalRun(lines, left, width, old(Signals()));
        trace == old(trace) + o.events && Signals() == o.after && thrown == o.thrown
    {
      var maxLineLength := MaxLength(lines);
      var steps := Min(maxLineLength + 10, width);
      ghost var l := Loop(SlideSteps(lines, left, steps), 0, Signals());
      ghost var f := FinalRows(lines, left, steps, width, 0);
      ghost var o := SlideHorizontalRun(lines, left, width, Signals());
      assert o.events == SlideOpening(|lines|) + l.0 + SlideClosing(f) && o.after == l.1 && o.thrown == f.1;
      OpenSlide(|lines|);
      SlideFrames(lines, left, steps);
      thrown := FinishSlide(lines, left, steps, width);
      Regroup(old(trace), SlideOpening(|lines|), l.0, SlideClosing(f));
    }

    /** One line of a vertical slide and the wait after it. */
    method SlideLine(line: string)
      requires Synced()
      modifies this, renderer
      ensures Synced()
      ensures var a := Exec(VerticalStep(line), old(Signals())); trace == old(trace) + a.0 && Signals() == a.1
    {
      VerticalStepExec(line, Signals());
      Emit(WriteLine(line));
      AwaitDelay(20.0);
    }

    method SlideVertical(lines: seq<string>, fromTop: bool)
      requires Synced()
      modifies this, renderer
      ensures Synced()
      ensures var o := SlideVerticalRun(lines, fromTop, old(Signals()));
        trace == old(trace) + o.events && Signals() == o.after
    {
      var ordered := if fromTop then lines else Reversed(lines);
      ghost var steps := VerticalSteps(ordered);
      ghost var l := Loop(steps, 0, Signals());
      ghost var total := trace + l.0;
      var i := 0;
      while i < |ordered| && !interrupted
        invariant 0 <= i <= |ordered|
        invariant Synced()
        invariant trace + Loop(steps, i, Signals()).0 == total && Loop(steps, i, Signals()).1 == l.1
      {
        Advanced(steps, i, Signals(), trace, total, l.1);
        SlideLine(ordered[i]);
        i := i + 1;
      }
      LoopDone(steps, i, Signals());
    }

    method AnimateSlide(content: string) returns (thrown: Option<string>)
      requires Synced()
      modifies this, renderer
      ensures Synced()
      ensures var o := SlideRun(content, OrString(Direction(), "left"), renderer.TerminalSize().0, old(Signals()));
        trace == old(trace) + o.events && Signals() == o.after && thrown == o.thrown
    {
      var direction := OrString(Direction(), "left");
      var lines := Split(content, '\n');
      var terminalSize := renderer.TerminalSize();
      if direction == "left" || direction == "right" {
        thrown := SlideHorizontal(lines, direction == "left", terminalSize.0);
      } else if direction == "top" || direction == "up" || direction == "bottom" || direction == "down" {
        SlideVertical(lines, direction == "top" || direction == "up");
        thrown := None;
      } else {
        thrown := None;
      }
    }

    /**
     * animate. `fuel` bounds the passes of an endless frame loop. What the
     * slide animation throws is returned in `thrown`.
     */
    method Animate(content: Content, kind: string, fuel: nat) returns (thrown: Option<string>)
      requires Synced() && Accepts(content, kind)
      modifies this, renderer
      ensures Synced()
      ensures var o := Animated(content, kind, Configured(fuel), old(Signals()));
        trace == old(trace) + o.events && Signals() == o.after && thrown == o.thrown
    {
      ghost var st := Configured(fuel);
      if !renderer.SupportsAnimation(ci, term) && options.preview != Some(true) {
        Emit(Write(Joined(content)));
        return None;
      }
      interrupted := false;
      thrown := None;
      ghost var o := Animated(content, kind, st, old(Signals()));
      if kind == "typing" {
        AnimateTyping(content.text);
      } else if kind == "fade" {
        AnimateFade(content.text);
      } else if kind == "frames" {
        AnimateFrames(FramesOf(content), fuel);
      } else if kind == "blink" {
        thrown := AnimateBlink(content.text);
      } else if kind == "slide" {
        thrown := AnimateSlide(content.text);
      } else {
        Emit(Write(Joined(content)));
      }
    }
  }
}
