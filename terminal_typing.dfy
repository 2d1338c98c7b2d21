/** The typing effect of the terminal animation. Each tick either shows one
    more character of the current line or moves on to the next line; the
    timers between ticks are not modelled, a tick is one atomic step. */
module TerminalTyping {

  /** The effect's state: the lines shown so far, the index of the line being
      typed, and how many of its characters are shown. */
  datatype Typing = Typing(displayed: seq<string>, line: nat, ch: nat)

  function Initial(): Typing {
    Typing([], 0, 0)
  }

  predicate Done(lines: seq<string>, st: Typing) {
    st.line >= |lines|
  }

  /** One tick, as the effect is written: the entry for the current line is
      pushed when the list is not yet that long, and overwritten otherwise. */
  function Step(lines: seq<string>, st: Typing): Typing {
    if st.line >= |lines| then st
    else if st.ch < |lines[st.line]| then
      var entry := lines[st.line][..st.ch + 1];
      var shown := if st.line >= |st.displayed| then st.displayed + [entry] else st.displayed[st.line := entry];
      Typing(shown, st.line, st.ch + 1)
    else Typing(st.displayed, st.line + 1, 0)
  }

  /** `n` ticks. */
  function Run(lines: seq<string>, st: Typing, n: nat): Typing
    decreases n
  {
    if n == 0 then st else Run(lines, Step(lines, st), n - 1)
  }

  /** What every reachable state satisfies, empty lines or not. */
  ghost predicate WellFormed(lines: seq<string>, st: Typing) {
    && st.line <= |lines|
    && (st.line < |lines| ==> st.ch <= |lines[st.line]|)
    && (st.line == |lines| ==> st.ch == 0)
    && |st.displayed| <= st.line + 1
  }

  ghost predicate AllNonEmpty(lines: seq<string>) {
    forall i | 0 <= i < |lines| :: lines[i] != ""
  }

  /** The typing invariant: earlier lines shown in full, the current line
      shown up to `ch`, and nothing beyond it. */
  ghost predicate Typed(lines: seq<string>, st: Typing) {
    && WellFormed(lines, st)
    && |st.displayed| == st.line + (if st.line < |lines| && st.ch > 0 then 1 else 0)
    && (forall i | 0 <= i < st.line :: st.displayed[i] == lines[i])
    && (st.line < |lines| && st.ch > 0 ==> st.displayed[st.line] == lines[st.line][..st.ch])
  }

  /** Each line costs one tick per character and one to move on. */
  function SumFrom(lines: seq<string>, k: nat): nat
    decreases |lines| - k
  {
    if k >= |lines| then 0 else |lines[k]| + 1 + SumFrom(lines, k + 1)
  }

  function TotalTicks(lines: seq<string>): nat {
    SumFrom(lines, 0)
  }

  /** Ticks left before the effect stops. */
  function Remaining(lines: seq<string>, st: Typing): nat
    requires WellFormed(lines, st)
  {
    if st.line >= |lines| then 0 else |lines[st.line]| - st.ch + 1 + SumFrom(lines, st.line + 1)
  }

  /** The typing state as a component instance holds it. */
  class Terminal {
    const lines: seq<string>
    var displayedLines: seq<string>
    var currentLine: nat
    var currentChar: nat

    function State(): Typing
      reads this
    {
      Typing(displayedLines, currentLine, currentChar)
    }

    ghost predicate Valid()
      reads this
    {
      WellFormed(lines, State())
    }

    constructor (lines: seq<string>)
      ensures Valid() && this.lines == lines && State() == Initial()
    {
      this.lines := lines;
      displayedLines, currentLine, currentChar := [], 0, 0;
    }

    /** One run of the typing effect's timer callback. */
    method Tick()
      requires Valid()
      modifies this
      ensures Valid() && State() == Step(lines, old(State()))
    {
      WellFormedStep(lines, State());
      if currentLine >= |lines| {
        return;
      }
      if currentChar < |lines[currentLine]| {
        var newLines := displayedLines;
        if currentLine >= |newLines| {
          newLines := newLines + [lines[currentLine][..currentChar + 1]];
        } else {
          newLines := newLines[currentLine := lines[currentLine][..currentChar + 1]];
        }
        displayedLines := newLines;
        currentChar := currentChar + 1;
      } else {
        currentLine := currentLine + 1;
        currentChar := 0;
      }
    }
  }

  // ---------------------------------------------------------------- proofs

  lemma WellFormedStep(lines: seq<string>, st: Typing)
    requires WellFormed(lines, st)
    ensures WellFormed(lines, Step(lines, st))
  {
  }

  /** Once every line is done, a tick changes nothing. */
  lemma DoneIsFinal(lines: seq<string>, st: Typing, n: nat)
    requires Done(lines, st)
    ensures Run(lines, st, n) == st
  {
  }

  /** Every tick before the end takes exactly one tick off what remains. */
  lemma StepConsumesOneTick(lines: seq<string>, st: Typing)
    requires WellFormed(lines, st) && !Done(lines, st)
    ensures Remaining(lines, Step(lines, st)) == Remaining(lines, st) - 1
  {
  }

  /** With no empty line, every tick keeps the typing invariant. */
  lemma StepKeepsTyped(lines: seq<string>, st: Typing)
    requires AllNonEmpty(lines) && Typed(lines, st)
    ensures Typed(lines, Step(lines, st))
  {
    if st.line < |lines| && st.ch == |lines[st.line]| {
      assert lines[st.line] != "";
      assert lines[st.line][..st.ch] == lines[st.line];
    }
  }

  /** With no empty line, the effect types every line in full in exactly
      Σ|lines[i]| + |lines| ticks, and then stops. */
  lemma {:induction false} RunTypesEverything(lines: seq<string>, st: Typing)
    requires AllNonEmpty(lines) && Typed(lines, st)
    ensures Run(lines, st, Remaining(lines, st)) == Typing(lines, |lines|, 0)
    decreases Remaining(lines, st)
  {
    if Done(lines, st) {
      assert st.displayed == lines;
    } else {
      StepKeepsTyped(lines, st);
      StepConsumesOneTick(lines, st);
      RunTypesEverything(lines, Step(lines, st));
    }
  }

  /** The effect starts typed, with all of its ticks ahead of it. */
  lemma StartIsTyped(lines: seq<string>)
    ensures Typed(lines, Initial())
    ensures Remaining(lines, Initial()) == TotalTicks(lines)
  {
  }

  lemma RunFromStart(lines: seq<string>)
    requires AllNonEmpty(lines)
    ensures Run(lines, Initial(), TotalTicks(lines)) == Typing(lines, |lines|, 0)
  {
    StartIsTyped(lines);
    RunTypesEverything(lines, Initial());
  }

  /** As written, an empty line gets no entry, and the next line is then
      pushed afresh on every tick: ["a", "", "bc"] ends up shown as
      ["a", "b", "bc"]. */
  lemma EmptyLineCounterexample()
    ensures Run(["a", "", "bc"], Initial(), TotalTicks(["a", "", "bc"])) == Typing(["a", "b", "bc"], 3, 0)
  {
    var lines := ["a", "", "bc"];
    assert TotalTicks(lines) == 6;
    assert lines[0][..1] == "a" && lines[2][..1] == "b" && lines[2][..2] == "bc";
    var s1 := Step(lines, Initial());
    assert s1 == Typing(["a"], 0, 1);
    var s2 := Step(lines, s1);
    assert s2 == Typing(["a"], 1, 0);
    var s3 := Step(lines, s2);
    assert s3 == Typing(["a"], 2, 0);
    var s4 := Step(lines, s3);
    assert s4 == Typing(["a", "b"], 2, 1);
    var s5 := Step(lines, s4);
    assert s5 == Typing(["a", "b", "bc"], 2, 2);
    var s6 := Step(lines, s5);
    assert s6 == Typing(["a", "b", "bc"], 3, 0);
    assert Run(lines, s6, 0) == s6;
  }

  // ------------------------------------------------ the corrected tick

  /** The tick as evidently intended: an empty line still gets its (empty)
      entry before the effect moves on. */
  function StepFixed(lines: seq<string>, st: Typing): Typing {
    if st.line >= |lines| then st
    else if st.ch < |lines[st.line]| then Step(lines, st)
    else
      var shown := if st.line >= |st.displayed| then st.displayed + [""] else st.displayed;
      Typing(shown, st.line + 1, 0)
  }

  function RunFixed(lines: seq<string>, st: Typing, n: nat): Typing
    decreases n
  {
    if n == 0 then st else RunFixed(lines, StepFixed(lines, st), n - 1)
  }

  /** On a non-empty line the two ticks agree, so with no empty line the
      effect as written behaves as intended. */
  lemma StepFixedAgrees(lines: seq<string>, st: Typing)
    requires st.line < |lines| ==> lines[st.line] != ""
    requires Typed(lines, st)
    ensures StepFixed(lines, st) == Step(lines, st)
  {
  }

  lemma StepFixedKeepsTyped(lines: seq<string>, st: Typing)
    requires Typed(lines, st)
    ensures Typed(lines, StepFixed(lines, st))
    ensures !Done(lines, st) ==> Remaining(lines, StepFixed(lines, st)) == Remaining(lines, st) - 1
  {
    if st.line < |lines| && st.ch == |lines[st.line]| && st.ch > 0 {
      assert lines[st.line][..st.ch] == lines[st.line];
    }
  }

  /** The corrected effect shows every line, empty ones included, after the
      same number of ticks. */
  lemma {:induction false} RunFixedTypesEverything(lines: seq<string>, st: Typing)
    requires Typed(lines, st)
    ensures RunFixed(lines, st, Remaining(lines, st)) == Typing(lines, |lines|, 0)
    decreases Remaining(lines, st)
  {
    if Done(lines, st) {
      assert st.displayed == lines;
    } else {
      StepFixedKeepsTyped(lines, st);
      RunFixedTypesEverything(lines, StepFixed(lines, st));
    }
  }

  lemma RunFixedFromStart(lines: seq<string>)
    ensures RunFixed(lines, Initial(), TotalTicks(lines)) == Typing(lines, |lines|, 0)
  {
    StartIsTyped(lines);
    RunFixedTypesEverything(lines, Initial());
  }
}
