/** The interactive Fibonacci calculator: the naive recursive `nth_fibonacci`
    and the console session that asks for an index, prints its Fibonacci
    number and asks whether to keep going.

    The console is modelled as a finite sequence of input lines (what
    successive `read_line` calls return) and the sequence of lines printed
    by `println!`. */
module Fibonacci {
  import opened RustPrelude

  // ---------------------------------------------------------------------
  // nth_fibonacci

  /** `nth_fibonacci`, the textbook recurrence, over unbounded naturals. The
      source computes it in `usize`; the lemmas below say exactly for which
      indices every value of that computation fits. */
  function NthFibonacci(n: nat): nat {
    if n <= 1 then n else NthFibonacci(n - 1) + NthFibonacci(n - 2)
  }

  /** The largest index whose Fibonacci number fits in a 64-bit `usize`. */
  const MAX_FIB_INDEX: nat := 93

  /** Every value the naive recursion for `n` computes, `fib(0)` to `fib(n)`,
      is a `usize`: none of its additions overflows. */
  ghost predicate NoOverflowUpTo(n: nat) {
    forall k :: 0 <= k <= n ==> NthFibonacci(k) <= USIZE_MAX
  }

  lemma NthFibonacciBase(n: nat)
    requires n <= 1
    ensures NthFibonacci(n) == n
  {
  }

  /** The sequence never decreases. */
  lemma {:induction false} NthFibonacciMonotone(m: nat, n: nat)
    requires m <= n
    ensures NthFibonacci(m) <= NthFibonacci(n)
  {
    if m < n {
      NthFibonacciMonotone(m, n - 1);
    }
  }

  /** `fib(93)` is a `usize`, `fib(94)` is not. */
  lemma NthFibonacciAtLimit()
    ensures NthFibonacci(MAX_FIB_INDEX) == 12200160415121876738
    ensures NthFibonacci(MAX_FIB_INDEX + 1) == 19740274219868223167
    ensures NthFibonacci(MAX_FIB_INDEX) <= USIZE_MAX < NthFibonacci(MAX_FIB_INDEX + 1)
  {
    // Evaluated in steps of ten so that each unfolding stays small.
    assert NthFibonacci(10) == 55 && NthFibonacci(11) == 89;
    assert NthFibonacci(20) == 6765 && NthFibonacci(21) == 10946;
    assert NthFibonacci(30) == 832040 && NthFibonacci(31) == 1346269;
    assert NthFibonacci(40) == 102334155 && NthFibonacci(41) == 165580141;
    assert NthFibonacci(50) == 12586269025 && NthFibonacci(51) == 20365011074;
    assert NthFibonacci(60) == 1548008755920 && NthFibonacci(61) == 2504730781961;
    assert NthFibonacci(70) == 190392490709135 && NthFibonacci(71) == 308061521170129;
    assert NthFibonacci(80) == 23416728348467685 && NthFibonacci(81) == 37889062373143906;
    assert NthFibonacci(90) == 2880067194370816120 && NthFibonacci(91) == 4660046610375530309;
  }

  /** `fib(n)` fits in a `usize` exactly when `n <= 93`. */
  lemma NthFibonacciFitsIff(n: nat)
    ensures NthFibonacci(n) <= USIZE_MAX <==> n <= MAX_FIB_INDEX
  {
    NthFibonacciAtLimit();
    if n <= MAX_FIB_INDEX {
      NthFibonacciMonotone(n, MAX_FIB_INDEX);
    } else {
      NthFibonacciMonotone(MAX_FIB_INDEX + 1, n);
    }
  }

  /** The `usize` computation of `nth_fibonacci(n)` never overflows exactly
      when `n <= 93`; for larger `n` the addition producing `fib(94)` does. */
  lemma NoOverflowIff(n: nat)
    ensures NoOverflowUpTo(n) <==> n <= MAX_FIB_INDEX
  {
    if n <= MAX_FIB_INDEX {
      forall k | 0 <= k <= n ensures NthFibonacci(k) <= USIZE_MAX {
        NthFibonacciFitsIff(k);
      }
    } else {
      NthFibonacciFitsIff(MAX_FIB_INDEX + 1);
    }
  }

  /** The recursive case of `nth_fibonacci`, with its `usize` addition free of overflow. */
  lemma NthFibonacciRecurrence(n: nat)
    requires 2 <= n <= MAX_FIB_INDEX
    ensures NthFibonacci(n) == NthFibonacci(n - 1) + NthFibonacci(n - 2)
    ensures NthFibonacci(n - 1) + NthFibonacci(n - 2) <= USIZE_MAX
  {
    NthFibonacciFitsIff(n);
  }

  lemma NthFibonacciExamples()
    ensures NthFibonacci(0) == 0 && NthFibonacci(1) == 1 && NthFibonacci(2) == 1
    ensures NthFibonacci(3) == 2 && NthFibonacci(4) == 3 && NthFibonacci(5) == 5
    ensures NthFibonacci(7) == 13 && NthFibonacci(10) == 55 && NthFibonacci(20) == 6765
  {
  }

  // ---------------------------------------------------------------------
  // The console session in main

  /** A line `main` prints with `println!`. */
  datatype Printed =
    | EnterIndexPrompt        // "Please enter n: "
    | ResultOf(value: nat)    // "nth fibonacci: {value}"
    | ContinuePrompt          // "Keep going? (y/n)[n]:"

  const RESULT_LABEL: string := "nth fibonacci: "

  /** The exact text of a printed line. */
  function Render(l: Printed): string {
    match l
    case EnterIndexPrompt => "Please enter n: "
    case ResultOf(v) => RESULT_LABEL + NatToString(v)
    case ContinuePrompt => "Keep going? (y/n)[n]:"
  }

  /** Different printed lines have different texts, so the session below
      loses nothing by producing `Printed` values instead of strings. */
  lemma RenderInjective(a: Printed, b: Printed)
    requires Render(a) == Render(b)
    ensures a == b
  {
    assert Render(a)[0] == Render(b)[0];
    if a.ResultOf? && b.ResultOf? {
      assert NatToString(a.value) == Render(a)[|RESULT_LABEL|..];
      assert NatToString(b.value) == Render(b)[|RESULT_LABEL|..];
      DecimalValueOfNatToString(a.value);
      DecimalValueOfNatToString(b.value);
    }
  }

  lemma RenderExamples()
    ensures Render(ResultOf(5)) == "nth fibonacci: 5"
    ensures Render(ResultOf(13)) == "nth fibonacci: 13"
    ensures Render(ResultOf(6765)) == "nth fibonacci: 6765"
  {
  }

  /** `n.trim().parse::<usize>()` on an index line. */
  function ParseIndex(line: string): (r: Option<nat>)
    ensures r.Some? ==> r.value <= USIZE_MAX
  {
    ParseUsize(Trim(line))
  }

  /** The continuation answer matches `"y" | "Y"` after trimming. */
  predicate KeepGoing(answer: string) {
    Trim(answer) in {"y", "Y"}
  }

  /** Where the session stands between two reads.
      AwaitingIndex: "Please enter n: " has just been printed.
      AwaitingAnswer: a result and the continuation prompt have been printed.
      Finished: the loop was left by `break` (a normal exit).
      Panicked: `nth_fibonacci` ended the program abnormally, by the
        debug-build panic on `usize` overflow, or by stack exhaustion when
        the recursion is very deep. */
  datatype Phase = AwaitingIndex | AwaitingAnswer | Finished | Panicked {
    predicate Terminated() {
      Finished? || Panicked?
    }
  }

  /** What a session did with its input: the phase it ended in, the lines it
      printed and how many input lines it read. */
  datatype Transcript = Transcript(phase: Phase, output: seq<Printed>, consumed: nat)

  /** The transcript `t` preceded by the lines `shown`, printed while reading
      `read` earlier lines. */
  function After(shown: seq<Printed>, read: nat, t: Transcript): Transcript {
    Transcript(t.phase, shown + t.output, read + t.consumed)
  }

  /** One read of the loop in phase `p`: the next phase and the lines printed
      before the following read. */
  function Step(p: Phase, line: string): (r: (Phase, seq<Printed>))
    requires !p.Terminated()
    ensures r.0.Panicked? ==> p.AwaitingIndex? && r.1 == []
    ensures r.0.AwaitingAnswer? ==> p.AwaitingIndex? && |r.1| == 2 && r.1[0].ResultOf? && r.1[1] == ContinuePrompt
    ensures r.0.AwaitingIndex? ==> r.1 == [EnterIndexPrompt]
    ensures r.0.Finished? ==> p.AwaitingAnswer? && r.1 == []
  {
    match p
    case AwaitingIndex =>
      (match ParseIndex(line)
       case None => (AwaitingIndex, [EnterIndexPrompt])
       case Some(n) =>
         if n > MAX_FIB_INDEX then (Panicked, [])
         else (AwaitingAnswer, [ResultOf(NthFibonacci(n)), ContinuePrompt]))
    case AwaitingAnswer =>
      if KeepGoing(line) then (AwaitingIndex, [EnterIndexPrompt]) else (Finished, [])
  }

  /** The session resumed in phase `p` on the remaining input `lines`. */
  function RunFrom(p: Phase, lines: seq<string>): (t: Transcript)
    ensures t.consumed <= |lines|
    decreases |lines|
  {
    if p.Terminated() || lines == [] then Transcript(p, [], 0)
    else
      var (q, shown) := Step(p, lines[0]);
      After(shown, 1, RunFrom(q, lines[1..]))
  }

  /** The whole session of `main` on the input `lines`. */
  function Run(lines: seq<string>): (t: Transcript)
    ensures t.consumed <= |lines|
    ensures t.output != [] && t.output[0] == EnterIndexPrompt
  {
    After([EnterIndexPrompt], 0, RunFrom(AwaitingIndex, lines))
  }

  /** `main`'s loop, statement by statement: print the prompt, read an index
      line and `continue` if it does not parse, print the result and the
      continuation prompt, read the answer and `continue` on "y"/"Y",
      `break` otherwise. When the input runs out the session is left waiting
      in the phase it reached. */
  method Session(lines: seq<string>) returns (phase: Phase, output: seq<Printed>, consumed: nat)
    ensures Transcript(phase, output, consumed) == Run(lines)
  {
    output, consumed := [], 0;
    while true
      invariant consumed <= |lines|
      invariant Run(lines) == After(output + [EnterIndexPrompt], consumed, RunFrom(AwaitingIndex, lines[consumed..]))
      decreases |lines| - consumed
    {
      output := output + [EnterIndexPrompt];
      if consumed == |lines| {
        assert lines[consumed..] == [];
        phase := AwaitingIndex;
        return;
      }
      var n := lines[consumed];
      IndexLineRead(lines, consumed);
      var index := ParseIndex(n);
      if index.None? {
        AfterAfter(output, [EnterIndexPrompt], consumed, 1, RunFrom(AwaitingIndex, lines[consumed + 1..]));
        consumed := consumed + 1;
        continue;
      }
      if index.value > MAX_FIB_INDEX {
        consumed := consumed + 1;
        phase := Panicked;
        return;
      }
      var shown := [ResultOf(NthFibonacci(index.value)), ContinuePrompt];
      AfterAfter(output, shown, consumed, 1, RunFrom(AwaitingAnswer, lines[consumed + 1..]));
      output := output + shown;
      consumed := consumed + 1;
      if consumed == |lines| {
        assert lines[consumed..] == [];
        phase := AwaitingAnswer;
        return;
      }
      var ans := lines[consumed];
      AnswerLineRead(lines, consumed);
      if KeepGoing(ans) {
        AfterAfter(output, [EnterIndexPrompt], consumed, 1, RunFrom(AwaitingIndex, lines[consumed + 1..]));
        consumed := consumed + 1;
        continue;
      } else {
        consumed := consumed + 1;
        phase := Finished;
        return;
      }
    }
  }

  /** Prefixing in two steps is prefixing once. */
  lemma AfterAfter(a: seq<Printed>, b: seq<Printed>, i: nat, j: nat, t: Transcript)
    ensures After(a, i, After(b, j, t)) == After(a + b, i + j, t)
  {
    assert a + (b + t.output) == (a + b) + t.output;
  }

  /** Resuming in a live phase at input position `i` reads line `i` first. */
  lemma ResumeAfterOneLine(p: Phase, lines: seq<string>, i: nat)
    requires !p.Terminated() && i < |lines|
    ensures RunFrom(p, lines[i..])
         == After(Step(p, lines[i]).1, 1, RunFrom(Step(p, lines[i]).0, lines[i + 1..]))
  {
    assert lines[i..][0] == lines[i];
    assert lines[i..][1..] == lines[i + 1..];
  }

  /** What reading index line `i` does to the rest of the session. */
  lemma IndexLineRead(lines: seq<string>, i: nat)
    requires i < |lines|
    ensures ParseIndex(lines[i]).None? ==>
      RunFrom(AwaitingIndex, lines[i..]) == After([EnterIndexPrompt], 1, RunFrom(AwaitingIndex, lines[i + 1..]))
    ensures ParseIndex(lines[i]).Some? && ParseIndex(lines[i]).value > MAX_FIB_INDEX ==>
      RunFrom(AwaitingIndex, lines[i..]) == Transcript(Panicked, [], 1)
    ensures ParseIndex(lines[i]).Some? && ParseIndex(lines[i]).value <= MAX_FIB_INDEX ==>
      RunFrom(AwaitingIndex, lines[i..])
        == After([ResultOf(NthFibonacci(ParseIndex(lines[i]).value)), ContinuePrompt], 1, RunFrom(AwaitingAnswer, lines[i + 1..]))
  {
    ResumeAfterOneLine(AwaitingIndex, lines, i);
  }

  /** What reading answer line `i` does to the rest of the session. */
  lemma AnswerLineRead(lines: seq<string>, i: nat)
    requires i < |lines|
    ensures KeepGoing(lines[i]) ==>
      RunFrom(AwaitingAnswer, lines[i..]) == After([EnterIndexPrompt], 1, RunFrom(AwaitingIndex, lines[i + 1..]))
    ensures !KeepGoing(lines[i]) ==>
      RunFrom(AwaitingAnswer, lines[i..]) == Transcript(Finished, [], 1)
  {
    ResumeAfterOneLine(AwaitingAnswer, lines, i);
  }

  // ---------------------------------------------------------------------
  // Properties of the session

  /** An index line that does not parse prints no result and reads no
      answer: the session prints the prompt again and waits for an index. */
  lemma BadIndexLineReprompts(line: string, rest: seq<string>)
    requires ParseIndex(line) == None
    ensures RunFrom(AwaitingIndex, [line] + rest) == After([EnterIndexPrompt], 1, RunFrom(AwaitingIndex, rest))
  {
    assert ([line] + rest)[1..] == rest;
  }

  /** An index `n <= 93` prints exactly one result line, holding `fib(n)`,
      then the continuation prompt, and the session waits for an answer. */
  lemma GoodIndexLineShowsResult(line: string, n: nat, rest: seq<string>)
    requires ParseIndex(line) == Some(n) && n <= MAX_FIB_INDEX
    ensures RunFrom(AwaitingIndex, [line] + rest)
         == After([ResultOf(NthFibonacci(n)), ContinuePrompt], 1, RunFrom(AwaitingAnswer, rest))
  {
    assert ([line] + rest)[1..] == rest;
  }

  /** A larger index overflows `usize` in `nth_fibonacci`: nothing more is
      printed and the session ends abnormally (the overflow panic, or stack
      exhaustion first when the recursion is very deep). */
  lemma OverflowingIndexPanics(line: string, n: nat, rest: seq<string>)
    requires ParseIndex(line) == Some(n) && n > MAX_FIB_INDEX
    ensures RunFrom(AwaitingIndex, [line] + rest) == Transcript(Panicked, [], 1)
    ensures !NoOverflowUpTo(n)
  {
    NoOverflowIff(n);
  }

  /** The answer "y" or "Y" (after trimming) restarts the loop; any other
      answer ends the session normally without reading further. */
  lemma AnswerDecides(answer: string, rest: seq<string>)
    ensures KeepGoing(answer) ==>
      RunFrom(AwaitingAnswer, [answer] + rest) == After([EnterIndexPrompt], 1, RunFrom(AwaitingIndex, rest))
    ensures !KeepGoing(answer) ==>
      RunFrom(AwaitingAnswer, [answer] + rest) == Transcript(Finished, [], 1)
  {
    assert ([answer] + rest)[1..] == rest;
  }

  lemma KeepGoingExamples()
    ensures KeepGoing("y") && KeepGoing("Y") && KeepGoing(" y\n")
    ensures !KeepGoing("") && !KeepGoing("n") && !KeepGoing("yes") && !KeepGoing("YES")
  {
    assert Trim(" y\n") == "y" by {
      assert TrimStart(" y\n") == TrimStart("y\n");
      assert TrimEnd("y\n") == TrimEnd("y");
    }
    assert "yes"[..|"yes"| - 1] == "ye";
    assert "YES"[..|"YES"| - 1] == "YE";
  }

  /** The session is a stream: running it on `lines + more` is running it on
      `lines` and then resuming, in the phase it reached, on what it has not
      read. */
  lemma {:induction false} RunFromAppend(p: Phase, lines: seq<string>, more: seq<string>)
    ensures var t := RunFrom(p, lines);
      RunFrom(p, lines + more)
        == After(t.output, t.consumed, RunFrom(t.phase, (lines + more)[t.consumed..]))
    decreases |lines|
  {
    var all := lines + more;
    if p.Terminated() || lines == [] {
      assert all[0..] == all;
    } else {
      assert all[0] == lines[0];
      var (q, shown) := Step(p, lines[0]);
      assert all[1..] == lines[1..] + more;
      RunFromAppend(q, lines[1..], more);
      var t' := RunFrom(q, lines[1..]);
      assert (lines[1..] + more)[t'.consumed..] == all[1 + t'.consumed..];
      var rest := RunFrom(t'.phase, all[1 + t'.consumed..]);
      assert RunFrom(p, all) == After(shown, 1, After(t'.output, t'.consumed, rest));
      assert shown + (t'.output + rest.output) == (shown + t'.output) + rest.output;
    }
  }

  /** Once the session has ended, later input lines are never read. */
  lemma InputAfterTerminationIgnored(lines: seq<string>, more: seq<string>)
    requires Run(lines).phase.Terminated()
    ensures Run(lines + more) == Run(lines)
  {
    RunFromAppend(AwaitingIndex, lines, more);
  }

  /** `n` copies of the empty line, which is what `read_line` yields once the
      console is at end of input. */
  function EmptyLines(n: nat): (s: seq<string>)
    ensures |s| == n && forall i :: 0 <= i < n ==> s[i] == ""
  {
    if n == 0 then [] else [""] + EmptyLines(n - 1)
  }

  function Prompts(n: nat): (s: seq<Printed>)
    ensures |s| == n && forall i :: 0 <= i < n ==> s[i] == EnterIndexPrompt
  {
    if n == 0 then [] else [EnterIndexPrompt] + Prompts(n - 1)
  }

  /** At end of input, a session waiting for an index re-prompts forever: any
      number of empty lines only prints that many prompts. */
  lemma {:induction false} EndOfInputAtIndexPromptLoops(n: nat)
    ensures RunFrom(AwaitingIndex, EmptyLines(n)) == Transcript(AwaitingIndex, Prompts(n), n)
  {
    if n > 0 {
      assert ParseIndex("") == None;
      assert EmptyLines(n)[1..] == EmptyLines(n - 1);
      EndOfInputAtIndexPromptLoops(n - 1);
    }
  }

  /** At end of input, a session waiting for an answer ends normally. */
  lemma EndOfInputAtAnswerStops()
    ensures !KeepGoing("")
    ensures RunFrom(AwaitingAnswer, [""]) == Transcript(Finished, [], 1)
  {
  }

  // Result lines and the indices they answer

  /** The values of the result lines among the printed lines, in order. */
  function ResultValues(out: seq<Printed>): (r: seq<nat>)
    ensures |r| <= |out|
  {
    if out == [] then []
    else (if out[0].ResultOf? then [out[0].value] else []) + ResultValues(out[1..])
  }

  /** The indices the session computes, read off the input alone: index lines
      that parse and fit, skipping the ones that do not parse, up to the first
      answer other than "y"/"Y" (or an index that overflows). */
  function IndicesRead(lines: seq<string>): seq<nat>
    decreases |lines|
  {
    if lines == [] then []
    else match ParseIndex(lines[0])
      case None => IndicesRead(lines[1..])
      case Some(n) =>
        if n > MAX_FIB_INDEX then []
        else [n] + (if |lines| > 1 && KeepGoing(lines[1]) then IndicesRead(lines[2..]) else [])
  }

  function FibonacciOf(indices: seq<nat>): (r: seq<nat>)
    ensures |r| == |indices|
  {
    if indices == [] then [] else [NthFibonacci(indices[0])] + FibonacciOf(indices[1..])
  }

  lemma {:induction false} ResultValuesAppend(a: seq<Printed>, b: seq<Printed>)
    ensures ResultValues(a + b) == ResultValues(a) + ResultValues(b)
  {
    if a == [] {
      assert a + b == b;
    } else {
      assert (a + b)[0] == a[0] && (a + b)[1..] == a[1..] + b;
      ResultValuesAppend(a[1..], b);
    }
  }

  /** The result lines a session prints are `fib` of the indices it reads,
      in order: there are exactly as many result lines as well-formed index
      lines read before the session stops. */
  lemma {:induction false} ResultsMatchIndices(lines: seq<string>)
    ensures ResultValues(RunFrom(AwaitingIndex, lines).output) == FibonacciOf(IndicesRead(lines))
    ensures ResultValues(Run(lines).output) == FibonacciOf(IndicesRead(lines))
    ensures |ResultValues(Run(lines).output)| == |IndicesRead(lines)|
    decreases |lines|
  {
    assert ResultValues([EnterIndexPrompt]) == [];
    if lines != [] {
      var rest := lines[1..];
      ResumeAfterOneLine(AwaitingIndex, lines, 0);
      assert lines[0..] == lines;
      match ParseIndex(lines[0])
      case None =>
        ResultsMatchIndices(rest);
        ResultValuesAppend([EnterIndexPrompt], RunFrom(AwaitingIndex, rest).output);
      case Some(n) =>
        if n <= MAX_FIB_INDEX {
          ResultsForGoodIndex(lines, n);
        }
    }
    ResultValuesAppend([EnterIndexPrompt], RunFrom(AwaitingIndex, lines).output);
  }

  /** The inductive step of ResultsMatchIndices for a first line holding an
      index that fits. */
  lemma {:induction false} ResultsForGoodIndex(lines: seq<string>, n: nat)
    requires lines != [] && ParseIndex(lines[0]) == Some(n) && n <= MAX_FIB_INDEX
    ensures ResultValues(RunFrom(AwaitingIndex, lines).output) == FibonacciOf(IndicesRead(lines))
    decreases |lines|, 0
  {
    var rest := lines[1..];
    ResumeAfterOneLine(AwaitingIndex, lines, 0);
    assert lines[0..] == lines;
    var shown := [ResultOf(NthFibonacci(n)), ContinuePrompt];
    assert ResultValues(shown) == [NthFibonacci(n)] by {
      assert shown[1..] == [ContinuePrompt];
    }
    var t := RunFrom(AwaitingAnswer, rest);
    ResultValuesAppend(shown, t.output);
    var later: seq<nat> := if |lines| > 1 && KeepGoing(lines[1]) then IndicesRead(lines[2..]) else [];
    assert IndicesRead(lines) == [n] + later;
    assert ([n] + later)[1..] == later;
    if |lines| > 1 {
      ResumeAfterOneLine(AwaitingAnswer, lines, 1);
    }
    if |lines| > 1 && KeepGoing(lines[1]) {
      ResultsMatchIndices(lines[2..]);
      ResultValuesAppend([EnterIndexPrompt], RunFrom(AwaitingIndex, lines[2..]).output);
    }
  }

  // Whole rounds, and whole sessions of one and two rounds, first for any
  // lines that parse as expected, then for three concrete inputs.

  /** A round answered with yes: the result, the continuation prompt and
      the index prompt are printed, two lines are read, and the session
      waits for the next index. */
  lemma RoundThenContinue(index: string, n: nat, yes: string, rest: seq<string>)
    requires ParseIndex(index) == Some(n) && n <= MAX_FIB_INDEX && KeepGoing(yes)
    ensures RunFrom(AwaitingIndex, [index, yes] + rest)
         == After([ResultOf(NthFibonacci(n)), ContinuePrompt, EnterIndexPrompt], 2, RunFrom(AwaitingIndex, rest))
  {
    assert [index, yes] + rest == [index] + ([yes] + rest);
    GoodIndexLineShowsResult(index, n, [yes] + rest);
    AnswerDecides(yes, rest);
    var t := RunFrom(AwaitingIndex, rest);
    AfterAfter([ResultOf(NthFibonacci(n)), ContinuePrompt], [EnterIndexPrompt], 1, 1, t);
    assert [ResultOf(NthFibonacci(n)), ContinuePrompt] + [EnterIndexPrompt]
        == [ResultOf(NthFibonacci(n)), ContinuePrompt, EnterIndexPrompt];
  }

  /** A round answered with anything but yes: the result and the
      continuation prompt are printed and the session ends after two lines,
      whatever follows them. */
  lemma RoundThenStop(index: string, n: nat, answer: string, rest: seq<string>)
    requires ParseIndex(index) == Some(n) && n <= MAX_FIB_INDEX && !KeepGoing(answer)
    ensures RunFrom(AwaitingIndex, [index, answer] + rest)
         == Transcript(Finished, [ResultOf(NthFibonacci(n)), ContinuePrompt], 2)
  {
    assert [index, answer] + rest == [index] + ([answer] + rest);
    GoodIndexLineShowsResult(index, n, [answer] + rest);
    AnswerDecides(answer, rest);
  }

  /** One index, then any answer other than yes: one result, then the end. */
  lemma OneRoundThenStop(index: string, n: nat, answer: string)
    requires ParseIndex(index) == Some(n) && n <= MAX_FIB_INDEX && !KeepGoing(answer)
    ensures Run([index, answer])
         == Transcript(Finished, [EnterIndexPrompt, ResultOf(NthFibonacci(n)), ContinuePrompt], 2)
  {
    RoundThenStop(index, n, answer, []);
    assert [index, answer] + [] == [index, answer];
    assert [EnterIndexPrompt] + [ResultOf(NthFibonacci(n)), ContinuePrompt]
        == [EnterIndexPrompt, ResultOf(NthFibonacci(n)), ContinuePrompt];
  }

  /** The printed lines of a re-prompt and a round, put together as
      BadLineThenOneRound assembles them. */
  lemma RepromptThenRoundOutput(result: Printed)
    ensures [EnterIndexPrompt] + ([EnterIndexPrompt] + [result, ContinuePrompt])
         == [EnterIndexPrompt, EnterIndexPrompt, result, ContinuePrompt]
  {
  }

  /** A line that is not a number, then one round: the index prompt shows
      twice before the one result. */
  lemma BadLineThenOneRound(bad: string, index: string, n: nat, answer: string)
    requires ParseIndex(bad) == None
    requires ParseIndex(index) == Some(n) && n <= MAX_FIB_INDEX && !KeepGoing(answer)
    ensures Run([bad, index, answer])
         == Transcript(Finished, [EnterIndexPrompt, EnterIndexPrompt, ResultOf(NthFibonacci(n)), ContinuePrompt], 3)
  {
    RoundThenStop(index, n, answer, []);
    assert [index, answer] + [] == [index, answer];
    BadIndexLineReprompts(bad, [index, answer]);
    assert [bad] + [index, answer] == [bad, index, answer];
    RepromptThenRoundOutput(ResultOf(NthFibonacci(n)));
  }

  /** The printed lines of two rounds, put together as TwoRoundsThenStop
      assembles them. */
  lemma TwoRoundsOutput(first: Printed, second: Printed)
    ensures [EnterIndexPrompt] + ([first, ContinuePrompt, EnterIndexPrompt] + [second, ContinuePrompt])
         == [EnterIndexPrompt, first, ContinuePrompt, EnterIndexPrompt, second, ContinuePrompt]
  {
  }

  /** Two rounds joined by a yes: two results, in the order of the indices. */
  lemma TwoRoundsThenStop(first: string, m: nat, yes: string, second: string, n: nat, answer: string)
    requires ParseIndex(first) == Some(m) && m <= MAX_FIB_INDEX && KeepGoing(yes)
    requires ParseIndex(second) == Some(n) && n <= MAX_FIB_INDEX && !KeepGoing(answer)
    ensures Run([first, yes, second, answer])
         == Transcript(Finished, [EnterIndexPrompt, ResultOf(NthFibonacci(m)), ContinuePrompt,
                                  EnterIndexPrompt, ResultOf(NthFibonacci(n)), ContinuePrompt], 4)
  {
    RoundThenStop(second, n, answer, []);
    assert [second, answer] + [] == [second, answer];
    RoundThenContinue(first, m, yes, [second, answer]);
    assert [first, yes] + [second, answer] == [first, yes, second, answer];
    TwoRoundsOutput(ResultOf(NthFibonacci(m)), ResultOf(NthFibonacci(n)));
  }

  lemma SessionFiveThenNo()
    ensures Run(["5", "n"]) == Transcript(Finished, [EnterIndexPrompt, ResultOf(5), ContinuePrompt], 2)
  {
    assert ParseIndex("5") == Some(5);
    KeepGoingExamples();
    NthFibonacciExamples();
    OneRoundThenStop("5", 5, "n");
  }

  lemma SessionSevenYesThreeNo()
    ensures Run(["7", "y", "3", "n"])
         == Transcript(Finished, [EnterIndexPrompt, ResultOf(13), ContinuePrompt,
                                  EnterIndexPrompt, ResultOf(2), ContinuePrompt], 4)
  {
    assert ParseIndex("7") == Some(7) && ParseIndex("3") == Some(3);
    KeepGoingExamples();
    NthFibonacciExamples();
    TwoRoundsThenStop("7", 7, "y", "3", 3, "n");
  }

  lemma SessionBadLineThenFourNo()
    ensures Run(["x", "4", "n"])
         == Transcript(Finished, [EnterIndexPrompt, EnterIndexPrompt, ResultOf(3), ContinuePrompt], 3)
  {
    assert ParseIndex("x") == None && ParseIndex("4") == Some(4);
    KeepGoingExamples();
    NthFibonacciExamples();
    BadLineThenOneRound("x", "4", 4, "n");
  }
}
