/**
 * The read loop of `main`: read a line, prompt again on a blank line or a
 * failed read, stop on `exit`, otherwise fork a pipeline process and wait for
 * it.
 *
 * A line with no segment (only `|` characters) makes `execute_command`
 * return, and the forked child then carries on with the same loop: it
 * becomes a nested shell reading the next lines while its parent waits. The
 * `depth` counter tracks how many such nested shells are reading; an `exit`
 * ends the innermost one, and only an `exit` read by the first shell ends
 * the loop.
 */
module Shell {
  import opened Wrappers
  import opened Tokenizer
  import opened CommandLine

  /** The lines a pipeline process was forked for, the nesting depth, and whether the first shell stopped. */
  datatype ShellState = ShellState(forked: seq<string>, depth: nat, stopped: bool)

  const Idle: ShellState := ShellState([], 0, false)

  /** One iteration of the read loop. */
  function Step(sh: ShellState, read: Read): ShellState
  {
    match Decide(read)
    case Prompt => sh
    case Quit => if sh.depth == 0 then sh.(stopped := true) else sh.(depth := sh.depth - 1)
    case Launch(line) =>
      sh.(forked := sh.forked + [line], depth := if Tokens(line, PipeChars) == [] then sh.depth + 1 else sh.depth)
  }

  /** The loop over a sequence of reads; nothing is read after the loop stopped. */
  function ShellRun(sh: ShellState, inputs: seq<Read>): ShellState
    decreases |inputs|
  {
    if inputs == [] || sh.stopped then sh else ShellRun(Step(sh, inputs[0]), inputs[1..])
  }

  /**
   * The loop in `main`, fed the results of successive `fgets` calls. When the
   * reads run out before an `exit`, the real loop would keep prompting.
   */
  method RunShell(inputs: seq<Read>) returns (sh: ShellState)
    ensures sh == ShellRun(Idle, inputs)
  {
    sh := Idle;
    var i := 0;
    while i < |inputs|
      invariant 0 <= i <= |inputs|
      invariant !sh.stopped
      invariant ShellRun(sh, inputs[i..]) == ShellRun(Idle, inputs)
    {
      ShellRunStep(sh, inputs, i);
      var r, commandLine := GetCmdLine(inputs[i]);
      DecideMatchesIntake(inputs[i], r, commandLine);
      i := i + 1;
      if r == -1 {
        continue;
      }
      if commandLine == ExitWord {
        if sh.depth == 0 {
          sh := sh.(stopped := true);
          return;
        }
        sh := sh.(depth := sh.depth - 1);
        continue;
      }
      sh := sh.(forked := sh.forked + [commandLine],
                depth := if Tokens(commandLine, PipeChars) == [] then sh.depth + 1 else sh.depth);
    }
    assert inputs[i..] == [];
  }

  /** One turn of the loop at read `i`. */
  lemma ShellRunStep(sh: ShellState, inputs: seq<Read>, i: nat)
    requires i < |inputs| && !sh.stopped
    ensures ShellRun(sh, inputs[i..]) == ShellRun(Step(sh, inputs[i]), inputs[i + 1..])
    ensures Step(sh, inputs[i]).stopped ==> ShellRun(sh, inputs[i..]) == Step(sh, inputs[i])
  {
    assert inputs[i..][0] == inputs[i];
    assert inputs[i..][1..] == inputs[i + 1..];
  }

  /** Reading `a` then `b` is reading `a` and continuing from where it left off. */
  lemma {:induction false} ShellRunAppend(sh: ShellState, a: seq<Read>, b: seq<Read>)
    ensures ShellRun(sh, a + b) == ShellRun(ShellRun(sh, a), b)
    decreases |a|
  {
    if a != [] && !sh.stopped {
      assert (a + b)[1..] == a[1..] + b;
      ShellRunAppend(Step(sh, a[0]), a[1..], b);
    } else if a == [] {
      assert a + b == b;
    }
  }

  /** A failed read or a blank line changes nothing: no fork, no exit. */
  lemma PromptLinesIgnored(sh: ShellState, a: seq<Read>, r: Read, b: seq<Read>)
    requires Decide(r) == Prompt
    ensures ShellRun(sh, a + [r] + b) == ShellRun(sh, a + b)
  {
    ShellRunAppend(sh, a, [r] + b);
    assert a + [r] + b == a + ([r] + b);
    ShellRunAppend(sh, a, b);
    assert ([r] + b)[1..] == b;
  }

  /** The line a read launches, if any. */
  function Launched(read: Read): seq<string>
  {
    match Decide(read)
    case Launch(line) => [line]
    case _ => []
  }

  /** The lines launched by a sequence of reads, in order. */
  function LaunchedLines(inputs: seq<Read>): seq<string>
  {
    if inputs == [] then [] else Launched(inputs[0]) + LaunchedLines(inputs[1..])
  }

  lemma StepForks(sh: ShellState, read: Read)
    ensures Step(sh, read).forked == sh.forked + Launched(read)
    ensures Step(sh, read).stopped <==> sh.stopped || (Decide(read) == Quit && sh.depth == 0)
  {
  }

  /** How many reads the loop consumes before it stops (all of them when it does not). */
  function Consumed(sh: ShellState, inputs: seq<Read>): (m: nat)
    ensures m <= |inputs|
    ensures sh.stopped ==> m == 0
    decreases |inputs|
  {
    if inputs == [] || sh.stopped then 0 else 1 + Consumed(Step(sh, inputs[0]), inputs[1..])
  }

  /**
   * Exactly one fork per launched line: the forked lines are the lines
   * launched by the reads the loop consumed, in order.
   */
  lemma {:induction false} ForkedAreLaunchedLines(sh: ShellState, inputs: seq<Read>)
    ensures ShellRun(sh, inputs).forked == sh.forked + LaunchedLines(inputs[..Consumed(sh, inputs)])
    decreases |inputs|
  {
    if inputs == [] || sh.stopped {
      assert inputs[..0] == [];
      return;
    }
    var next := Step(sh, inputs[0]);
    StepForks(sh, inputs[0]);
    ForkedAreLaunchedLines(next, inputs[1..]);
    var m := Consumed(sh, inputs);
    var m' := Consumed(next, inputs[1..]);
    assert m == m' + 1;
    assert inputs[..m][0] == inputs[0];
    assert inputs[..m][1..] == inputs[1..][..m'];
  }

  /**
   * The loop consumes every read unless it stops, and it stops only right
   * after an `exit`.
   */
  lemma {:induction false} StopsOnlyAfterExit(sh: ShellState, inputs: seq<Read>)
    requires !sh.stopped
    ensures !ShellRun(sh, inputs).stopped ==> Consumed(sh, inputs) == |inputs|
    ensures ShellRun(sh, inputs).stopped ==>
      0 < Consumed(sh, inputs) && Decide(inputs[Consumed(sh, inputs) - 1]) == Quit
    decreases |inputs|
  {
    if inputs == [] {
      return;
    }
    var next := Step(sh, inputs[0]);
    StepForks(sh, inputs[0]);
    assert ShellRun(sh, inputs) == ShellRun(next, inputs[1..]);
    assert Consumed(sh, inputs) == 1 + Consumed(next, inputs[1..]);
    if !next.stopped {
      StopsOnlyAfterExit(next, inputs[1..]);
      var m' := Consumed(next, inputs[1..]);
      if m' > 0 {
        assert inputs[m'] == inputs[1..][m' - 1];
      }
    }
  }

  /**
   * A line of only `|` leaves a nested shell reading: the next `exit` ends
   * that nested shell and the loop goes on; a second `exit` stops it.
   */
  lemma NestedShellNeedsSecondExit()
    ensures ShellRun(Idle, [Some("|\n"), Some("exit\n")]) == ShellState(["|"], 0, false)
    ensures ShellRun(Idle, [Some("|\n"), Some("exit\n"), Some("exit\n")]) == ShellState(["|"], 0, true)
  {
    assert "|\n"[..1] == "|";
    assert !IsBlank("|") by { assert "|"[0] != ' '; }
    assert Tokens("|", PipeChars) == [] by { TokensEmpty("|", PipeChars); }
    assert Decide(Some("|\n")) == Launch("|");
    assert "exit\n"[..4] == ExitWord;
    assert !IsBlank(ExitWord) by { assert ExitWord[0] != ' '; }
    assert Decide(Some("exit\n")) == Quit;
    var one := ShellState(["|"], 1, false);
    assert Step(Idle, Some("|\n")) == one;
    assert [Some("|\n"), Some("exit\n")][1..] == [Some("exit\n")];
    assert [Some("|\n"), Some("exit\n"), Some("exit\n")][1..] == [Some("exit\n"), Some("exit\n")];
    assert [Some("exit\n"), Some("exit\n")][1..] == [Some("exit\n")];
    assert [Some("exit\n")][1..] == [];
  }
}
