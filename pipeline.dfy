/**
 * The pipeline process: the child `main` forks for one command line, which
 * runs `execute_command`. It splits the line on `|` and calls
 * `execute_segment` for each segment in order. A non-final segment is run by
 * a forked child writing into a fresh pipe, and the pipeline process waits
 * for it; the final segment replaces the pipeline process itself.
 *
 * Redirection is applied in the pipeline process before `pipe` and `fork`,
 * so a `>` in a non-final segment is overridden by the pipe in that
 * segment's child but stays bound to descriptor 1 of the pipeline process,
 * where the final segment inherits it.
 */
module Pipeline {
  import opened Tokenizer
  import opened Redirection

  /** At most eight pipe segments per command line. */
  const MaxPipeSegments: nat := 8

  /** Whether the pipeline process still runs the segment loop, has exited, or became a program. */
  datatype Status = Running | Exited(code: int) | Replaced(argv: seq<string>)

  /** The calls the pipeline process makes, in order. */
  datatype Event = PipeCreated(pipe: nat) | Forked(stage: nat) | Waited(stage: nat) | ExecCalled | ExitCalled(code: int)

  /** One stage's program: its index, the argument list `execvp` gets, and its descriptors. */
  datatype StageRun = StageRun(index: nat, argv: seq<string>, fds: FdTable)

  /** Everything about the pipeline process that the segment loop changes. */
  datatype PState = PState(fds: FdTable, runs: seq<StageRun>, trace: seq<Event>, status: Status)

  /** Descriptors the pipeline process inherits from the shell. */
  const Inherited: FdTable := FdTable(Terminal, Terminal, {})

  const Start: PState := PState(Inherited, [], [], Running)

  function StageTokens(segment: string): seq<string> {
    Tokens(segment, Spaces)
  }

  /**
   * `execvp` finds the program. An empty list passes a NULL program name,
   * which C leaves undefined; it is modelled as a failed `execvp`.
   */
  predicate Launches(argv: seq<string>, env: Env) {
    argv != [] && argv[0] in env.programs
  }

  /** The limits the segment code relies on: at most 8 segments of at most 8 arguments. */
  predicate WithinLimits(commandLine: string) {
    var segs := Tokens(commandLine, PipeChars);
    |segs| <= MaxPipeSegments && forall k | 0 <= k < |segs| :: |StageTokens(segs[k])| <= MaxArguments
  }

  /** `execute_segment` for segment `i` of `n`, as a change of the pipeline process's state. */
  function SegmentStep(st: PState, segment: string, i: nat, n: nat, env: Env): PState {
    var toks := StageTokens(segment);
    var argv := ProgramArgs(toks);
    match Redirect(toks, |toks|, st.fds, env)
    case None =>
      st.(trace := st.trace + [ExitCalled(1)], status := Exited(1))
    case Some(t) =>
      if i == n - 1 then
        st.(fds := t, runs := st.runs + [StageRun(i, argv, t)], trace := st.trace + [ExecCalled],
            status := if Launches(argv, env) then Replaced(argv) else Exited(1))
      else
        var piped := t.(spare := t.spare + {PipeRead(i), PipeWrite(i)});
        if i in env.forkFails then
          st.(fds := piped, trace := st.trace + [PipeCreated(i), ExitCalled(1)], status := Exited(1))
        else
          var child := piped.(stdout := PipeWrite(i), spare := piped.spare - {PipeRead(i)});
          var parent := piped.(stdin := PipeRead(i), spare := piped.spare - {PipeWrite(i)});
          st.(fds := parent, runs := st.runs + [StageRun(i, argv, child)],
              trace := st.trace + [PipeCreated(i), Forked(i), Waited(i)])
  }

  /** The state after the loop has handled segments `0..i`; `exit` and `execvp` do not return. */
  function Run(st0: PState, segs: seq<string>, i: nat, env: Env): PState
    requires i <= |segs|
  {
    if i == 0 then st0
    else
      var prev := Run(st0, segs, i - 1, env);
      if prev.status.Running? then SegmentStep(prev, segs[i - 1], i - 1, |segs|, env) else prev
  }

  /** The pipeline process for a whole command line. */
  function CommandOutcome(commandLine: string, env: Env): PState {
    var segs := Tokens(commandLine, PipeChars);
    Run(Start, segs, |segs|, env)
  }

  class PipelineProcess {
    var fds: FdTable
    var runs: seq<StageRun>
    var trace: seq<Event>
    var status: Status

    function State(): PState
      reads this
    {
      PState(fds, runs, trace, status)
    }

    /** A freshly forked pipeline process. */
    constructor ()
      ensures State() == Start
    {
      fds, runs, trace, status := Inherited, [], [], Running;
    }

    /** `execute_segment`. */
    method ExecuteSegment(segment: string, i: nat, n: nat, env: Env)
      requires |StageTokens(segment)| <= MaxArguments
      modifies this
      ensures State() == SegmentStep(old(State()), segment, i, n, env)
    {
      ghost var st := State();
      ghost var toks := StageTokens(segment);
      var arguments, numArguments := SegmentArguments(segment);
      var redirected := HandleRedirection(arguments, numArguments, fds, env, toks);
      if redirected.None? {
        trace := trace + [ExitCalled(1)];
        status := Exited(1);
        return;
      }
      var t := redirected.value;
      ArgvStopsAtFirstMarker(arguments[..], toks);
      var argv := Argv(arguments[..]);
      assert argv == ProgramArgs(toks);

      if i == n - 1 {
        fds := t;
        runs := runs + [StageRun(i, argv, t)];
        trace := trace + [ExecCalled];
        status := if Launches(argv, env) then Replaced(argv) else Exited(1);
      } else {
        var piped := t.(spare := t.spare + {PipeRead(i), PipeWrite(i)});
        if i in env.forkFails {
          fds := piped;
          trace := trace + [PipeCreated(i), ExitCalled(1)];
          status := Exited(1);
          return;
        }
        var child := piped.(stdout := PipeWrite(i), spare := piped.spare - {PipeRead(i)});
        var parent := piped.(stdin := PipeRead(i), spare := piped.spare - {PipeWrite(i)});
        fds := parent;
        runs := runs + [StageRun(i, argv, child)];
        trace := trace + [PipeCreated(i), Forked(i), Waited(i)];
      }
    }

    /** `execute_command`. */
    method ExecuteCommand(commandLine: string, env: Env)
      requires WithinLimits(commandLine)
      modifies this
      ensures State() == Run(old(State()), Tokens(commandLine, PipeChars), |Tokens(commandLine, PipeChars)|, env)
    {
      ghost var segs := Tokens(commandLine, PipeChars);
      var segments := new Slot[MaxPipeSegments];
      var numSegments := ReadTokens(segments, commandLine, PipeChars);
      var i := 0;
      while i < numSegments && status.Running?
        invariant 0 <= i <= numSegments == |segs|
        invariant forall k | 0 <= k < numSegments :: segments[k] == Str(segs[k])
        invariant State() == Run(old(State()), segs, i, env)
      {
        ExecuteSegment(segments[i].text, i, numSegments, env);
        i := i + 1;
      }
      if i < numSegments {
        HaltedStays(old(State()), segs, i, numSegments, env);
      }
    }
  }

  /**
   * The start of `execute_segment`: a 9-slot argument array set to NULL,
   * filled with the segment's tokens, with NULL stored after the last one.
   */
  method SegmentArguments(segment: string) returns (arguments: array<Slot>, numArguments: nat)
    requires |StageTokens(segment)| <= MaxArguments
    ensures fresh(arguments) && arguments.Length == MaxArgumentsPerSegment
    ensures numArguments == |StageTokens(segment)|
    ensures forall k | 0 <= k < numArguments :: arguments[k] == Str(StageTokens(segment)[k])
    ensures forall k | numArguments <= k < arguments.Length :: arguments[k] == Null
  {
    arguments := new Slot[MaxArgumentsPerSegment];
    SetAllNull(arguments, MaxArgumentsPerSegment);
    numArguments := ReadTokens(arguments, segment, Spaces);
    arguments[numArguments] := Null;
  }

  /** Once the pipeline process has exited or exec'd, later segments change nothing. */
  lemma {:induction false} HaltedStays(st0: PState, segs: seq<string>, i: nat, m: nat, env: Env)
    requires i <= m <= |segs|
    requires !Run(st0, segs, i, env).status.Running?
    ensures Run(st0, segs, m, env) == Run(st0, segs, i, env)
    decreases m
  {
    if m > i {
      HaltedStays(st0, segs, i, m - 1, env);
    }
  }
}
