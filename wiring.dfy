/**
 * What the segment loop wires up: for every stage, the descriptors its
 * program runs with, stated as reference definitions independent of the
 * loop, and the order of the pipeline process's calls.
 */
module Wiring {
  import opened Tokenizer
  import opened Redirection
  import opened Pipeline

  /** The read ends of pipes `0..i-1`. */
  function ReadEnds(i: nat): set<Binding> {
    set j: nat | j < i :: PipeRead(j)
  }

  /** A stage's stdin: its own last `<`, else pipe `i-1`'s read end, else the inherited input. */
  function ExpectedIn(segs: seq<string>, i: nat): Binding
    requires i < |segs|
  {
    var toks := StageTokens(segs[i]);
    BindTo(LastTarget(toks, InputMarker, |toks|), if i == 0 then Terminal else PipeRead(i - 1))
  }

  /** The pipeline process's stdout after segments `0..i-1`: the last `>` of the last of them that has one. */
  function OutSoFar(segs: seq<string>, i: nat): Binding
    requires i <= |segs|
  {
    if i == 0 then Terminal
    else
      var toks := StageTokens(segs[i - 1]);
      BindTo(LastTarget(toks, OutputMarker, |toks|), OutSoFar(segs, i - 1))
  }

  /** A stage's stdout: pipe `i`'s write end, except for the final stage. */
  function ExpectedOut(segs: seq<string>, i: nat): Binding
    requires i < |segs|
  {
    if i < |segs| - 1 then PipeWrite(i) else OutSoFar(segs, |segs|)
  }

  /** The other pipe ends a stage holds: earlier read ends, and its own write end twice. */
  function ExpectedSpare(segs: seq<string>, i: nat): set<Binding>
    requires i < |segs|
  {
    if i < |segs| - 1 then ReadEnds(i) + {PipeWrite(i)} else ReadEnds(i)
  }

  function ExpectedRun(segs: seq<string>, i: nat): StageRun
    requires i < |segs|
  {
    StageRun(i, ProgramArgs(StageTokens(segs[i])), FdTable(ExpectedIn(segs, i), ExpectedOut(segs, i), ExpectedSpare(segs, i)))
  }

  /** The calls for the first `m` non-final stages: pipe, fork, wait, stage after stage. */
  function ExpectedTrace(m: nat): seq<Event> {
    if m == 0 then [] else ExpectedTrace(m - 1) + [PipeCreated(m - 1), Forked(m - 1), Waited(m - 1)]
  }

  /** Stage `i`'s files open, and for a non-final stage `fork` succeeds. */
  predicate StageOk(segs: seq<string>, i: nat, env: Env)
    requires i < |segs|
  {
    RedirectsOk(StageTokens(segs[i]), env) && (i < |segs| - 1 ==> i !in env.forkFails)
  }

  predicate OkBefore(segs: seq<string>, j: nat, env: Env)
    requires j <= |segs|
  {
    forall i | 0 <= i < j :: StageOk(segs, i, env)
  }

  /** The pipeline process after `i` non-final stages have run. */
  predicate Reached(st: PState, segs: seq<string>, i: nat)
    requires i < |segs|
  {
    && st.status == Running
    && st.fds == FdTable(if i == 0 then Terminal else PipeRead(i - 1), OutSoFar(segs, i), ReadEnds(i))
    && |st.runs| == i
    && (forall j | 0 <= j < i :: st.runs[j] == ExpectedRun(segs, j))
    && st.trace == ExpectedTrace(i)
  }

  lemma RedirectSucceeds(toks: seq<string>, fds: FdTable, env: Env)
    requires RedirectsOk(toks, env)
    ensures Redirect(toks, |toks|, fds, env).Some?
    ensures Redirect(toks, |toks|, fds, env).value
         == FdTable(BindTo(LastTarget(toks, InputMarker, |toks|), fds.stdin),
                    BindTo(LastTarget(toks, OutputMarker, |toks|), fds.stdout), fds.spare)
  {
    RedirectFailsIff(toks, |toks|, fds, env);
    RedirectLastWins(toks, |toks|, fds, env);
  }

  /** While every stage so far succeeded, the loop is in the state `Reached` describes. */
  lemma {:induction false} ReachedPrefix(segs: seq<string>, env: Env, i: nat)
    requires i < |segs|
    requires OkBefore(segs, i, env)
    ensures Reached(Run(Start, segs, i, env), segs, i)
  {
    if i > 0 {
      var k := i - 1;
      ReachedPrefix(segs, env, k);
      var st := Run(Start, segs, k, env);
      var toks := StageTokens(segs[k]);
      assert StageOk(segs, k, env);
      RedirectSucceeds(toks, st.fds, env);
      var t := Redirect(toks, |toks|, st.fds, env).value;
      var piped := t.(spare := t.spare + {PipeRead(k), PipeWrite(k)});
      assert ReadEnds(k) + {PipeRead(k), PipeWrite(k)} - {PipeWrite(k)} == ReadEnds(i);
      assert ReadEnds(k) + {PipeRead(k), PipeWrite(k)} - {PipeRead(k)} == ReadEnds(k) + {PipeWrite(k)};
      var child := piped.(stdout := PipeWrite(k), spare := piped.spare - {PipeRead(k)});
      assert child == ExpectedRun(segs, k).fds;
      var next := Run(Start, segs, i, env);
      assert next == SegmentStep(st, segs[k], k, |segs|, env);
      assert next.runs == st.runs + [ExpectedRun(segs, k)];
    }
  }

  /**
   * When every `open` and `fork` succeeds, stage `j` runs with the argument
   * list and descriptors `ExpectedRun` gives, the pipeline process calls
   * pipe, fork and wait for each non-final stage in index order and then
   * `execvp` for the final one, and it becomes the final program unless that
   * program is not found.
   */
  lemma PipelineWiring(segs: seq<string>, env: Env)
    requires |segs| >= 1
    requires OkBefore(segs, |segs|, env)
    ensures |Run(Start, segs, |segs|, env).runs| == |segs|
    ensures forall j | 0 <= j < |segs| :: Run(Start, segs, |segs|, env).runs[j] == ExpectedRun(segs, j)
    ensures Run(Start, segs, |segs|, env).trace == ExpectedTrace(|segs| - 1) + [ExecCalled]
    ensures var argv := ProgramArgs(StageTokens(segs[|segs| - 1]));
            Run(Start, segs, |segs|, env).status == if Launches(argv, env) then Replaced(argv) else Exited(1)
  {
    var k := |segs| - 1;
    ReachedPrefix(segs, env, k);
    var st := Run(Start, segs, k, env);
    assert StageOk(segs, k, env);
    RedirectSucceeds(StageTokens(segs[k]), st.fds, env);
  }

  /** The number of `pipe` calls in a trace. */
  function PipesIn(trace: seq<Event>): nat {
    if trace == [] then 0 else (if trace[0].PipeCreated? then 1 else 0) + PipesIn(trace[1..])
  }

  lemma {:induction false} PipesInAppend(a: seq<Event>, b: seq<Event>)
    ensures PipesIn(a + b) == PipesIn(a) + PipesIn(b)
    decreases |a|
  {
    if a == [] {
      assert a + b == b;
    } else {
      assert (a + b)[1..] == a[1..] + b;
      PipesInAppend(a[1..], b);
    }
  }

  /**
   * The calls for `m` non-final stages: `pipe`, `fork` and `wait` for stage
   * 0, then for stage 1, and so on; `m` pipes in all.
   */
  lemma {:induction false} ExpectedTraceShape(m: nat)
    ensures |ExpectedTrace(m)| == 3 * m
    ensures PipesIn(ExpectedTrace(m)) == m
    ensures forall j | 0 <= j < m :: ExpectedTrace(m)[3 * j..3 * j + 3] == [PipeCreated(j), Forked(j), Waited(j)]
  {
    if m > 0 {
      ExpectedTraceShape(m - 1);
      var prev := ExpectedTrace(m - 1);
      var last := [PipeCreated(m - 1), Forked(m - 1), Waited(m - 1)];
      PipesInAppend(prev, last);
      assert PipesIn(last) == 1 by {
        var w: seq<Event> := [Waited(m - 1)];
        assert w[1..] == [];
        assert PipesIn(w) == 0;
        assert last[1..] == [Forked(m - 1)] + w;
        assert ([Forked(m - 1)] + w)[1..] == w;
      }
      forall j | 0 <= j < m
        ensures ExpectedTrace(m)[3 * j..3 * j + 3] == [PipeCreated(j), Forked(j), Waited(j)]
      {
        if j < m - 1 {
          assert ExpectedTrace(m)[3 * j..3 * j + 3] == prev[3 * j..3 * j + 3];
        } else {
          assert ExpectedTrace(m)[3 * j..3 * j + 3] == last;
        }
      }
    }
  }

  /** With N segments and no failure, exactly N-1 pipes are created. */
  lemma PipeCount(segs: seq<string>, env: Env)
    requires |segs| >= 1
    requires OkBefore(segs, |segs|, env)
    ensures PipesIn(Run(Start, segs, |segs|, env).trace) == |segs| - 1
  {
    PipelineWiring(segs, env);
    ExpectedTraceShape(|segs| - 1);
    PipesInAppend(ExpectedTrace(|segs| - 1), [ExecCalled]);
  }

  /** A descriptor of the table refers to `b`. */
  predicate Holds(t: FdTable, b: Binding) {
    t.stdin == b || t.stdout == b || b in t.spare
  }

  lemma {:induction false} OutSoFarNotPipe(segs: seq<string>, i: nat)
    requires i <= |segs|
    ensures OutSoFar(segs, i).Terminal? || OutSoFar(segs, i).File?
  {
    if i > 0 {
      OutSoFarNotPipe(segs, i - 1);
    }
  }

  /**
   * Descriptor discipline: pipe `k`'s write end is held by stage `k` alone,
   * so its reader sees end of file once that stage ends; the final stage,
   * which is the pipeline process itself, holds every pipe's read end.
   */
  lemma DescriptorDiscipline(segs: seq<string>, env: Env)
    requires |segs| >= 1
    requires OkBefore(segs, |segs|, env)
    ensures |Run(Start, segs, |segs|, env).runs| == |segs|
    ensures forall j: nat, k: nat | j < |segs| ::
      Holds(Run(Start, segs, |segs|, env).runs[j].fds, PipeWrite(k)) <==> j == k && k < |segs| - 1
    ensures forall k: nat | k < |segs| - 1 :: Holds(Run(Start, segs, |segs|, env).runs[|segs| - 1].fds, PipeRead(k))
  {
    PipelineWiring(segs, env);
    OutSoFarNotPipe(segs, |segs|);
  }

  /**
   * The final stage's stdout is the file after the last `>` of the last
   * segment that has one, even when that segment is not the final one.
   */
  lemma {:induction false} OutSoFarIsLastOutput(segs: seq<string>, i: nat, j: nat)
    requires j < i <= |segs|
    requires LastTarget(StageTokens(segs[j]), OutputMarker, |StageTokens(segs[j])|).Some?
    requires forall l | j < l < i :: LastTarget(StageTokens(segs[l]), OutputMarker, |StageTokens(segs[l])|).None?
    ensures OutSoFar(segs, i) == File(LastTarget(StageTokens(segs[j]), OutputMarker, |StageTokens(segs[j])|).value)
  {
    if i - 1 > j {
      OutSoFarIsLastOutput(segs, i - 1, j);
    }
  }

  /** Without any `>` in segments `0..i-1`, stdout stays the inherited one. */
  lemma {:induction false} OutSoFarInherited(segs: seq<string>, i: nat)
    requires i <= |segs|
    requires forall l | 0 <= l < i :: LastTarget(StageTokens(segs[l]), OutputMarker, |StageTokens(segs[l])|).None?
    ensures OutSoFar(segs, i) == Terminal
  {
    if i > 0 {
      OutSoFarInherited(segs, i - 1);
    }
  }

  /**
   * A failed `open` in segment `j` makes the pipeline process exit with
   * status 1 before `pipe` and `fork`: only the `j` earlier stages ran.
   */
  lemma OpenFailureStops(segs: seq<string>, env: Env, j: nat)
    requires j < |segs|
    requires OkBefore(segs, j, env)
    requires !RedirectsOk(StageTokens(segs[j]), env)
    ensures Run(Start, segs, |segs|, env).status == Exited(1)
    ensures |Run(Start, segs, |segs|, env).runs| == j
    ensures forall i | 0 <= i < j :: Run(Start, segs, |segs|, env).runs[i] == ExpectedRun(segs, i)
    ensures Run(Start, segs, |segs|, env).trace == ExpectedTrace(j) + [ExitCalled(1)]
  {
    ReachedPrefix(segs, env, j);
    var st := Run(Start, segs, j, env);
    var toks := StageTokens(segs[j]);
    RedirectFailsIff(toks, |toks|, st.fds, env);
    var next := Run(Start, segs, j + 1, env);
    assert next == SegmentStep(st, segs[j], j, |segs|, env);
    assert next.runs == st.runs && next.trace == st.trace + [ExitCalled(1)];
    HaltedStays(Start, segs, j + 1, |segs|, env);
  }

  /** A failed `fork` for non-final segment `j` exits with status 1 after its `pipe`. */
  lemma ForkFailureStops(segs: seq<string>, env: Env, j: nat)
    requires j < |segs| - 1
    requires OkBefore(segs, j, env)
    requires RedirectsOk(StageTokens(segs[j]), env) && j in env.forkFails
    ensures Run(Start, segs, |segs|, env).status == Exited(1)
    ensures |Run(Start, segs, |segs|, env).runs| == j
    ensures forall i | 0 <= i < j :: Run(Start, segs, |segs|, env).runs[i] == ExpectedRun(segs, i)
    ensures Run(Start, segs, |segs|, env).trace == ExpectedTrace(j) + [PipeCreated(j), ExitCalled(1)]
  {
    ReachedPrefix(segs, env, j);
    var st := Run(Start, segs, j, env);
    RedirectSucceeds(StageTokens(segs[j]), st.fds, env);
    var next := Run(Start, segs, j + 1, env);
    assert next == SegmentStep(st, segs[j], j, |segs|, env);
    assert next.runs == st.runs && next.trace == st.trace + [PipeCreated(j), ExitCalled(1)];
    HaltedStays(Start, segs, j + 1, |segs|, env);
  }

  /**
   * `execute_command` returns to its caller exactly when the line has no
   * segment (only `|` characters): with a segment the pipeline process
   * always ends in `exit` or `execvp`.
   */
  lemma ReturnsOnlyWithoutSegments(segs: seq<string>, env: Env)
    ensures Run(Start, segs, |segs|, env).status.Running? <==> segs == []
  {
    if segs != [] {
      var k := |segs| - 1;
      if !Run(Start, segs, k, env).status.Running? {
        HaltedStays(Start, segs, k, |segs|, env);
      }
    }
  }

  /** The segments of `a > f|b`. */
  lemma SegmentsOfRedirectedFirst()
    ensures Tokens("a > f|b", PipeChars) == ["a > f", "b"]
  {
    var segs := ["a > f", "b"];
    assert Join(segs, '|') == "a > f|b";
    assert IsToken(segs[0], PipeChars);
    assert IsToken(segs[1], PipeChars);
    TokensOfJoin(segs, '|', PipeChars);
  }

  /** The arguments of `a > f`. */
  lemma ArgumentsOfRedirectedFirst()
    ensures StageTokens("a > f") == ["a", ">", "f"]
  {
    var toks := ["a", ">", "f"];
    assert Join(toks, ' ') == "a > f";
    TokensOfJoin(toks, ' ', Spaces);
  }

  lemma RedirectedFirstOk(segs: seq<string>, env: Env)
    requires |segs| == 2 && StageTokens(segs[0]) == ["a", ">", "f"] && StageTokens(segs[1]) == ["b"]
    requires "f" in env.writable && 0 !in env.forkFails
    ensures OkBefore(segs, 2, env)
  {
    var first := StageTokens(segs[0]);
    assert !BadMarker(first, 1, env) by {
      assert Target(first, 1) == Str("f");
    }
    assert RedirectsOk(first, env);
    assert StageOk(segs, 0, env);
    assert StageOk(segs, 1, env);
  }

  lemma RedirectedFirstStages(segs: seq<string>)
    requires |segs| == 2 && StageTokens(segs[0]) == ["a", ">", "f"] && StageTokens(segs[1]) == ["b"]
    ensures ExpectedRun(segs, 0) == StageRun(0, ["a"], FdTable(Terminal, PipeWrite(0), {PipeWrite(0)}))
    ensures ExpectedRun(segs, 1) == StageRun(1, ["b"], FdTable(PipeRead(0), File("f"), {PipeRead(0)}))
  {
    var first := StageTokens(segs[0]);
    assert LastIndexOf(first, InputMarker, 3) == -1;
    assert LastIndexOf(first, OutputMarker, 3) == 1;
    assert OutSoFar(segs, 2) == File("f");
    assert ProgramArgs(first) == ["a"] by { assert FirstMarker(first) == 1; }
    assert ProgramArgs(["b"]) == ["b"] by { assert FirstMarker(["b"]) == 1; }
    assert ReadEnds(0) == {};
    assert ReadEnds(1) == {PipeRead(0)} by {
      assert forall b | b in ReadEnds(1) :: b == PipeRead(0);
    }
  }

  /**
   * `a > f|b`: the `>` of the first stage does not redirect it, since its
   * stdout is pipe 0; it lingers in the pipeline process and becomes the
   * final stage's stdout, so `f` receives `b`'s output.
   */
  lemma OutputRedirectInFirstStage(env: Env)
    requires "f" in env.writable && 0 !in env.forkFails
    ensures |CommandOutcome("a > f|b", env).runs| == 2
    ensures CommandOutcome("a > f|b", env).runs[0] == StageRun(0, ["a"], FdTable(Terminal, PipeWrite(0), {PipeWrite(0)}))
    ensures CommandOutcome("a > f|b", env).runs[1] == StageRun(1, ["b"], FdTable(PipeRead(0), File("f"), {PipeRead(0)}))
  {
    SegmentsOfRedirectedFirst();
    ArgumentsOfRedirectedFirst();
    TokensOfToken("b", Spaces);
    var segs := Tokens("a > f|b", PipeChars);
    RedirectedFirstOk(segs, env);
    PipelineWiring(segs, env);
    RedirectedFirstStages(segs);
  }
}
