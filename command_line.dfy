/**
 * Line intake (`get_cmd_line` after `fgets` has filled the buffer) and the
 * three-way decision `main` takes on each line: prompt again, stop, or run
 * one pipeline.
 */
module CommandLine {
  import opened Wrappers

  /** The word that ends the read loop. */
  const ExitWord: string := "exit"

  /** What `fgets` gives: nothing on failure, otherwise at least one character. */
  type Read = r: Option<string> | r.None? || |r.value| >= 1 witness None

  /** Every character is a space; tabs do not count. */
  predicate IsBlank(s: string) {
    forall k | 0 <= k < |s| :: s[k] == ' '
  }

  /**
   * `get_cmd_line`. `read` is what `fgets` stored (None when it failed).
   * The last character is
   * deleted unconditionally, as the newline. Returns -1 on failure or when
   * the rest is all spaces, 0 otherwise, together with the remaining line.
   */
  method GetCmdLine(read: Read) returns (r: int, commandLine: string)
    ensures r == 0 || r == -1
    ensures read.None? ==> r == -1
    ensures read.Some? ==> commandLine == read.value[..|read.value| - 1]
    ensures read.Some? ==> (r == -1 <==> IsBlank(commandLine))
  {
    if read.None? {
      return -1, [];
    }
    var n := |read.value| - 1;
    commandLine := read.value[..n];
    var i := 0;
    while i < n && commandLine[i] == ' '
      invariant 0 <= i <= n
      invariant forall k | 0 <= k < i :: commandLine[k] == ' '
    {
      i := i + 1;
    }
    if i == n {
      return -1, commandLine;
    }
    return 0, commandLine;
  }

  /** What the read loop does with one line. */
  datatype LineKind = Prompt | Quit | Launch(line: string)

  /** The branch in `main` on the result of `get_cmd_line`. */
  function Classify(r: int, commandLine: string): LineKind {
    if r == -1 then Prompt
    else if commandLine == ExitWord then Quit
    else Launch(commandLine)
  }

  /** Intake followed by classification, as one step of the read loop. */
  function Decide(read: Read): LineKind {
    match read
    case None => Prompt
    case Some(s) =>
      var line := s[..|s| - 1];
      Classify(if IsBlank(line) then -1 else 0, line)
  }

  /** `Decide` is what `GetCmdLine` followed by `Classify` computes. */
  lemma DecideMatchesIntake(read: Read, r: int, commandLine: string)
    requires r == 0 || r == -1
    requires read.None? ==> r == -1
    requires read.Some? ==> commandLine == read.value[..|read.value| - 1]
    requires read.Some? ==> (r == -1 <==> IsBlank(commandLine))
    ensures Classify(r, commandLine) == Decide(read)
  {
  }

  /**
   * The three outcomes, each stated on the characters `fgets` stored: a
   * failed read or an all-space line prompts again; the loop stops exactly
   * on `exit` followed by one last character; everything else launches the
   * line without its last character.
   */
  lemma DecideCases(s: string)
    requires |s| >= 1
    ensures Decide(None) == Prompt
    ensures Decide(Some(s)) == Prompt <==> IsBlank(s[..|s| - 1])
    ensures Decide(Some(s)) == Quit <==> s[..|s| - 1] == ExitWord
    ensures Decide(Some(s)).Launch? <==> !IsBlank(s[..|s| - 1]) && s[..|s| - 1] != ExitWord
    ensures Decide(Some(s)).Launch? ==> Decide(Some(s)).line == s[..|s| - 1]
  {
    if s[..|s| - 1] == ExitWord {
      assert s[..|s| - 1][0] == 'e';
    }
  }

  /** A line holding only a tab is content, so it launches a pipeline. */
  lemma TabLineLaunches()
    ensures Decide(Some("\t\n")) == Launch("\t")
  {
    assert "\t\n"[..1] == "\t";
    assert !IsBlank("\t") by { assert "\t"[0] != ' '; }
  }

  /** `exit` with a leading space is not the exit word. */
  lemma SpacedExitLaunches()
    ensures Decide(Some(" exit\n")) == Launch(" exit")
  {
    assert " exit\n"[..5] == " exit";
    assert !IsBlank(" exit") by { assert " exit"[1] != ' '; }
  }

  /** Without a newline the last character is still dropped. */
  lemma LastCharacterAlwaysDropped()
    ensures Decide(Some("exit")) == Launch("exi")
    ensures Decide(Some("exit!")) == Quit
  {
    assert "exit"[..3] == "exi";
    assert !IsBlank("exi") by { assert "exi"[0] != ' '; }
    assert "exit!"[..4] == "exit";
    assert !IsBlank("exit") by { assert "exit"[0] != ' '; }
  }
}
