/**
 * Redirection inside one pipe segment: `set_all_null`, and
 * `handle_redirection`, which scans the argument slots for `<` and `>`,
 * opens the file named by the following slot, binds it to standard input or
 * output, and overwrites the marker slot with NULL.
 *
 * A process's descriptors 0 and 1 are modelled by their binding; the other
 * pipe ends it keeps open are the `spare` set. `open` is modelled by the
 * names the environment lets it open.
 */
module Redirection {
  import opened Wrappers
  import opened Tokenizer

  /** At most eight arguments per segment ... */
  const MaxArguments: nat := 8
  /** ... and one more slot for the NULL that ends the list for `execvp`. */
  const MaxArgumentsPerSegment: nat := 9

  const InputMarker: string := "<"
  const OutputMarker: string := ">"

  /** What a descriptor refers to. */
  datatype Binding = Terminal | File(name: string) | PipeRead(pipe: nat) | PipeWrite(pipe: nat)

  /** Descriptors 0 and 1, and the pipe ends open on other descriptors. */
  datatype FdTable = FdTable(stdin: Binding, stdout: Binding, spare: set<Binding>)

  /**
   * The outside world: the names `open` succeeds on for reading and for
   * writing, the programs `execvp` finds, and the stages at which `fork` fails.
   */
  datatype Env = Env(readable: set<string>, writable: set<string>, programs: set<string>, forkFails: set<nat>)

  predicate IsMarker(t: string) {
    t == InputMarker || t == OutputMarker
  }

  /** The slot after position `k`, which the marker at `k` opens; NULL after the last token. */
  function Target(toks: seq<string>, k: nat): Slot
    requires k < |toks|
  {
    if k + 1 < |toks| then Str(toks[k + 1]) else Null
  }

  /** `open` succeeds: a name (not NULL) that the environment allows. */
  predicate CanOpen(target: Slot, names: set<string>) {
    target.Str? && target.text in names
  }

  /** The marker at `k` names a file that cannot be opened. */
  predicate BadMarker(toks: seq<string>, k: nat, env: Env)
    requires k < |toks|
  {
    || (toks[k] == InputMarker && !CanOpen(Target(toks, k), env.readable))
    || (toks[k] == OutputMarker && !CanOpen(Target(toks, k), env.writable))
  }

  /** Every marker names a file that opens. */
  predicate RedirectsOk(toks: seq<string>, env: Env) {
    forall k | 0 <= k < |toks| :: !BadMarker(toks, k, env)
  }

  /** One iteration of the scan, at position `k`; None when `open` fails. */
  function RedirectAt(toks: seq<string>, k: nat, t: FdTable, env: Env): Option<FdTable>
    requires k < |toks|
  {
    if toks[k] == InputMarker then
      if CanOpen(Target(toks, k), env.readable) then Some(t.(stdin := File(toks[k + 1]))) else None
    else if toks[k] == OutputMarker then
      if CanOpen(Target(toks, k), env.writable) then Some(t.(stdout := File(toks[k + 1]))) else None
    else Some(t)
  }

  /** The bindings after scanning positions `0..i`; None once an `open` has failed. */
  function Redirect(toks: seq<string>, i: nat, fds: FdTable, env: Env): Option<FdTable>
    requires i <= |toks|
  {
    if i == 0 then Some(fds)
    else match Redirect(toks, i - 1, fds, env)
      case None => None
      case Some(t) => RedirectAt(toks, i - 1, t, env)
  }

  /** The last position before `i` holding `m`, or -1. */
  function LastIndexOf(toks: seq<string>, m: string, i: nat): (r: int)
    requires i <= |toks|
    ensures -1 <= r < i
    ensures r >= 0 ==> toks[r] == m
    ensures forall k | r < k < i :: toks[k] != m
  {
    if i == 0 then -1
    else if toks[i - 1] == m then i - 1
    else LastIndexOf(toks, m, i - 1)
  }

  /** The file named after the last `m` before `i`, if there is one. */
  function LastTarget(toks: seq<string>, m: string, i: nat): Option<string>
    requires i <= |toks|
  {
    var k := LastIndexOf(toks, m, i);
    if 0 <= k && k + 1 < |toks| then Some(toks[k + 1]) else None
  }

  /** A descriptor bound to the named file, or left as `dflt`. */
  function BindTo(name: Option<string>, dflt: Binding): Binding {
    match name
    case Some(f) => File(f)
    case None => dflt
  }

  /** The scan fails exactly when some marker it passed names a file that cannot be opened. */
  lemma {:induction false} RedirectFailsIff(toks: seq<string>, i: nat, fds: FdTable, env: Env)
    requires i <= |toks|
    ensures Redirect(toks, i, fds, env).None? <==> exists k | 0 <= k < i :: BadMarker(toks, k, env)
  {
    if i > 0 {
      RedirectFailsIff(toks, i - 1, fds, env);
      if Redirect(toks, i - 1, fds, env).None? {
        var k :| 0 <= k < i - 1 && BadMarker(toks, k, env);
        assert 0 <= k < i;
      } else {
        var t := Redirect(toks, i - 1, fds, env).value;
        assert Redirect(toks, i, fds, env) == RedirectAt(toks, i - 1, t, env);
        assert RedirectAt(toks, i - 1, t, env).None? <==> BadMarker(toks, i - 1, env);
        assert forall k | 0 <= k < i - 1 :: !BadMarker(toks, k, env);
        if !BadMarker(toks, i - 1, env) {
          assert forall k | 0 <= k < i :: !BadMarker(toks, k, env);
        }
      }
    }
  }

  /**
   * On success the last marker of each direction wins: stdin is the file
   * after the last `<`, stdout the file after the last `>`, each left as it
   * was when there is no such marker; no other descriptor changes.
   */
  lemma {:induction false} RedirectLastWins(toks: seq<string>, i: nat, fds: FdTable, env: Env)
    requires i <= |toks|
    requires Redirect(toks, i, fds, env).Some?
    ensures Redirect(toks, i, fds, env).value.stdin == BindTo(LastTarget(toks, InputMarker, i), fds.stdin)
    ensures Redirect(toks, i, fds, env).value.stdout == BindTo(LastTarget(toks, OutputMarker, i), fds.stdout)
    ensures Redirect(toks, i, fds, env).value.spare == fds.spare
  {
    if i > 0 {
      RedirectLastWins(toks, i - 1, fds, env);
    }
  }

  /** What `handle_redirection` leaves in a token's slot. */
  function Scrub(tok: string): Slot {
    if IsMarker(tok) then Null else Str(tok)
  }

  /** The position of the first marker, or the number of tokens if there is none. */
  function FirstMarker(toks: seq<string>): (r: nat)
    ensures r <= |toks|
    ensures forall k | 0 <= k < r :: !IsMarker(toks[k])
    ensures r < |toks| ==> IsMarker(toks[r])
  {
    if toks == [] || IsMarker(toks[0]) then 0 else 1 + FirstMarker(toks[1..])
  }

  /** The argument list the program receives: the tokens before the first marker. */
  function ProgramArgs(toks: seq<string>): seq<string> {
    toks[..FirstMarker(toks)]
  }

  /** The list `execvp` reads from an argument array: the slots up to the first NULL. */
  function Argv(slots: seq<Slot>): (args: seq<string>)
    ensures |args| <= |slots|
    ensures forall k | 0 <= k < |args| :: slots[k] == Str(args[k])
    ensures |args| < |slots| ==> slots[|args|] == Null
  {
    if slots == [] || slots[0] == Null then [] else [slots[0].text] + Argv(slots[1..])
  }

  /**
   * After the rewriting, and with the NULL the segment code stores after the
   * last token, `execvp` sees exactly the tokens before the first marker:
   * file names and everything after the first marker are dropped.
   */
  lemma ArgvStopsAtFirstMarker(slots: seq<Slot>, toks: seq<string>)
    requires |toks| < |slots|
    requires forall k | 0 <= k < |toks| :: slots[k] == Scrub(toks[k])
    requires slots[|toks|] == Null
    ensures Argv(slots) == ProgramArgs(toks)
  {
    var f := FirstMarker(toks);
    forall k | 0 <= k < f
      ensures slots[k] == Str(toks[..f][k])
    {
      assert slots[k] == Scrub(toks[k]);
    }
    assert slots[f] == Null by {
      if f < |toks| {
        assert slots[f] == Scrub(toks[f]);
      }
    }
    ArgvIs(slots, toks[..f]);
  }

  /** `execvp` reads `args` when the slots hold them and a NULL follows. */
  lemma {:induction false} ArgvIs(slots: seq<Slot>, args: seq<string>)
    requires |args| < |slots|
    requires forall k | 0 <= k < |args| :: slots[k] == Str(args[k])
    requires slots[|args|] == Null
    ensures Argv(slots) == args
    decreases |args|
  {
    if args != [] {
      assert slots[0] == Str(args[0]);
      ArgvIs(slots[1..], args[1..]);
      assert args == [args[0]] + args[1..];
    }
  }

  /** `set_all_null`: the first `n` slots become NULL. */
  method SetAllNull(arguments: array<Slot>, n: nat)
    requires n <= arguments.Length
    modifies arguments
    ensures forall k | 0 <= k < n :: arguments[k] == Null
    ensures forall k | n <= k < arguments.Length :: arguments[k] == old(arguments[k])
  {
    for i := 0 to n
      invariant forall k | 0 <= k < i :: arguments[k] == Null
      invariant forall k | i <= k < arguments.Length :: arguments[k] == old(arguments[k])
    {
      arguments[i] := Null;
    }
  }

  /**
   * `handle_redirection` on the slots `read_tokens` filled with `toks`,
   * starting from the bindings `fds`. None stands for `exit(1)` after a
   * failed `open`; otherwise the new bindings, with every marker slot NULL
   * and every other slot unchanged.
   */
  method HandleRedirection(arguments: array<Slot>, numArguments: nat, fds: FdTable, env: Env, ghost toks: seq<string>)
    returns (res: Option<FdTable>)
    requires numArguments < arguments.Length
    requires |toks| == numArguments
    requires forall k | 0 <= k < numArguments :: arguments[k] == Str(toks[k])
    requires arguments[numArguments] == Null
    modifies arguments
    ensures res == Redirect(toks, numArguments, fds, env)
    ensures res.Some? ==> forall k | 0 <= k < numArguments :: arguments[k] == Scrub(toks[k])
    ensures forall k | numArguments <= k < arguments.Length :: arguments[k] == old(arguments[k])
  {
    var cur := fds;
    for i := 0 to numArguments
      invariant Redirect(toks, i, fds, env) == Some(cur)
      invariant forall k | 0 <= k < i :: arguments[k] == Scrub(toks[k])
      invariant forall k | i <= k < arguments.Length :: arguments[k] == old(arguments[k])
    {
      if arguments[i] == Str(InputMarker) {
        var inputFile := arguments[i + 1];
        assert inputFile == Target(toks, i);
        if !CanOpen(inputFile, env.readable) {
          assert BadMarker(toks, i, env);
          RedirectFailsIff(toks, numArguments, fds, env);
          return None;
        }
        cur := cur.(stdin := File(inputFile.text));
        arguments[i] := Null;
      } else if arguments[i] == Str(OutputMarker) {
        var outputFile := arguments[i + 1];
        assert outputFile == Target(toks, i);
        if !CanOpen(outputFile, env.writable) {
          assert BadMarker(toks, i, env);
          RedirectFailsIff(toks, numArguments, fds, env);
          return None;
        }
        cur := cur.(stdout := File(outputFile.text));
        arguments[i] := Null;
      }
    }
    return Some(cur);
  }
}
