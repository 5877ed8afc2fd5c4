# A verified model of a small Unix shell's pipeline engine

This project models the core of `simplified_linux_shell.c`, a teaching shell.
It reads a line, splits it on `|` into pipe segments, and splits each segment
on spaces and tabs into arguments. It applies `<` and `>` redirection, then
runs the segments as a chain of processes joined by pipes.

The model has six modules:

- `Tokenizer` (`tokenizer.dfy`) covers `strtok` and `read_tokens`.
  - `Tokens` is the reference definition: the maximal runs of non-delimiters.
  - `StrTok` is one `strtok` call. Its save pointer is modelled as the rest
    of the string.
  - `ReadTokens` is the imperative loop over an `array` of argument slots.
- `CommandLine` (`command_line.dfy`) covers `get_cmd_line` and the three-way
  branch in `main`: prompt again, stop on `exit`, or fork.
- `Redirection` (`redirection.dfy`) covers `set_all_null` and
  `handle_redirection`, both on the argument array.
  - Descriptors 0 and 1 are modelled by what they are bound to (`Binding`).
  - The other pipe ends a process keeps open are the `spare` set.
  - `open`, `execvp` and `fork` consult an `Env`, fixed for the whole command
    line. It names the files that open, the programs that exist and the
    stages whose `fork` fails.
- `Pipeline` (`pipeline.dfy`) covers `execute_segment` and `execute_command`.
  - They are methods of the class `PipelineProcess`, the child `main` forks
    for a line.
  - Its fields hold the descriptor table, the stages launched so far, the
    sequence of `pipe`/`fork`/`wait`/`execvp`/`exit` calls, and whether it
    still runs the loop.
  - Each method is proved against the state function `SegmentStep` or `Run`.
- `Wiring` (`wiring.dfy`) states what every stage ends up connected to, by
  definitions independent of the loop, and proves the loop meets them.
- `Shell` (`shell.dfy`) covers the read loop of `main`, including the nested
  shell described below.

Behaviour the model follows from the code:

- **A `>` in a non-final segment is overridden by the pipe, but it is not
  lost.**
  - Redirection happens in the pipeline process before `pipe` and `fork`.
    The child of a non-final stage then points its stdout at the pipe.
    The pipeline process keeps the file on descriptor 1.
  - So in `a > f | b`, the file `f` receives `b`'s output, and `a` writes
    into the pipe (`Wiring.OutputRedirectInFirstStage`).
- **A marker with no file name ends the pipeline process.**
  - A `<` or `>` as the last token makes `open(NULL)`, which fails, so the
    pipeline process calls `exit(1)`.
  - Stages launched before it have already run.
  - The shell's loop goes on.
- **A line of only `|` characters starts a nested shell.**
  - Such a line has no segment, so `execute_command` returns in the forked
    child. That child then carries on with `main`'s loop, reading the
    following lines while its parent waits.
  - The next `exit` ends that nested shell, not the shell that was started.
- **`get_cmd_line` always drops the last character**, newline or not.
- **Only spaces make a line blank.** A line holding a tab is run as a
  command.
- **Each non-final stage keeps every earlier pipe's read end open.** So does
  the final stage, which holds them all.
  - Each pipe's write end is held only by the stage that writes to it.
  - So a reader still sees end of file once its writer ends.
- **An empty argument list reaches `execvp` when a segment starts with `<`
  or `>`.**
  - In a non-final segment that happens in the forked child. The pipeline
    process waits for the child and goes on to the next segment.
  - In the final segment it happens in the pipeline process itself, with a
    NULL program name. The model counts that as a failed `execvp`, which
    ends in exit status 1.

## Model

| member | source | states |
|---|---|---|
| Tokenizer.Span | simplified_linux_shell.c:90-94 | the run `strtok` returns is at most the rest of the string, holds no delimiter, and is followed by a delimiter or the end |
| Tokenizer.TokensAreTokens | simplified_linux_shell.c:87-97 | every token `read_tokens` stores is non-empty and free of delimiters |
| Tokenizer.TokensConcat | simplified_linux_shell.c:87-97 | the tokens written back to back are exactly the line with its delimiters removed: nothing else is lost, added or reordered |
| Tokenizer.TokensEmpty | simplified_linux_shell.c:90-91 | a line yields no token exactly when every character is a delimiter |
| Tokenizer.TokensSplit | simplified_linux_shell.c:87-97 | a delimiter cuts a line into two halves that tokenize independently |
| Tokenizer.TokensOfToken | simplified_linux_shell.c:87-97 | a delimiter-free non-empty string is its own single token |
| Tokenizer.TokensOfJoin | simplified_linux_shell.c:87-97 | round trip: joining tokens with one delimiter and tokenizing gives the tokens back |
| Tokenizer.StrTokTokens | simplified_linux_shell.c:90-94 | `strtok` returns NULL exactly when no token is left; otherwise it returns the first token, and what it leaves tokenizes to the remaining ones |
| Tokenizer.ReadTokens | simplified_linux_shell.c:87-97 | stores the line's tokens in slots 0.. in order, returns their count, and leaves the other slots unchanged |
| CommandLine.GetCmdLine | simplified_linux_shell.c:56-75 | -1 on a failed read; otherwise it drops the last character and returns -1 exactly when the rest is all spaces, 0 otherwise |
| CommandLine.DecideMatchesIntake | simplified_linux_shell.c:240-246 | what `main` does with a line is fixed by `get_cmd_line`'s result and the line |
| CommandLine.DecideCases | simplified_linux_shell.c:240-246 | a failed read or an all-space line prompts again; the loop stops exactly on `exit` plus one final character; anything else is forked with its last character removed |
| CommandLine.TabLineLaunches | simplified_linux_shell.c:65-73 | a tab-only line is not blank and is run |
| CommandLine.SpacedExitLaunches | simplified_linux_shell.c:243-246 | ` exit` with a leading space does not stop the loop |
| CommandLine.LastCharacterAlwaysDropped | simplified_linux_shell.c:62-63 | the last character is removed even when it is not a newline |
| Redirection.SetAllNull | simplified_linux_shell.c:112-117 | the first `n` slots become NULL and no other slot changes |
| Redirection.HandleRedirection | simplified_linux_shell.c:120-159 | the result equals the left-to-right scan `Redirect`; on success every marker slot is NULL and every other slot keeps its token; slots past the tokens are untouched |
| Redirection.RedirectFailsIff | simplified_linux_shell.c:123-150 | the scan fails (exit 1) exactly when some `<` or `>` names a file that cannot be opened, including a marker with no file after it |
| Redirection.RedirectLastWins | simplified_linux_shell.c:121-157 | when the scan succeeds, stdin is the file after the last `<` and stdout the file after the last `>`, each defaulting to the binding it had; other descriptors are unchanged |
| Redirection.ArgvIs | simplified_linux_shell.c:177 | `execvp` reads the slots up to the first NULL |
| Redirection.ArgvStopsAtFirstMarker | simplified_linux_shell.c:162-177 | after redirection the program receives exactly the tokens before the first marker |
| Pipeline.SegmentArguments | simplified_linux_shell.c:162-167 | a new nine-slot array holding the segment's tokens in order, NULL everywhere after them |
| Pipeline.PipelineProcess.constructor | simplified_linux_shell.c:248-252 | the forked pipeline process starts with the shell's descriptors, no stage run and no call made |
| Pipeline.PipelineProcess.ExecuteSegment | simplified_linux_shell.c:161-210 | the new state is `SegmentStep` of the old one: exit 1 on a failed open; `execvp` for the final segment; otherwise `pipe`, then a failed `fork` exits 1, or the child gets the pipe's write end as stdout and the parent takes its read end as stdin and waits |
| Pipeline.PipelineProcess.ExecuteCommand | simplified_linux_shell.c:213-223 | the new state is `Run` over the `|` segments in order, stopping at the first `exit` or `execvp` |
| Pipeline.HaltedStays | simplified_linux_shell.c:175-208 | once the pipeline process has exited or replaced itself, later segments change nothing |
| Wiring.ReachedPrefix | simplified_linux_shell.c:182-203 | while every open and fork succeeds, after `i` non-final stages stdin is pipe `i-1`'s read end and stdout the last `>` so far, with the `i` stages launched as expected |
| Wiring.PipelineWiring | simplified_linux_shell.c:161-223 | with every open and fork succeeding, stage `j` runs with the arguments before its first marker, stdin from its last `<` else pipe `j-1` else the terminal, stdout to pipe `j` or for the final stage the last `>` of any segment, and the calls are pipe/fork/wait per non-final stage, then `execvp` |
| Wiring.ExpectedTraceShape | simplified_linux_shell.c:184-202 | for `m` stages the calls are `pipe`, `fork`, `wait` for stage 0, then stage 1, and so on, with `m` pipes |
| Wiring.PipeCount | simplified_linux_shell.c:184 | a pipeline of N segments creates exactly N-1 pipes |
| Wiring.DescriptorDiscipline | simplified_linux_shell.c:187-202 | pipe `k`'s write end is held by stage `k` alone, and the final stage holds every pipe's read end |
| Wiring.OutSoFarIsLastOutput | simplified_linux_shell.c:140-157 | the final stage's stdout is the file of the last `>` in the last segment that has one, even when that segment is not the final one |
| Wiring.OutSoFarInherited | simplified_linux_shell.c:172-177 | without any `>`, the final stage writes to the inherited stdout |
| Wiring.OpenFailureStops | simplified_linux_shell.c:126-150 | a failed open in segment `j` exits with status 1 before its pipe and fork, after exactly the `j` earlier stages |
| Wiring.ForkFailureStops | simplified_linux_shell.c:204-208 | a failed fork for segment `j` exits with status 1 after its pipe, after exactly the `j` earlier stages |
| Wiring.ReturnsOnlyWithoutSegments | simplified_linux_shell.c:213-223 | `execute_command` returns to `main` exactly when the line has no segment |
| Wiring.OutputRedirectInFirstStage | simplified_linux_shell.c:172-201 | in `a > f|b`, `a` writes into pipe 0 and `b` writes to `f` |
| Shell.RunShell | simplified_linux_shell.c:237-260 | the loop's outcome on a sequence of reads is `ShellRun` of them |
| Shell.ShellRunAppend | simplified_linux_shell.c:237-260 | reading `a` then `b` is reading `a`, then going on from where it left off |
| Shell.PromptLinesIgnored | simplified_linux_shell.c:240-241 | a failed read or blank line can be removed from the input without changing anything |
| Shell.ForkedAreLaunchedLines | simplified_linux_shell.c:248-257 | one fork per launched line: the lines forked are, in order, those launched by the reads the loop consumed |
| Shell.StopsOnlyAfterExit | simplified_linux_shell.c:243-246 | the loop consumes every read unless it stops, and it stops only right after an `exit` |
| Shell.NestedShellNeedsSecondExit | simplified_linux_shell.c:249-253 | after a line of only `|`, the first `exit` ends the nested shell and only a second one stops the loop |

## Left out

- Terminal I/O is not modelled: the prompt, the start and end banners, `perror` messages and `process_cmd` (which does nothing).
- `fgets` itself is not modelled. A read is given as the characters it stored. So a line longer than 255 characters, split across two reads, is not modelled as one line.
- The SIGINT handler is not modelled. It prints and exits, which is asynchronous and outside the loop.
- Real descriptor numbers and `dup2`/`close` effects on them are not modelled, and neither are permission bits or the missing `O_TRUNC` on output files. The model keeps each descriptor's binding instead.
- Data through pipes is not modelled: buffering, blocking, and what a stage reads or writes. The model proves who holds each pipe end.
- `pipe()` failure is left out. The source does not check its result.
- A failed `fork` in `main` is left out. The source treats it like the parent and calls `wait`.
- The model launches every line it forks for.
- Exit statuses are not modelled. `wait(0)` discards them, so the shell never observes them.
- `strtok` writing NUL characters into the line is not modelled, and neither is the aliasing of the token pointers with the line buffer. The model stores tokens as copied strings.
- Duplicated stdio buffers in a nested shell are not modelled.
- Interleaving with the parent shell is not modelled.
- More than 8 segments, or more than 8 arguments in one segment, are excluded by preconditions (`WithinLimits`, `ExecuteSegment`). The source's fixed arrays would overflow there.
  - `WithinLimits` imposes the argument limit on every segment of the line. That includes segments the source never tokenizes, because an earlier stage already exited. An example is `cat < missing | a b c d e f g h i`, which the model does not cover.
- Pipeline.Launches: `execvp` with an empty argument list receives a NULL program name, which is undefined behaviour in C (a real C library may crash on it). The model treats it as a failed `execvp` that exits with status 1 (`Exited(1)`).
- Outcomes of `open`, `execvp` and `fork` come from one fixed `Env` per command line, so they do not change over time. A stage's program that creates, removes or changes a file or program (for example `rm f < f | cat < f`) cannot change what a later segment's `open` or `execvp` sees.
- CommandLine.GetCmdLine: takes the length of the read where the source uses `strlen`. A NUL character inside a read is not modelled: the source would cut the line at it.
