/**
 * The shell's tokenizer, `read_tokens`, which calls `strtok` until it reports
 * NULL. A token is a maximal run of characters outside the delimiter set.
 * The shell tokenizes twice: the command line on `|` into pipe segments, and
 * each segment on space and tab into arguments.
 */
module Tokenizer {

  /** One `char *` slot of an argument array: NULL or a pointer to a token. */
  datatype Slot = Null | Str(text: string)

  /** The delimiters used for the arguments of one segment. */
  const Spaces: set<char> := {' ', '\t'}

  /** The delimiter used for the pipe segments of a command line. */
  const PipeChars: set<char> := {'|'}

  /** A non-empty string free of delimiters. */
  predicate IsToken(t: string, delims: set<char>) {
    t != [] && forall k | 0 <= k < |t| :: t[k] !in delims
  }

  /** Length of the run of non-delimiters at the start of `s`. */
  function Span(s: string, delims: set<char>): (n: nat)
    ensures n <= |s|
    ensures forall k | 0 <= k < n :: s[k] !in delims
    ensures n < |s| ==> s[n] in delims
  {
    if s == [] || s[0] in delims then 0 else 1 + Span(s[1..], delims)
  }

  /** The maximal runs of non-delimiters of `s`, in order. */
  function Tokens(s: string, delims: set<char>): (toks: seq<string>)
    decreases |s|
  {
    if s == [] then []
    else if s[0] in delims then Tokens(s[1..], delims)
    else
      var n := Span(s, delims);
      [s[..n]] + Tokens(s[n..], delims)
  }

  /** `s` with every delimiter character removed. */
  function Squeeze(s: string, delims: set<char>): string {
    if s == [] then []
    else (if s[0] in delims then [] else [s[0]]) + Squeeze(s[1..], delims)
  }

  /** The tokens written one after the other. */
  function Concat(toks: seq<string>): string {
    if toks == [] then [] else toks[0] + Concat(toks[1..])
  }

  /** The tokens written with one separator character between neighbours. */
  function Join(toks: seq<string>, sep: char): string {
    if toks == [] then []
    else if |toks| == 1 then toks[0]
    else toks[0] + [sep] + Join(toks[1..], sep)
  }

  lemma {:induction false} SqueezeAppend(a: string, b: string, delims: set<char>)
    ensures Squeeze(a + b, delims) == Squeeze(a, delims) + Squeeze(b, delims)
    decreases |a|
  {
    if a == [] {
      assert a + b == b;
    } else {
      assert (a + b)[0] == a[0];
      assert (a + b)[1..] == a[1..] + b;
      SqueezeAppend(a[1..], b, delims);
    }
  }

  lemma {:induction false} SqueezeOfRun(t: string, delims: set<char>)
    requires forall k | 0 <= k < |t| :: t[k] !in delims
    ensures Squeeze(t, delims) == t
    decreases |t|
  {
    if t != [] {
      SqueezeOfRun(t[1..], delims);
    }
  }

  /** Gluing the tokens back together gives the line without its delimiters. */
  lemma {:induction false} TokensConcat(s: string, delims: set<char>)
    ensures Concat(Tokens(s, delims)) == Squeeze(s, delims)
    decreases |s|
  {
    if s == [] {
    } else if s[0] in delims {
      TokensConcat(s[1..], delims);
    } else {
      var n := Span(s, delims);
      var rest := Tokens(s[n..], delims);
      assert Tokens(s, delims) == [s[..n]] + rest;
      assert ([s[..n]] + rest)[1..] == rest;
      TokensConcat(s[n..], delims);
      assert s == s[..n] + s[n..];
      SqueezeAppend(s[..n], s[n..], delims);
      SqueezeOfRun(s[..n], delims);
    }
  }

  /** Every token is non-empty and free of delimiters: `strtok` never returns an empty string. */
  lemma {:induction false} TokensAreTokens(s: string, delims: set<char>)
    ensures forall i | 0 <= i < |Tokens(s, delims)| :: IsToken(Tokens(s, delims)[i], delims)
    decreases |s|
  {
    if s == [] {
    } else if s[0] in delims {
      TokensAreTokens(s[1..], delims);
    } else {
      var n := Span(s, delims);
      TokensAreTokens(s[n..], delims);
      assert IsToken(s[..n], delims);
    }
  }

  /** A line gives no token exactly when it is empty or all delimiters. */
  lemma {:induction false} TokensEmpty(s: string, delims: set<char>)
    ensures Tokens(s, delims) == [] <==> forall k | 0 <= k < |s| :: s[k] in delims
    decreases |s|
  {
    if s != [] && s[0] in delims {
      TokensEmpty(s[1..], delims);
      assert forall k | 1 <= k < |s| :: s[k] == s[1..][k - 1];
    }
  }

  /** One delimiter character cuts a line into two independently tokenized halves. */
  lemma {:induction false} TokensSplit(a: string, c: char, b: string, delims: set<char>)
    requires c in delims
    ensures Tokens(a + [c] + b, delims) == Tokens(a, delims) + Tokens(b, delims)
    decreases |a|
  {
    if a == [] {
      SplitSlices(a, c, b, 0);
    } else if a[0] in delims {
      SplitSlices(a, c, b, 0);
      SplitSlices(a, c, b, 1);
      TokensSplit(a[1..], c, b, delims);
    } else {
      var n := Span(a, delims);
      TokensSplit(a[n..], c, b, delims);
      TokensAfterRun(a, [c] + b, delims);
      SplitSlices(a, c, b, n);
    }
  }

  /** Slicing `a + [c] + b` at a point of `a`. */
  lemma SplitSlices<T>(a: seq<T>, c: T, b: seq<T>, n: nat)
    requires n <= |a|
    ensures a + [c] + b == a + ([c] + b)
    ensures (a + [c] + b)[n..] == a[n..] + [c] + b
    ensures n < |a| ==> (a + [c] + b)[n] == a[n]
    ensures n == |a| ==> (a + [c] + b)[n] == c && (a + [c] + b)[n + 1..] == b
    ensures a[n..] + [c] + b == a[n..] + ([c] + b)
  {
  }

  /** When `a` starts with a token that ends inside it or at a delimiter, that token comes first. */
  lemma TokensAfterRun(a: string, rest: string, delims: set<char>)
    requires a != [] && a[0] !in delims
    requires Span(a, delims) < |a| || (rest != [] && rest[0] in delims)
    ensures Tokens(a + rest, delims) == [a[..Span(a, delims)]] + Tokens(a[Span(a, delims)..] + rest, delims)
  {
    var n := Span(a, delims);
    SpanAppend(a, rest, delims);
    AppendSlices(a, rest, n);
  }

  /** Slicing `a + rest` at a point inside `a`. */
  lemma AppendSlices<T>(a: seq<T>, rest: seq<T>, n: nat)
    requires 0 < n <= |a|
    ensures (a + rest)[0] == a[0]
    ensures (a + rest)[..n] == a[..n]
    ensures (a + rest)[n..] == a[n..] + rest
  {
  }

  /** A run that ends inside `a`, or where a delimiter follows `a`, is the run of `a`. */
  lemma {:induction false} SpanAppend(a: string, rest: string, delims: set<char>)
    requires Span(a, delims) < |a| || (rest != [] && rest[0] in delims)
    ensures Span(a + rest, delims) == Span(a, delims)
    decreases |a|
  {
    if a == [] {
      assert (a + rest)[0] == rest[0];
    } else {
      assert (a + rest)[0] == a[0];
      assert (a + rest)[1..] == a[1..] + rest;
      if a[0] !in delims {
        SpanAppend(a[1..], rest, delims);
      }
    }
  }

  /** A single token tokenizes to itself. */
  lemma TokensOfToken(t: string, delims: set<char>)
    requires IsToken(t, delims)
    ensures Tokens(t, delims) == [t]
  {
    assert Span(t, delims) == |t|;
    assert t[..|t|] == t;
    assert t[|t|..] == [];
  }

  /** Round trip: tokens joined by a delimiter are split back into the same tokens. */
  lemma {:induction false} TokensOfJoin(toks: seq<string>, sep: char, delims: set<char>)
    requires sep in delims
    requires forall i | 0 <= i < |toks| :: IsToken(toks[i], delims)
    ensures Tokens(Join(toks, sep), delims) == toks
    decreases |toks|
  {
    if |toks| == 1 {
      TokensOfToken(toks[0], delims);
    } else if |toks| > 1 {
      TokensSplit(toks[0], sep, Join(toks[1..], sep), delims);
      TokensOfToken(toks[0], delims);
      TokensOfJoin(toks[1..], sep, delims);
    }
  }

  /**
   * `strtok` resuming at its save pointer, modelled as the rest of the
   * string from that point: skip delimiters, take the run that follows, and
   * move the save pointer past the delimiter that ends it (where `strtok`
   * writes its NUL). NULL, with nothing left, once only delimiters remain.
   */
  function StrTok(rest: string, delims: set<char>): (r: (Slot, string))
    ensures |r.1| <= |rest|
    ensures r.0 == Null ==> r.1 == []
  {
    if rest == [] then (Null, [])
    else if rest[0] in delims then StrTok(rest[1..], delims)
    else
      var n := Span(rest, delims);
      if n < |rest| then (Str(rest[..n]), rest[n + 1..]) else (Str(rest), [])
  }

  /**
   * `strtok` hands out exactly the tokens of the rest of the string: NULL
   * when there are none, otherwise the first of them, and the tokens of
   * what it leaves are the remaining ones.
   */
  lemma {:induction false} StrTokTokens(rest: string, delims: set<char>)
    ensures StrTok(rest, delims).0 == Null <==> Tokens(rest, delims) == []
    ensures StrTok(rest, delims).0 != Null ==>
      Tokens(rest, delims) == [StrTok(rest, delims).0.text] + Tokens(StrTok(rest, delims).1, delims)
    decreases |rest|
  {
    if rest == [] {
    } else if rest[0] in delims {
      TokensSkip(rest, delims);
      StrTokTokens(rest[1..], delims);
    } else {
      TokensFirstRun(rest, delims);
      if Span(rest, delims) == |rest| {
        assert rest[..|rest|] == rest;
      }
    }
  }

  /** The first token of `x` and the tokens after the delimiter that ends it. */
  lemma TokensFirstRun(x: string, delims: set<char>)
    requires x != [] && x[0] !in delims
    ensures Tokens(x, delims)
         == [x[..Span(x, delims)]] + (if Span(x, delims) < |x| then Tokens(x[Span(x, delims) + 1..], delims) else [])
  {
    var n := Span(x, delims);
    TokensRun(x, delims);
    if n < |x| {
      SliceOfSlice(x, n, 0);
      SliceOfSlice(x, n, 1);
      TokensSkip(x[n..], delims);
    } else {
      assert x[n..] == [];
    }
  }

  /**
   * `read_tokens`: store the tokens of `line` in `argv` from slot 0 on and
   * return how many there are. The caller must provide room for all of them.
   */
  method ReadTokens(argv: array<Slot>, line: string, delims: set<char>) returns (numTokens: nat)
    requires |Tokens(line, delims)| <= argv.Length
    modifies argv
    ensures numTokens == |Tokens(line, delims)|
    ensures forall k | 0 <= k < numTokens :: argv[k] == Str(Tokens(line, delims)[k])
    ensures forall k | numTokens <= k < argv.Length :: argv[k] == old(argv[k])
  {
    ghost var all := Tokens(line, delims);
    var argc := 0;
    StrTokTokens(line, delims);
    var first := StrTok(line, delims);
    var token, rest := first.0, first.1;
    assert all[..0] == [];
    while token != Null
      invariant argc <= |all|
      invariant all == all[..argc] + (if token.Str? then [token.text] else []) + Tokens(rest, delims)
      invariant token == Null ==> Tokens(rest, delims) == []
      invariant forall k | 0 <= k < argc :: argv[k] == Str(all[k])
      invariant forall k | argc <= k < argv.Length :: argv[k] == old(argv[k])
      decreases |all| - argc
    {
      PrefixStep(all, argc, token.text, Tokens(rest, delims));
      argv[argc] := token;
      assert argv[argc] == Str(all[argc]);
      argc := argc + 1;
      StrTokTokens(rest, delims);
      var next := StrTok(rest, delims);
      token, rest := next.0, next.1;
    }
    numTokens := argc;
  }

  /** A leading delimiter is skipped. */
  lemma TokensSkip(x: string, delims: set<char>)
    requires x != [] && x[0] in delims
    ensures Tokens(x, delims) == Tokens(x[1..], delims)
  {
  }

  /** A leading run of non-delimiters is the first token. */
  lemma TokensRun(x: string, delims: set<char>)
    requires x != [] && x[0] !in delims
    ensures Tokens(x, delims) == [x[..Span(x, delims)]] + Tokens(x[Span(x, delims)..], delims)
  {
  }

  /** Slicing a suffix again. */
  lemma SliceOfSlice<T>(s: seq<T>, pos: nat, n: nat)
    requires pos + n <= |s|
    ensures n < |s| - pos ==> s[pos..][n] == s[pos + n]
    ensures s[pos..][..n] == s[pos..pos + n]
    ensures s[pos..][n..] == s[pos + n..]
  {
  }

  /** One more element of `all` is consumed. */
  lemma PrefixStep<T>(all: seq<T>, i: nat, x: T, tail: seq<T>)
    requires i <= |all|
    requires all == all[..i] + [x] + tail
    ensures i < |all| && all[i] == x
    ensures all[..i + 1] == all[..i] + [x]
    ensures all == all[..i + 1] + tail
  {
    assert all[..i + 1] == all[..i] + [x];
  }
}
