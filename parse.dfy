/**
 * `ParseInput` (smallsh.c:147-164): expand `$$`, then split the line into
 * arguments with `strtok(line, " ")`, keeping at most MAX_NUMBER_ARG of them.
 */
module Parse {
  import opened Wrappers
  import opened Decimal
  import opened PidExpansion

  /** MAX_NUMBER_ARG */
  const MaxNumberArg := 512

  /** A token as `strtok` returns it: never empty, never containing the delimiter. */
  predicate IsToken(t: string) { |t| > 0 && ' ' !in t }

  /** One `strtok` call: the next token and the text after it, or none when only spaces remain. */
  datatype Cut = Cut(token: string, rest: string)

  /** Length of the run of non-space characters at the front of `s`. */
  function RunLength(s: string): (k: nat)
    ensures k <= |s|
    ensures forall i :: 0 <= i < k ==> s[i] != ' '
    ensures k < |s| ==> s[k] == ' '
  {
    if s == [] || s[0] == ' ' then 0 else 1 + RunLength(s[1..])
  }

  /** `strtok` with delimiter " ": skip leading spaces, take the run, step over one delimiter. */
  function NextToken(s: string): (c: Option<Cut>)
    ensures c.Some? ==> IsToken(c.value.token) && |c.value.rest| < |s|
    decreases |s|
  {
    if s == [] then None
    else if s[0] == ' ' then NextToken(s[1..])
    else
      var k := RunLength(s);
      Some(Cut(s[..k], if k < |s| then s[k + 1..] else []))
  }

  /** `strtok` finds no token exactly when only spaces remain. */
  lemma {:induction false} NoTokenOnlySpaces(s: string)
    ensures NextToken(s).None? <==> forall i :: 0 <= i < |s| ==> s[i] == ' '
    decreases |s|
  {
    if s != [] && s[0] == ' ' {
      NoTokenOnlySpaces(s[1..]);
      assert forall i :: 1 <= i < |s| ==> s[i] == s[1..][i - 1];
    }
  }

  /** All tokens `strtok` yields for `s`, in order. */
  function Tokens(s: string): (ts: seq<string>)
    ensures forall i :: 0 <= i < |ts| ==> IsToken(ts[i])
    decreases |s|
  {
    match NextToken(s)
    case None => []
    case Some(c) => [c.token] + Tokens(c.rest)
  }

  /** The tokens separated by single spaces. */
  function JoinSpaces(ts: seq<string>): string
  {
    if ts == [] then "" else if |ts| == 1 then ts[0] else ts[0] + " " + JoinSpaces(ts[1..])
  }

  /** Leading spaces never change the tokens. */
  lemma {:induction false} LeadingSpaces(n: nat, s: string)
    ensures Tokens(seq(n, _ => ' ') + s) == Tokens(s)
  {
    if n > 0 {
      var p := seq(n, _ => ' ');
      assert (p + s)[1..] == seq(n - 1, _ => ' ') + s;
      LeadingSpaces(n - 1, s);
    } else {
      assert seq(n, _ => ' ') + s == s;
    }
  }

  /** Splitting a space-joined list of tokens gives the list back. */
  lemma {:induction false} SplitJoinRoundTrip(ts: seq<string>)
    requires forall i :: 0 <= i < |ts| ==> IsToken(ts[i])
    ensures Tokens(JoinSpaces(ts)) == ts
  {
    if |ts| == 1 {
      NextTokenOfToken(ts[0], "");
      assert JoinSpaces(ts) == ts[0] + "";
    } else if |ts| > 1 {
      var tail := " " + JoinSpaces(ts[1..]);
      NextTokenOfToken(ts[0], tail);
      assert JoinSpaces(ts) == ts[0] + tail;
      assert tail[1..] == JoinSpaces(ts[1..]);
      SplitJoinRoundTrip(ts[1..]);
    }
  }

  /** `strtok` on a token followed by a space (or nothing) returns that token. */
  lemma NextTokenOfToken(t: string, tail: string)
    requires IsToken(t)
    requires tail == [] || tail[0] == ' '
    ensures NextToken(t + tail) == Some(Cut(t, if tail == [] then [] else tail[1..]))
  {
    RunLengthOfToken(t, tail);
    assert (t + tail)[0] == t[0];
    if tail != [] {
      assert (t + tail)[|t| + 1..] == tail[1..];
    }
  }

  /** The run at the front of a token followed by a space (or nothing) is the token. */
  lemma {:induction false} RunLengthOfToken(t: string, tail: string)
    requires IsToken(t)
    requires tail == [] || tail[0] == ' '
    ensures RunLength(t + tail) == |t|
    ensures (t + tail)[..|t|] == t
    decreases |t|
  {
    assert (t + tail)[1..] == t[1..] + tail;
    if |t| > 1 {
      RunLengthOfToken(t[1..], tail);
    } else {
      assert t[1..] + tail == tail;
    }
  }

  /** The tokens after `strtok` has produced `c`. */
  function Pending(c: Option<Cut>): seq<string>
    decreases match c case None => 0 case Some(x) => |x.rest| + 1
  {
    match c
    case None => []
    case Some(x) => [x.token] + Tokens(x.rest)
  }

  /** Taking the current token moves it from the pending tokens to the vector. */
  lemma PendingStep(argv: seq<string>, c: Option<Cut>)
    requires c.Some?
    ensures argv + Pending(c) == (argv + [c.value.token]) + Pending(NextToken(c.value.rest))
  {
    assert Pending(c) == [c.value.token] + Pending(NextToken(c.value.rest));
  }

  /**
   * `ParseInput`: the expanded line's tokens, at most MAX_NUMBER_ARG of them.
   * The NULL terminator is not stored; the argument vector ends with the sequence.
   */
  method ParseInput(line: string, pid: nat) returns (argv: seq<string>)
    ensures var all := Tokens(Expand(line, NatToDecimal(pid)));
            argv == if |all| <= MaxNumberArg then all else all[..MaxNumberArg]
    ensures |argv| <= MaxNumberArg
  {
    var expanded := ExpandPID(line, pid);
    var tok := NextToken(expanded);
    var index := 0;
    argv := [];
    while tok.Some? && index < MaxNumberArg
      invariant index == |argv| <= MaxNumberArg
      invariant argv + Pending(tok) == Tokens(expanded)
      decreases match tok case None => 0 case Some(x) => |x.rest| + 1
    {
      PendingStep(argv, tok);
      argv := argv + [tok.value.token];
      tok := NextToken(tok.value.rest);
      index := index + 1;
    }
    assert tok.Some? ==> (argv + Pending(tok))[..MaxNumberArg] == argv;
  }
}
