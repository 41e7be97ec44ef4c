/**
 * The Status Reporter: the decoded termination result of a child process
 * and its rendering by `DisplayStatus` (smallsh.c:360-373).
 */
module Status {
  import opened Wrappers
  import opened Decimal

  /**
   * A decoded `waitpid` status. The platform's bit layout behind
   * `WIFEXITED`/`WEXITSTATUS`/`WTERMSIG` is not modelled.
   */
  datatype WaitStatus = Exited(code: nat) | Signaled(signal: nat)

  const ExitPrefix := "exit value "
  const SignalPrefix := "terminated by signal "

  /** The line `DisplayStatus` prints for a status. */
  function DisplayStatus(st: WaitStatus): string
  {
    match st
    case Exited(code) => ExitPrefix + NatToDecimal(code) + "\n"
    case Signaled(signal) => SignalPrefix + NatToDecimal(signal) + "\n"
  }

  /** Reads a number printed by `%d`: digits, no leading zero. */
  function ParseNumber(s: string): Option<nat>
  {
    if |s| > 0 && AllDigits(s) && (|s| > 1 ==> s[0] != '0') then Some(DecimalValue(s)) else None
  }

  /** Reads back a line of the form `DisplayStatus` prints; None for anything else. */
  function ParseStatusLine(line: string): Option<WaitStatus>
  {
    if |line| == 0 || line[|line| - 1] != '\n' then None
    else
      var body := line[..|line| - 1];
      if |body| >= |ExitPrefix| && body[..|ExitPrefix|] == ExitPrefix then
        match ParseNumber(body[|ExitPrefix|..])
        case Some(n) => Some(Exited(n))
        case None => None
      else if |body| >= |SignalPrefix| && body[..|SignalPrefix|] == SignalPrefix then
        match ParseNumber(body[|SignalPrefix|..])
        case Some(n) => Some(Signaled(n))
        case None => None
      else None
  }

  /** The rendering loses nothing: the printed line determines the status. */
  lemma DisplayStatusRoundTrip(st: WaitStatus)
    ensures ParseStatusLine(DisplayStatus(st)) == Some(st)
  {
    var line := DisplayStatus(st);
    var body := line[..|line| - 1];
    match st
    case Exited(code) =>
      assert body == ExitPrefix + NatToDecimal(code);
      assert body[|ExitPrefix|..] == NatToDecimal(code);
      DecimalRoundTrip(code);
    case Signaled(signal) =>
      assert body == SignalPrefix + NatToDecimal(signal);
      assert body[..|ExitPrefix|] != ExitPrefix by {
        assert body[0] == 't';
      }
      assert body[|SignalPrefix|..] == NatToDecimal(signal);
      DecimalRoundTrip(signal);
  }

  /** Two different statuses are never rendered alike. */
  lemma DisplayStatusInjective(a: WaitStatus, b: WaitStatus)
    ensures DisplayStatus(a) == DisplayStatus(b) ==> a == b
  {
    DisplayStatusRoundTrip(a);
    DisplayStatusRoundTrip(b);
  }
}
