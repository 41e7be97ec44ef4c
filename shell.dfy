/**
 * The Process Launcher and the command dispatch: the shell's state (the job
 * table, the last foreground status and the foreground-only flag), the
 * parent side of `Execute` (smallsh.c:295-352) and `ExecuteCommand`
 * (smallsh.c:383-402). The results of `fork` and `waitpid` are parameters.
 */
module Smallsh {
  import opened Wrappers
  import opened Decimal
  import opened Status
  import opened Jobs
  import opened Argv
  import opened Signals

  /** The lines the parent prints while launching and reaping. */
  datatype Notice =
    | TooManyChildren                    // printed by `PushPID` on a full table
    | BackgroundPid(pid: nat)            // "background pid is N"
    | Done(pid: nat, status: WaitStatus) // "backround pid N is done: " and the status line

  function Render(n: Notice): string
  {
    match n
    case TooManyChildren => "Too many child processes running\n"
    case BackgroundPid(pid) => "background pid is " + NatToDecimal(pid) + "\n"
    case Done(pid, st) => "backround pid " + NatToDecimal(pid) + " is done: " + DisplayStatus(st)
  }

  /** The parent's state as far as a launch touches it: the tracked pids and `last_process`. */
  datatype ParentView = ParentView(live: seq<int>, last: WaitStatus)

  datatype Step = Step(view: ParentView, notices: seq<Notice>)

  /** What the new process does before `execvp`: SIGINT disposition, redirections, argument vector. */
  datatype ChildPlan = ChildPlan(defaultInterrupt: bool, redirects: seq<Redirect>, execArgs: seq<string>)

  datatype Launch = ForkFailed | Launched(child: ChildPlan, notices: seq<Notice>)

  /** The trailing `&` that requests the background. */
  predicate Requested(ts: seq<string>) { |ts| > 0 && ts[|ts| - 1] == "&" }

  /** The arguments once `IsBGProcess` has cleared a trailing `&`. */
  function Stripped(ts: seq<string>): seq<string>
  {
    if Requested(ts) then ts[..|ts| - 1] else ts
  }

  /** The child side of `Execute` for the vector `ts` (smallsh.c:312-325). */
  function ChildFor(ts: seq<string>, isBG: bool): ChildPlan
  {
    var p := Plan(ts, isBG);
    ChildPlan(!isBG, p, if p == [] then ts else ts[..1])
  }

  /** The launch half of the parent branch: push a background pid, or record the foreground status. */
  function AfterLaunch(v: ParentView, isBG: bool, pid: nat, fgStatus: WaitStatus): Step
  {
    if isBG then
      Step(ParentView(PushLive(v.live, pid), v.last),
           (if |v.live| >= MaxChildProcesses then [TooManyChildren] else []) + [BackgroundPid(pid)])
    else
      Step(ParentView(v.live, fgStatus), [])
  }

  /** The reap sweep: a reaped pid is reported only when `RemovePID` finds it in the table. */
  function Sweep(s: Step, reaped: int, reapedStatus: WaitStatus): Step
  {
    if reaped > 0 && reaped in s.view.live then
      Step(ParentView(RemoveLive(s.view.live, reaped), s.view.last), s.notices + [Done(reaped, reapedStatus)])
    else
      s
  }

  /**
   * The parent branch of `Execute` (smallsh.c:328-349): the launch, then one
   * non-blocking reap.
   */
  function ParentStep(v: ParentView, isBG: bool, pid: nat, fgStatus: WaitStatus,
                      reaped: int, reapedStatus: WaitStatus): Step
  {
    Sweep(AfterLaunch(v, isBG, pid, fgStatus), reaped, reapedStatus)
  }

  /** The whole of `Execute` on the argument list `ts`: classification, fork, child and parent. */
  function LaunchOutcome(ts: seq<string>, foregroundOnly: bool, v: ParentView, forkResult: int,
                         fgStatus: WaitStatus, reaped: int, reapedStatus: WaitStatus): (ParentView, Launch)
    requires forkResult == -1 || forkResult > 0
  {
    var isBG := Requested(ts) && !foregroundOnly;
    if forkResult == -1 then (v, ForkFailed)
    else
      var step := ParentStep(v, isBG, forkResult, fgStatus, reaped, reapedStatus);
      (step.view, Launched(ChildFor(Stripped(ts), isBG), step.notices))
  }

  /** The built-in dispatch of `ExecuteCommand`. */
  datatype Command = Comment | ExitCommand | Cd(path: Option<string>) | StatusCommand | External

  function Dispatch(argv: seq<string>): (c: Command)
    requires |argv| > 0
    ensures c == Comment <==> |argv[0]| > 0 && argv[0][0] == '#'
    ensures c.External? <==> !(|argv[0]| > 0 && argv[0][0] == '#') && argv[0] != "exit" && argv[0] != "cd" && argv[0] != "status"
    ensures c == ExitCommand <==> !(|argv[0]| > 0 && argv[0][0] == '#') && argv[0] == "exit"
    ensures c.Cd? <==> !(|argv[0]| > 0 && argv[0][0] == '#') && argv[0] == "cd"
    ensures c == StatusCommand <==> !(|argv[0]| > 0 && argv[0][0] == '#') && argv[0] == "status"
    ensures c.Cd? ==> c.path == if |argv| > 1 then Some(argv[1]) else None
  {
    if |argv[0]| > 0 && argv[0][0] == '#' then Comment
    else if argv[0] == "exit" then ExitCommand
    else if argv[0] == "cd" then Cd(if |argv| > 1 then Some(argv[1]) else None)
    else if argv[0] == "status" then StatusCommand
    else External
  }

  /** What a command line does beyond the parent state. */
  datatype Effect =
    | NoEffect
    | ExitShell(killed: seq<int>)  // the pids sent SIGKILL before `exit(0)`
    | ChangeDir(path: Option<string>)
    | ShowStatus(text: string)
    | Ran(launch: Launch)

  /** Whatever the oracles say, the table stays within capacity, without duplicates, and a reported pid is no longer tracked. */
  lemma {:induction false} StepKeepsTable(v: ParentView, isBG: bool, pid: nat, fgStatus: WaitStatus,
                                          reaped: int, reapedStatus: WaitStatus)
    requires |v.live| <= MaxChildProcesses && Distinct(v.live)
    requires isBG ==> pid !in v.live
    ensures var s := ParentStep(v, isBG, pid, fgStatus, reaped, reapedStatus);
            |s.view.live| <= MaxChildProcesses && Distinct(s.view.live)
            && (reaped > 0 && Done(reaped, reapedStatus) in s.notices ==> reaped !in s.view.live)
  {
    var launched := if isBG then PushLive(v.live, pid) else v.live;
    PushBounded(v.live, pid);
    if isBG { PushKeepsDistinct(v.live, pid); }
    RemoveTakesOne(launched, reaped);
    RemoveKeepsDistinct(launched, reaped);
  }

  /**
   * The reap sweep reports a pid exactly when the table tracked it (after the
   * push), and then with the reaped status; an untracked pid changes nothing.
   */
  lemma ReportOnlyTracked(v: ParentView, isBG: bool, pid: nat, fgStatus: WaitStatus,
                          reaped: int, reapedStatus: WaitStatus)
    ensures var launched := if isBG then PushLive(v.live, pid) else v.live;
            var s := ParentStep(v, isBG, pid, fgStatus, reaped, reapedStatus);
            (exists k :: 0 <= k < |s.notices| && s.notices[k].Done?) <==> reaped > 0 && reaped in launched
    ensures var launched := if isBG then PushLive(v.live, pid) else v.live;
            var s := ParentStep(v, isBG, pid, fgStatus, reaped, reapedStatus);
            reaped > 0 && reaped in launched ==>
              s.notices[|s.notices| - 1] == Done(reaped, reapedStatus) && |s.view.live| == |launched| - 1
    ensures var launched := if isBG then PushLive(v.live, pid) else v.live;
            var s := ParentStep(v, isBG, pid, fgStatus, reaped, reapedStatus);
            !(reaped > 0 && reaped in launched) ==> s.view.live == launched
  {
    var launched := if isBG then PushLive(v.live, pid) else v.live;
    var s := ParentStep(v, isBG, pid, fgStatus, reaped, reapedStatus);
    if reaped > 0 && reaped in launched {
      RemoveTakesOne(launched, reaped);
      assert s.notices[|s.notices| - 1].Done?;
    } else {
      assert forall k :: 0 <= k < |s.notices| ==> !s.notices[k].Done?;
    }
  }

  /** A foreground launch records the waited status and leaves the table to the reap alone; a background launch keeps `last_process`. */
  lemma LaunchModes(v: ParentView, isBG: bool, pid: nat, fgStatus: WaitStatus,
                    reaped: int, reapedStatus: WaitStatus)
    ensures var s := ParentStep(v, isBG, pid, fgStatus, reaped, reapedStatus);
            && (!isBG ==> s.view.last == fgStatus && s.view.live == (if reaped > 0 then RemoveLive(v.live, reaped) else v.live)
                          && forall k :: 0 <= k < |s.notices| ==> s.notices[k].Done?)
            && (isBG ==> s.view.last == v.last && BackgroundPid(pid) in s.notices)
  {
    RemoveTakesOne(if isBG then PushLive(v.live, pid) else v.live, reaped);
  }

  /**
   * A background launch on a full table is rejected: the notice says so and
   * the 32 tracked pids stay as they were, unless the sweep reaps one of them.
   */
  lemma FullTableRejects(v: ParentView, pid: nat, fgStatus: WaitStatus, reaped: int, reapedStatus: WaitStatus)
    requires |v.live| == MaxChildProcesses
    ensures var s := ParentStep(v, true, pid, fgStatus, reaped, reapedStatus);
            && s.notices[..2] == [TooManyChildren, BackgroundPid(pid)]
            && (!(reaped > 0 && reaped in v.live) ==> s.view.live == v.live)
  {
  }

  /** With the mode on, a trailing `&` is dropped and the command runs in the foreground. */
  lemma ForegroundOnlyIgnoresAmpersand(ts: seq<string>, v: ParentView, pid: nat, fgStatus: WaitStatus,
                                       reaped: int, reapedStatus: WaitStatus)
    requires Requested(ts)
    ensures var (w, l) := LaunchOutcome(ts, true, v, pid + 1, fgStatus, reaped, reapedStatus);
            && l.Launched? && l.child.defaultInterrupt && w.last == fgStatus
            && (l.child.redirects == [] ==> l.child.execArgs == ts[..|ts| - 1])
  {
  }

  /** The arguments handed to `execvp` are a prefix of the classified arguments with no redirection left after the program name. */
  lemma ChildArgsClean(ts: seq<string>, isBG: bool)
    ensures var c := ChildFor(ts, isBG);
            |c.execArgs| <= |ts| && c.execArgs == ts[..|c.execArgs|]
            && forall i :: 1 <= i < |c.execArgs| ==> !IsOperator(c.execArgs[i])
  {
    PlanEmpty(ts, isBG);
  }

  /**
   * The child branch of `Execute` (smallsh.c:312-325), on the child's own
   * copy of the vector: SIGINT back to its default in the foreground, the
   * redirections of `RedirectIO`, and the vector `execvp` receives.
   */
  method Child(argv: array<Option<string>>, isBG: bool) returns (child: ChildPlan)
    ensures child == ChildFor(Args(argv[..]), isBG)
  {
    var copy := new Option<string>[argv.Length](i reads argv requires 0 <= i < argv.Length => argv[i]);
    assert copy[..] == argv[..];
    var redirects := RedirectIO(copy, isBG);
    child := ChildPlan(!isBG, redirects, Args(copy[..]));
  }

  class Shell {
    /** `bg_list` and `size` in `main` */
    const jobs: JobTable
    /** `last_process` */
    var lastProcess: WaitStatus
    /** `TSTP_Flag`: foreground-only mode */
    var foregroundOnly: bool

    ghost predicate Valid()
      reads this, jobs
    {
      jobs.Valid()
    }

    ghost function View(): ParentView
      reads this, jobs, jobs.list
      requires Valid()
    {
      ParentView(jobs.Live(), lastProcess)
    }

    /**
     * The state `main` starts from. `last_process` is never initialised in
     * smallsh.c, so its first value is a parameter.
     */
    constructor (initialStatus: WaitStatus)
      ensures Valid() && fresh(jobs) && fresh(jobs.list)
      ensures View() == ParentView([], initialStatus) && !foregroundOnly
    {
      jobs := new JobTable();
      lastProcess := initialStatus;
      foregroundOnly := false;
    }

    /** `catchSIGTSTP`, as an ordinary transition: flip the flag and write the notice. */
    method CatchSIGTSTP() returns (written: string)
      modifies this`foregroundOnly
      ensures foregroundOnly == !old(foregroundOnly)
      ensures written == TstpNotice(old(foregroundOnly))
    {
      if !foregroundOnly {
        written := Written(EnteringNotice, EnteringCount);
        foregroundOnly := true;
      } else {
        written := Written(ExitingNotice, ExitingCount);
        foregroundOnly := false;
      }
    }

    /** Two deliveries of SIGTSTP restore the mode, writing "Entering" and "Exiting" in some order. */
    method CatchSIGTSTPTwice() returns (first: string, second: string)
      modifies this`foregroundOnly
      ensures foregroundOnly == old(foregroundOnly)
      ensures [first, second] == if old(foregroundOnly) then [ExitingNotice, EnteringNotice] else [EnteringNotice, ExitingNotice]
    {
      first := CatchSIGTSTP();
      second := CatchSIGTSTP();
    }

    /**
     * `Execute`: classify with `IsBGProcess`, fork (its result is
     * `forkResult`), let the child redirect and exec a copy of the vector,
     * and run the parent branch with the waited foreground status and the
     * result of the non-blocking `waitpid` as parameters.
     */
    method Execute(argv: array<Option<string>>, forkResult: int, fgStatus: WaitStatus,
                   reaped: int, reapedStatus: WaitStatus) returns (launch: Launch)
      requires Valid() && argv.Length > 0 && argv[0].Some?
      requires forkResult == -1 || forkResult > 0
      modifies this, jobs, jobs.list, argv
      ensures Valid() && foregroundOnly == old(foregroundOnly)
      ensures (View(), launch) == LaunchOutcome(Args(old(argv[..])), foregroundOnly, old(View()), forkResult,
                                                fgStatus, reaped, reapedStatus)
      ensures Args(argv[..]) == Stripped(Args(old(argv[..])))
    {
      ghost var ts := Args(argv[..]);
      var isBG := IsBGProcess(argv, foregroundOnly);
      assert isBG == (Requested(ts) && !foregroundOnly);
      if forkResult == -1 {
        launch := ForkFailed;
        return;
      }
      var child := Child(argv, isBG);
      var notices := ParentBranch(isBG, forkResult, fgStatus, reaped, reapedStatus);
      launch := Launched(child, notices);
    }

    /** The parent branch of `Execute` (smallsh.c:328-349). */
    method ParentBranch(isBG: bool, pid: nat, fgStatus: WaitStatus, reaped: int, reapedStatus: WaitStatus)
      returns (notices: seq<Notice>)
      requires Valid()
      modifies this`lastProcess, jobs, jobs.list
      ensures Valid()
      ensures Step(View(), notices) == ParentStep(old(View()), isBG, pid, fgStatus, reaped, reapedStatus)
    {
      notices := LaunchHalf(isBG, pid, fgStatus);
      notices := SweepHalf(notices, reaped, reapedStatus);
    }

    /** Lines 330-340: push the background pid and announce it, or record the foreground status. */
    method LaunchHalf(isBG: bool, pid: nat, fgStatus: WaitStatus) returns (notices: seq<Notice>)
      requires Valid()
      modifies this`lastProcess, jobs, jobs.list
      ensures Valid()
      ensures Step(View(), notices) == AfterLaunch(old(View()), isBG, pid, fgStatus)
    {
      notices := [];
      if isBG {
        var r := jobs.PushPID(pid);
        if r == -1 {
          notices := notices + [TooManyChildren];
        }
        notices := notices + [BackgroundPid(pid)];
      } else {
        lastProcess := fgStatus;
      }
    }

    /** Lines 342-349: report the reaped pid if `RemovePID` finds it. */
    method SweepHalf(before: seq<Notice>, reaped: int, reapedStatus: WaitStatus) returns (notices: seq<Notice>)
      requires Valid()
      modifies jobs, jobs.list
      ensures Valid()
      ensures Step(View(), notices) == Sweep(Step(old(View()), before), reaped, reapedStatus)
    {
      notices := before;
      if reaped > 0 {
        var removed := jobs.RemovePID(reaped);
        if removed == 0 {
          notices := notices + [Done(reaped, reapedStatus)];
        }
      }
    }

    /**
     * `ExecuteCommand`: a comment does nothing, `exit` kills every tracked
     * pid and ends the shell, `cd` changes directory, `status` prints the
     * last foreground status, anything else is launched.
     */
    method ExecuteCommand(argv: seq<string>, forkResult: int, fgStatus: WaitStatus,
                          reaped: int, reapedStatus: WaitStatus) returns (e: Effect)
      requires Valid() && |argv| > 0
      requires forkResult == -1 || forkResult > 0
      modifies this, jobs, jobs.list
      ensures Valid() && foregroundOnly == old(foregroundOnly)
      ensures match Dispatch(argv)
              case Comment => e == NoEffect && View() == old(View())
              case ExitCommand => e == ExitShell(old(jobs.Live())) && View() == old(View())
              case Cd(path) => e == ChangeDir(path) && View() == old(View())
              case StatusCommand => e == ShowStatus(DisplayStatus(old(lastProcess))) && View() == old(View())
              case External =>
                var (w, l) := LaunchOutcome(argv, foregroundOnly, old(View()), forkResult, fgStatus, reaped, reapedStatus);
                e == Ran(l) && View() == w
    {
      if |argv[0]| > 0 && argv[0][0] == '#' {
        e := NoEffect;
      } else if argv[0] == "exit" {
        var killed := jobs.KillChildren();
        e := ExitShell(killed);
      } else if argv[0] == "cd" {
        e := ChangeDir(if |argv| > 1 then Some(argv[1]) else None);
      } else if argv[0] == "status" {
        e := ShowStatus(DisplayStatus(lastProcess));
      } else {
        var a := new Option<string>[|argv|](i requires 0 <= i < |argv| => Some(argv[i]));
        assert a[..] == FromTokens(argv);
        ArgsFromTokens(argv);
        var launch := Execute(a, forkResult, fgStatus, reaped, reapedStatus);
        e := Ran(launch);
      }
    }
  }

  /**
   * After a foreground command, the `status` built-in prints that command's
   * status.
   */
  method StatusAfterForeground(sh: Shell, cmd: seq<string>, pid: nat, fgStatus: WaitStatus,
                               reaped: int, reapedStatus: WaitStatus) returns (shown: Effect)
    requires sh.Valid() && |cmd| > 0 && Dispatch(cmd) == External && !(Requested(cmd) && !sh.foregroundOnly)
    modifies sh, sh.jobs, sh.jobs.list
    ensures shown == ShowStatus(DisplayStatus(fgStatus))
  {
    var _ := sh.ExecuteCommand(cmd, pid + 1, fgStatus, reaped, reapedStatus);
    shown := sh.ExecuteCommand(["status"], pid + 1, fgStatus, 0, reapedStatus);
  }
}
