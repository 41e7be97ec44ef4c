# smallsh job control and command processing, in Dafny

`smallsh` is a small Unix shell with three built-in commands: `exit`, `cd`
and `status`. It expands `$$` to the shell's pid and splits the line into at
most 512 arguments. Other commands run in the foreground, or in the
background when the line ends in `&`. Those commands can redirect stdin and
stdout with `<` and `>`. SIGTSTP switches a foreground-only mode on and off.

This project models the core of that shell and proves properties of it:

- The background job table (`bg_list`, `size`) is a class over an array of
  32 pids. `PushPID`, `RemovePID` and `KillChildren` are methods on it, each
  proved against functions on the live prefix (`jobs.dfy`).
- The argument vector is an array of optional strings, where None is a NULL
  slot. Two methods rewrite it in place (`argv.dfy`):
  - `IsBGProcess` handles the trailing `&`;
  - `RedirectIO` scans for `<` and `>`, lists the redirections it would make,
    and clears slot 1.
- `ExpandPID` is a loop over the line, proved equal to a recursive
  left-to-right expansion (`expand.dfy`). `ParseInput` is a `strtok` loop,
  proved equal to the first 512 tokens (`parse.dfy`).
- Decimal rendering of pids and statuses is in `decimal.dfy`. `DisplayStatus`
  is in `status.dfy`, and the signal handlers' notices are in `signals.dfy`.
- `shell.dfy` holds the shell's state: the table, `last_process` and the
  foreground-only flag. It also holds:
  - `catchSIGTSTP`, modelled as an ordinary transition;
  - `Execute`, with the results of `fork` and `waitpid` passed in as
    parameters;
  - the dispatch of `ExecuteCommand`.

## Model

| member | source | states |
|---|---|---|
| Jobs.IndexOf | smallsh.c:253-254 | the search finds the first slot holding the pid, or reports that it is absent exactly when no live slot holds it |
| Jobs.Without | smallsh.c:257-260 | closing the gap at index k keeps the entries before k and moves every later entry one place left |
| Jobs.JobTable.constructor | smallsh.c:412-413 | the table starts empty with 32 slots |
| Jobs.JobTable.PushPID | smallsh.c:274-284 | on a full table: returns -1 and leaves slots and size unchanged; otherwise stores the pid at index size, increments size, leaves the other slots alone and returns 0 |
| Jobs.PushBounded | smallsh.c:276-283 | a push never takes the table past 32 entries, a full table is unchanged, and the old entries stay in front |
| Jobs.PushKeepsDistinct | smallsh.c:281-282 | pushing an untracked pid keeps the table free of duplicates |
| Jobs.JobTable.RemovePID | smallsh.c:250-266 | returns 0 exactly when the pid is live, and then deletes its first occurrence and decrements size; otherwise returns -1 and changes neither slots nor size |
| Jobs.JobTable.RemoveAt | smallsh.c:255-262 | zeroing the last slot or shifting the later slots left, then decrementing size, deletes exactly the entry at that index |
| Jobs.JobTable.ShiftDown | smallsh.c:257-260 | each slot from the found index up to size minus one takes the value of the slot after it, while that slot is inside the array; earlier slots, later slots, and on a full table the last slot are untouched |
| Jobs.RemoveTakesOne | smallsh.c:253-265 | removing a tracked pid takes it out once as a multiset and shortens the table by one; removing an untracked pid changes nothing |
| Jobs.RemoveKeepsDistinct | smallsh.c:253-265 | in a duplicate-free table the removed pid is gone and the rest stays duplicate-free |
| Jobs.LastSlotSameAsShift | smallsh.c:255-259 | the special case for slot 31 leaves the same live prefix as the shift |
| Jobs.JobTable.KillChildren | smallsh.c:87-91 | SIGKILL goes to exactly the live pids, oldest first |
| Argv.CountUpTo | smallsh.c:228-230 | the argument count is the index of the first NULL slot |
| Argv.CountArgs | smallsh.c:228-230 | the counting loop returns the number of arguments |
| Argv.ClearCuts | smallsh.c:232 | writing NULL into an argument slot cuts the arguments at that slot |
| Argv.ArgsFromTokens | smallsh.c:156-162 | a vector built from tokens passes exactly those tokens |
| Argv.IsBGProcess | smallsh.c:225-242 | a trailing `&` is cleared whatever the mode, and the result is true exactly when foreground-only mode is off; without `&` the vector is unchanged and the result is false |
| Argv.TargetAt | smallsh.c:183-186 | the target is `/dev/null` exactly when the operand is missing in the background, and the named file exactly when an operand follows |
| Argv.OpenTarget | smallsh.c:183-201 | the file opened is the operand when there is one, and `/dev/null` exactly when it is NULL in the background |
| Argv.DecisionsFollow | smallsh.c:180-213 | every redirection made before index n is for an operator at its index, decided by the rule |
| Argv.DecisionsOrdered | smallsh.c:180-213 | redirections are made in increasing index order |
| Argv.DecisionsCover | smallsh.c:180-213 | every operator before index n gets a redirection |
| Argv.PlanSound | smallsh.c:180-213 | `<` replaces stdin and `>` stdout; the target is `/dev/null` exactly when the operand is missing in the background, NULL exactly when it is missing in the foreground, else the next argument; redirections follow the order of the arguments |
| Argv.PlanComplete | smallsh.c:180-213 | when the command name is not an operator, every operator among the arguments is handled |
| Argv.PlanFirstOperator | smallsh.c:180-202 | an operator in slot 0 is the only one handled, because clearing slot 1 ends the scan |
| Argv.PlanEmpty | smallsh.c:180-213 | nothing is redirected exactly when no argument is `<` or `>` |
| Argv.RedirectedArgs | smallsh.c:188 | after any redirection only the first argument is passed on |
| Argv.ScanReads | smallsh.c:180-186 | at each step the scan reads the current argument and, as operand, the next argument or NULL |
| Argv.ScanDone | smallsh.c:180-213 | where the scan stops, it has made exactly the planned redirections |
| Argv.RedirectIO | smallsh.c:175-215 | makes exactly the planned redirections; clears slot 1 exactly when there is at least one; leaves the command name alone when it does |
| Decimal.DigitChar | smallsh.c:128 | each digit is printed as its ASCII character |
| Decimal.NatToDecimal | smallsh.c:128 | `%d` of a non-negative number is a non-empty string of digits with no leading zero, one digit exactly below 10 |
| Decimal.DecimalRoundTrip | smallsh.c:128 | reading the printed digits back gives the number |
| Decimal.DecimalInjective | smallsh.c:128 | different numbers print differently |
| Decimal.NoDollarInDecimal | smallsh.c:128 | a printed pid contains no `$` |
| Status.DisplayStatusRoundTrip | smallsh.c:360-373 | the printed line is "exit value N" or "terminated by signal N" with a newline, and it determines the status |
| Status.DisplayStatusInjective | smallsh.c:360-373 | two different statuses never print the same line |
| Signals.CatchSIGINT | smallsh.c:53-57 | the 23 bytes written are the whole notice, which is the status line of a child killed by signal 2 |
| Signals.TstpNotice | smallsh.c:64-75 | the byte counts 50 and 30 cover the whole "Entering" and "Exiting" notices; "Entering" is written when the mode was off |
| Smallsh.Shell.CatchSIGTSTP | smallsh.c:64-75 | the flag is negated, and the notice matches the flag's value before the signal |
| Smallsh.Shell.CatchSIGTSTPTwice | smallsh.c:64-75 | two deliveries restore the flag and write one "Entering" and one "Exiting" notice |
| PidExpansion.PairShift | smallsh.c:130 | a `$$` in the tail of a line is a `$$` of the line one position later |
| PidExpansion.FindPair | smallsh.c:130 | `strstr` finds the first `$$`, or reports that there is none |
| PidExpansion.FindPairAfterPlain | smallsh.c:130 | searching past a prefix without `$` finds the same pair, shifted by the prefix |
| PidExpansion.ExpandRefBeforePair | smallsh.c:130-136 | the reference reading copies the text before the first pair, then writes the pid in its place |
| PidExpansion.ExpandRefPlain | smallsh.c:130-139 | a line without a pair is copied unchanged by the reference reading |
| PidExpansion.ExpandMatchesRef | smallsh.c:130-137 | repeated search-and-replace equals the left-to-right reading that replaces each non-overlapping `$$` |
| PidExpansion.NoPairUnchanged | smallsh.c:130-139 | a line with no `$$` is returned unchanged |
| PidExpansion.TripleDollar | smallsh.c:130-137 | `$$$` becomes the pid followed by `$` |
| PidExpansion.ExpandRefHead | smallsh.c:130-137 | an expanded line starts with `$` only where the input starts with a `$` that is not part of a pair |
| PidExpansion.ExpandRefNoPair | smallsh.c:130-137 | with a pid free of `$`, no `$$` is left after expansion |
| PidExpansion.ExpandIdempotent | smallsh.c:122-140 | expanding an expanded line changes nothing |
| PidExpansion.SearchFromPointer | smallsh.c:130 | searching from the pointer finds the first `$$` not yet expanded |
| PidExpansion.ReplaceShape | smallsh.c:132-136 | the rebuilt buffer is the text before the pair, the pid, and the text after the pair |
| PidExpansion.ReplaceKeepsExpansion | smallsh.c:132-136 | replacing the first pair keeps what remains to expand consistent with the expansion of the original line |
| PidExpansion.ReplaceStep | smallsh.c:130-136 | one turn of the loop keeps the scan invariant |
| PidExpansion.ExpandPID | smallsh.c:122-140 | the loop returns the left-to-right expansion of the line with the pid's decimal text |
| Parse.RunLength | smallsh.c:154-158 | a token runs up to the first space or the end of the line |
| Parse.NextToken | smallsh.c:154-158 | each token `strtok` returns is non-empty and contains no space, and the rest of the line gets shorter |
| Parse.NoTokenOnlySpaces | smallsh.c:156 | `strtok` returns NULL exactly when only spaces remain |
| Parse.Tokens | smallsh.c:154-160 | every token is non-empty and contains no space |
| Parse.LeadingSpaces | smallsh.c:154-158 | leading spaces never change the tokens |
| Parse.RunLengthOfToken | smallsh.c:154-158 | the run of a token followed by a space or the end is the whole token |
| Parse.NextTokenOfToken | smallsh.c:154-158 | `strtok` on a token followed by a space returns that token and the text after the space |
| Parse.SplitJoinRoundTrip | smallsh.c:154-160 | splitting tokens joined by single spaces gives the tokens back |
| Parse.PendingStep | smallsh.c:156-160 | taking a token moves it from the tokens still to come to the vector |
| Parse.ParseInput | smallsh.c:147-164 | the vector holds the tokens of the expanded line, in order, cut to the first 512 |
| Smallsh.Dispatch | smallsh.c:383-402 | a line is a comment exactly when the first argument starts with `#`; otherwise it is `exit`, `cd` or `status` exactly when the first argument is that word, and external exactly when it is none of them; `cd` takes the second argument or none |
| Smallsh.StepKeepsTable | smallsh.c:328-349 | whatever the oracles return, the table stays within 32 entries and free of duplicates, and a pid reported done is no longer tracked |
| Smallsh.ReportOnlyTracked | smallsh.c:342-349 | a "done" report is printed exactly when the reaped pid is positive and tracked, last and with its status, and the table shrinks by one; otherwise the table is unchanged |
| Smallsh.LaunchModes | smallsh.c:330-340 | a foreground launch records the waited status, leaves the table to the sweep and prints only "done" reports; a background launch keeps `last_process` and announces the pid |
| Smallsh.FullTableRejects | smallsh.c:330-333 | on a full table the launch prints "Too many child processes running" and then the pid, and the table stays as it was unless the sweep reaps one of its pids |
| Smallsh.ForegroundOnlyIgnoresAmpersand | smallsh.c:302-314 | with the mode on, a trailing `&` is dropped and the command runs in the foreground with SIGINT at its default |
| Smallsh.ChildArgsClean | smallsh.c:319-321 | the vector `execvp` receives is a prefix of the arguments with no operator after the command name |
| Smallsh.Child | smallsh.c:312-325 | the child restores SIGINT exactly in the foreground, makes the planned redirections and executes the arguments that remain |
| Smallsh.Shell.constructor | smallsh.c:409-413 | the shell starts with an empty table and `last_process` the given initial status; foreground-only mode starts off, as `TSTP_Flag` is initialised to 0 at smallsh.c:27 |
| Smallsh.Shell.Execute | smallsh.c:295-352 | classifies with the mode, leaves the vector without its `&`, and ends in the state and launch that the launch outcome describes |
| Smallsh.Shell.ParentBranch | smallsh.c:328-349 | the launch and then one non-blocking reap, as the parent step describes |
| Smallsh.Shell.LaunchHalf | smallsh.c:330-340 | background: push and announce the pid, with the rejection notice on a full table; foreground: record the waited status |
| Smallsh.Shell.SweepHalf | smallsh.c:342-349 | a positive reaped pid is reported only when `RemovePID` removes it |
| Smallsh.Shell.ExecuteCommand | smallsh.c:383-402 | a comment does nothing; `exit` kills every tracked pid; `cd` passes its argument; `status` prints the last status; anything else is launched; built-ins leave the state alone |
| Smallsh.StatusAfterForeground | smallsh.c:397-398 | after a foreground command (no trailing `&`, or one ignored in foreground-only mode), `status` prints that command's waited status |

## Left out

- `fork`, `execvp`, `waitpid`, `kill`, `open`, `dup2` and `fcntl` are operating-system effects:
  - the results of `fork` and `waitpid` are parameters;
  - the child side is described by a plan (SIGINT disposition, redirections, argument vector), not run;
  - `KillChildren` returns the pids it signals.
- `Smallsh.Shell.Execute`: the fork result 0, which is the child itself, is not a parameter. The child branch is modelled from the parent by `Smallsh.Child` on a copy of the vector.
  - A failed fork (-1) ends the shell with `exit(1)`. The model returns `ForkFailed` and leaves the table and status alone.
- `Smallsh.Shell.Execute`: the `do ... while (errno == EINTR)` retry around the foreground `waitpid` is not modelled. The waited status is a parameter.
- Signal installation and asynchronous delivery (`sigaction`, smallsh.c:315-316 and 416-425) are not modelled. `catchSIGTSTP` is an ordinary transition on the flag, and `catchSIGINT` only produces its text.
- The `WIFEXITED`/`WEXITSTATUS`/`WTERMSIG` bit layout is not modelled. A status is `Exited(code)` or `Signaled(signal)`, so a stopped child, for which `DisplayStatus` prints nothing, is outside the model.
- `ChangeDir`, `getenv("HOME")`, the prompt and the `fgets` loop of `main` are I/O. `cd` is reported as the path it would pass.
- `perror` messages and `fflush` calls are not modelled.
- The flags and mode of `open` (O_TRUNC, O_CREAT, 0644) are not modelled.
- `Argv.RedirectIO`: a missing operand in the foreground is recorded as `NoOperand`. In smallsh.c, `open(NULL)` fails, `dup2` then fails, and the child exits with status 1. That exit is not modelled.
- `Jobs.JobTable.ShiftDown`: the shift loop stops at the end of the 32-slot array. When the table is full the C loop reads `bg_list[32]`, past the array. That slot is never live afterwards, so the live prefix is the same.
- `Parse.ParseInput`: the terminating NULL that the C code writes at `argv[index]` is not stored. With 512 tokens the C code writes it past its 512-slot allocation.
- `PidExpansion.ExpandPID`: the 2048-byte `buffer` is not modelled. A line that grows past it overflows in the C code; the model has no bound.
- `Argv.IsBGProcess` requires a non-empty vector. On an empty one the C code reads `argv[-1]`.
- `Smallsh.Shell.ExecuteCommand` requires a non-empty vector. A line of only spaces gives an empty vector, and the C code then dereferences `argv[0]`, which is NULL.
- `Smallsh.Shell.constructor`: `last_process` is never initialised in `main`, so its first value is a constructor parameter.
- When `PushPID` rejects a background pid, that child keeps running untracked. Only the notice and the unchanged table are modelled.
- `free(argv)` and `exit(0)` after `exit` are not modelled; `exit` yields the killed pids.
