/**
 * The argument vector handed around as `char **argv`: an array of optional
 * strings, where None is a NULL slot. Slots past the end of the array read as
 * NULL, standing in for the terminator. `IsBGProcess` (smallsh.c:225-242) and
 * the token scan of `RedirectIO` (smallsh.c:175-215) rewrite it in place.
 */
module Argv {
  import opened Wrappers

  /** Number of arguments: the index of the first NULL slot. */
  function ArgCount(a: seq<Option<string>>): (n: nat)
    ensures n <= |a|
    ensures forall i :: 0 <= i < n ==> a[i].Some?
    ensures n < |a| ==> a[n].None?
  {
    if a == [] || a[0].None? then 0 else 1 + ArgCount(a[1..])
  }

  /** The arguments a program started with this vector would receive. */
  function Args(a: seq<Option<string>>): (r: seq<string>)
    ensures |r| == ArgCount(a)
    ensures forall i :: 0 <= i < |r| ==> a[i] == Some(r[i])
  {
    seq(ArgCount(a), i requires 0 <= i < ArgCount(a) => a[i].value)
  }

  /** The vector a token list is stored as. */
  function FromTokens(ts: seq<string>): (a: seq<Option<string>>)
    ensures |a| == |ts| && forall i :: 0 <= i < |ts| ==> a[i] == Some(ts[i])
  {
    seq(|ts|, i requires 0 <= i < |ts| => Some(ts[i]))
  }

  /** A vector built from tokens passes exactly those tokens. */
  lemma ArgsFromTokens(ts: seq<string>)
    ensures Args(FromTokens(ts)) == ts
  {
    var a := FromTokens(ts);
    CountUpTo(a, |ts|);
  }

  /** The count is the first NULL slot: slots before `n` are set, slot `n` is NULL or past the end. */
  lemma {:induction false} CountUpTo(a: seq<Option<string>>, n: nat)
    requires n <= |a| && forall i :: 0 <= i < n ==> a[i].Some?
    requires n < |a| ==> a[n].None?
    ensures ArgCount(a) == n
  {
    if n > 0 {
      CountUpTo(a[1..], n - 1);
    }
  }

  /** Clearing a slot inside the arguments cuts the arguments at that slot. */
  lemma ClearCuts(a: seq<Option<string>>, k: nat)
    requires k < ArgCount(a)
    ensures Args(a[k := None]) == Args(a)[..k]
  {
    CountUpTo(a[k := None], k);
  }

  /** `IsBGProcess`'s scan for the length of the vector. */
  method CountArgs(argv: array<Option<string>>) returns (n: nat)
    ensures n == ArgCount(argv[..])
  {
    n := 0;
    while n < argv.Length && argv[n].Some?
      invariant n <= argv.Length
      invariant forall i :: 0 <= i < n ==> argv[i].Some?
    {
      n := n + 1;
    }
    CountUpTo(argv[..], n);
  }

  /**
   * `IsBGProcess`: a trailing `&` is cleared whatever the mode, and requests
   * the background only when foreground-only mode is off.
   */
  method IsBGProcess(argv: array<Option<string>>, foregroundOnly: bool) returns (isBG: bool)
    requires argv.Length > 0 && argv[0].Some?
    modifies argv
    ensures var n := ArgCount(old(argv[..]));
            if old(argv[n - 1]) == Some("&") then
              argv[..] == old(argv[..])[n - 1 := None] && isBG == !foregroundOnly
            else
              argv[..] == old(argv[..]) && !isBG
    ensures var before := Args(old(argv[..]));
            Args(argv[..]) == if before[|before| - 1] == "&" then before[..|before| - 1] else before
  {
    var i := CountArgs(argv);
    ghost var before := argv[..];
    if argv[i - 1] == Some("&") {
      argv[i - 1] := None;
      ClearCuts(before, i - 1);
      assert argv[..] == before[i - 1 := None];
      if foregroundOnly {
        isBG := false;
      } else {
        isBG := true;
      }
    } else {
      isBG := false;
    }
  }

  datatype Stream = Stdin | Stdout

  /** Where a redirected stream is opened. */
  datatype Target =
    | DevNull            // `/dev/null`: the operand is missing and the command runs in the background
    | File(name: string) // the operand names the file
    | NoOperand          // `open(NULL)`: the operand is missing in the foreground; the open fails

  /** One redirection the child performs: the operator's position, the stream it replaces and the target. */
  datatype Redirect = Redirect(at: nat, stream: Stream, target: Target)

  predicate IsOperator(t: string) { t == "<" || t == ">" }

  function StreamOf(t: string): Stream
    requires IsOperator(t)
  {
    if t == ">" then Stdout else Stdin
  }

  /** The target chosen for the operator at index `i`. */
  function TargetAt(ts: seq<string>, i: nat, isBG: bool): (t: Target)
    requires i < |ts|
    ensures t == DevNull <==> i + 1 == |ts| && isBG
    ensures t.File? <==> i + 1 < |ts|
    ensures t.File? ==> t.name == ts[i + 1]
  {
    if i + 1 < |ts| then File(ts[i + 1]) else if isBG then DevNull else NoOperand
  }

  function Decide(ts: seq<string>, i: nat, isBG: bool): Redirect
    requires i < |ts| && IsOperator(ts[i])
  {
    Redirect(i, StreamOf(ts[i]), TargetAt(ts, i, isBG))
  }

  /** The redirections for the operators among the first `n` arguments, in order. */
  function DecisionsBelow(ts: seq<string>, isBG: bool, n: nat): seq<Redirect>
    requires n <= |ts|
  {
    if n == 0 then []
    else DecisionsBelow(ts, isBG, n - 1) + (if IsOperator(ts[n - 1]) then [Decide(ts, n - 1, isBG)] else [])
  }

  /**
   * The redirections the scan performs. An operator in the first slot clears
   * slot 1, which ends the scan right there; otherwise every operator is seen.
   */
  function Plan(ts: seq<string>, isBG: bool): seq<Redirect>
  {
    if |ts| > 0 && IsOperator(ts[0]) then [Decide(ts, 0, isBG)] else DecisionsBelow(ts, isBG, |ts|)
  }

  /** `argv[1] = NULL`, which is a no-op on a vector of one slot. */
  function ClearSlot1(a: seq<Option<string>>): seq<Option<string>>
  {
    if |a| > 1 then a[1 := None] else a
  }

  /** Every decision below `n` is the rule applied to an operator at its index. */
  lemma {:induction false} DecisionsFollow(ts: seq<string>, isBG: bool, n: nat)
    requires n <= |ts|
    ensures forall k :: 0 <= k < |DecisionsBelow(ts, isBG, n)| ==>
              var r := DecisionsBelow(ts, isBG, n)[k];
              r.at < n && IsOperator(ts[r.at]) && r == Decide(ts, r.at, isBG)
  {
    if n > 0 {
      DecisionsFollow(ts, isBG, n - 1);
      var q := DecisionsBelow(ts, isBG, n - 1);
      var p := DecisionsBelow(ts, isBG, n);
      if IsOperator(ts[n - 1]) {
        assert p == q + [Decide(ts, n - 1, isBG)];
      } else {
        assert p == q;
      }
      forall k | 0 <= k < |p|
        ensures p[k].at < n && IsOperator(ts[p[k].at]) && p[k] == Decide(ts, p[k].at, isBG)
      {
        if k < |q| {
          assert p[k] == q[k];
          assert q[k].at < n - 1 && IsOperator(ts[q[k].at]) && q[k] == Decide(ts, q[k].at, isBG);
        } else {
          assert IsOperator(ts[n - 1]) && p[k] == Decide(ts, n - 1, isBG);
        }
      }
    }
  }

  /** The decisions below `n` come in increasing index order. */
  lemma {:induction false} DecisionsOrdered(ts: seq<string>, isBG: bool, n: nat)
    requires n <= |ts|
    ensures forall k, l :: 0 <= k < l < |DecisionsBelow(ts, isBG, n)| ==>
              DecisionsBelow(ts, isBG, n)[k].at < DecisionsBelow(ts, isBG, n)[l].at
  {
    if n > 0 {
      DecisionsOrdered(ts, isBG, n - 1);
      DecisionsFollow(ts, isBG, n - 1);
      var q := DecisionsBelow(ts, isBG, n - 1);
      var p := DecisionsBelow(ts, isBG, n);
      if IsOperator(ts[n - 1]) {
        assert p == q + [Decide(ts, n - 1, isBG)];
      } else {
        assert p == q;
      }
      forall k, l | 0 <= k < l < |p| ensures p[k].at < p[l].at {
        assert p[k] == q[k];
        if l < |q| {
          assert p[l] == q[l];
        }
      }
    }
  }

  /** Some redirection in `p` is for the operator at index `i`. */
  ghost predicate Handled(p: seq<Redirect>, i: nat)
  {
    exists k :: 0 <= k < |p| && p[k].at == i
  }

  /** Every operator below `n` has its decision. */
  lemma {:induction false} DecisionsCover(ts: seq<string>, isBG: bool, n: nat)
    requires n <= |ts|
    ensures forall i :: 0 <= i < n && IsOperator(ts[i]) ==> Handled(DecisionsBelow(ts, isBG, n), i)
  {
    if n > 0 {
      DecisionsCover(ts, isBG, n - 1);
      var q := DecisionsBelow(ts, isBG, n - 1);
      var p := DecisionsBelow(ts, isBG, n);
      if IsOperator(ts[n - 1]) {
        assert p == q + [Decide(ts, n - 1, isBG)];
      } else {
        assert p == q;
      }
      forall i | 0 <= i < n && IsOperator(ts[i]) ensures Handled(p, i) {
        if i < n - 1 {
          var k :| 0 <= k < |q| && q[k].at == i;
          assert p[k] == q[k];
          assert 0 <= k < |p| && p[k].at == i;
        } else {
          assert 0 <= |q| < |p| && p[|q|].at == i;
        }
      }
    }
  }

  /** The rule behind one decision, stated on the arguments. */
  ghost predicate Follows(ts: seq<string>, isBG: bool, r: Redirect)
  {
    var i := r.at;
    i < |ts| && IsOperator(ts[i])
    && (r.stream == Stdin <==> ts[i] == "<")
    && (r.target == DevNull <==> i + 1 == |ts| && isBG)
    && (r.target == NoOperand <==> i + 1 == |ts| && !isBG)
    && (i + 1 < |ts| ==> r.target == File(ts[i + 1]))
  }

  /**
   * What `RedirectIO` decides for each operator it handles: `<` replaces
   * stdin and `>` stdout; the target is `/dev/null` exactly when the operand
   * is missing and the command runs in the background, NoOperand when it is
   * missing in the foreground, and otherwise the file the next argument
   * names. Operators are handled left to right.
   */
  lemma {:induction false} PlanSound(ts: seq<string>, isBG: bool)
    ensures forall k :: 0 <= k < |Plan(ts, isBG)| ==> Follows(ts, isBG, Plan(ts, isBG)[k])
    ensures forall k, l :: 0 <= k < l < |Plan(ts, isBG)| ==> Plan(ts, isBG)[k].at < Plan(ts, isBG)[l].at
  {
    var p := Plan(ts, isBG);
    if |ts| > 0 && IsOperator(ts[0]) {
      assert p == [Decide(ts, 0, isBG)];
    } else {
      DecisionsFollow(ts, isBG, |ts|);
      DecisionsOrdered(ts, isBG, |ts|);
    }
    forall k | 0 <= k < |p| ensures Follows(ts, isBG, p[k]) {
      assert p[k] == Decide(ts, p[k].at, isBG);
    }
  }

  /** When the first argument is not an operator, every operator is handled. */
  lemma {:induction false} PlanComplete(ts: seq<string>, isBG: bool)
    requires |ts| > 0 && !IsOperator(ts[0])
    ensures forall i :: 0 <= i < |ts| && IsOperator(ts[i]) ==> Handled(Plan(ts, isBG), i)
  {
    var p := Plan(ts, isBG);
    assert p == DecisionsBelow(ts, isBG, |ts|);
    DecisionsCover(ts, isBG, |ts|);
  }

  /** An operator in the first slot is the only one handled. */
  lemma PlanFirstOperator(ts: seq<string>, isBG: bool)
    requires |ts| > 0 && IsOperator(ts[0])
    ensures Plan(ts, isBG) == [Redirect(0, StreamOf(ts[0]), TargetAt(ts, 0, isBG))]
  {
  }

  /** Nothing is redirected exactly when no argument is an operator. */
  lemma {:induction false} PlanEmpty(ts: seq<string>, isBG: bool)
    ensures Plan(ts, isBG) == [] <==> forall i :: 0 <= i < |ts| ==> !IsOperator(ts[i])
  {
    var p := Plan(ts, isBG);
    if forall i :: 0 <= i < |ts| ==> !IsOperator(ts[i]) {
      if p != [] {
        PlanSound(ts, isBG);
        assert Follows(ts, isBG, p[0]);
      }
    } else {
      var i :| 0 <= i < |ts| && IsOperator(ts[i]);
      if !IsOperator(ts[0]) {
        PlanComplete(ts, isBG);
        var k :| 0 <= k < |p| && p[k].at == i;
      }
    }
  }

  /** After any redirection, only the first argument is passed to the program. */
  lemma RedirectedArgs(a: seq<Option<string>>, isBG: bool)
    requires Plan(Args(a), isBG) != []
    ensures Args(ClearSlot1(a)) == Args(a)[..1]
  {
    PlanEmpty(Args(a), isBG);
    if |a| > 1 {
      if ArgCount(a) > 1 {
        ClearCuts(a, 1);
      } else {
        CountUpTo(a[1 := None], 1);
      }
    }
  }

  /** The vector once the scan has made the redirections `plan`: slot 1 is cleared after the first. */
  ghost function Swept(a0: seq<Option<string>>, plan: seq<Redirect>): seq<Option<string>>
  {
    if plan == [] then a0 else ClearSlot1(a0)
  }

  /**
   * What the scan reads at index `i`: the argument itself, and as operand
   * the next argument or NULL. Clearing slot 1 never hides either, except
   * that the scan stops at slot 1 after an operator in slot 0.
   */
  lemma ScanReads(a0: seq<Option<string>>, isBG: bool, plan: seq<Redirect>, i: nat)
    requires i < |a0| && Swept(a0, plan)[i].Some?
    requires i <= |Args(a0)| && plan == DecisionsBelow(Args(a0), isBG, i)
    requires i >= 1 && IsOperator(Args(a0)[0]) ==> i == 1 && plan != []
    ensures i < |Args(a0)| && Swept(a0, plan)[i] == Some(Args(a0)[i])
    ensures (if i + 1 < |a0| then Swept(a0, plan)[i + 1] else None)
            == (if i + 1 < |Args(a0)| then Some(Args(a0)[i + 1]) else None)
    ensures |a0| > 1 ==> Swept(a0, plan)[1 := None] == ClearSlot1(a0)
  {
    if i == 0 {
      assert plan == [];
    }
  }

  /** Where the scan stops, it has made exactly the planned redirections. */
  lemma ScanDone(a0: seq<Option<string>>, isBG: bool, plan: seq<Redirect>, i: nat)
    requires i <= |Args(a0)| && plan == DecisionsBelow(Args(a0), isBG, i)
    requires i >= 1 && IsOperator(Args(a0)[0]) ==> i == 1 && plan != []
    requires i == |a0| || Swept(a0, plan)[i].None?
    ensures plan == Plan(Args(a0), isBG)
  {
    var ts := Args(a0);
    if i < |ts| {
      assert i == 1 && plan != [];
      assert IsOperator(ts[0]) by {
        assert DecisionsBelow(ts, isBG, 0) == [];
      }
    }
  }

  /** The file `open` is given for an operand: `/dev/null` in the background when it is NULL. */
  function OpenTarget(operand: Option<string>, isBG: bool): (t: Target)
    ensures t.File? <==> operand.Some?
    ensures operand.Some? ==> t == File(operand.value)
    ensures t == DevNull <==> operand.None? && isBG
  {
    if operand.None? && isBG then DevNull else if operand.None? then NoOperand else File(operand.value)
  }

  /**
   * The token scan of `RedirectIO`: walk the vector up to its first NULL
   * slot; on `>` or `<` pick the target from the next slot and clear slot 1.
   * The opening and `dup2` of each target is not modelled; `plan` lists them.
   */
  method RedirectIO(argv: array<Option<string>>, isBG: bool) returns (plan: seq<Redirect>)
    modifies argv
    ensures plan == Plan(Args(old(argv[..])), isBG)
    ensures argv[..] == if plan == [] then old(argv[..]) else ClearSlot1(old(argv[..]))
    ensures Args(argv[..]) == if plan == [] then Args(old(argv[..])) else Args(old(argv[..]))[..1]
  {
    ghost var a0 := argv[..];
    ghost var ts := Args(a0);
    var i := 0;
    plan := [];
    while i < argv.Length && argv[i].Some?
      invariant 0 <= i <= |ts|
      invariant plan == DecisionsBelow(ts, isBG, i)
      invariant argv[..] == Swept(a0, plan)
      invariant i >= 1 && IsOperator(ts[0]) ==> i == 1 && plan != []
    {
      ScanReads(a0, isBG, plan, i);
      var operand := if i + 1 < argv.Length then argv[i + 1] else None;
      if argv[i] == Some(">") {
        var target := OpenTarget(operand, isBG);
        if 1 < argv.Length {
          argv[1] := None;
        }
        plan := plan + [Redirect(i, Stdout, target)];
      } else if argv[i] == Some("<") {
        var target := OpenTarget(operand, isBG);
        if 1 < argv.Length {
          argv[1] := None;
        }
        plan := plan + [Redirect(i, Stdin, target)];
      }
      i := i + 1;
    }
    ScanDone(a0, isBG, plan, i);
    if plan != [] {
      RedirectedArgs(a0, isBG);
    }
  }
}
