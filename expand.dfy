/**
 * `ExpandPID` (smallsh.c:122-140): every `$$` in the command line, found left
 * to right by `strstr`, is replaced by the shell's pid printed with `%d`.
 */
module PidExpansion {
  import opened Wrappers
  import opened Decimal

  predicate PairAt(s: string, k: int)
  {
    0 <= k && k + 1 < |s| && s[k] == '$' && s[k + 1] == '$'
  }

  /** A pair in the tail of `s` is a pair of `s` one position later. */
  lemma PairShift(s: string)
    requires |s| > 0
    ensures forall j :: 0 <= j ==> (PairAt(s[1..], j) ==> PairAt(s, j + 1))
    ensures forall j :: 1 <= j ==> (PairAt(s, j) ==> PairAt(s[1..], j - 1))
  {
  }

  /** `strstr(s, "$$")`: the first position where `$$` starts, if any. */
  function FindPair(s: string): (r: Option<nat>)
    ensures r.Some? ==> PairAt(s, r.value) && forall j :: 0 <= j < r.value ==> !PairAt(s, j)
    ensures r.None? ==> forall j :: 0 <= j < |s| ==> !PairAt(s, j)
  {
    if |s| < 2 then None
    else if s[0] == '$' && s[1] == '$' then Some(0)
    else
      PairShift(s);
      match FindPair(s[1..])
      case None => None
      case Some(k) => Some(k + 1)
  }

  /** The line after expansion, following the scan in smallsh.c: find a pair, replace it, go on after it. */
  function Expand(s: string, pid: string): string
    decreases |s|
  {
    match FindPair(s)
    case None => s
    case Some(k) => s[..k] + pid + Expand(s[k + 2..], pid)
  }

  /** An independent character-by-character reading of the same rule. */
  function ExpandRef(s: string, pid: string): string
    decreases |s|
  {
    if |s| >= 2 && s[0] == '$' && s[1] == '$' then pid + ExpandRef(s[2..], pid)
    else if s == [] then []
    else [s[0]] + ExpandRef(s[1..], pid)
  }

  predicate NoDollar(s: string) { forall i :: 0 <= i < |s| ==> s[i] != '$' }

  /** Skipping a `$`-free prefix shifts the position `strstr` finds. */
  lemma {:induction false} FindPairAfterPlain(x: string, y: string)
    requires NoDollar(x)
    ensures FindPair(x + y).None? <==> FindPair(y).None?
    ensures FindPair(y).Some? ==> FindPair(x + y) == Some(|x| + FindPair(y).value)
  {
    if x != [] {
      var s := x + y;
      assert s[1..] == x[1..] + y;
      FindPairAfterPlain(x[1..], y);
      if |s| >= 2 {
        assert s[0] != '$';
        assert FindPair(s) == match FindPair(s[1..]) case None => None case Some(k) => Some(k + 1);
      } else {
        assert y == [];
      }
    } else {
      assert x + y == y;
    }
  }

  /** Before the first pair the reference reading copies characters, then it replaces the pair. */
  lemma {:induction false} ExpandRefBeforePair(s: string, k: nat, pid: string)
    requires PairAt(s, k) && forall j :: 0 <= j < k ==> !PairAt(s, j)
    ensures ExpandRef(s, pid) == s[..k] + pid + ExpandRef(s[k + 2..], pid)
    decreases k
  {
    if k > 0 {
      assert !PairAt(s, 0);
      PairShift(s);
      ExpandRefBeforePair(s[1..], k - 1, pid);
      assert s[1..][k + 1..] == s[k + 2..];
      assert s[..k] == [s[0]] + s[1..][..k - 1];
    }
  }

  /** A line without a pair is copied unchanged by the reference reading. */
  lemma {:induction false} ExpandRefPlain(s: string, pid: string)
    requires forall j :: 0 <= j < |s| ==> !PairAt(s, j)
    ensures ExpandRef(s, pid) == s
    decreases |s|
  {
    if s != [] {
      assert !PairAt(s, 0);
      PairShift(s);
      ExpandRefPlain(s[1..], pid);
    }
  }

  /** The scan in smallsh.c and the character-by-character reading agree on every line. */
  lemma {:induction false} ExpandMatchesRef(s: string, pid: string)
    ensures Expand(s, pid) == ExpandRef(s, pid)
    decreases |s|
  {
    match FindPair(s)
    case None =>
      ExpandRefPlain(s, pid);
    case Some(k) =>
      ExpandRefBeforePair(s, k, pid);
      ExpandMatchesRef(s[k + 2..], pid);
  }

  /** A line without `$$` is returned unchanged. */
  lemma NoPairUnchanged(s: string, pid: string)
    requires forall j :: 0 <= j < |s| ==> !PairAt(s, j)
    ensures Expand(s, pid) == s
  {
  }

  /** The pair is consumed first, so `$$$` becomes the pid followed by `$`. */
  lemma TripleDollar(pid: string)
    ensures Expand("$$$", pid) == pid + "$"
  {
    assert FindPair("$$$") == Some(0);
    assert "$$$"[2..] == "$";
    assert FindPair("$").None?;
  }

  /** The reference reading starts with `$` only where the input starts with a lone `$`. */
  lemma ExpandRefHead(s: string, pid: string)
    requires |pid| > 0 && NoDollar(pid)
    requires |ExpandRef(s, pid)| > 0 && ExpandRef(s, pid)[0] == '$'
    ensures |s| > 0 && s[0] == '$' && !PairAt(s, 0)
  {
  }

  /** With a non-empty pid free of `$`, expanding leaves no `$$` behind. */
  lemma {:induction false} ExpandRefNoPair(s: string, pid: string)
    requires |pid| > 0 && NoDollar(pid)
    ensures forall j :: 0 <= j < |ExpandRef(s, pid)| ==> !PairAt(ExpandRef(s, pid), j)
    decreases |s|
  {
    var r := ExpandRef(s, pid);
    if |s| >= 2 && s[0] == '$' && s[1] == '$' {
      var t := ExpandRef(s[2..], pid);
      ExpandRefNoPair(s[2..], pid);
      forall j | 0 <= j < |r| ensures !PairAt(r, j) {
        if j + 1 < |pid| {
          assert r[j] == pid[j];
        } else if j + 1 == |pid| {
          assert r[j] == pid[j];
        } else if j + 1 < |r| {
          assert r[j] == t[j - |pid|] && r[j + 1] == t[j - |pid| + 1];
          assert !PairAt(t, j - |pid|);
        }
      }
    } else if s != [] {
      var t := ExpandRef(s[1..], pid);
      ExpandRefNoPair(s[1..], pid);
      forall j | 0 <= j < |r| ensures !PairAt(r, j) {
        if j == 0 {
          if |t| > 0 && t[0] == '$' {
            ExpandRefHead(s[1..], pid);
          }
        } else if j + 1 < |r| {
          assert r[j] == t[j - 1] && r[j + 1] == t[j];
          assert !PairAt(t, j - 1);
        }
      }
    }
  }

  /** Expanding an already expanded line changes nothing. */
  lemma ExpandIdempotent(s: string, pid: string)
    requires |pid| > 0 && NoDollar(pid)
    ensures Expand(Expand(s, pid), pid) == Expand(s, pid)
  {
    ExpandMatchesRef(s, pid);
    ExpandRefNoPair(s, pid);
  }

  /**
   * What the loop of `ExpandPID` knows after each replacement: the line is
   * `done + rest`, where `done` is the expanded part and the search pointer
   * sits either at its end or where the last pid was written, and expanding
   * `rest` completes the expansion of the original line.
   */
  ghost predicate Scanned(line: string, pidText: string, r: string, ptr: nat, done: string, rest: string)
  {
    && r == done + rest
    && ptr <= |done|
    && (ptr == |done| || done[ptr..] == pidText)
    && done + Expand(rest, pidText) == Expand(line, pidText)
  }

  /** From the pointer, `strstr` finds the first pair of `rest`. */
  lemma {:induction false} SearchFromPointer(line: string, pidText: string, r: string, ptr: nat, done: string, rest: string)
    requires Scanned(line, pidText, r, ptr, done, rest) && NoDollar(pidText)
    ensures FindPair(r[ptr..]).Some? <==> FindPair(rest).Some?
    ensures FindPair(rest).Some? ==> FindPair(r[ptr..]).value == |done| - ptr + FindPair(rest).value
  {
    assert r[ptr..] == done[ptr..] + rest;
    FindPairAfterPlain(done[ptr..], rest);
  }

  /** Replacing the pair at `|done| + k'` moves `rest[..k']` and the pid into the done part. */
  lemma {:induction false} ReplaceShape(r: string, done: string, rest: string, k': nat, pidText: string)
    requires r == done + rest && k' + 2 <= |rest|
    ensures var k := |done| + k';
            k + 2 <= |r| &&
            r[..k] + pidText + r[k + 2..] == (done + rest[..k'] + pidText) + rest[k' + 2..]
  {
    var k := |done| + k';
    assert r[..k] == done + rest[..k'];
    assert r[k + 2..] == rest[k' + 2..];
  }

  /** Expanding `rest` after the replacement still completes the original line. */
  lemma {:induction false} ReplaceKeepsExpansion(line: string, pidText: string, done: string, rest: string)
    requires done + Expand(rest, pidText) == Expand(line, pidText)
    requires FindPair(rest).Some?
    ensures var k' := FindPair(rest).value;
            (done + rest[..k'] + pidText) + Expand(rest[k' + 2..], pidText) == Expand(line, pidText)
  {
    var k' := FindPair(rest).value;
    var tail := Expand(rest[k' + 2..], pidText);
    assert Expand(rest, pidText) == rest[..k'] + pidText + tail;
    assert (done + rest[..k'] + pidText) + tail == done + (rest[..k'] + pidText + tail);
  }

  /** One replacement keeps what the loop knows. */
  lemma {:induction false} ReplaceStep(line: string, pidText: string, r: string, ptr: nat, done: string, rest: string, k: nat)
    requires Scanned(line, pidText, r, ptr, done, rest)
    requires FindPair(rest).Some? && k == |done| + FindPair(rest).value
    ensures k + 2 <= |r|
    ensures var k' := FindPair(rest).value;
            Scanned(line, pidText, r[..k] + pidText + r[k + 2..], k, done + rest[..k'] + pidText, rest[k' + 2..])
  {
    var k' := FindPair(rest).value;
    ReplaceShape(r, done, rest, k', pidText);
    ReplaceKeepsExpansion(line, pidText, done, rest);
    assert (done + rest[..k'] + pidText)[k..] == pidText;
  }

  /**
   * `ExpandPID`: rewrites the line in a loop. After each replacement the
   * search resumes where the pid was written, as `ptr` does in smallsh.c.
   */
  method ExpandPID(line: string, pid: nat) returns (r: string)
    ensures r == Expand(line, NatToDecimal(pid))
  {
    var pidText := NatToDecimal(pid);
    NoDollarInDecimal(pid);
    r := line;
    var ptr: nat := 0;
    ghost var done: string := [];
    ghost var rest: string := line;
    SearchFromPointer(line, pidText, r, ptr, done, rest);
    var found := FindPair(r[ptr..]);
    while found.Some?
      invariant Scanned(line, pidText, r, ptr, done, rest)
      invariant found.Some? <==> FindPair(rest).Some?
      invariant found.Some? ==> ptr + found.value == |done| + FindPair(rest).value
      decreases |rest|
    {
      var k := ptr + found.value;
      ghost var k' := FindPair(rest).value;
      ReplaceStep(line, pidText, r, ptr, done, rest, k);
      r := r[..k] + pidText + r[k + 2..];
      done, rest := done + rest[..k'] + pidText, rest[k' + 2..];
      ptr := k;
      SearchFromPointer(line, pidText, r, ptr, done, rest);
      found := FindPair(r[ptr..]);
    }
  }
}
