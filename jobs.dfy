/**
 * The Job Table: the fixed-capacity list `bg_list` of background process ids
 * with its live-prefix length `size` (smallsh.c:87-91, 250-284, 412-413).
 */
module Jobs {

  /** MAX_CHILD_PROCESSES */
  const MaxChildProcesses := 32

  /** Position of the first occurrence of `pid` in `s`, or `|s|` when absent. */
  function IndexOf(s: seq<int>, pid: int): (k: nat)
    ensures k <= |s|
    ensures k < |s| ==> s[k] == pid
    ensures forall j :: 0 <= j < k ==> s[j] != pid
    ensures k == |s| <==> pid !in s
  {
    if s == [] then 0 else if s[0] == pid then 0 else 1 + IndexOf(s[1..], pid)
  }

  /** `s` with the entry at index `k` deleted and the relative order of the rest kept. */
  function Without(s: seq<int>, k: nat): (r: seq<int>)
    requires k < |s|
    ensures |r| == |s| - 1
    ensures forall j :: 0 <= j < k ==> r[j] == s[j]
    ensures forall j :: k <= j < |r| ==> r[j] == s[j + 1]
  {
    s[..k] + s[k + 1..]
  }

  /** The live entries after `PushPID(pid)`: appended when there is room, else unchanged. */
  function PushLive(live: seq<int>, pid: int): seq<int>
  {
    if |live| < MaxChildProcesses then live + [pid] else live
  }

  /** The live entries after `RemovePID(pid)`: the first occurrence deleted, if any. */
  function RemoveLive(live: seq<int>, pid: int): seq<int>
  {
    var k := IndexOf(live, pid);
    if k < |live| then Without(live, k) else live
  }

  /** No pid is tracked twice. */
  predicate Distinct(s: seq<int>)
  {
    forall i, j :: 0 <= i < j < |s| ==> s[i] != s[j]
  }

  /** Pushing never takes the table past its capacity, and a full table is left as it was. */
  lemma PushBounded(live: seq<int>, pid: int)
    requires |live| <= MaxChildProcesses
    ensures |PushLive(live, pid)| <= MaxChildProcesses
    ensures |live| == MaxChildProcesses ==> PushLive(live, pid) == live
    ensures |live| < MaxChildProcesses ==> PushLive(live, pid)[..|live|] == live
  {
  }

  /** Pushing a pid that is not yet tracked keeps the table free of duplicates. */
  lemma PushKeepsDistinct(live: seq<int>, pid: int)
    requires Distinct(live) && pid !in live
    ensures Distinct(PushLive(live, pid))
  {
  }

  /**
   * Removing deletes exactly one occurrence of a tracked pid and nothing else:
   * as a multiset the table loses `pid` once; an untracked pid changes nothing.
   */
  lemma RemoveTakesOne(live: seq<int>, pid: int)
    ensures pid in live ==> multiset(RemoveLive(live, pid)) == multiset(live) - multiset{pid}
    ensures pid in live ==> |RemoveLive(live, pid)| == |live| - 1
    ensures pid !in live ==> RemoveLive(live, pid) == live
  {
    if pid in live {
      var k := IndexOf(live, pid);
      assert live == live[..k] + [pid] + live[k + 1..];
      calc {
        multiset(live);
        multiset(live[..k]) + multiset{pid} + multiset(live[k + 1..]);
        multiset(Without(live, k)) + multiset{pid};
      }
    }
  }

  /** In a duplicate-free table, a removed pid is gone and the rest stays duplicate-free. */
  lemma RemoveKeepsDistinct(live: seq<int>, pid: int)
    requires Distinct(live)
    ensures Distinct(RemoveLive(live, pid))
    ensures pid !in RemoveLive(live, pid)
  {
    var r := RemoveLive(live, pid);
    var k := IndexOf(live, pid);
    if k < |live| {
      forall i, j | 0 <= i < j < |r| ensures r[i] != r[j] {
        var i' := if i < k then i else i + 1;
        var j' := if j < k then j else j + 1;
        assert r[i] == live[i'] && r[j] == live[j'] && i' < j';
      }
      forall j | 0 <= j < |r| ensures r[j] != pid {
        var j' := if j < k then j else j + 1;
        assert r[j] == live[j'] && j' != k;
      }
    }
  }

  /**
   * `RemovePID`'s special case for the last slot (it zeroes the slot rather
   * than shifting) leaves the same live prefix as the uniform shift would.
   */
  lemma LastSlotSameAsShift(live: seq<int>, pid: int)
    requires |live| == MaxChildProcesses && IndexOf(live, pid) == MaxChildProcesses - 1
    ensures RemoveLive(live, pid) == live[..MaxChildProcesses - 1]
  {
  }

  class JobTable {
    /** `bg_list` */
    const list: array<int>
    /** `size`, the number of live entries at the front of `list` */
    var size: nat

    ghost predicate Valid()
      reads this
    {
      list.Length == MaxChildProcesses && size <= MaxChildProcesses
    }

    /** The tracked background pids, oldest first. */
    ghost function Live(): seq<int>
      reads this, list
      requires Valid()
    {
      list[..size]
    }

    /** The table `main` declares: no entries (smallsh.c:412-413). */
    constructor ()
      ensures Valid() && fresh(list) && Live() == []
    {
      list := new int[MaxChildProcesses];
      size := 0;
    }

    /** `PushPID`: append when there is room (result 0), else reject (result -1). */
    method PushPID(pid: int) returns (r: int)
      requires Valid()
      modifies this, list
      ensures Valid()
      ensures r == (if old(size) >= MaxChildProcesses then -1 else 0)
      ensures r == -1 ==> size == old(size) && list[..] == old(list[..])
      ensures r == 0 ==> size == old(size) + 1 && list[..] == old(list[..])[old(size) := pid]
      ensures Live() == PushLive(old(Live()), pid)
    {
      if size >= MaxChildProcesses {
        r := -1;
      } else {
        list[size] := pid;
        size := size + 1;
        r := 0;
      }
    }

    /**
     * `RemovePID`: delete the first occurrence of `pid` from the live prefix,
     * shifting later entries left (result 0), or report it absent (result -1).
     */
    method RemovePID(pid: int) returns (r: int)
      requires Valid()
      modifies this, list
      ensures Valid()
      ensures r == (if pid in old(Live()) then 0 else -1)
      ensures r == 0 ==> size == old(size) - 1
      ensures r == -1 ==> size == old(size) && list[..] == old(list[..])
      ensures Live() == RemoveLive(old(Live()), pid)
    {
      var i := 0;
      while i < size
        invariant 0 <= i <= size
        invariant forall j :: 0 <= j < i ==> list[j] != pid
      {
        if list[i] == pid {
          assert IndexOf(Live(), pid) == i;
          RemoveAt(i);
          r := 0;
          return;
        }
        i := i + 1;
      }
      r := -1;
    }

    /**
     * The found branch of `RemovePID` (smallsh.c:255-261): the last slot is
     * zeroed, any other is closed up by shifting, and the size drops by one.
     */
    method RemoveAt(i: nat)
      requires Valid() && i < size
      modifies this, list
      ensures Valid() && size == old(size) - 1
      ensures Live() == Without(old(Live()), i)
    {
      if i == MaxChildProcesses - 1 {
        list[i] := 0;
      } else {
        ShiftDown(i);
      }
      size := size - 1;
    }

    /**
     * The compaction loop of `RemovePID` (smallsh.c:258-259): every slot from
     * `from` on takes the value of the slot after it. The loop stops at the end
     * of the array; the C loop reads one slot past it when the table
     * is full.
     */
    method ShiftDown(from: nat)
      requires Valid() && from < size && from < MaxChildProcesses - 1
      modifies list
      ensures forall t :: 0 <= t < from ==> list[t] == old(list[t])
      ensures forall t :: from <= t < size && t + 1 < list.Length ==> list[t] == old(list[t + 1])
      ensures size == list.Length ==> list[size - 1] == old(list[size - 1])
      ensures forall t :: size <= t < list.Length ==> list[t] == old(list[t])
    {
      var j := from;
      while j < size && j + 1 < list.Length
        invariant from <= j <= size && j < list.Length
        invariant forall t :: 0 <= t < from ==> list[t] == old(list[t])
        invariant forall t :: from <= t < j ==> list[t] == old(list[t + 1])
        invariant forall t :: j <= t < list.Length ==> list[t] == old(list[t])
      {
        list[j] := list[j + 1];
        j := j + 1;
      }
    }

    /** `KillChildren`: the pids sent SIGKILL, in the order they are signalled. */
    method KillChildren() returns (killed: seq<int>)
      requires Valid()
      ensures killed == Live()
    {
      killed := [];
      var i := 0;
      while i < size
        invariant 0 <= i <= size
        invariant killed == list[..i]
      {
        killed := killed + [list[i]];
        i := i + 1;
      }
    }
  }
}
