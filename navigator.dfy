/**
 * The navigator: lookups by pid, the upward walks (subtree membership, depth,
 * shell ancestry) and the global descendant buffer that collect_descendants
 * fills, with the operations that work on that buffer in place
 * (find_oldest_newest and the ordering step of handle_kst).
 */
module Navigator {
  import opened Records
  import opened Snapshot
  import opened Tree
  import opened Store
  import opened Extrema

  /** find_proc_index: a front-to-back scan for `pid`. */
  method FindProcIndex(list: ProcList, pid: int) returns (idx: int)
    requires list.Valid()
    ensures idx == IndexOf(list.Records(), pid)
  {
    var i := 0;
    while i < list.count
      invariant 0 <= i <= list.count
      invariant forall j :: 0 <= j < i ==> list.items[j].pid != pid
    {
      if list.items[i].pid == pid {
        return i;
      }
      i := i + 1;
    }
    return -1;
  }

  /** get_ppid: the ppid of the record for `pid`, or -1. */
  method GetPpid(list: ProcList, pid: int) returns (ppid: int)
    requires list.Valid()
    ensures ppid == ParentOf(list.Records(), pid)
  {
    var idx := FindProcIndex(list, pid);
    ppid := if idx != -1 then list.items[idx].ppid else -1;
  }

  /** check_process_at_root: follow ppids from `target` until `root` or a value <= 0. */
  method CheckProcessAtRoot(list: ProcList, root: int, target: int, ghost rank: int -> nat) returns (b: bool)
    requires list.Valid() && Ranked(list.Records(), rank)
    ensures b == InSubtree(list.Records(), root, target, rank)
  {
    if root == target {
      return true;
    }
    var current := target;
    while current > 0 && current != root
      invariant InSubtree(list.Records(), root, current, rank) == InSubtree(list.Records(), root, target, rank)
      decreases Height(rank, current)
    {
      ParentLower(list.Records(), rank, current);
      current := GetPpid(list, current);
    }
    return current == root;
  }

  /** handle_dpt: count the ppid hops from `target` until `root`; -1 when a value <= 0 comes first. */
  method HandleDpt(list: ProcList, root: int, target: int, ghost rank: int -> nat) returns (depth: int)
    requires list.Valid() && Ranked(list.Records(), rank)
    ensures depth == Depth(list.Records(), root, target, rank)
    ensures target == root ==> depth == 0
  {
    ghost var s := list.Records();
    depth := 0;
    var current := target;
    while current != root && current > 0
      invariant depth >= 0
      invariant Depth(s, root, target, rank) ==
        if Depth(s, root, current, rank) == -1 then -1 else Depth(s, root, current, rank) + depth
      decreases Height(rank, current)
    {
      ParentLower(s, rank, current);
      current := GetPpid(list, current);
      depth := depth + 1;
    }
    depth := if current == root then depth else -1;
  }

  /** is_bash_subtree: walk up from `pid` looking for a record whose comm contains the shell marker. */
  method IsBashSubtree(list: ProcList, pid: int, ghost rank: int -> nat) returns (b: bool)
    requires list.Valid() && Ranked(list.Records(), rank)
    ensures b == ShellAncestry(list.Records(), pid, rank)
  {
    var current := pid;
    while current > 0
      invariant ShellAncestry(list.Records(), current, rank) == ShellAncestry(list.Records(), pid, rank)
      decreases Height(rank, current)
    {
      var idx := FindProcIndex(list, current);
      if idx != -1 && Contains(list.items[idx].comm, Shell) {
        return true;
      }
      ParentLower(list.Records(), rank, current);
      current := GetPpid(list, current);
    }
    return false;
  }

  /** The collected indices are indices of records. */
  lemma CollectedInRange(s: seq<ProcInfo>, p: nat, rank: int -> nat)
    requires Ranked(s, rank) && p < |s|
    ensures InRange(s, Walk(s, p, true, 0, rank))
  {
    var w := Walk(s, p, true, 0, rank);
    WalkInRange(s, p, true, 0, rank);
    forall j | 0 <= j < |w| ensures 0 <= w[j] < |s| {
      assert w[j] in w;
    }
  }

  /** The zero-initialised value of the globals oldest_desc and newest_desc. */
  const Blank: ProcInfo := ProcInfo(0, 0, 0, 0, 0, '\0', 0, "")

  /**
   * The globals `descendants` (an index buffer), `desc_capacity`,
   * `desc_count`, `oldest_desc` and `newest_desc`.
   */
  class Descendants {
    var slots: array<int>
    var capacity: int
    var count: int
    var oldest: ProcInfo
    var newest: ProcInfo

    ghost predicate Valid()
      reads this
    {
      0 <= count <= capacity && capacity == slots.Length
    }

    /** The buffered indices: `descendants[0..desc_count)`. */
    ghost function Contents(): seq<int>
      reads this, slots
      requires Valid()
    {
      slots[..count]
    }

    /** The globals at program start: no buffer, capacity and count 0, blank records. */
    constructor Init()
      ensures Valid() && fresh(slots)
      ensures count == 0 && capacity == 0 && oldest == Blank && newest == Blank
    {
      slots := new int[0];
      capacity := 0;
      count := 0;
      oldest := Blank;
      newest := Blank;
    }

    /**
     * `descendants[desc_count++] = x`, growing the buffer first when it is
     * full (to 256 entries from none, otherwise to twice its capacity).
     */
    method Append(x: int)
      requires Valid()
      modifies this, slots
      ensures Valid() && Contents() == old(Contents()) + [x]
      ensures count == old(count) + 1 && slots[old(count)] == x
      ensures capacity ==
        if old(count) < old(capacity) then old(capacity)
        else if old(capacity) == 0 then 256 else 2 * old(capacity)
      ensures slots == old(slots) || fresh(slots)
      ensures oldest == old(oldest) && newest == old(newest)
    {
      if count >= capacity {
        var newCapacity := if capacity != 0 then capacity * 2 else 256;
        var grown := new int[newCapacity];
        forall k | 0 <= k < capacity {
          grown[k] := slots[k];
        }
        slots := grown;
        capacity := newCapacity;
      }
      slots[count] := x;
      count := count + 1;
    }

    /**
     * collect_descendants as written: every call, the recursive ones
     * included, starts with `desc_count = 0`. Each visited index is stored at
     * position 0 and the recursion that follows resets the counter again, so
     * every call ends with desc_count == 0, whatever the table holds. The
     * buffer is only ever grown from nothing, to 256 entries, when the walk
     * visits something.
     */
    method CollectDescendants(list: ProcList, p: int, ex: bool, ghost s: seq<ProcInfo>, ghost rank: int -> nat)
      requires Valid() && list.Valid() && s == list.Records() && Ranked(s, rank) && 0 <= p < list.count
      modifies this, slots
      ensures Valid() && count == 0
      ensures var w := Walk(s, p, ex, 0, rank);
        capacity == (if w != [] && old(capacity) == 0 then 256 else old(capacity))
      ensures slots == old(slots) || fresh(slots)
      ensures oldest == old(oldest) && newest == old(newest)
      decreases RankBound(s, rank) - rank(s[p].pid), if ex then 1 else 0
    {
      count := 0;
      var parentPid := list.items[p].pid;
      ghost var seen: seq<nat> := [];
      var i: nat := 0;
      while i < list.count
        invariant 0 <= i <= list.count
        invariant Valid() && count == 0
        invariant seen + Walk(s, p, ex, i, rank) == Walk(s, p, ex, 0, rank)
        invariant capacity == if seen != [] && old(capacity) == 0 then 256 else old(capacity)
        invariant slots == old(slots) || fresh(slots)
        invariant oldest == old(oldest) && newest == old(newest)
      {
        if list.items[i].ppid == parentPid && (ex || list.items[i].pid != parentPid) {
          assert Linked(s, p, ex, i);
          LinkedRises(s, rank, p, ex, i);
          WalkUnfold(s, p, ex, i, rank);
          Append(i);
          CollectDescendants(list, i, false, s, rank);
          ghost var below := Walk(s, i, false, 0, rank);
          Regroup(seen, i, below, Walk(s, p, ex, i + 1, rank));
          seen := seen + [i] + below;
        } else {
          WalkUnfold(s, p, ex, i, rank);
        }
        i := i + 1;
      }
    }

    /**
     * The recursion of collect_descendants without the reset: append, in
     * depth-first pre-order, every record the walk from `p` visits.
     */
    method CollectAppend(list: ProcList, p: int, ex: bool, ghost s: seq<ProcInfo>, ghost rank: int -> nat)
      requires Valid() && list.Valid() && s == list.Records() && Ranked(s, rank) && 0 <= p < list.count
      modifies this, slots
      ensures Valid() && Contents() == old(Contents()) + Walk(s, p, ex, 0, rank)
      ensures slots == old(slots) || fresh(slots)
      ensures oldest == old(oldest) && newest == old(newest)
      decreases RankBound(s, rank) - rank(s[p].pid), if ex then 1 else 0
    {
      var parentPid := list.items[p].pid;
      ghost var seen: seq<nat> := [];
      var i: nat := 0;
      while i < list.count
        invariant 0 <= i <= list.count
        invariant Valid()
        invariant seen + Walk(s, p, ex, i, rank) == Walk(s, p, ex, 0, rank)
        invariant Contents() == old(Contents()) + seen
        invariant slots == old(slots) || fresh(slots)
        invariant oldest == old(oldest) && newest == old(newest)
      {
        if list.items[i].ppid == parentPid && (ex || list.items[i].pid != parentPid) {
          assert Linked(s, p, ex, i);
          LinkedRises(s, rank, p, ex, i);
          WalkUnfold(s, p, ex, i, rank);
          Append(i);
          CollectAppend(list, i, false, s, rank);
          Regroup(seen, i, Walk(s, i, false, 0, rank), Walk(s, p, ex, i + 1, rank));
          Regroup2(old(Contents()), seen, i, Walk(s, i, false, 0, rank));
          seen := seen + [i] + Walk(s, i, false, 0, rank);
        } else {
          WalkUnfold(s, p, ex, i, rank);
        }
        i := i + 1;
      }
    }

    /**
     * collect_descendants with the counter reset once, by the outermost call:
     * the buffer ends up holding exactly the walk from `p`.
     */
    method Collect(list: ProcList, p: int, ex: bool, ghost rank: int -> nat)
      requires Valid() && list.Valid() && Ranked(list.Records(), rank) && 0 <= p < list.count
      modifies this, slots
      ensures Valid() && Contents() == Walk(list.Records(), p, ex, 0, rank)
      ensures slots == old(slots) || fresh(slots)
      ensures oldest == old(oldest) && newest == old(newest)
    {
      count := 0;
      CollectAppend(list, p, ex, list.Records(), rank);
    }

    /**
     * find_oldest_newest: with an empty buffer nothing changes; otherwise the
     * globals receive the first buffered record of least start time and the
     * first of greatest start time.
     */
    method FindOldestNewest(list: ProcList)
      requires Valid() && list.Valid() && InRange(list.Records(), Contents())
      modifies this
      ensures Valid() && slots == old(slots) && count == old(count) && capacity == old(capacity)
      ensures count == 0 ==> oldest == old(oldest) && newest == old(newest)
      ensures count > 0 ==>
        var keys := Starts(list.Records(), Contents());
        oldest == list.Records()[Contents()[FirstMin(keys, count)]] &&
        newest == list.Records()[Contents()[FirstMax(keys, count)]]
    {
      if count == 0 {
        return;
      }
      ghost var s := list.Records();
      ghost var buf := Contents();
      oldest, newest := ScanExtremes(list, s, buf, Starts(s, buf));
    }

    /**
     * The loop of find_oldest_newest: starting from the first entry, replace
     * the oldest on a strictly earlier start and the newest on a strictly
     * later one.
     */
    method ScanExtremes(list: ProcList, ghost s: seq<ProcInfo>, ghost buf: seq<int>, ghost keys: seq<int>)
      returns (oldDesc: ProcInfo, newDesc: ProcInfo)
      requires Valid() && list.Valid() && s == list.Records() && buf == Contents() && 0 < count
      requires InRange(s, buf) && keys == Starts(s, buf)
      ensures oldDesc == s[buf[FirstMin(keys, count)]] && newDesc == s[buf[FirstMax(keys, count)]]
    {
      var firstIdx := slots[0];
      assert firstIdx == buf[0];
      oldDesc := list.items[firstIdx];
      newDesc := list.items[firstIdx];
      ghost var lo: nat := 0;
      ghost var hi: nat := 0;
      var i := 1;
      while i < count
        invariant 1 <= i <= count == |buf|
        invariant lo == FirstMin(keys, i) && hi == FirstMax(keys, i)
        invariant oldDesc == s[buf[lo]] && newDesc == s[buf[hi]]
      {
        var idx := slots[i];
        assert idx == buf[i];
        assert list.items[idx] == s[idx];
        if list.items[idx].starttime < oldDesc.starttime {
          oldDesc := list.items[idx];
          lo := i;
        }
        if list.items[idx].starttime > newDesc.starttime {
          newDesc := list.items[idx];
          hi := i;
        }
        i := i + 1;
      }
    }

    /**
     * The ordering step of handle_kst: an exchange sort of the buffer by
     * start time, oldest first, in place.
     */
    method SortByStart(list: ProcList)
      requires Valid() && list.Valid() && InRange(list.Records(), Contents())
      modifies slots
      ensures Valid() && InRange(list.Records(), Contents())
      ensures multiset(Contents()) == old(multiset(Contents()))
      ensures SortedByStart(list.Records(), Contents())
      ensures slots[count..] == old(slots[count..])
    {
      ghost var s := list.Records();
      ghost var start := slots[..count];
      ghost var buf := start;
      var i := 0;
      while i < count - 1
        invariant 0 <= i <= count
        invariant slots[..count] == buf && slots[count..] == old(slots[count..])
        invariant Sorting(s, start, buf, i)
      {
        ghost var lo := if i == 0 then 0 else s[buf[i - 1]].starttime;
        PlaceMinimum(list, s, buf, i, lo);
        ghost var after := slots[..count];
        SortStep(s, start, buf, after, i, lo);
        buf := after;
        i := i + 1;
      }
      SortDone(s, start, buf, i);
    }

    /**
     * One pass of the outer loop of the exchange sort: the earliest start
     * time among entries i.. is brought to position i. `lo` bounds every key
     * from i on, before and after.
     */
    method PlaceMinimum(list: ProcList, ghost s: seq<ProcInfo>, ghost before: seq<int>, i: int, ghost lo: int)
      requires Valid() && list.Valid() && s == list.Records() && slots[..count] == before
      requires 0 <= i < count && InRange(s, before) && StartsFrom(s, before, i, lo)
      modifies slots
      ensures Placed(s, before, slots[..count], i, lo)
      ensures slots[count..] == old(slots[count..])
    {
      ghost var buf := before;
      var j := i + 1;
      while j < count
        invariant i + 1 <= j <= count
        invariant slots[..count] == buf && slots[count..] == old(slots[count..])
        invariant Scanning(s, before, buf, i, j, lo)
      {
        OrderPair(list, s, buf, i, j);
        ghost var after := slots[..count];
        ScanStep(s, before, buf, after, i, j, lo);
        buf := after;
        j := j + 1;
      }
      ScanDone(s, before, buf, i, lo);
    }

    /** One comparison of the exchange sort: swap entries i and j when i starts later. */
    method OrderPair(list: ProcList, ghost s: seq<ProcInfo>, ghost before: seq<int>, i: int, j: int)
      requires Valid() && list.Valid() && s == list.Records() && slots[..count] == before
      requires 0 <= i < j < count && InRange(s, before)
      modifies slots
      ensures Exchanged(before, slots[..count], i, j) && OrderedPair(s, slots[..count], i, j)
      ensures slots[count..] == old(slots[count..])
    {
      assert slots[i] == before[i] && slots[j] == before[j];
      if list.items[slots[i]].starttime > list.items[slots[j]].starttime {
        slots[i], slots[j] := slots[j], slots[i];
      }
    }
  }

  /** A two-record table: pid 1 (parent 0) and its child pid 2. */
  const Pair: seq<ProcInfo> := [ProcInfo(1, 0, 0, 0, 0, 'S', 0, "init"), ProcInfo(2, 1, 0, 0, 0, 'S', 0, "child")]

  /** A rank for `Pair`: the child above its parent. */
  function PairRank(pid: int): nat {
    if pid == 2 then 2 else if pid == 1 then 1 else 0
  }

  /**
   * For `Pair` the walk from record 0 visits record 1, while the as-written
   * collector ends with desc_count == 0 on every input.
   */
  lemma ResetLosesChild()
    ensures Ranked(Pair, PairRank)
    ensures Walk(Pair, 0, true, 0, PairRank) == [1]
  {
    assert Ranked(Pair, PairRank);
    WalkUnfold(Pair, 1, false, 0, PairRank);
    WalkUnfold(Pair, 1, false, 1, PairRank);
    assert Walk(Pair, 1, false, 0, PairRank) == [];
    WalkUnfold(Pair, 0, true, 0, PairRank);
    WalkUnfold(Pair, 0, true, 1, PairRank);
    assert Walk(Pair, 0, true, 2, PairRank) == [];
  }
}
