/**
 * The read-only query handlers: same-level count, descendant count, oldest
 * and newest descendant, non-direct descendants, the most memory / most CPU
 * listings, the shell-ancestry counts, and the gate `main` applies before
 * dispatching to a handler. Each handler that goes through the descendant
 * buffer comes twice: as written (on top of the resetting collector, so the
 * buffer is always empty when the handler reads it) and on top of the
 * corrected collector. The part that reads the buffer is one method, shared
 * by both, that works for any buffer contents.
 */
module Queries {
  import opened Records
  import opened Snapshot
  import opened Tree
  import opened Store
  import opened Extrema
  import opened Navigator

  // ---------------------------------------------------------------- -lvl

  /** The depth below `root` of every record, in table order. */
  ghost function Depths(s: seq<ProcInfo>, root: int, rank: int -> nat): (r: seq<int>)
    requires Ranked(s, rank)
    ensures |r| == |s| && forall k {:trigger r[k]} :: 0 <= k < |s| ==> r[k] == Depth(s, root, s[k].pid, rank)
  {
    seq(|s|, k requires 0 <= k < |s| => Depth(s, root, s[k].pid, rank))
  }

  /**
   * The records among the first n, in table order, that handle_lvl counts:
   * not the root, and at depth `d` below it (`depths` holds every record's
   * depth).
   */
  ghost function AtLevel(s: seq<ProcInfo>, root: int, depths: seq<int>, d: int, n: nat): seq<nat>
    requires |depths| == |s| && n <= |s|
  {
    if n == 0 then []
    else
      AtLevel(s, root, depths, d, n - 1) +
      (if s[n - 1].pid != root && depths[n - 1] == d then [n - 1] else [])
  }

  /** One index at a time: k is counted exactly when it is a non-root record at depth d. */
  lemma {:induction false} AtLevelMember(s: seq<ProcInfo>, root: int, depths: seq<int>, d: int, n: nat, k: nat)
    requires |depths| == |s| && n <= |s|
    ensures k in AtLevel(s, root, depths, d, n) <==> k < n && s[k].pid != root && depths[k] == d
  {
    if n > 0 {
      AtLevelMember(s, root, depths, d, n - 1, k);
    }
  }

  /** An index is counted exactly when its record is not the root and lies at depth d below it. */
  lemma AtLevelMembers(s: seq<ProcInfo>, root: int, d: int, rank: int -> nat, n: nat)
    requires Ranked(s, rank) && n <= |s|
    ensures forall k: nat :: k in AtLevel(s, root, Depths(s, root, rank), d, n) <==>
      k < n && s[k].pid != root && Depth(s, root, s[k].pid, rank) == d
  {
    var depths := Depths(s, root, rank);
    forall k: nat
      ensures k in AtLevel(s, root, depths, d, n) <==>
        k < n && s[k].pid != root && Depth(s, root, s[k].pid, rank) == d
    {
      AtLevelMember(s, root, depths, d, n, k);
    }
  }

  /** A target other than the root is counted on its own level. */
  lemma LevelHasTarget(s: seq<ProcInfo>, root: int, target: int, rank: int -> nat)
    requires Ranked(s, rank) && IndexOf(s, target) != -1 && target != root
    ensures IndexOf(s, target) in AtLevel(s, root, Depths(s, root, rank), Depth(s, root, target, rank), |s|)
    ensures |AtLevel(s, root, Depths(s, root, rank), Depth(s, root, target, rank), |s|)| >= 1
  {
    var k := IndexOf(s, target);
    AtLevelMember(s, root, Depths(s, root, rank), Depth(s, root, target, rank), |s|, k);
  }

  /** handle_lvl: the number of non-root records at the target's depth. */
  method HandleLvl(list: ProcList, root: int, target: int, ghost rank: int -> nat) returns (count: int)
    requires list.Valid() && Ranked(list.Records(), rank)
    ensures count == |AtLevel(list.Records(), root, Depths(list.Records(), root, rank),
                               Depth(list.Records(), root, target, rank), list.count)|
  {
    ghost var s := list.Records();
    ghost var depths := Depths(s, root, rank);
    var targetDepth := HandleDpt(list, root, target, rank);
    count := 0;
    var i: nat := 0;
    while i < list.count
      invariant i <= list.count
      invariant count == |AtLevel(s, root, depths, targetDepth, i)|
    {
      var hit := SameLevel(list, root, i, targetDepth, s, depths, rank);
      assert AtLevel(s, root, depths, targetDepth, i + 1) ==
        AtLevel(s, root, depths, targetDepth, i) + (if hit then [i] else []);
      if hit {
        count := count + 1;
      }
      i := i + 1;
    }
  }

  /** The body of handle_lvl's loop: record i is not the root and lies at depth d. */
  method SameLevel(list: ProcList, root: int, i: nat, d: int, ghost s: seq<ProcInfo>, ghost depths: seq<int>, ghost rank: int -> nat)
    returns (hit: bool)
    requires list.Valid() && s == list.Records() && Ranked(s, rank) && depths == Depths(s, root, rank) && i < |s|
    ensures hit == (s[i].pid != root && depths[i] == d)
  {
    assert list.items[i] == s[i];
    hit := false;
    if list.items[i].pid != root {
      var currDepth := HandleDpt(list, root, list.items[i].pid, rank);
      hit := currDepth == d;
    }
  }

  // ---------------------------------------------------------------- -cnt

  /** handle_cnt as written: the printed count is always 0. */
  method HandleCnt(list: ProcList, d: Descendants, target: int, ghost rank: int -> nat) returns (n: int)
    requires d.Valid() && list.Valid() && Ranked(list.Records(), rank) && IndexOf(list.Records(), target) != -1
    modifies d, d.slots
    ensures d.Valid() && n == 0
  {
    var targetIdx := FindProcIndex(list, target);
    d.CollectDescendants(list, targetIdx, true, list.Records(), rank);
    n := d.count;
  }

  /** handle_cnt over the corrected collector: the number of records the walk visits. */
  method CountDescendants(list: ProcList, d: Descendants, target: int, ghost rank: int -> nat) returns (n: int)
    requires d.Valid() && list.Valid() && Ranked(list.Records(), rank) && IndexOf(list.Records(), target) != -1
    modifies d, d.slots
    ensures d.Valid() && n == |Walk(list.Records(), IndexOf(list.Records(), target), true, 0, rank)|
  {
    var targetIdx := FindProcIndex(list, target);
    d.Collect(list, targetIdx, true, rank);
    n := d.count;
  }

  // ---------------------------------------------------------- -odt, -ndt

  /** The first buffered record of least start time. */
  ghost function EarliestOf(s: seq<ProcInfo>, buf: seq<int>): ProcInfo
    requires InRange(s, buf) && |buf| > 0
  {
    s[buf[FirstMin(Starts(s, buf), |buf|)]]
  }

  /** The first buffered record of greatest start time. */
  ghost function LatestOf(s: seq<ProcInfo>, buf: seq<int>): ProcInfo
    requires InRange(s, buf) && |buf| > 0
  {
    s[buf[FirstMax(Starts(s, buf), |buf|)]]
  }

  /**
   * The tail of handle_odt and handle_ndt: "No descendants" (None) for an
   * empty buffer, otherwise find_oldest_newest and the record it selected.
   * `newest` chooses between the two handlers.
   */
  method ReportExtreme(list: ProcList, d: Descendants, newest: bool) returns (r: Option<ProcInfo>)
    requires d.Valid() && list.Valid() && InRange(list.Records(), d.Contents())
    modifies d
    ensures d.Valid() && d.Contents() == old(d.Contents())
    ensures d.count == 0 <==> r == None
    ensures d.count > 0 ==>
      r == Some(if newest then LatestOf(list.Records(), d.Contents()) else EarliestOf(list.Records(), d.Contents()))
  {
    if d.count == 0 {
      return None;
    }
    d.FindOldestNewest(list);
    return Some(if newest then d.newest else d.oldest);
  }

  /** handle_odt / handle_ndt as written: always "No descendants". */
  method HandleOdtNdt(list: ProcList, d: Descendants, target: int, newest: bool, ghost rank: int -> nat)
    returns (r: Option<ProcInfo>)
    requires d.Valid() && list.Valid() && Ranked(list.Records(), rank) && IndexOf(list.Records(), target) != -1
    modifies d, d.slots
    ensures r == None
  {
    var targetIdx := FindProcIndex(list, target);
    d.CollectDescendants(list, targetIdx, true, list.Records(), rank);
    r := ReportExtreme(list, d, newest);
  }

  /** handle_odt / handle_ndt over the corrected collector. */
  method ExtremeDescendant(list: ProcList, d: Descendants, target: int, newest: bool, ghost rank: int -> nat)
    returns (r: Option<ProcInfo>)
    requires d.Valid() && list.Valid() && Ranked(list.Records(), rank) && IndexOf(list.Records(), target) != -1
    modifies d, d.slots
    ensures var w := Walk(list.Records(), IndexOf(list.Records(), target), true, 0, rank);
      InRange(list.Records(), w) &&
      (w == [] <==> r == None) &&
      (w != [] ==> r == Some(if newest then LatestOf(list.Records(), w) else EarliestOf(list.Records(), w)))
  {
    var targetIdx := FindProcIndex(list, target);
    d.Collect(list, targetIdx, true, rank);
    CollectedInRange(list.Records(), targetIdx, rank);
    r := ReportExtreme(list, d, newest);
  }

  /**
   * In a table with unique positive pids, the corrected handle_odt reports a
   * proper descendant that started no later than any other, and, among those,
   * the first one the walk visited.
   */
  lemma EarliestIsOldestDescendant(s: seq<ProcInfo>, p: nat, rank: int -> nat)
    requires Ranked(s, rank) && UniquePids(s) && PositivePids(s) && p < |s|
    requires Walk(s, p, true, 0, rank) != []
    ensures InRange(s, Walk(s, p, true, 0, rank))
    ensures var o := EarliestOf(s, Walk(s, p, true, 0, rank));
      o in s && o.pid != s[p].pid && InSubtree(s, s[p].pid, o.pid, rank) &&
      forall k :: 0 <= k < |s| && s[k].pid != s[p].pid && InSubtree(s, s[p].pid, s[k].pid, rank) ==>
        o.starttime <= s[k].starttime
  {
    var w := Walk(s, p, true, 0, rank);
    CollectedInRange(s, p, rank);
    WalkIsDescendants(s, p, rank);
    var keys := Starts(s, w);
    FirstMinIsFirstLeast(keys, |w|);
    var m := FirstMin(keys, |w|);
    assert w[m] in w;
    forall k | 0 <= k < |s| && s[k].pid != s[p].pid && InSubtree(s, s[p].pid, s[k].pid, rank)
      ensures s[w[m]].starttime <= s[k].starttime
    {
      var j :| 0 <= j < |w| && w[j] == k;
      assert keys[m] <= keys[j];
    }
  }

  /** The same for handle_ndt: a proper descendant that started no earlier than any other. */
  lemma LatestIsNewestDescendant(s: seq<ProcInfo>, p: nat, rank: int -> nat)
    requires Ranked(s, rank) && UniquePids(s) && PositivePids(s) && p < |s|
    requires Walk(s, p, true, 0, rank) != []
    ensures InRange(s, Walk(s, p, true, 0, rank))
    ensures var o := LatestOf(s, Walk(s, p, true, 0, rank));
      o in s && o.pid != s[p].pid && InSubtree(s, s[p].pid, o.pid, rank) &&
      forall k :: 0 <= k < |s| && s[k].pid != s[p].pid && InSubtree(s, s[p].pid, s[k].pid, rank) ==>
        s[k].starttime <= o.starttime
  {
    var w := Walk(s, p, true, 0, rank);
    CollectedInRange(s, p, rank);
    WalkIsDescendants(s, p, rank);
    var keys := Starts(s, w);
    FirstMaxIsFirstGreatest(keys, |w|);
    var m := FirstMax(keys, |w|);
    assert w[m] in w;
    forall k | 0 <= k < |s| && s[k].pid != s[p].pid && InSubtree(s, s[p].pid, s[k].pid, rank)
      ensures s[k].starttime <= s[w[m]].starttime
    {
      var j :| 0 <= j < |w| && w[j] == k;
      assert keys[j] <= keys[m];
    }
  }

  // ---------------------------------------------------------------- -dnd

  /** The buffered records whose parent is `pid`. */
  ghost function DirectCount(s: seq<ProcInfo>, buf: seq<int>, pid: int): nat
    requires InRange(s, buf)
  {
    if buf == [] then 0
    else
      DirectCount(s, buf[..|buf| - 1], pid) +
      (if s[buf[|buf| - 1]].ppid == pid then 1 else 0)
  }

  /** The buffered records whose parent is not `pid`. */
  ghost function IndirectCount(s: seq<ProcInfo>, buf: seq<int>, pid: int): nat
    requires InRange(s, buf)
  {
    if buf == [] then 0
    else
      IndirectCount(s, buf[..|buf| - 1], pid) +
      (if s[buf[|buf| - 1]].ppid == pid then 0 else 1)
  }

  /** Each buffered record is either direct or not. */
  lemma {:induction false} DirectSplit(s: seq<ProcInfo>, buf: seq<int>, pid: int)
    requires InRange(s, buf)
    ensures DirectCount(s, buf, pid) + IndirectCount(s, buf, pid) == |buf|
  {
    if buf != [] {
      DirectSplit(s, buf[..|buf| - 1], pid);
    }
  }

  /**
   * The tail of handle_dnd: count the buffered records whose ppid is the
   * target's pid and subtract from desc_count, which leaves the number of
   * buffered records that are not direct children.
   */
  method NonDirect(list: ProcList, d: Descendants, targetPid: int) returns (nondirect: int)
    requires d.Valid() && list.Valid() && InRange(list.Records(), d.Contents())
    ensures nondirect == IndirectCount(list.Records(), d.Contents(), targetPid)
  {
    ghost var s := list.Records();
    ghost var buf := d.Contents();
    var directCount := 0;
    var i := 0;
    while i < d.count
      invariant 0 <= i <= d.count
      invariant directCount == DirectCount(s, buf[..i], targetPid)
    {
      assert buf[..i + 1][..i] == buf[..i];
      var dIdx := d.slots[i];
      if list.items[dIdx].ppid == targetPid {
        directCount := directCount + 1;
      }
      i := i + 1;
    }
    assert buf[..d.count] == buf;
    DirectSplit(s, buf, targetPid);
    nondirect := d.count - directCount;
  }

  /** handle_dnd as written: always 0. */
  method HandleDnd(list: ProcList, d: Descendants, target: int, ghost rank: int -> nat) returns (nondirect: int)
    requires d.Valid() && list.Valid() && Ranked(list.Records(), rank) && IndexOf(list.Records(), target) != -1
    modifies d, d.slots
    ensures nondirect == 0
  {
    var targetIdx := FindProcIndex(list, target);
    d.CollectDescendants(list, targetIdx, true, list.Records(), rank);
    var targetPid := list.items[targetIdx].pid;
    nondirect := NonDirect(list, d, targetPid);
  }

  /** handle_dnd over the corrected collector: the visited records that are not children of the target. */
  method NonDirectDescendants(list: ProcList, d: Descendants, target: int, ghost rank: int -> nat)
    returns (nondirect: int)
    requires d.Valid() && list.Valid() && Ranked(list.Records(), rank) && IndexOf(list.Records(), target) != -1
    modifies d, d.slots
    ensures var w := Walk(list.Records(), IndexOf(list.Records(), target), true, 0, rank);
      InRange(list.Records(), w) && nondirect == IndirectCount(list.Records(), w, target)
  {
    var targetIdx := FindProcIndex(list, target);
    d.Collect(list, targetIdx, true, rank);
    CollectedInRange(list.Records(), targetIdx, rank);
    var targetPid := list.items[targetIdx].pid;
    nondirect := NonDirect(list, d, targetPid);
  }

  // ---------------------------------------------------------- -mmd, -mpd

  /**
   * The loop of find_max_vmrss / find_max_cpu after collection: the largest
   * amount of the resource over the buffer, starting from 0.
   */
  method MaxOver(list: ProcList, d: Descendants, res: Resource) returns (m: int)
    requires d.Valid() && list.Valid() && InRange(list.Records(), d.Contents())
    ensures m == MaxOrZero(Amounts(list.Records(), d.Contents(), res), d.count)
  {
    ghost var keys := Amounts(list.Records(), d.Contents(), res);
    m := 0;
    var i: nat := 0;
    while i < d.count
      invariant i <= d.count
      invariant m == MaxOrZero(keys, i)
    {
      m := MaxOverStep(list, d, res, i, m, keys);
      i := i + 1;
    }
  }

  /** One iteration of the maximum loop: buffered entry i replaces the maximum when it uses more. */
  method MaxOverStep(list: ProcList, d: Descendants, res: Resource, i: nat, m: int, ghost keys: seq<int>)
    returns (next: int)
    requires d.Valid() && list.Valid() && InRange(list.Records(), d.Contents()) && i < d.count
    requires keys == Amounts(list.Records(), d.Contents(), res) && m == MaxOrZero(keys, i)
    ensures next == MaxOrZero(keys, i + 1)
  {
    var idx := d.slots[i];
    assert idx == d.Contents()[i];
    next := m;
    if Amount(list.items[idx], res) > m {
      next := Amount(list.items[idx], res);
    }
  }

  /** find_max_vmrss / find_max_cpu as written: always 0. */
  method FindMax(list: ProcList, d: Descendants, targetIdx: int, res: Resource, ghost rank: int -> nat) returns (m: int)
    requires d.Valid() && list.Valid() && Ranked(list.Records(), rank) && 0 <= targetIdx < list.count
    modifies d, d.slots
    ensures d.Valid() && m == 0
  {
    d.CollectDescendants(list, targetIdx, true, list.Records(), rank);
    m := MaxOver(list, d, res);
  }

  /**
   * The pids, in table order, that the tie loop of handle_mmd / handle_mpd
   * prints: records among the first n in the target's subtree (the target
   * included) whose amount equals `m`.
   */
  ghost function Ties(s: seq<ProcInfo>, target: int, m: int, res: Resource, rank: int -> nat, n: nat): seq<int>
    requires Ranked(s, rank) && n <= |s|
  {
    if n == 0 then []
    else
      Ties(s, target, m, res, rank, n - 1) +
      (if InSubtree(s, target, s[n - 1].pid, rank) && Amount(s[n - 1], res) == m then [s[n - 1].pid] else [])
  }

  /** Every record among the first n in the subtree that uses m has its pid listed. */
  lemma {:induction false} TiesHas(s: seq<ProcInfo>, target: int, m: int, res: Resource, rank: int -> nat, n: nat, k: nat)
    requires Ranked(s, rank) && k < n <= |s|
    requires InSubtree(s, target, s[k].pid, rank) && Amount(s[k], res) == m
    ensures s[k].pid in Ties(s, target, m, res, rank, n)
  {
    if k < n - 1 {
      TiesHas(s, target, m, res, rank, n - 1, k);
      assert Ties(s, target, m, res, rank, n - 1) <= Ties(s, target, m, res, rank, n);
    }
  }

  /** Every listed pid comes from a record among the first n in the subtree that uses m. */
  lemma {:induction false} TiesWitness(s: seq<ProcInfo>, target: int, m: int, res: Resource, rank: int -> nat, n: nat, x: int)
    returns (k: nat)
    requires Ranked(s, rank) && n <= |s| && x in Ties(s, target, m, res, rank, n)
    ensures k < n && s[k].pid == x && InSubtree(s, target, x, rank) && Amount(s[k], res) == m
  {
    if x in Ties(s, target, m, res, rank, n - 1) {
      k := TiesWitness(s, target, m, res, rank, n - 1, x);
    } else {
      k := n - 1;
    }
  }

  /** The listed pids are exactly those of records in the target's subtree that use m. */
  lemma TiesMembers(s: seq<ProcInfo>, target: int, m: int, res: Resource, rank: int -> nat, n: nat)
    requires Ranked(s, rank) && n <= |s|
    ensures forall x :: x in Ties(s, target, m, res, rank, n) <==>
      exists k :: 0 <= k < n && s[k].pid == x && InSubtree(s, target, x, rank) && Amount(s[k], res) == m
  {
    forall x
      ensures x in Ties(s, target, m, res, rank, n) <==>
        exists k :: 0 <= k < n && s[k].pid == x && InSubtree(s, target, x, rank) && Amount(s[k], res) == m
    {
      if x in Ties(s, target, m, res, rank, n) {
        var k := TiesWitness(s, target, m, res, rank, n, x);
      }
      forall k | 0 <= k < n && s[k].pid == x && InSubtree(s, target, x, rank) && Amount(s[k], res) == m
        ensures x in Ties(s, target, m, res, rank, n)
      {
        TiesHas(s, target, m, res, rank, n, k);
      }
    }
  }

  /** The tie loop of handle_mmd / handle_mpd; an empty result prints "No descendants". */
  method ListTies(list: ProcList, target: int, m: int, res: Resource, ghost rank: int -> nat) returns (listed: seq<int>)
    requires list.Valid() && Ranked(list.Records(), rank)
    ensures listed == Ties(list.Records(), target, m, res, rank, list.count)
  {
    ghost var s := list.Records();
    listed := [];
    var i: nat := 0;
    while i < list.count
      invariant i <= list.count
      invariant listed == Ties(s, target, m, res, rank, i)
    {
      listed := ListTiesStep(list, target, m, res, i, listed, s, rank);
      i := i + 1;
    }
  }

  /** One iteration of the tie loop: record i's pid is appended when it is in the subtree and uses m. */
  method ListTiesStep(list: ProcList, target: int, m: int, res: Resource, i: nat, listed: seq<int>,
                      ghost s: seq<ProcInfo>, ghost rank: int -> nat)
    returns (next: seq<int>)
    requires list.Valid() && s == list.Records() && Ranked(s, rank) && i < |s|
    requires listed == Ties(s, target, m, res, rank, i)
    ensures next == Ties(s, target, m, res, rank, i + 1)
  {
    assert list.items[i] == s[i];
    var inside := CheckProcessAtRoot(list, target, list.items[i].pid, rank);
    next := listed;
    if inside && Amount(list.items[i], res) == m {
      next := listed + [list.items[i].pid];
    }
  }

  /**
   * handle_mmd (Memory) / handle_mpd (Cpu) as written: the reported maximum
   * is 0, so the listing is every subtree record using none of the resource.
   */
  method HandleMostUsage(list: ProcList, d: Descendants, target: int, res: Resource, ghost rank: int -> nat)
    returns (m: int, listed: seq<int>)
    requires d.Valid() && list.Valid() && Ranked(list.Records(), rank) && IndexOf(list.Records(), target) != -1
    modifies d, d.slots
    ensures m == 0 && listed == Ties(list.Records(), target, 0, res, rank, list.count)
  {
    var targetIdx := FindProcIndex(list, target);
    m := FindMax(list, d, targetIdx, res, rank);
    listed := ListTies(list, target, m, res, rank);
  }

  /** handle_mmd / handle_mpd over the corrected collector. */
  method MostUsage(list: ProcList, d: Descendants, target: int, res: Resource, ghost rank: int -> nat)
    returns (m: int, listed: seq<int>)
    requires d.Valid() && list.Valid() && Ranked(list.Records(), rank) && IndexOf(list.Records(), target) != -1
    modifies d, d.slots
    ensures var w := Walk(list.Records(), IndexOf(list.Records(), target), true, 0, rank);
      InRange(list.Records(), w) && m == MaxOrZero(Amounts(list.Records(), w, res), |w|)
    ensures listed == Ties(list.Records(), target, m, res, rank, list.count)
  {
    var targetIdx := FindProcIndex(list, target);
    d.Collect(list, targetIdx, true, rank);
    CollectedInRange(list.Records(), targetIdx, rank);
    m := MaxOver(list, d, res);
    listed := ListTies(list, target, m, res, rank);
  }

  /**
   * With the corrected maximum, a positive maximum is attained by a proper
   * descendant, whose pid is then listed; so "No descendants" is printed only when
   * the maximum is 0.
   */
  lemma PositiveMaxListed(s: seq<ProcInfo>, p: nat, res: Resource, rank: int -> nat)
    requires Ranked(s, rank) && UniquePids(s) && PositivePids(s) && p < |s|
    requires InRange(s, Walk(s, p, true, 0, rank))
    requires MaxOrZero(Amounts(s, Walk(s, p, true, 0, rank), res), |Walk(s, p, true, 0, rank)|) > 0
    ensures Ties(s, s[p].pid, MaxOrZero(Amounts(s, Walk(s, p, true, 0, rank), res), |Walk(s, p, true, 0, rank)|), res, rank, |s|) != []
  {
    var w := Walk(s, p, true, 0, rank);
    var keys := Amounts(s, w, res);
    var m := MaxOrZero(keys, |w|);
    var j :| 0 <= j < |keys| && keys[j] == m;
    assert w[j] in w;
    WalkBelow(s, p, true, 0, w[j], rank);
    TiesMembers(s, s[p].pid, m, res, rank, |s|);
    assert s[w[j]].pid in Ties(s, s[p].pid, m, res, rank, |s|);
  }

  // ---------------------------------------------------------- -bcp, -bop

  /** The records among the first n counted by count_bcp: shell ancestry, and not the caller itself. */
  ghost function ShellCount(s: seq<ProcInfo>, self: int, rank: int -> nat, n: nat): nat
    requires Ranked(s, rank) && n <= |s|
  {
    if n == 0 then 0
    else
      ShellCount(s, self, rank, n - 1) +
      (if ShellAncestry(s, s[n - 1].pid, rank) && s[n - 1].pid != self then 1 else 0)
  }

  /** The records among the first n counted by count_bop: no shell ancestry and a pid above 1. */
  ghost function OtherCount(s: seq<ProcInfo>, rank: int -> nat, n: nat): nat
    requires Ranked(s, rank) && n <= |s|
  {
    if n == 0 then 0
    else
      OtherCount(s, rank, n - 1) +
      (if !ShellAncestry(s, s[n - 1].pid, rank) && s[n - 1].pid > 1 then 1 else 0)
  }

  /**
   * No record is counted by both; when every pid is above 1 and none is the
   * caller's, every record is counted by exactly one.
   */
  lemma {:induction false} CountsPartition(s: seq<ProcInfo>, self: int, rank: int -> nat, n: nat)
    requires Ranked(s, rank) && n <= |s|
    ensures ShellCount(s, self, rank, n) + OtherCount(s, rank, n) <= n
    ensures (forall k :: 0 <= k < n ==> s[k].pid > 1 && s[k].pid != self) ==>
      ShellCount(s, self, rank, n) + OtherCount(s, rank, n) == n
  {
    if n > 0 {
      CountsPartition(s, self, rank, n - 1);
    }
  }

  /** count_bcp, with getpid() passed in as `self`. */
  method CountBcp(list: ProcList, self: int, ghost rank: int -> nat) returns (count: int)
    requires list.Valid() && Ranked(list.Records(), rank)
    ensures count == ShellCount(list.Records(), self, rank, list.count)
  {
    ghost var s := list.Records();
    count := 0;
    var i: nat := 0;
    while i < list.count
      invariant i <= list.count
      invariant count == ShellCount(s, self, rank, i)
    {
      count := CountBcpStep(list, self, i, count, s, rank);
      i := i + 1;
    }
  }

  /** One iteration of count_bcp: record i is counted when it has shell ancestry and is not the caller. */
  method CountBcpStep(list: ProcList, self: int, i: nat, count: int, ghost s: seq<ProcInfo>, ghost rank: int -> nat)
    returns (next: int)
    requires list.Valid() && s == list.Records() && Ranked(s, rank) && i < |s|
    requires count == ShellCount(s, self, rank, i)
    ensures next == ShellCount(s, self, rank, i + 1)
  {
    assert list.items[i] == s[i];
    var shell := IsBashSubtree(list, list.items[i].pid, rank);
    next := count;
    if shell && list.items[i].pid != self {
      next := count + 1;
    }
  }

  /** count_bop. */
  method CountBop(list: ProcList, ghost rank: int -> nat) returns (count: int)
    requires list.Valid() && Ranked(list.Records(), rank)
    ensures count == OtherCount(list.Records(), rank, list.count)
  {
    ghost var s := list.Records();
    count := 0;
    var i: nat := 0;
    while i < list.count
      invariant i <= list.count
      invariant count == OtherCount(s, rank, i)
    {
      count := CountBopStep(list, i, count, s, rank);
      i := i + 1;
    }
  }

  /** One iteration of count_bop: record i is counted when it has no shell ancestry and a pid above 1. */
  method CountBopStep(list: ProcList, i: nat, count: int, ghost s: seq<ProcInfo>, ghost rank: int -> nat)
    returns (next: int)
    requires list.Valid() && s == list.Records() && Ranked(s, rank) && i < |s|
    requires count == OtherCount(s, rank, i)
    ensures next == OtherCount(s, rank, i + 1)
  {
    assert list.items[i] == s[i];
    var shell := IsBashSubtree(list, list.items[i].pid, rank);
    next := count;
    if !shell && list.items[i].pid > 1 {
      next := count + 1;
    }
  }

  // ------------------------------------------------------------- dispatch

  /** What `main` does with a root and a target before running a handler. */
  datatype Verdict = InvalidPid | NotInSubtree | Proceed

  ghost function Admission(s: seq<ProcInfo>, root: int, target: int, rank: int -> nat): Verdict
    requires Ranked(s, rank)
  {
    if root <= 0 || target <= 0 then InvalidPid
    else if InSubtree(s, root, target, rank) then Proceed
    else NotInSubtree
  }

  /** The gate before the handler switch: reject pids <= 0, then targets outside root's subtree. */
  method Admit(list: ProcList, root: int, target: int, ghost rank: int -> nat) returns (v: Verdict)
    requires list.Valid() && Ranked(list.Records(), rank)
    ensures v == Admission(list.Records(), root, target, rank)
  {
    if root <= 0 || target <= 0 {
      return InvalidPid;
    }
    var inside := CheckProcessAtRoot(list, root, target, rank);
    v := if inside then Proceed else NotInSubtree;
  }

  /**
   * An admitted target has a depth below the root, and it is in the table
   * unless it is the root itself.
   */
  lemma AdmittedPresent(s: seq<ProcInfo>, root: int, target: int, rank: int -> nat)
    requires Ranked(s, rank) && Admission(s, root, target, rank) == Proceed
    ensures Depth(s, root, target, rank) >= 0
    ensures target != root ==> IndexOf(s, target) != -1
  {
    InSubtreeIffDepth(s, root, target, rank);
  }

  /**
   * The three-argument form of `main`: the target's ppid when it is in
   * root's subtree, otherwise None ("does not belong").
   */
  method ShowParent(list: ProcList, root: int, target: int, ghost rank: int -> nat) returns (r: Option<int>)
    requires list.Valid() && Ranked(list.Records(), rank)
    ensures InSubtree(list.Records(), root, target, rank) <==> r != None
    ensures r != None ==> r.value == ParentOf(list.Records(), target)
  {
    var inside := CheckProcessAtRoot(list, root, target, rank);
    if inside {
      var ppid := GetPpid(list, target);
      return Some(ppid);
    }
    return None;
  }
}
