/**
 * The draft version of the tool (hello.c): a fixed table `procs` of
 * MAX_PROCS records with `num_procs` in use, and for every table index a
 * linked list of child indices (`children`), here a sequence of indices in
 * link order. It has its own lookups, a subtree check that stops at pids 0
 * and 1, a collector that appends along the child lists into a ProcList
 * (the list helpers init_list, add_to_list and free_list are
 * Store.ProcList's InitList, AddToList and FreeList), handle_dnd, and the
 * oldest / newest scans.
 */
module Draft {
  import opened Records
  import opened Snapshot
  import opened Store
  import opened Extrema
  import Navigator
  import Tree

  /** MAX_PROCS: the size of the global tables. */
  const MaxProcs: int := 4096

  /** The draft's globals: procs[MAX_PROCS], num_procs, children[MAX_PROCS]. */
  class Table {
    var procs: array<ProcInfo>
    var numProcs: int
    var children: seq<seq<int>>

    ghost predicate Valid()
      reads this
    {
      procs.Length == MaxProcs && 0 <= numProcs <= MaxProcs && |children| == MaxProcs &&
      forall p, j :: 0 <= p < |children| && 0 <= j < |children[p]| ==> 0 <= children[p][j] < MaxProcs
    }

    /** The records in use: procs[0..num_procs). */
    ghost function Records(): seq<ProcInfo>
      reads this, procs
      requires Valid()
    {
      procs[..numProcs]
    }
  }

  /** find_proc_index: the first i < num_procs with procs[i].pid == pid, else -1. */
  method FindProcIndex(t: Table, pid: int) returns (idx: int)
    requires t.Valid()
    ensures idx == IndexOf(t.Records(), pid)
  {
    var i := 0;
    while i < t.numProcs
      invariant 0 <= i <= t.numProcs
      invariant forall j :: 0 <= j < i ==> t.procs[j].pid != pid
    {
      if t.procs[i].pid == pid {
        return i;
      }
      i := i + 1;
    }
    return -1;
  }

  /** get_ppid: the ppid of the record for `pid`, or -1. */
  method GetPpid(t: Table, pid: int) returns (ppid: int)
    requires t.Valid()
    ensures ppid == ParentOf(t.Records(), pid)
  {
    var index := FindProcIndex(t, pid);
    ppid := if index != -1 then t.procs[index].ppid else -1;
  }

  /**
   * The walk from `t` meets 0, 1 or `root` within n parent steps. The draft's
   * walk goes on through -1 (the value for a missing pid), so without such a
   * bound it need not end.
   */
  ghost predicate StopsWithin(s: seq<ProcInfo>, root: int, t: int, n: nat)
    decreases n
  {
    t == 0 || t == 1 || t == root || (n > 0 && StopsWithin(s, root, ParentOf(s, t), n - 1))
  }

  /** The draft's check_process_at_root: `root` is met before 0 or 1; targets 0 and 1 never qualify. */
  ghost function Reaches(s: seq<ProcInfo>, root: int, t: int, n: nat): bool
    requires StopsWithin(s, root, t, n)
    decreases n
  {
    if t == 0 || t == 1 then false
    else if t == root then true
    else Reaches(s, root, ParentOf(s, t), n - 1)
  }

  /** check_process_at_root of the draft: follow ppids until 0 or 1, answering true on meeting `root`. */
  method CheckProcessAtRoot(t: Table, root: int, target: int, ghost bound: nat) returns (b: bool)
    requires t.Valid() && StopsWithin(t.Records(), root, target, bound)
    ensures b == Reaches(t.Records(), root, target, bound)
    ensures target == 0 || target == 1 ==> !b
  {
    ghost var s := t.Records();
    var current := target;
    ghost var m := bound;
    while current != 0 && current != 1
      invariant StopsWithin(s, root, current, m)
      invariant Reaches(s, root, current, m) == Reaches(s, root, target, bound)
      decreases m
    {
      if current == root {
        return true;
      }
      current := GetPpid(t, current);
      m := m - 1;
    }
    return false;
  }

  /** With positive pids, a walk that reaches a negative value never stops again. */
  lemma {:induction false} NegativeNeverStops(s: seq<ProcInfo>, root: int, t: int, n: nat)
    requires Tree.PositivePids(s) && t < 0 && root >= 0
    ensures !StopsWithin(s, root, t, n)
    decreases n
  {
    if n > 0 {
      assert IndexOf(s, t) == -1;
      NegativeNeverStops(s, root, -1, n - 1);
    }
  }

  /** For a root above 1, a target the draft accepts is in the root's subtree in the final sense. */
  lemma {:induction false} ReachesInSubtree(s: seq<ProcInfo>, root: int, t: int, n: nat, rank: int -> nat)
    requires Ranked(s, rank) && Tree.PositivePids(s) && root > 1
    requires StopsWithin(s, root, t, n) && Reaches(s, root, t, n)
    ensures InSubtree(s, root, t, rank)
    decreases n
  {
    if t != root {
      if t < 0 {
        NegativeNeverStops(s, root, t, n);
      }
      ReachesInSubtree(s, root, ParentOf(s, t), n - 1, rank);
    }
  }

  /**
   * The converse fails for root 1: in the two-record table (pid 2 a child of
   * init) the draft refuses pid 2, while the final check accepts it.
   */
  lemma InitRootRefused()
    ensures StopsWithin(Navigator.Pair, 1, 2, 1) && !Reaches(Navigator.Pair, 1, 2, 1)
    ensures Ranked(Navigator.Pair, Navigator.PairRank) && InSubtree(Navigator.Pair, 1, 2, Navigator.PairRank)
  {
    assert IndexOf(Navigator.Pair, 2) == 1;
    assert ParentOf(Navigator.Pair, 2) == 1;
  }

  /**
   * The child lists are well-founded: every linked index is a table index
   * of lower rank than the list's owner.
   */
  ghost predicate ChildRanked(children: seq<seq<int>>, rank: int -> nat) {
    forall p, j :: 0 <= p < |children| && 0 <= j < |children[p]| ==>
      0 <= children[p][j] < |children| && rank(children[p][j]) < rank(p)
  }

  /**
   * The records the draft's collect_descendants(p) appends, from the j-th
   * link of p's child list on: each child's record, then everything below
   * that child, in depth-first pre-order.
   */
  ghost function DraftWalk(procs: seq<ProcInfo>, children: seq<seq<int>>, p: nat, j: nat, rank: int -> nat): seq<ProcInfo>
    requires |procs| == |children| && ChildRanked(children, rank) && p < |children| && j <= |children[p]|
    decreases rank(p), |children[p]| - j
  {
    if j == |children[p]| then []
    else
      var c := children[p][j];
      [procs[c]] + DraftWalk(procs, children, c, 0, rank) + DraftWalk(procs, children, p, j + 1, rank)
  }

  /** Every link of the list is visited, so the walk is at least as long as the rest of the list. */
  lemma {:induction false} WalkCoversChildren(procs: seq<ProcInfo>, children: seq<seq<int>>, p: nat, j: nat, rank: int -> nat)
    requires |procs| == |children| && ChildRanked(children, rank) && p < |children| && j <= |children[p]|
    ensures |DraftWalk(procs, children, p, j, rank)| >= |children[p]| - j
    decreases |children[p]| - j
  {
    if j < |children[p]| {
      WalkCoversChildren(procs, children, p, j + 1, rank);
    }
  }

  /**
   * A path along the child links: every entry is a table index and each
   * entry after the first appears in its predecessor's child list.
   */
  ghost predicate LinkPath(children: seq<seq<int>>, path: seq<int>) {
    |path| >= 2 &&
    (forall k :: 0 <= k < |path| ==> 0 <= path[k] < |children|) &&
    (forall k :: 0 <= k < |path| - 1 ==> path[k + 1] in children[path[k]])
  }

  /** `c` is reached from `p` by following one or more child links. */
  ghost predicate Reachable(children: seq<seq<int>>, p: int, c: int) {
    exists path :: LinkPath(children, path) && path[0] == p && path[|path| - 1] == c
  }

  /**
   * Every record the walk from the j-th link of p lists is the record at
   * the end of a link path that leaves p through one of links j and on.
   */
  lemma {:induction false} WalkRecordsLinked(procs: seq<ProcInfo>, children: seq<seq<int>>, p: nat, j: nat, rank: int -> nat, x: ProcInfo)
    returns (path: seq<int>)
    requires |procs| == |children| && ChildRanked(children, rank) && p < |children| && j <= |children[p]|
    requires x in DraftWalk(procs, children, p, j, rank)
    ensures LinkPath(children, path) && path[0] == p && path[1] in children[p][j..]
    ensures procs[path[|path| - 1]] == x
    decreases rank(p), |children[p]| - j
  {
    var c := children[p][j];
    assert children[p][j..] == [c] + children[p][j + 1..];
    if x == procs[c] {
      path := [p, c];
    } else if x in DraftWalk(procs, children, c, 0, rank) {
      var below := WalkRecordsLinked(procs, children, c, 0, rank, x);
      path := [p] + below;
      assert path[1] == c;
      assert forall k :: 1 <= k < |path| ==> path[k] == below[k - 1];
    } else {
      path := WalkRecordsLinked(procs, children, p, j + 1, rank, x);
    }
  }

  /**
   * Conversely, the record at the end of every link path that leaves p
   * through one of links j and on is listed by the walk from link j.
   */
  lemma {:induction false} WalkCoversReachable(procs: seq<ProcInfo>, children: seq<seq<int>>, p: nat, j: nat, rank: int -> nat, path: seq<int>)
    requires |procs| == |children| && ChildRanked(children, rank) && p < |children| && j <= |children[p]|
    requires LinkPath(children, path) && path[0] == p && path[1] in children[p][j..]
    ensures procs[path[|path| - 1]] in DraftWalk(procs, children, p, j, rank)
    decreases rank(p), |children[p]| - j
  {
    var c := children[p][j];
    assert children[p][j..] == [c] + children[p][j + 1..];
    var walk := DraftWalk(procs, children, p, j, rank);
    if path[1] == c {
      if |path| > 2 {
        var below := path[1..];
        assert below[0] == c && below[|below| - 1] == path[|path| - 1];
        assert forall k :: 0 <= k < |below| ==> below[k] == path[k + 1];
        assert below[1] in children[below[0]];
        assert children[c][0..] == children[c];
        WalkCoversReachable(procs, children, c, 0, rank, below);
        assert walk == [procs[c]] + DraftWalk(procs, children, c, 0, rank) + DraftWalk(procs, children, p, j + 1, rank);
      }
    } else {
      WalkCoversReachable(procs, children, p, j + 1, rank, path);
    }
  }

  /**
   * The draft's collect_descendants(p) lists exactly the records of the
   * indices reachable from p along the child links.
   */
  lemma WalkIsReachable(procs: seq<ProcInfo>, children: seq<seq<int>>, p: nat, rank: int -> nat, x: ProcInfo)
    requires |procs| == |children| && ChildRanked(children, rank) && p < |children|
    ensures x in DraftWalk(procs, children, p, 0, rank) <==>
      exists c :: 0 <= c < |procs| && Reachable(children, p, c) && procs[c] == x
  {
    assert children[p][0..] == children[p];
    if x in DraftWalk(procs, children, p, 0, rank) {
      var path := WalkRecordsLinked(procs, children, p, 0, rank, x);
      assert Reachable(children, p, path[|path| - 1]);
    }
    if exists c :: 0 <= c < |procs| && Reachable(children, p, c) && procs[c] == x {
      var c :| 0 <= c < |procs| && Reachable(children, p, c) && procs[c] == x;
      var path :| LinkPath(children, path) && path[0] == p && path[|path| - 1] == c;
      WalkCoversReachable(procs, children, p, 0, rank, path);
    }
  }

  /**
   * The draft's collect_descendants: for each link of p's child list, append
   * the child's record to `into`, then recurse into the child.
   */
  method CollectDescendants(t: Table, p: int, into: ProcList, ghost rank: int -> nat)
    requires t.Valid() && into.Valid() && into.capacity > 0 && into.items != t.procs
    requires ChildRanked(t.children, rank) && 0 <= p < MaxProcs
    modifies into, into.items
    ensures into.Valid() && into.capacity > 0 && into.items != t.procs
    ensures into.items == old(into.items) || fresh(into.items)
    ensures into.Records() == old(into.Records()) + DraftWalk(t.procs[..], t.children, p, 0, rank)
    decreases rank(p)
  {
    ghost var procs := t.procs[..];
    ghost var links0 := t.children;
    var links := t.children[p];
    ghost var seen: seq<ProcInfo> := [];
    var j: nat := 0;
    while j < |links|
      invariant j <= |links|
      invariant into.Valid() && into.capacity > 0 && into.items != t.procs
      invariant into.items == old(into.items) || fresh(into.items)
      invariant t.procs[..] == procs
      invariant seen + DraftWalk(procs, links0, p, j, rank) == DraftWalk(procs, links0, p, 0, rank)
      invariant into.Records() == old(into.Records()) + seen
    {
      var c := links[j];
      into.AddToList(t.procs[c]);
      CollectDescendants(t, c, into, rank);
      assert t.children == links0;
      ghost var below := DraftWalk(procs, links0, c, 0, rank);
      Tree.Regroup(seen, procs[c], below, DraftWalk(procs, links0, p, j + 1, rank));
      Tree.Regroup2(old(into.Records()), seen, procs[c], below);
      seen := seen + [procs[c]] + below;
      j := j + 1;
    }
  }

  /**
   * The draft's handle_dnd: None ("not found") for a missing target;
   * otherwise the collected count minus the length of the target's child
   * list, floored at 0, which the floor never changes.
   */
  method HandleDnd(t: Table, target: int, ghost rank: int -> nat) returns (r: Option<int>)
    requires t.Valid() && ChildRanked(t.children, rank)
    ensures IndexOf(t.Records(), target) == -1 <==> r == None
    ensures r != None ==>
      var idx := IndexOf(t.Records(), target);
      r.value == |DraftWalk(t.procs[..], t.children, idx, 0, rank)| - |t.children[idx]| && r.value >= 0
  {
    var targetIndex := FindProcIndex(t, target);
    if targetIndex == -1 {
      return None;
    }
    var descendants := new ProcList.InitList();
    CollectDescendants(t, targetIndex, descendants, rank);
    var directCount := 0;
    var links := t.children[targetIndex];
    var child := links;
    while child != []
      invariant directCount + |child| == |links|
    {
      directCount := directCount + 1;
      child := child[1..];
    }
    var nonDirect := descendants.count - directCount;
    WalkCoversChildren(t.procs[..], t.children, targetIndex, 0, rank);
    descendants.FreeList();
    return Some(if nonDirect >= 0 then nonDirect else 0);
  }

  /** The start times of a sequence of records. */
  function StartTimes(recs: seq<ProcInfo>): (r: seq<int>)
    ensures |r| == |recs| && forall i :: 0 <= i < |recs| ==> r[i] == recs[i].starttime
  {
    seq(|recs|, i requires 0 <= i < |recs| => recs[i].starttime)
  }

  /**
   * The scans of the draft's handle_odt (`newest` false, replace on `<`) and
   * handle_ndt (`newest` true, replace on `>`) over a collected list: None
   * ("No descendants") when it is empty, otherwise the first record of least
   * or greatest start time.
   */
  method Extreme(list: ProcList, newest: bool) returns (r: Option<ProcInfo>)
    requires list.Valid()
    ensures list.count == 0 <==> r == None
    ensures list.count > 0 ==>
      var keys := StartTimes(list.Records());
      r == Some(list.Records()[if newest then FirstMax(keys, list.count) else FirstMin(keys, list.count)])
  {
    if list.count == 0 {
      return None;
    }
    ghost var s := list.Records();
    ghost var keys := StartTimes(s);
    var best := list.items[0];
    ghost var at: nat := 0;
    var i := 1;
    while i < list.count
      invariant 1 <= i <= list.count == |s|
      invariant at == (if newest then FirstMax(keys, i) else FirstMin(keys, i))
      invariant best == s[at]
    {
      assert list.items[i] == s[i];
      if (if newest then list.items[i].starttime > best.starttime else list.items[i].starttime < best.starttime) {
        best := list.items[i];
        at := i;
      }
      i := i + 1;
    }
    return Some(best);
  }

  /**
   * The draft's handle_ndt: collect from the target's index, then the
   * newest record of the collected list.
   */
  method HandleNdt(t: Table, target: int, ghost rank: int -> nat) returns (r: Option<ProcInfo>)
    requires t.Valid() && ChildRanked(t.children, rank) && IndexOf(t.Records(), target) != -1
    ensures var w := DraftWalk(t.procs[..], t.children, IndexOf(t.Records(), target), 0, rank);
      (w == [] <==> r == None) && (w != [] ==> r == Some(w[FirstMax(StartTimes(w), |w|)]))
  {
    var targetIndex := FindProcIndex(t, target);
    ghost var w := DraftWalk(t.procs[..], t.children, targetIndex, 0, rank);
    var descendants := new ProcList.InitList();
    CollectDescendants(t, targetIndex, descendants, rank);
    assert descendants.Records() == w;
    r := Extreme(descendants, true);
    descendants.FreeList();
  }
}
