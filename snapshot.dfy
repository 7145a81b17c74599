/**
 * The meaning of one snapshot (the first `count` records of a ProcList) as
 * plain functions: lookup by pid, the parent walk, subtree membership, depth,
 * and shell ancestry. The depth-first enumeration that collect_descendants
 * performs is in Tree. The methods in Navigator, Queries and Signals are
 * proved against these definitions.
 */
module Snapshot {
  import opened Records

  /**
   * find_proc_index: the first position at or after `from` holding `pid`,
   * or -1 when there is none.
   */
  function IndexOf(s: seq<ProcInfo>, pid: int, from: nat := 0): (r: int)
    requires from <= |s|
    ensures -1 <= r < |s|
    ensures r >= 0 ==> from <= r && s[r].pid == pid
    ensures forall j :: from <= j < |s| && (r == -1 || j < r) ==> s[j].pid != pid
    decreases |s| - from
  {
    if from == |s| then -1
    else if s[from].pid == pid then from
    else IndexOf(s, pid, from + 1)
  }

  /** get_ppid: the ppid of the first record for `pid`, or -1 when `pid` is absent. */
  function ParentOf(s: seq<ProcInfo>, pid: int): int {
    var i := IndexOf(s, pid);
    if i == -1 then -1 else s[i].ppid
  }

  /**
   * The ppid relation of the snapshot is well-founded: `rank` strictly
   * decreases from a record to its parent, except that a record may be its own
   * parent when its pid is not positive (every walk stops at such a value).
   * Without such a rank the source's walks and recursion do not terminate.
   */
  ghost predicate Ranked(s: seq<ProcInfo>, rank: int -> nat) {
    forall k :: 0 <= k < |s| ==>
      if s[k].ppid == s[k].pid then s[k].pid <= 0 else rank(s[k].ppid) < rank(s[k].pid)
  }

  /** The measure of an upward walk that is at `t`: walks stop at values <= 0. */
  function Height(rank: int -> nat, t: int): nat {
    if t > 0 then rank(t) + 1 else 0
  }

  lemma ParentLower(s: seq<ProcInfo>, rank: int -> nat, t: int)
    requires Ranked(s, rank) && t > 0
    ensures Height(rank, ParentOf(s, t)) < Height(rank, t)
  {
    var i := IndexOf(s, t);
    if i != -1 {
      assert s[i].pid == t;
    }
  }

  /** The value reached after `k` steps of `current = get_ppid(list, current)`, stopping at values <= 0. */
  function Hop(s: seq<ProcInfo>, t: int, k: nat): int
    decreases k
  {
    if k == 0 || t <= 0 then t else Hop(s, ParentOf(s, t), k - 1)
  }

  /** check_process_at_root: `root` is met on the parent walk from `t` before it stops. */
  ghost function InSubtree(s: seq<ProcInfo>, root: int, t: int, rank: int -> nat): bool
    requires Ranked(s, rank)
    decreases Height(rank, t)
  {
    if t == root then true
    else if t <= 0 then false
    else
      ParentLower(s, rank, t);
      InSubtree(s, root, ParentOf(s, t), rank)
  }

  /** handle_dpt: the number of parent hops from `t` to `root`, or -1 when the walk stops first. */
  ghost function Depth(s: seq<ProcInfo>, root: int, t: int, rank: int -> nat): (d: int)
    requires Ranked(s, rank)
    ensures d >= -1
    decreases Height(rank, t)
  {
    if t == root then 0
    else if t <= 0 then -1
    else
      ParentLower(s, rank, t);
      var d := Depth(s, root, ParentOf(s, t), rank);
      if d == -1 then -1 else d + 1
  }

  /** Subtree membership is reachability of `root` by parent hops. */
  lemma {:induction false} InSubtreeIffReaches(s: seq<ProcInfo>, root: int, t: int, rank: int -> nat)
    requires Ranked(s, rank)
    ensures InSubtree(s, root, t, rank) <==> exists k: nat :: Hop(s, t, k) == root
    decreases Height(rank, t)
  {
    if t == root {
      assert Hop(s, t, 0) == root;
    } else if t <= 0 {
      forall k: nat ensures Hop(s, t, k) != root { }
    } else {
      var p := ParentOf(s, t);
      ParentLower(s, rank, t);
      InSubtreeIffReaches(s, root, p, rank);
      if InSubtree(s, root, p, rank) {
        var k: nat :| Hop(s, p, k) == root;
        assert Hop(s, t, k + 1) == root;
      } else {
        forall k: nat ensures Hop(s, t, k) != root {
          if k > 0 {
            assert Hop(s, t, k) == Hop(s, p, k - 1);
          }
        }
      }
    }
  }

  /** The depth is the first hop count at which the walk meets `root`, and -1 when it never does. */
  lemma {:induction false} DepthIsFirstHit(s: seq<ProcInfo>, root: int, t: int, rank: int -> nat)
    requires Ranked(s, rank)
    ensures var d := Depth(s, root, t, rank);
      d >= 0 ==> Hop(s, t, d) == root && forall j: nat :: j < d ==> Hop(s, t, j) != root
    ensures Depth(s, root, t, rank) == -1 <==> forall k: nat :: Hop(s, t, k) != root
    decreases Height(rank, t)
  {
    if t == root {
    } else if t <= 0 {
      forall k: nat ensures Hop(s, t, k) != root { }
    } else {
      var p := ParentOf(s, t);
      ParentLower(s, rank, t);
      DepthIsFirstHit(s, root, p, rank);
      var d' := Depth(s, root, p, rank);
      if d' == -1 {
        forall k: nat ensures Hop(s, t, k) != root {
          if k > 0 {
            var k': nat := k - 1;
            assert Hop(s, p, k') != root;
            assert Hop(s, t, k) == Hop(s, p, k');
          }
        }
      } else {
        assert Hop(s, t, d' + 1) == Hop(s, p, d');
        forall j: nat | j < d' + 1 ensures Hop(s, t, j) != root {
          if j > 0 {
            assert Hop(s, t, j) == Hop(s, p, j - 1);
          }
        }
      }
    }
  }

  /** check_process_at_root(r, t) == 1 exactly when handle_dpt(r, t) != -1. */
  lemma {:induction false} InSubtreeIffDepth(s: seq<ProcInfo>, root: int, t: int, rank: int -> nat)
    requires Ranked(s, rank)
    ensures InSubtree(s, root, t, rank) <==> Depth(s, root, t, rank) != -1
    decreases Height(rank, t)
  {
    if t != root && t > 0 {
      ParentLower(s, rank, t);
      InSubtreeIffDepth(s, root, ParentOf(s, t), rank);
    }
  }

  /** Subtrees nest: a member of a member's subtree is a member. */
  lemma {:induction false} InSubtreeTransitive(s: seq<ProcInfo>, a: int, b: int, c: int, rank: int -> nat)
    requires Ranked(s, rank)
    requires InSubtree(s, a, b, rank) && InSubtree(s, b, c, rank)
    ensures InSubtree(s, a, c, rank)
    decreases Height(rank, c)
  {
    if c != b && c != a {
      ParentLower(s, rank, c);
      InSubtreeTransitive(s, a, b, ParentOf(s, c), rank);
    }
  }

  /** The record for `pid` exists and its command name contains the shell marker. */
  predicate ShellRecord(s: seq<ProcInfo>, pid: int) {
    var i := IndexOf(s, pid);
    i != -1 && Contains(s[i].comm, Shell)
  }

  /** is_bash_subtree: some positive pid on the parent walk from `p`, `p` included, is a shell. */
  ghost function ShellAncestry(s: seq<ProcInfo>, p: int, rank: int -> nat): bool
    requires Ranked(s, rank)
    decreases Height(rank, p)
  {
    if p <= 0 then false
    else if ShellRecord(s, p) then true
    else
      ParentLower(s, rank, p);
      ShellAncestry(s, ParentOf(s, p), rank)
  }

  /** Shell ancestry is: some hop of the walk is a positive pid whose record is a shell. */
  lemma {:induction false} ShellAncestryIffHop(s: seq<ProcInfo>, p: int, rank: int -> nat)
    requires Ranked(s, rank)
    ensures ShellAncestry(s, p, rank) <==> exists k: nat :: Hop(s, p, k) > 0 && ShellRecord(s, Hop(s, p, k))
    decreases Height(rank, p)
  {
    if p <= 0 {
      forall k: nat ensures !(Hop(s, p, k) > 0) { }
    } else if ShellRecord(s, p) {
      assert Hop(s, p, 0) == p;
    } else {
      var q := ParentOf(s, p);
      ParentLower(s, rank, p);
      ShellAncestryIffHop(s, q, rank);
      if ShellAncestry(s, q, rank) {
        var k: nat :| Hop(s, q, k) > 0 && ShellRecord(s, Hop(s, q, k));
        assert Hop(s, p, k + 1) == Hop(s, q, k);
      } else {
        forall k: nat ensures !(Hop(s, p, k) > 0 && ShellRecord(s, Hop(s, p, k))) {
          if k > 0 {
            assert Hop(s, p, k) == Hop(s, q, k - 1);
          }
        }
      }
    }
  }
}
