/**
 * The depth-first enumeration that collect_descendants performs, as a
 * function of the snapshot, and the proof that it enumerates exactly the
 * proper descendants of its starting record.
 */
module Tree {
  import opened Records
  import opened Snapshot

  /** No two records share a pid (the snapshot invariant of a live process table). */
  ghost predicate UniquePids(s: seq<ProcInfo>) {
    forall i, j :: 0 <= i < j < |s| ==> s[i].pid != s[j].pid
  }

  /** Every record has a positive pid (the scan only keeps numeric entries > 0). */
  ghost predicate PositivePids(s: seq<ProcInfo>) {
    forall k :: 0 <= k < |s| ==> s[k].pid > 0
  }

  lemma IndexOfUnique(s: seq<ProcInfo>, k: nat)
    requires UniquePids(s) && k < |s|
    ensures IndexOf(s, s[k].pid) == k
  {
  }

  /** An upper bound of the ranks of all pids in the snapshot. */
  ghost function RankBound(s: seq<ProcInfo>, rank: int -> nat): nat {
    if |s| == 0 then 0
    else
      var r := RankBound(s[1..], rank);
      if rank(s[0].pid) <= r then r else rank(s[0].pid)
  }

  lemma {:induction false} RankBoundAbove(s: seq<ProcInfo>, rank: int -> nat, k: nat)
    requires k < |s|
    ensures rank(s[k].pid) <= RankBound(s, rank)
  {
    if k > 0 {
      RankBoundAbove(s[1..], rank, k - 1);
      assert s[1..][k - 1] == s[k];
    }
  }

  /**
   * The test collect_descendants applies to record `i` in the call on record
   * `p`: i's ppid is p's pid, and, unless `ex` (the exclude_self argument) is
   * set, i does not carry p's own pid.
   */
  predicate Linked(s: seq<ProcInfo>, p: nat, ex: bool, i: nat)
    requires p < |s| && i < |s|
  {
    s[i].ppid == s[p].pid && (ex || s[i].pid != s[p].pid)
  }

  /** A linked record ranks above its parent, unless it is the parent's own self-parented pid. */
  lemma LinkedRises(s: seq<ProcInfo>, rank: int -> nat, p: nat, ex: bool, i: nat)
    requires Ranked(s, rank) && p < |s| && i < |s| && Linked(s, p, ex, i)
    ensures rank(s[p].pid) < rank(s[i].pid) || (ex && s[i].pid == s[p].pid)
    ensures rank(s[i].pid) <= RankBound(s, rank)
  {
    assert s[i].ppid == s[p].pid;
    RankBoundAbove(s, rank, i);
  }

  /**
   * The indices collect_descendants(p, ex) visits from loop position `i` on,
   * in the order it visits them: each linked record, then everything its own
   * recursive call visits.
   */
  ghost function Walk(s: seq<ProcInfo>, p: nat, ex: bool, i: nat, rank: int -> nat): seq<nat>
    requires Ranked(s, rank) && p < |s| && i <= |s|
    decreases RankBound(s, rank) - rank(s[p].pid), if ex then 1 else 0, |s| - i
  {
    if i == |s| then []
    else if Linked(s, p, ex, i) then
      LinkedRises(s, rank, p, ex, i);
      [i] + Walk(s, i, false, 0, rank) + Walk(s, p, ex, i + 1, rank)
    else Walk(s, p, ex, i + 1, rank)
  }

  /** Regrouping of a concatenation, as the enumeration loop needs it. */
  lemma Regroup<T>(a: seq<T>, x: T, w: seq<T>, rest: seq<T>)
    ensures a + ([x] + w + rest) == (a + [x] + w) + rest
  {
  }

  lemma Assoc<T>(a: seq<T>, b: seq<T>, c: seq<T>)
    ensures (a + b) + c == a + (b + c)
  {
  }

  lemma Regroup2<T>(a: seq<T>, b: seq<T>, x: T, w: seq<T>)
    ensures a + (b + [x] + w) == a + b + [x] + w
  {
  }

  /** One step of the enumeration loop. */
  lemma WalkUnfold(s: seq<ProcInfo>, p: nat, ex: bool, i: nat, rank: int -> nat)
    requires Ranked(s, rank) && p < |s| && i < |s|
    ensures Linked(s, p, ex, i) ==> Walk(s, p, ex, i, rank) == [i] + Walk(s, i, false, 0, rank) + Walk(s, p, ex, i + 1, rank)
    ensures !Linked(s, p, ex, i) ==> Walk(s, p, ex, i, rank) == Walk(s, p, ex, i + 1, rank)
  {
  }

  /** The enumeration only yields indices of records. */
  lemma {:induction false} WalkInRange(s: seq<ProcInfo>, p: nat, ex: bool, i: nat, rank: int -> nat)
    requires Ranked(s, rank) && p < |s| && i <= |s|
    ensures forall k :: k in Walk(s, p, ex, i, rank) ==> k < |s|
    decreases RankBound(s, rank) - rank(s[p].pid), if ex then 1 else 0, |s| - i
  {
    if i < |s| {
      WalkInRange(s, p, ex, i + 1, rank);
      if Linked(s, p, ex, i) {
        LinkedRises(s, rank, p, ex, i);
        WalkInRange(s, i, false, 0, rank);
      }
    }
  }

  /** Every record linked to `p` at or after position `i` is visited. */
  lemma {:induction false} WalkHasLinked(s: seq<ProcInfo>, p: nat, ex: bool, i: nat, m: nat, rank: int -> nat)
    requires Ranked(s, rank) && p < |s| && i <= m < |s| && Linked(s, p, ex, m)
    ensures m in Walk(s, p, ex, i, rank)
    decreases m - i
  {
    if i < m {
      WalkHasLinked(s, p, ex, i + 1, m, rank);
    }
  }

  /** The visited set is closed under taking children. */
  lemma {:induction false} WalkClosed(s: seq<ProcInfo>, q: nat, ex: bool, i: nat, j: nat, k: nat, rank: int -> nat)
    requires Ranked(s, rank) && q < |s| && i <= |s| && j < |s| && k < |s|
    requires j in Walk(s, q, ex, i, rank) && Linked(s, j, false, k)
    ensures k in Walk(s, q, ex, i, rank)
    decreases RankBound(s, rank) - rank(s[q].pid), if ex then 1 else 0, |s| - i
  {
    if Linked(s, q, ex, i) {
      LinkedRises(s, rank, q, ex, i);
      if j == i {
        WalkHasLinked(s, i, false, 0, k, rank);
      } else if j in Walk(s, i, false, 0, rank) {
        WalkClosed(s, i, false, 0, j, k, rank);
      } else {
        WalkClosed(s, q, ex, i + 1, j, k, rank);
      }
    } else {
      WalkClosed(s, q, ex, i + 1, j, k, rank);
    }
  }

  /** Everything visited is a proper descendant of `q`. */
  lemma {:induction false} WalkBelow(s: seq<ProcInfo>, q: nat, ex: bool, i: nat, k: nat, rank: int -> nat)
    requires Ranked(s, rank) && UniquePids(s) && PositivePids(s) && q < |s| && i <= |s|
    requires k in Walk(s, q, ex, i, rank)
    ensures k < |s| && rank(s[q].pid) < rank(s[k].pid)
    ensures InSubtree(s, s[q].pid, s[k].pid, rank)
    decreases RankBound(s, rank) - rank(s[q].pid), if ex then 1 else 0, |s| - i
  {
    if Linked(s, q, ex, i) {
      LinkedRises(s, rank, q, ex, i);
      assert s[i].pid != s[q].pid by {
        assert s[i].pid > 0;
      }
      if k == i {
        IndexOfUnique(s, i);
        assert ParentOf(s, s[i].pid) == s[q].pid;
      } else if k in Walk(s, i, false, 0, rank) {
        WalkBelow(s, i, false, 0, k, rank);
        IndexOfUnique(s, i);
        assert InSubtree(s, s[q].pid, s[i].pid, rank) by {
          assert ParentOf(s, s[i].pid) == s[q].pid;
        }
        InSubtreeTransitive(s, s[q].pid, s[i].pid, s[k].pid, rank);
      } else {
        WalkBelow(s, q, ex, i + 1, k, rank);
      }
    } else {
      WalkBelow(s, q, ex, i + 1, k, rank);
    }
  }

  /** Every proper descendant of `p` is visited by the top-level call. */
  lemma {:induction false} WalkComplete(s: seq<ProcInfo>, p: nat, k: nat, rank: int -> nat)
    requires Ranked(s, rank) && UniquePids(s) && PositivePids(s) && p < |s| && k < |s|
    requires s[k].pid != s[p].pid && InSubtree(s, s[p].pid, s[k].pid, rank)
    ensures k in Walk(s, p, true, 0, rank)
    decreases rank(s[k].pid)
  {
    IndexOfUnique(s, k);
    var up := s[k].ppid;
    assert ParentOf(s, s[k].pid) == up;
    if up == s[p].pid {
      WalkHasLinked(s, p, true, 0, k, rank);
    } else {
      assert InSubtree(s, s[p].pid, up, rank);
      var j := IndexOf(s, up);
      assert j != -1 by {
        if j == -1 {
          assert s[p].pid > 0;
          assert ParentOf(s, up) == -1;
          assert !InSubtree(s, s[p].pid, -1, rank);
        }
      }
      assert s[j].pid == up;
      assert rank(up) < rank(s[k].pid);
      WalkComplete(s, p, j, rank);
      WalkClosed(s, p, true, 0, j, k, rank);
    }
  }

  /**
   * The enumeration from record p visits exactly the records whose parent
   * walk reaches p's pid, p itself excluded.
   */
  lemma WalkIsDescendants(s: seq<ProcInfo>, p: nat, rank: int -> nat)
    requires Ranked(s, rank) && UniquePids(s) && PositivePids(s) && p < |s|
    ensures forall k: nat :: k in Walk(s, p, true, 0, rank) <==>
      k < |s| && s[k].pid != s[p].pid && InSubtree(s, s[p].pid, s[k].pid, rank)
  {
    forall k: nat | k in Walk(s, p, true, 0, rank)
      ensures k < |s| && s[k].pid != s[p].pid && InSubtree(s, s[p].pid, s[k].pid, rank)
    {
      WalkBelow(s, p, true, 0, k, rank);
    }
    forall k: nat | k < |s| && s[k].pid != s[p].pid && InSubtree(s, s[p].pid, s[k].pid, rank)
      ensures k in Walk(s, p, true, 0, rank)
    {
      WalkComplete(s, p, k, rank);
    }
  }
}
