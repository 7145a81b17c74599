/**
 * Best-so-far selections over a sequence of keys, written the way the
 * source's scans compute them (front to back, replacing only on a strict
 * improvement), together with the key sequences the scans read from the
 * descendant buffer.
 */
module Extrema {
  import opened Records

  /**
   * The position a minimum scan over keys[0..n) settles on when it replaces
   * its candidate only on a strictly smaller key.
   */
  function FirstMin(keys: seq<int>, n: nat): (m: nat)
    requires 0 < n <= |keys|
    ensures m < n
  {
    if n == 1 then 0
    else
      var m := FirstMin(keys, n - 1);
      if keys[n - 1] < keys[m] then n - 1 else m
  }

  /** The position a maximum scan over keys[0..n) that replaces only on `>` settles on. */
  function FirstMax(keys: seq<int>, n: nat): (m: nat)
    requires 0 < n <= |keys|
    ensures m < n
  {
    if n == 1 then 0
    else
      var m := FirstMax(keys, n - 1);
      if keys[n - 1] > keys[m] then n - 1 else m
  }

  /** The minimum scan finds the first of the least keys. */
  lemma {:induction false} FirstMinIsFirstLeast(keys: seq<int>, n: nat)
    requires 0 < n <= |keys|
    ensures forall j :: 0 <= j < n ==> keys[FirstMin(keys, n)] <= keys[j]
    ensures forall j :: 0 <= j < FirstMin(keys, n) ==> keys[j] > keys[FirstMin(keys, n)]
  {
    if n > 1 {
      FirstMinIsFirstLeast(keys, n - 1);
    }
  }

  /** The maximum scan finds the first of the greatest keys. */
  lemma {:induction false} FirstMaxIsFirstGreatest(keys: seq<int>, n: nat)
    requires 0 < n <= |keys|
    ensures forall j :: 0 <= j < n ==> keys[j] <= keys[FirstMax(keys, n)]
    ensures forall j :: 0 <= j < FirstMax(keys, n) ==> keys[j] < keys[FirstMax(keys, n)]
  {
    if n > 1 {
      FirstMaxIsFirstGreatest(keys, n - 1);
    }
  }

  /** A maximum scan over keys[0..n) that starts from 0: the largest key, or 0 when no key exceeds 0. */
  function MaxOrZero(keys: seq<int>, n: nat): (r: int)
    requires n <= |keys|
    ensures r >= 0
    ensures forall j :: 0 <= j < n ==> keys[j] <= r
    ensures r == 0 || exists j :: 0 <= j < n && keys[j] == r
  {
    if n == 0 then 0
    else
      var r := MaxOrZero(keys, n - 1);
      if keys[n - 1] > r then keys[n - 1] else r
  }

  /** Every buffer entry indexes a record of the snapshot. */
  ghost predicate InRange(s: seq<ProcInfo>, buf: seq<int>) {
    forall j :: 0 <= j < |buf| ==> 0 <= buf[j] < |s|
  }

  /** The start times of the buffered records, in buffer order. */
  ghost function Starts(s: seq<ProcInfo>, buf: seq<int>): (r: seq<int>)
    requires InRange(s, buf)
    ensures |r| == |buf| && forall j :: 0 <= j < |buf| ==> r[j] == s[buf[j]].starttime
  {
    seq(|buf|, j requires 0 <= j < |buf| => s[buf[j]].starttime)
  }

  /** The amounts of one resource used by the buffered records, in buffer order. */
  ghost function Amounts(s: seq<ProcInfo>, buf: seq<int>, res: Resource): (r: seq<int>)
    requires InRange(s, buf)
    ensures |r| == |buf| && forall j :: 0 <= j < |buf| ==> r[j] == Amount(s[buf[j]], res)
  {
    seq(|buf|, j requires 0 <= j < |buf| => Amount(s[buf[j]], res))
  }

  /** The buffer is in non-decreasing start-time order. */
  ghost predicate SortedByStart(s: seq<ProcInfo>, buf: seq<int>)
    requires InRange(s, buf)
  {
    forall a, b :: 0 <= a < b < |buf| ==> s[buf[a]].starttime <= s[buf[b]].starttime
  }

  /** The first `i` entries are in start-time order. */
  ghost predicate SortedBelow(s: seq<ProcInfo>, buf: seq<int>, i: int)
    requires InRange(s, buf)
  {
    forall a, b :: 0 <= a < b < i && b < |buf| ==> s[buf[a]].starttime <= s[buf[b]].starttime
  }

  /** Every entry from position i on starts no earlier than `lo`. */
  ghost predicate StartsFrom(s: seq<ProcInfo>, buf: seq<int>, i: int, lo: int)
    requires InRange(s, buf)
  {
    forall b :: 0 <= i <= b < |buf| ==> lo <= s[buf[b]].starttime
  }

  /**
   * One pass of the exchange sort extends the ordered prefix: position i now
   * holds the earliest entry of the rest, which starts no earlier than the
   * prefix's last entry.
   */
  lemma ExtendSorted(s: seq<ProcInfo>, before: seq<int>, after: seq<int>, i: int)
    requires InRange(s, before) && InRange(s, after) && |before| == |after| && 0 <= i < |after|
    requires SortedBelow(s, before, i)
    requires after[..i] == before[..i]
    requires 0 < i ==> StartsFrom(s, after, i, s[before[i - 1]].starttime)
    requires StartsFrom(s, after, i + 1, s[after[i]].starttime)
    ensures SortedBelow(s, after, i + 1)
  {
    forall a, b | 0 <= a < b < i + 1 && b < |after|
      ensures s[after[a]].starttime <= s[after[b]].starttime
    {
      assert after[a] == before[a];
      if b < i {
        assert after[b] == before[b];
      } else if 0 < i {
        assert after[i - 1] == before[i - 1];
        if a < i - 1 {
          assert s[before[a]].starttime <= s[before[i - 1]].starttime;
        }
      }
    }
  }

  /** Entry i starts no later than the entries after it, up to position j. */
  ghost predicate LeastUpTo(s: seq<ProcInfo>, buf: seq<int>, i: int, j: int)
    requires InRange(s, buf) && 0 <= i < |buf|
  {
    forall b :: i < b < j && b < |buf| ==> s[buf[i]].starttime <= s[buf[b]].starttime
  }

  /** `after` is `before`, with entries i and j possibly exchanged. */
  ghost predicate Exchanged(before: seq<int>, after: seq<int>, i: int, j: int) {
    0 <= i < j < |before| && (after == before || after == before[i := before[j]][j := before[i]])
  }

  /** Exchanging two entries keeps the multiset of entries. */
  lemma SwapKeepsMultiset(before: seq<int>, i: int, j: int)
    requires 0 <= i < j < |before|
    ensures multiset(before[i := before[j]][j := before[i]]) == multiset(before)
  {
    var mid := before[i := before[j]];
    assert multiset(mid) == multiset(before) - multiset{before[i]} + multiset{before[j]};
  }

  /** One comparison of the exchange sort keeps what the inner loop maintains. */
  lemma ExchangeStep(s: seq<ProcInfo>, before: seq<int>, after: seq<int>, i: int, j: int, lo: int)
    requires InRange(s, before) && Exchanged(before, after, i, j)
    requires StartsFrom(s, before, i, lo) && LeastUpTo(s, before, i, j)
    requires s[after[i]].starttime <= s[after[j]].starttime
    ensures InRange(s, after) && multiset(after) == multiset(before)
    ensures after[..i] == before[..i]
    ensures StartsFrom(s, after, i, lo) && LeastUpTo(s, after, i, j + 1)
  {
    if after != before {
      SwapKeepsMultiset(before, i, j);
      assert forall k :: 0 <= k < |after| && k != i && k != j ==> after[k] == before[k];
    }
  }

  /** Entries i and j are table indices, and i's record starts no later than j's. */
  ghost predicate OrderedPair(s: seq<ProcInfo>, buf: seq<int>, i: int, j: int) {
    0 <= i < j < |buf| && 0 <= buf[i] < |s| && 0 <= buf[j] < |s| &&
    s[buf[i]].starttime <= s[buf[j]].starttime
  }

  /**
   * What the inner loop of the exchange sort keeps, scanning at j: `buf` is a
   * rearrangement of `before` that keeps its first i entries, every entry
   * from i on starts no earlier than `lo`, and entry i is the earliest of
   * entries i..j.
   */
  ghost predicate Scanning(s: seq<ProcInfo>, before: seq<int>, buf: seq<int>, i: int, j: int, lo: int) {
    |buf| == |before| && 0 <= i < |buf| && InRange(s, buf) && multiset(buf) == multiset(before) &&
    buf[..i] == before[..i] && StartsFrom(s, buf, i, lo) && LeastUpTo(s, buf, i, j)
  }

  /** What one pass of the outer loop achieves: entry i is the earliest of entries i.. . */
  ghost predicate Placed(s: seq<ProcInfo>, before: seq<int>, after: seq<int>, i: int, lo: int) {
    |after| == |before| && 0 <= i < |after| && InRange(s, after) && multiset(after) == multiset(before) &&
    after[..i] == before[..i] && StartsFrom(s, after, i, lo) &&
    StartsFrom(s, after, i + 1, s[after[i]].starttime)
  }

  /**
   * What the outer loop keeps at i: `buf` is a rearrangement of `start`
   * whose first i entries are in order and start no later than the rest.
   */
  ghost predicate Sorting(s: seq<ProcInfo>, start: seq<int>, buf: seq<int>, i: int) {
    |buf| == |start| && 0 <= i <= |buf| && InRange(s, buf) && multiset(buf) == multiset(start) &&
    SortedBelow(s, buf, i) && (0 < i ==> StartsFrom(s, buf, i, s[buf[i - 1]].starttime))
  }

  /** One comparison keeps the inner loop's invariant, one position further on. */
  lemma ScanStep(s: seq<ProcInfo>, before: seq<int>, buf: seq<int>, after: seq<int>, i: int, j: int, lo: int)
    requires Scanning(s, before, buf, i, j, lo) && Exchanged(buf, after, i, j) && OrderedPair(s, after, i, j)
    ensures Scanning(s, before, after, i, j + 1, lo)
  {
    ExchangeStep(s, buf, after, i, j, lo);
    assert after[..i] == buf[..i];
  }

  /** A finished scan has placed the earliest remaining entry at i. */
  lemma ScanDone(s: seq<ProcInfo>, before: seq<int>, buf: seq<int>, i: int, lo: int)
    requires Scanning(s, before, buf, i, |buf|, lo)
    ensures Placed(s, before, buf, i, lo)
  {
  }

  /** One pass of the outer loop extends the ordered prefix by one entry. */
  lemma SortStep(s: seq<ProcInfo>, start: seq<int>, buf: seq<int>, after: seq<int>, i: int, lo: int)
    requires Sorting(s, start, buf, i) && i < |buf| && lo == (if i == 0 then 0 else s[buf[i - 1]].starttime)
    requires Placed(s, buf, after, i, lo)
    ensures Sorting(s, start, after, i + 1)
  {
    ExtendSorted(s, buf, after, i);
  }

  /** When at most one entry is left unplaced, the whole buffer is in order. */
  lemma SortDone(s: seq<ProcInfo>, start: seq<int>, buf: seq<int>, i: int)
    requires Sorting(s, start, buf, i) && i >= |buf| - 1
    ensures SortedByStart(s, buf)
  {
    forall a, b | 0 <= a < b < |buf|
      ensures s[buf[a]].starttime <= s[buf[b]].starttime
    {
      if b >= i {
        assert s[buf[a]].starttime <= s[buf[i - 1]].starttime;
      }
    }
  }
}
