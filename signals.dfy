/**
 * The signal handlers: the safety gate can_kill_process, the kill(2) calls
 * as a trace of events, the pid sets each handler signals (parent,
 * grandparent, siblings, the parent's siblings, children, grandchildren,
 * the descendants, the root), and the subtree handlers that go through the
 * descendant buffer, as written and over the corrected collector.
 */
module Signals {
  import opened Records
  import opened Snapshot
  import opened Tree
  import opened Store
  import opened Extrema
  import opened Navigator

  /**
   * The comm file of `pid` as the live system would show it: None when
   * /proc/<pid>/comm cannot be opened. `comms` maps each pid whose file opens
   * to its contents.
   */
  function CommOf(comms: map<int, string>, pid: int): Option<string> {
    if pid in comms then Some(comms[pid]) else None
  }

  /**
   * can_kill_process: refuse pid 1, refuse when the comm file cannot be
   * opened, refuse when the (truncated, newline-trimmed) command name
   * contains the shell marker, otherwise allow.
   */
  function CanKill(pid: int, comm: Option<string>): bool {
    if pid == 1 then false
    else
      match comm
      case None => false
      case Some(raw) => !Contains(CommLine(raw), Shell)
  }

  /** The gate allows exactly the processes other than init whose name has no shell marker. */
  lemma CanKillIffSafe(pid: int, comm: Option<string>)
    ensures CanKill(pid, comm) <==>
      pid != 1 && comm.Some? && !exists i :: OccursAt(CommLine(comm.value), Shell, i)
  {
    if comm.Some? {
      ContainsIffOccurs(CommLine(comm.value), Shell);
    }
  }

  /** The system calls kill(pid, sig) the tool has made, in order. */
  class Kernel {
    var trace: seq<Event>

    constructor ()
      ensures trace == []
    {
      trace := [];
    }

    /** kill(pid, sig): recorded in the trace; whether it succeeds is not modelled. */
    method Kill(pid: int, sig: Signal) returns (delivered: bool)
      modifies this
      ensures trace == old(trace) + [Event(pid, sig)]
    {
      trace := trace + [Event(pid, sig)];
      delivered := *;
    }
  }

  /** The events a loop over `pids` produces when it signals each pid the gate allows. */
  function Sends(pids: seq<int>, comms: map<int, string>, sig: Signal): seq<Event> {
    if pids == [] then []
    else
      var p := pids[|pids| - 1];
      Sends(pids[..|pids| - 1], comms, sig) + (if CanKill(p, CommOf(comms, p)) then [Event(p, sig)] else [])
  }

  /** The gated loop signals exactly the allowed pids of its list, with its signal. */
  lemma {:induction false} SendsMembers(pids: seq<int>, comms: map<int, string>, sig: Signal)
    ensures forall e :: e in Sends(pids, comms, sig) <==>
      e.pid in pids && e.sig == sig && CanKill(e.pid, CommOf(comms, e.pid))
  {
    if pids != [] {
      var init := pids[..|pids| - 1];
      SendsMembers(init, comms, sig);
      assert pids == init + [pids[|pids| - 1]];
    }
  }

  /** Signalling two lists one after the other is signalling their concatenation. */
  lemma {:induction false} SendsConcat(a: seq<int>, b: seq<int>, comms: map<int, string>, sig: Signal)
    ensures Sends(a + b, comms, sig) == Sends(a, comms, sig) + Sends(b, comms, sig)
  {
    if b != [] {
      var init := b[..|b| - 1];
      var last := b[|b| - 1];
      var tail := if CanKill(last, CommOf(comms, last)) then [Event(last, sig)] else [];
      SendsConcat(a, init, comms, sig);
      assert (a + b)[..|a + b| - 1] == a + init;
      assert (a + b)[|a + b| - 1] == last;
      calc {
        Sends(a + b, comms, sig);
        Sends(a + init, comms, sig) + tail;
        (Sends(a, comms, sig) + Sends(init, comms, sig)) + tail;
        Sends(a, comms, sig) + (Sends(init, comms, sig) + tail);
        Sends(a, comms, sig) + Sends(b, comms, sig);
      }
    } else {
      assert a + b == a;
    }
  }

  /**
   * The pids, in table order, of the records among the first n whose ppid is
   * `ppid`, leaving out `except`: the selection loop of handle_ksp (siblings),
   * handle_kps (the parent's siblings), handle_kcp (children) and each inner
   * loop of handle_kgc.
   */
  function Kin(s: seq<ProcInfo>, ppid: int, except: Option<int>, n: nat): seq<int>
    requires n <= |s|
  {
    if n == 0 then []
    else
      Kin(s, ppid, except, n - 1) +
      (if s[n - 1].ppid == ppid && except != Some(s[n - 1].pid) then [s[n - 1].pid] else [])
  }

  lemma {:induction false} KinMembers(s: seq<ProcInfo>, ppid: int, except: Option<int>, n: nat)
    requires n <= |s|
    ensures forall x :: x in Kin(s, ppid, except, n) <==>
      except != Some(x) && exists k :: 0 <= k < n && s[k].pid == x && s[k].ppid == ppid
  {
    if n > 0 {
      KinMembers(s, ppid, except, n - 1);
    }
  }

  /** The indices, in table order, of the records among the first n whose ppid is `ppid`. */
  function ChildIdx(s: seq<ProcInfo>, ppid: int, n: nat): (r: seq<int>)
    requires n <= |s|
    ensures InRange(s, r)
  {
    if n == 0 then []
    else ChildIdx(s, ppid, n - 1) + (if s[n - 1].ppid == ppid then [n - 1] else [])
  }

  lemma {:induction false} ChildIdxMembers(s: seq<ProcInfo>, ppid: int, n: nat)
    requires n <= |s|
    ensures forall c :: c in ChildIdx(s, ppid, n) <==> 0 <= c < n && s[c].ppid == ppid
  {
    if n > 0 {
      ChildIdxMembers(s, ppid, n - 1);
    }
  }

  /** The children of each buffered child index, child by child. */
  function GrandKin(s: seq<ProcInfo>, kids: seq<int>): seq<int>
    requires InRange(s, kids)
  {
    if kids == [] then []
    else GrandKin(s, kids[..|kids| - 1]) + Kin(s, s[kids[|kids| - 1]].pid, None, |s|)
  }

  lemma {:induction false} GrandKinMembers(s: seq<ProcInfo>, kids: seq<int>)
    requires InRange(s, kids)
    ensures forall x :: x in GrandKin(s, kids) <==>
      exists j :: 0 <= j < |kids| && x in Kin(s, s[kids[j]].pid, None, |s|)
  {
    if kids != [] {
      var init := kids[..|kids| - 1];
      GrandKinMembers(s, init);
      assert forall j :: 0 <= j < |init| ==> init[j] == kids[j];
    }
  }

  /** handle_kgc's targets are exactly the pids whose parent's parent is the target. */
  lemma GrandchildrenOfTarget(s: seq<ProcInfo>, t: int)
    ensures forall x :: x in GrandKin(s, ChildIdx(s, t, |s|)) <==>
      exists c, k :: 0 <= c < |s| && 0 <= k < |s| && s[c].ppid == t && s[k].ppid == s[c].pid && s[k].pid == x
  {
    var kids := ChildIdx(s, t, |s|);
    GrandKinMembers(s, kids);
    ChildIdxMembers(s, t, |s|);
    forall c | 0 <= c < |s| {
      KinMembers(s, s[c].pid, None, |s|);
    }
    forall x | exists c, k :: 0 <= c < |s| && 0 <= k < |s| && s[c].ppid == t && s[k].ppid == s[c].pid && s[k].pid == x
      ensures x in GrandKin(s, kids)
    {
      var c, k :| 0 <= c < |s| && 0 <= k < |s| && s[c].ppid == t && s[k].ppid == s[c].pid && s[k].pid == x;
      assert c in kids;
      var j :| 0 <= j < |kids| && kids[j] == c;
      assert x in Kin(s, s[kids[j]].pid, None, |s|);
    }
  }

  /**
   * The pids of the buffered records, in buffer order; with `onlyStopped`,
   * only those whose state is 'T'.
   */
  ghost function BufferPids(s: seq<ProcInfo>, buf: seq<int>, onlyStopped: bool): seq<int>
    requires InRange(s, buf)
  {
    if buf == [] then []
    else
      var r := s[buf[|buf| - 1]];
      BufferPids(s, buf[..|buf| - 1], onlyStopped) + (if !onlyStopped || r.state == 'T' then [r.pid] else [])
  }

  lemma {:induction false} BufferPidsMembers(s: seq<ProcInfo>, buf: seq<int>, onlyStopped: bool)
    requires InRange(s, buf)
    ensures forall x :: x in BufferPids(s, buf, onlyStopped) <==>
      exists j :: 0 <= j < |buf| && s[buf[j]].pid == x && (!onlyStopped || s[buf[j]].state == 'T')
  {
    if buf != [] {
      var init := buf[..|buf| - 1];
      BufferPidsMembers(s, init, onlyStopped);
      assert forall j :: 0 <= j < |init| ==> init[j] == buf[j];
    }
  }

  /** Every event a gated loop appends is allowed by the gate: never init, never a shell. */
  lemma SendsAreSafe(pids: seq<int>, comms: map<int, string>, sig: Signal)
    ensures forall e :: e in Sends(pids, comms, sig) ==>
      e.pid != 1 && e.pid in comms && !exists i :: OccursAt(CommLine(comms[e.pid]), Shell, i)
  {
    SendsMembers(pids, comms, sig);
    forall e | e in Sends(pids, comms, sig)
      ensures e.pid != 1 && e.pid in comms && !exists i :: OccursAt(CommLine(comms[e.pid]), Shell, i)
    {
      CanKillIffSafe(e.pid, CommOf(comms, e.pid));
    }
  }

  /** What a handler reported besides the signals it sent. */
  datatype Outcome = Done | NoParent | NoGrandparent | Silent

  /** One gated kill: `if (can_kill_process(pid)) kill(pid, sig)`. */
  method SignalOne(k: Kernel, comms: map<int, string>, pid: int, sig: Signal)
    modifies k
    ensures k.trace == old(k.trace) + Sends([pid], comms, sig)
  {
    if CanKill(pid, CommOf(comms, pid)) {
      var _ := k.Kill(pid, sig);
    }
  }

  /** The selection-and-kill loop over the table shared by ksp, kps, kcp and kgc. */
  method SignalKin(list: ProcList, k: Kernel, comms: map<int, string>, ppid: int, except: Option<int>, sig: Signal)
    requires list.Valid()
    modifies k
    ensures k.trace == old(k.trace) + Sends(Kin(list.Records(), ppid, except, list.count), comms, sig)
  {
    ghost var s := list.Records();
    var i: nat := 0;
    while i < list.count
      invariant i <= list.count
      invariant k.trace == old(k.trace) + Sends(Kin(s, ppid, except, i), comms, sig)
    {
      assert list.items[i] == s[i];
      var pid := list.items[i].pid;
      if list.items[i].ppid == ppid && except != Some(pid) {
        assert Kin(s, ppid, except, i + 1) == Kin(s, ppid, except, i) + [pid];
        SendsConcat(Kin(s, ppid, except, i), [pid], comms, sig);
        Assoc(old(k.trace), Sends(Kin(s, ppid, except, i), comms, sig), Sends([pid], comms, sig));
        SignalOne(k, comms, pid, sig);
      } else {
        assert Kin(s, ppid, except, i + 1) == Kin(s, ppid, except, i);
      }
      i := i + 1;
    }
  }

  /** handle_kgp: SIGKILL to the grandparent, after the parent and grandparent lookups. */
  method HandleKgp(list: ProcList, k: Kernel, comms: map<int, string>, target: int) returns (r: Outcome)
    requires list.Valid()
    modifies k
    ensures var p := ParentOf(list.Records(), target);
      var g := ParentOf(list.Records(), p);
      r == (if p == -1 then NoParent else if g == -1 then NoGrandparent else Done) &&
      k.trace == old(k.trace) + (if r == Done then Sends([g], comms, SigKill) else [])
  {
    var parent := GetPpid(list, target);
    if parent == -1 {
      return NoParent;
    }
    var grand := GetPpid(list, parent);
    if grand == -1 {
      return NoGrandparent;
    }
    SignalOne(k, comms, grand, SigKill);
    return Done;
  }

  /** handle_kpp: SIGKILL to the parent. */
  method HandleKpp(list: ProcList, k: Kernel, comms: map<int, string>, target: int) returns (r: Outcome)
    requires list.Valid()
    modifies k
    ensures var p := ParentOf(list.Records(), target);
      r == (if p == -1 then NoParent else Done) &&
      k.trace == old(k.trace) + (if r == Done then Sends([p], comms, SigKill) else [])
  {
    var parent := GetPpid(list, target);
    if parent == -1 {
      return NoParent;
    }
    SignalOne(k, comms, parent, SigKill);
    return Done;
  }

  /** handle_ksp: SIGKILL to every other record with the target's parent. */
  method HandleKsp(list: ProcList, k: Kernel, comms: map<int, string>, target: int) returns (r: Outcome)
    requires list.Valid()
    modifies k
    ensures var p := ParentOf(list.Records(), target);
      r == (if p == -1 then NoParent else Done) &&
      k.trace == old(k.trace) +
        (if r == Done then Sends(Kin(list.Records(), p, Some(target), list.count), comms, SigKill) else [])
  {
    var parent := GetPpid(list, target);
    if parent == -1 {
      return NoParent;
    }
    SignalKin(list, k, comms, parent, Some(target), SigKill);
    return Done;
  }

  /**
   * handle_kps: SIGKILL to every other record with the parent's parent; a
   * missing parent is reported as a missing grandparent.
   */
  method HandleKps(list: ProcList, k: Kernel, comms: map<int, string>, target: int) returns (r: Outcome)
    requires list.Valid()
    modifies k
    ensures var p := ParentOf(list.Records(), target);
      var g := ParentOf(list.Records(), p);
      r == (if p == -1 || g == -1 then NoGrandparent else Done) &&
      k.trace == old(k.trace) +
        (if r == Done then Sends(Kin(list.Records(), g, Some(p), list.count), comms, SigKill) else [])
  {
    var parent := GetPpid(list, target);
    if parent == -1 {
      return NoGrandparent;
    }
    var grand := GetPpid(list, parent);
    if grand == -1 {
      return NoGrandparent;
    }
    SignalKin(list, k, comms, grand, Some(parent), SigKill);
    return Done;
  }

  /**
   * handle_kgc: buffer the indices of the target's children (the growth of
   * that local buffer is not modelled), then SIGKILL each child's children,
   * child by child.
   */
  method HandleKgc(list: ProcList, k: Kernel, comms: map<int, string>, target: int)
    requires list.Valid() && IndexOf(list.Records(), target) != -1
    modifies k
    ensures k.trace == old(k.trace) + Sends(GrandKin(list.Records(), ChildIdx(list.Records(), target, list.count)), comms, SigKill)
  {
    var targetIdx := FindProcIndex(list, target);
    var targetPid := list.items[targetIdx].pid;
    var children := ChildrenOf(list, targetPid);
    SignalGrandchildren(list, k, comms, children);
  }

  /** The first loop of handle_kgc: the indices of the records whose ppid is `ppid`. */
  method ChildrenOf(list: ProcList, ppid: int) returns (children: seq<int>)
    requires list.Valid()
    ensures children == ChildIdx(list.Records(), ppid, list.count)
  {
    ghost var s := list.Records();
    children := [];
    var i: nat := 0;
    while i < list.count
      invariant i <= list.count
      invariant children == ChildIdx(s, ppid, i)
    {
      assert list.items[i] == s[i];
      if list.items[i].ppid == ppid {
        children := children + [i];
      }
      i := i + 1;
    }
  }

  /** The second loop of handle_kgc: for each buffered child, SIGKILL its children. */
  method SignalGrandchildren(list: ProcList, k: Kernel, comms: map<int, string>, children: seq<int>)
    requires list.Valid() && InRange(list.Records(), children)
    modifies k
    ensures k.trace == old(k.trace) + Sends(GrandKin(list.Records(), children), comms, SigKill)
  {
    ghost var s := list.Records();
    ghost var start := k.trace;
    var c: nat := 0;
    while c < |children|
      invariant c <= |children|
      invariant k.trace == start + Sends(GrandKin(s, children[..c]), comms, SigKill)
    {
      SignalGrandchildrenStep(list, k, comms, children, c, s, start);
      c := c + 1;
    }
    assert children[..|children|] == children;
  }

  /** One iteration of handle_kgc's outer loop: the kin of child c are signalled. */
  method SignalGrandchildrenStep(list: ProcList, k: Kernel, comms: map<int, string>, children: seq<int>, c: nat,
                                 ghost s: seq<ProcInfo>, ghost start: seq<Event>)
    requires list.Valid() && s == list.Records() && InRange(s, children) && c < |children|
    requires k.trace == start + Sends(GrandKin(s, children[..c]), comms, SigKill)
    modifies k
    ensures k.trace == start + Sends(GrandKin(s, children[..c + 1]), comms, SigKill)
  {
    assert children[..c + 1][..c] == children[..c];
    assert list.items[children[c]] == s[children[c]];
    var childPid := list.items[children[c]].pid;
    ghost var before := Sends(GrandKin(s, children[..c]), comms, SigKill);
    ghost var added := Sends(Kin(s, childPid, None, |s|), comms, SigKill);
    assert GrandKin(s, children[..c + 1]) == GrandKin(s, children[..c]) + Kin(s, childPid, None, |s|);
    SendsConcat(GrandKin(s, children[..c]), Kin(s, childPid, None, |s|), comms, SigKill);
    SignalKin(list, k, comms, childPid, None, SigKill);
    Assoc(start, before, added);
  }

  /** handle_kcp: SIGKILL to every record whose ppid is the target pid (no lookup). */
  method HandleKcp(list: ProcList, k: Kernel, comms: map<int, string>, target: int)
    requires list.Valid()
    modifies k
    ensures k.trace == old(k.trace) + Sends(Kin(list.Records(), target, None, list.count), comms, SigKill)
  {
    SignalKin(list, k, comms, target, None, SigKill);
  }

  /** handle_krp: SIGKILL to the root. */
  method HandleKrp(k: Kernel, comms: map<int, string>, root: int)
    modifies k
    ensures k.trace == old(k.trace) + Sends([root], comms, SigKill)
  {
    SignalOne(k, comms, root, SigKill);
  }

  /**
   * The kill loop over the descendant buffer shared by handle_kst (SIGKILL),
   * handle_dst (SIGSTOP) and handle_dct (SIGCONT, `onlyStopped`: only for
   * records in state 'T').
   */
  method SignalBuffer(list: ProcList, d: Descendants, k: Kernel, comms: map<int, string>, sig: Signal, onlyStopped: bool)
    requires d.Valid() && list.Valid() && InRange(list.Records(), d.Contents())
    modifies k
    ensures k.trace == old(k.trace) + Sends(BufferPids(list.Records(), d.Contents(), onlyStopped), comms, sig)
  {
    ghost var s := list.Records();
    ghost var buf := d.Contents();
    ghost var start := k.trace;
    var i: nat := 0;
    while i < d.count
      invariant i <= d.count
      invariant k.trace == start + Sends(BufferPids(s, buf[..i], onlyStopped), comms, sig)
    {
      SignalBufferStep(list, d, k, comms, sig, onlyStopped, i, s, buf, start);
      i := i + 1;
    }
    assert buf[..d.count] == buf;
  }

  /** One iteration of the buffer loop: entry i is signalled unless only stopped records are wanted and it is not. */
  method SignalBufferStep(list: ProcList, d: Descendants, k: Kernel, comms: map<int, string>, sig: Signal, onlyStopped: bool,
                          i: nat, ghost s: seq<ProcInfo>, ghost buf: seq<int>, ghost start: seq<Event>)
    requires d.Valid() && list.Valid() && s == list.Records() && buf == d.Contents() && InRange(s, buf) && i < |buf|
    requires k.trace == start + Sends(BufferPids(s, buf[..i], onlyStopped), comms, sig)
    modifies k
    ensures k.trace == start + Sends(BufferPids(s, buf[..i + 1], onlyStopped), comms, sig)
  {
    assert buf[..i + 1][..i] == buf[..i];
    var dIdx := d.slots[i];
    assert dIdx == buf[i] && 0 <= dIdx < |s|;
    assert list.items[dIdx] == s[dIdx];
    var pid := list.items[dIdx].pid;
    if !onlyStopped || list.items[dIdx].state == 'T' {
      assert BufferPids(s, buf[..i + 1], onlyStopped) == BufferPids(s, buf[..i], onlyStopped) + [pid];
      SendsConcat(BufferPids(s, buf[..i], onlyStopped), [pid], comms, sig);
      Assoc(start, Sends(BufferPids(s, buf[..i], onlyStopped), comms, sig), Sends([pid], comms, sig));
      SignalOne(k, comms, pid, sig);
    } else {
      assert BufferPids(s, buf[..i + 1], onlyStopped) == BufferPids(s, buf[..i], onlyStopped);
    }
  }

  /**
   * The tail of handle_kst: nothing for an empty buffer; otherwise order the
   * buffer oldest first and SIGKILL its records in that order.
   */
  method KillInCreationOrder(list: ProcList, d: Descendants, k: Kernel, comms: map<int, string>)
    requires d.Valid() && list.Valid() && InRange(list.Records(), d.Contents())
    modifies d.slots, k
    ensures d.Valid() && InRange(list.Records(), d.Contents())
    ensures multiset(d.Contents()) == old(multiset(d.Contents()))
    ensures SortedByStart(list.Records(), d.Contents())
    ensures k.trace == old(k.trace) + Sends(BufferPids(list.Records(), d.Contents(), false), comms, SigKill)
  {
    if d.count == 0 {
      return;
    }
    d.SortByStart(list);
    SignalBuffer(list, d, k, comms, SigKill, false);
  }

  /** handle_kst as written: the buffer is empty, so nothing is signalled. */
  method HandleKst(list: ProcList, d: Descendants, k: Kernel, comms: map<int, string>, target: int, ghost rank: int -> nat)
    requires d.Valid() && list.Valid() && Ranked(list.Records(), rank) && IndexOf(list.Records(), target) != -1
    modifies d, d.slots, k
    ensures k.trace == old(k.trace)
  {
    var targetIdx := FindProcIndex(list, target);
    d.CollectDescendants(list, targetIdx, true, list.Records(), rank);
    KillInCreationOrder(list, d, k, comms);
  }

  /**
   * handle_kst over the corrected collector: every descendant the walk
   * visits is put in creation order and signalled in that order.
   */
  method KillSubtree(list: ProcList, d: Descendants, k: Kernel, comms: map<int, string>, target: int, ghost rank: int -> nat)
    requires d.Valid() && list.Valid() && Ranked(list.Records(), rank) && IndexOf(list.Records(), target) != -1
    modifies d, d.slots, k
    ensures d.Valid() && InRange(list.Records(), d.Contents())
    ensures multiset(d.Contents()) == multiset(Walk(list.Records(), IndexOf(list.Records(), target), true, 0, rank))
    ensures SortedByStart(list.Records(), d.Contents())
    ensures k.trace == old(k.trace) + Sends(BufferPids(list.Records(), d.Contents(), false), comms, SigKill)
  {
    var targetIdx := FindProcIndex(list, target);
    d.Collect(list, targetIdx, true, rank);
    CollectedInRange(list.Records(), targetIdx, rank);
    KillInCreationOrder(list, d, k, comms);
  }

  /** handle_dst (SIGSTOP to every descendant) and handle_dct (SIGCONT to stopped ones) as written: nothing. */
  method HandleDstDct(list: ProcList, d: Descendants, k: Kernel, comms: map<int, string>, target: int, resume: bool, ghost rank: int -> nat)
    requires d.Valid() && list.Valid() && Ranked(list.Records(), rank) && IndexOf(list.Records(), target) != -1
    modifies d, d.slots, k
    ensures k.trace == old(k.trace)
  {
    var targetIdx := FindProcIndex(list, target);
    d.CollectDescendants(list, targetIdx, true, list.Records(), rank);
    SignalBuffer(list, d, k, comms, if resume then SigCont else SigStop, resume);
  }

  /** handle_dst / handle_dct over the corrected collector. */
  method StopOrResume(list: ProcList, d: Descendants, k: Kernel, comms: map<int, string>, target: int, resume: bool, ghost rank: int -> nat)
    requires d.Valid() && list.Valid() && Ranked(list.Records(), rank) && IndexOf(list.Records(), target) != -1
    modifies d, d.slots, k
    ensures var w := Walk(list.Records(), IndexOf(list.Records(), target), true, 0, rank);
      InRange(list.Records(), w) &&
      k.trace == old(k.trace) + Sends(BufferPids(list.Records(), w, resume), comms, if resume then SigCont else SigStop)
  {
    var targetIdx := FindProcIndex(list, target);
    d.Collect(list, targetIdx, true, rank);
    CollectedInRange(list.Records(), targetIdx, rank);
    SignalBuffer(list, d, k, comms, if resume then SigCont else SigStop, resume);
  }
}
