/**
 * The earlier copy of the tool (1.c). Its snapshot store, navigator,
 * descendant buffer, queries and handlers are the same code as the final
 * version and are modelled once, in Store, Navigator, Queries and Signals.
 * This module holds what 1.c does differently: the non-direct count printed
 * with a floor at 0, a safety gate that takes a role label it never reads,
 * and a handle_kps that returns silently when the target has no parent.
 */
module EarlierCopy {
  import opened Records
  import opened Snapshot
  import opened Tree
  import opened Store
  import opened Extrema
  import opened Navigator
  import opened Queries
  import opened Signals

  /**
   * The tail of 1.c's handle_dnd: desc_count minus the direct children,
   * printed as `nondirect < 0 ? 0 : nondirect`. The floor never applies,
   * since the direct children are counted among the buffered entries.
   */
  method NonDirectFloored(list: ProcList, d: Descendants, targetPid: int) returns (printed: int)
    requires d.Valid() && list.Valid() && InRange(list.Records(), d.Contents())
    ensures printed == IndirectCount(list.Records(), d.Contents(), targetPid)
  {
    var nondirect := NonDirect(list, d, targetPid);
    printed := if nondirect < 0 then 0 else nondirect;
  }

  /** 1.c's handle_dnd as written: the buffer is empty, so 0 is printed. */
  method HandleDnd(list: ProcList, d: Descendants, target: int, ghost rank: int -> nat) returns (printed: int)
    requires d.Valid() && list.Valid() && Ranked(list.Records(), rank) && IndexOf(list.Records(), target) != -1
    modifies d, d.slots
    ensures printed == 0
  {
    var targetIdx := FindProcIndex(list, target);
    d.CollectDescendants(list, targetIdx, true, list.Records(), rank);
    var targetPid := list.items[targetIdx].pid;
    printed := NonDirectFloored(list, d, targetPid);
  }

  /**
   * 1.c's can_kill_process(pid, role): the same checks as the final gate;
   * `role` (the label the caller passes, such as "Sibling") is not read.
   */
  function CanKillWithRole(pid: int, comm: Option<string>, role: string): bool {
    if pid == 1 then false
    else
      match comm
      case None => false
      case Some(raw) => !Contains(CommLine(raw), Shell)
  }

  /** The role label has no influence: the earlier gate decides as the final one does. */
  lemma RoleIgnored(pid: int, comm: Option<string>, role: string)
    ensures CanKillWithRole(pid, comm, role) == CanKill(pid, comm)
    ensures forall other :: CanKillWithRole(pid, comm, other) == CanKillWithRole(pid, comm, role)
  {
  }

  /**
   * 1.c's handle_kps: a target without a parent returns without a message
   * (Silent); a parent without a parent prints "No grandparent".
   */
  method HandleKps(list: ProcList, k: Kernel, comms: map<int, string>, target: int) returns (r: Outcome)
    requires list.Valid()
    modifies k
    ensures var p := ParentOf(list.Records(), target);
      var g := ParentOf(list.Records(), p);
      r == (if p == -1 then Silent else if g == -1 then NoGrandparent else Done) &&
      k.trace == old(k.trace) +
        (if r == Done then Sends(Kin(list.Records(), g, Some(p), list.count), comms, SigKill) else [])
  {
    var parent := GetPpid(list, target);
    if parent == -1 {
      return Silent;
    }
    var grand := GetPpid(list, parent);
    if grand == -1 {
      return NoGrandparent;
    }
    SignalKin(list, k, comms, grand, Some(parent), SigKill);
    return Done;
  }
}
