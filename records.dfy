/**
 * The records of one process-table snapshot, the signals the tool sends, and
 * the small string operations (strstr, the newline trim of a comm file) that
 * the safety policy and the shell-ancestry counts are built from.
 */
module Records {

  datatype Option<T> = None | Some(value: T)

  /**
   * One process as captured by the scan: `ProcInfo` of the source.
   * `creationtime` is derived by the scan from the wall clock and is kept
   * as an uninterpreted number; `comm` is the command name as read from the stat file.
   */
  datatype ProcInfo = ProcInfo(
    pid: int,
    ppid: int,
    starttime: nat,
    vmrss: int,
    cputime: nat,
    state: char,
    creationtime: int,
    comm: string)

  /** The two resources the extremum queries rank by: resident memory and CPU time. */
  datatype Resource = Memory | Cpu

  function Amount(p: ProcInfo, res: Resource): int {
    match res
    case Memory => p.vmrss
    case Cpu => p.cputime
  }

  datatype Signal = SigKill | SigStop | SigCont

  /** One call of kill(pid, sig), as recorded in the signal trace. */
  datatype Event = Event(pid: int, sig: Signal)

  /** The marker whose presence in a command name protects a process. */
  const Shell: string := "bash"

  /** strstr(s, pat) != NULL: pat occurs somewhere in s. */
  function Contains(s: string, pat: string): bool
    decreases |s|
  {
    if |s| < |pat| then false
    else s[..|pat|] == pat || Contains(s[1..], pat)
  }

  /** pat occurs in s starting at position i. */
  ghost predicate OccursAt(s: string, pat: string, i: int) {
    0 <= i && i + |pat| <= |s| && s[i..i + |pat|] == pat
  }

  /** Contains is the substring search it is named after. */
  lemma {:induction false} ContainsIffOccurs(s: string, pat: string)
    ensures Contains(s, pat) <==> exists i :: OccursAt(s, pat, i)
    decreases |s|
  {
    if |s| < |pat| {
      forall i | OccursAt(s, pat, i) ensures false { }
    } else if s[..|pat|] == pat {
      assert OccursAt(s, pat, 0);
    } else {
      ContainsIffOccurs(s[1..], pat);
      if Contains(s[1..], pat) {
        var i :| OccursAt(s[1..], pat, i);
        assert s[1..][i..i + |pat|] == s[i + 1..i + 1 + |pat|];
        assert OccursAt(s, pat, i + 1);
      } else {
        forall i | OccursAt(s, pat, i) ensures false {
          if i > 0 {
            assert s[1..][i - 1..i - 1 + |pat|] == s[i..i + |pat|];
            assert OccursAt(s[1..], pat, i - 1);
          }
        }
      }
    }
  }

  /** The text before the first newline: `comm[strcspn(comm, "\n")] = 0`. */
  function FirstLine(s: string): (r: string)
    ensures |r| <= |s| && r == s[..|r|]
    ensures '\n' !in r
    ensures |r| < |s| ==> s[|r|] == '\n'
  {
    if |s| == 0 then ""
    else if s[0] == '\n' then ""
    else [s[0]] + FirstLine(s[1..])
  }

  /** Size of the buffer can_kill_process reads a comm file into. */
  const CommBufferSize: nat := 32

  /**
   * What can_kill_process compares against the shell marker: fgets into a
   * 32-byte buffer reads at most 31 characters, then the newline is cut off.
   */
  function CommLine(raw: string): (r: string)
    ensures |r| < CommBufferSize && |r| <= |raw| && '\n' !in r
    ensures r == raw[..|r|]
  {
    FirstLine(if |raw| < CommBufferSize then raw else raw[..CommBufferSize - 1])
  }
}
