# Process-tree snapshot, queries and signal selection

The tool takes a snapshot of the running processes. Each record holds:
- pid and ppid;
- start time;
- resident memory and CPU time;
- state letter;
- creation time;
- command name.

For a root pid and a target pid, the tool does one of two things:
- It answers a question about the target's place in the root's subtree: depth, processes on the same level, descendant count, oldest / newest descendant, non-direct descendants, the descendants using the most memory or CPU, and the shell-ancestry counts.
- It sends a signal to some of the target's relatives: grandparent, parent, siblings, parent's siblings, children, grandchildren, the whole subtree (oldest first), the subtree stopped or resumed, or the root. Every signal passes a safety gate first, which spares init and any process whose command name contains "bash".

The model covers three versions of the program:
- the final program (proctree_Jill_Patel_110176154.c);
- an earlier copy of it (1.c);
- a draft built on a different data structure (hello.c).

## Modules

| file | module | what it holds |
|---|---|---|
| records.dfy | Records | The record type. The resources. Signals and the kernel event. The substring test behind `strstr`. The 32-byte, newline-trimmed command line that `fgets` / `strcspn` produce. |
| snapshot.dfy | Snapshot | Lookup by pid. The ppid hop. Subtree membership and depth, both as reference definitions over a well-founded ppid relation. Shell ancestry. |
| tree.dfy | Tree | `Walk`: the order in which the recursive descendant collector visits table indices. It is proved to list exactly the proper descendants. |
| store.dfy | Store | The growable `ProcList` class: creation, growth, the store step of the /proc scan, and the draft's list helpers. |
| extrema.dfy | Extrema | First-minimum / first-maximum reference scans. Maximum-or-zero. Sortedness and exchange steps for the selection sort. |
| navigator.dfy | Navigator | The lookups, the subtree check, depth and the shell-subtree walk, as imperative loops. The global descendant buffer as the class `Descendants`, with the collector as written and corrected, oldest / newest, and the in-place selection sort. |
| queries.dfy | Queries | The query handlers. Each one comes as written (over the resetting collector) and as corrected (over the correct collector), sharing the method that reads the buffer. Also the `main` gate, and the three-argument mode. |
| signals.dfy | Signals | The safety gate. A kernel whose `Kill` appends to a trace. The target sets as reference functions. Every signal handler, proved to produce exactly the trace of gated sends to its target set. |
| earliercopy.dfy | EarlierCopy | What 1.c does differently. |
| draft.dfy | Draft | hello.c's table-and-child-list design: its lookups, its subtree check, its collector, `handle_dnd`, and the oldest / newest scans. |

### Inputs and assumptions

Termination of the ancestor walks and of the recursion rests on a ghost `rank` function. Every present record's parent has a lower rank (`Snapshot.Ranked`). The draft's walk, which goes on through -1, is instead bounded by the premise that it meets 0, 1 or the root within a given number of steps.

Three things the program reads at run time are parameters here:
- the command names read from `/proc/<pid>/comm`, passed as a map from pid to contents (a missing pid means the file could not be opened);
- the caller's own pid;
- the outcome of `kill`, which is nondeterministic.

## Model

| member | source | states |
|---|---|---|
| Records.ContainsIffOccurs | proctree_Jill_Patel_110176154.c:327 | `strstr(comm, "bash") != NULL` holds exactly when the pattern occurs at some position of the string. |
| Records.CommLine | proctree_Jill_Patel_110176154.c:323-325 | The command line the gate inspects is a prefix of the file contents. It is shorter than the 32-byte buffer and has no newline. |
| Records.FirstLine | proctree_Jill_Patel_110176154.c:325 | Trimming at `strcspn(comm, "\n")` gives the longest newline-free prefix. The character after it, if any, is the newline. |
| Snapshot.IndexOf | proctree_Jill_Patel_110176154.c:149-154 | Scanning from `from` (0 for find_proc_index), the result is -1 or an index whose pid matches, and no index between `from` and it matches. |
| Snapshot.InSubtreeIffReaches | proctree_Jill_Patel_110176154.c:163-170 | The target is in the root's subtree exactly when some number of ppid hops from the target reaches the root. |
| Snapshot.DepthIsFirstHit | proctree_Jill_Patel_110176154.c:173-181 | A non-negative depth d is the first number of hops that reaches the root, and no value ≤ 0 is passed on the way. The depth is -1 exactly when the root is never reached. |
| Snapshot.InSubtreeIffDepth | proctree_Jill_Patel_110176154.c:163-181 | `check_process_at_root` holds exactly when `handle_dpt` is not -1. |
| Snapshot.InSubtreeTransitive | proctree_Jill_Patel_110176154.c:163-170 | Subtree membership is transitive. |
| Snapshot.ParentLower | proctree_Jill_Patel_110176154.c:157-160 | Under the well-foundedness premise, each hop from a positive pid strictly lowers the height. |
| Snapshot.ShellAncestryIffHop | proctree_Jill_Patel_110176154.c:639-647 | `is_bash_subtree(p)` holds exactly when some positive pid on p's ancestor chain, p included, is a present record whose command contains "bash". |
| Tree.IndexOfUnique | proctree_Jill_Patel_110176154.c:149-154 | With distinct pids, looking up a record's pid returns that record's index. |
| Tree.RankBoundAbove | proctree_Jill_Patel_110176154.c:187-207 | Every record's rank lies below the bound that measures the collector's recursion. |
| Tree.LinkedRises | proctree_Jill_Patel_110176154.c:193-205 | Each index the collector descends into has a higher rank than the index it came from, or is the excluded record itself. |
| Tree.WalkInRange | proctree_Jill_Patel_110176154.c:187-207 | Every index the collector visits is a table index. |
| Tree.WalkHasLinked | proctree_Jill_Patel_110176154.c:193-205 | Every record the scan links at or after the current position is visited. |
| Tree.WalkClosed | proctree_Jill_Patel_110176154.c:204 | The visited set is closed under "is a child of a visited record". |
| Tree.WalkBelow | proctree_Jill_Patel_110176154.c:187-207 | Every visited record is in the start record's subtree and ranks strictly above it. |
| Tree.WalkComplete | proctree_Jill_Patel_110176154.c:187-207 | Every proper descendant of the start record is visited. |
| Tree.WalkIsDescendants | proctree_Jill_Patel_110176154.c:187-207 | With distinct positive pids, an index is visited exactly when it is a proper descendant of the start record. |
| Store.Captured | proctree_Jill_Patel_110176154.c:87-146 | The scan keeps at most one record per directory entry. |
| Store.ProcList.Create | proctree_Jill_Patel_110176154.c:42-57 | A new list is empty, with capacity 1024. |
| Store.CreateProcList | proctree_Jill_Patel_110176154.c:42-57 | A list is returned exactly when the allocation succeeds. It is then fresh and empty, with capacity 1024. |
| Store.ProcList.Expand | proctree_Jill_Patel_110176154.c:60-76 | Below capacity: success, nothing changes. Full: the result is the reallocation's success. On success the capacity doubles and the records are kept. On failure the list is untouched. |
| Store.ProcList.ScanProcfs | proctree_Jill_Patel_110176154.c:87-146 | If the directory does not open, the list is unchanged. Otherwise the records are those captured from a prefix of the entries. When no reallocation fails, that prefix is all of them. |
| Store.ProcList.StoreEntry | proctree_Jill_Patel_110176154.c:100-143 | A readable entry appends its record after the existing ones. Any other entry adds nothing. The array and capacity stay as they were. |
| Store.ProcList.InitList | hello.c:51-55 | A new list is empty, with capacity 16. |
| Store.ProcList.AddToList | hello.c:56-62 | The new records are the old ones followed by `info`. The capacity doubles exactly when the list was full. |
| Store.ProcList.FreeList | hello.c:63-67 | The list is left with no items, count 0 and capacity 0. |
| Extrema.FirstMinIsFirstLeast | proctree_Jill_Patel_110176154.c:250-256 | The minimum scan's choice has the least key, and every earlier key is strictly larger, so ties keep the first. |
| Extrema.FirstMaxIsFirstGreatest | proctree_Jill_Patel_110176154.c:250-260 | The maximum scan's choice has the greatest key, and every earlier key is strictly smaller. |
| Extrema.MaxOrZero | proctree_Jill_Patel_110176154.c:574-584 | The result is at least 0 and at least every key. It is 0 or one of the keys. |
| Extrema.ExchangeStep | proctree_Jill_Patel_110176154.c:505-511 | One compare-and-swap of the selection sort keeps the multiset and the sorted prefix, and extends the "least so far" position by one. |
| Extrema.ExtendSorted | proctree_Jill_Patel_110176154.c:504-512 | Placing the least remaining start time at position i extends the sorted prefix to i + 1. |
| Navigator.FindProcIndex | proctree_Jill_Patel_110176154.c:149-154 | The loop returns the first index with the pid, or -1. |
| Navigator.GetPpid | proctree_Jill_Patel_110176154.c:157-160 | Returns the record's ppid, or -1 when the pid is absent. |
| Navigator.CheckProcessAtRoot | proctree_Jill_Patel_110176154.c:163-170 | The loop's answer is subtree membership. |
| Navigator.HandleDpt | proctree_Jill_Patel_110176154.c:173-181 | The loop's answer is the depth: 0 for the root itself, -1 when a value ≤ 0 comes first. |
| Navigator.IsBashSubtree | proctree_Jill_Patel_110176154.c:639-647 | The loop's answer is shell ancestry. |
| Navigator.CollectedInRange | proctree_Jill_Patel_110176154.c:187-207 | Every buffered index is a table index. |
| Navigator.Descendants.Init | proctree_Jill_Patel_110176154.c:184-186 | The buffer starts empty with capacity 0, and the oldest / newest records start zeroed. |
| Navigator.Descendants.Append | proctree_Jill_Patel_110176154.c:194-201 | The contents gain the index at the end. The capacity grows to 256 entries from none, or doubles, when full. |
| Navigator.Descendants.CollectDescendants | proctree_Jill_Patel_110176154.c:187-207 | As written: because of the reset on entry, every call returns with `desc_count == 0`. |
| Navigator.ResetLosesChild | proctree_Jill_Patel_110176154.c:188 | For init with one child, the correct visit is that child, while the as-written collector empties the buffer. |
| Navigator.Descendants.CollectAppend | proctree_Jill_Patel_110176154.c:193-205 | The collector without the reset appends exactly `Walk`. |
| Navigator.Descendants.Collect | proctree_Jill_Patel_110176154.c:187-207 | Corrected collector: reset once, then the contents are exactly `Walk`, the proper descendants. |
| Navigator.Descendants.FindOldestNewest | proctree_Jill_Patel_110176154.c:241-265 | An empty buffer leaves oldest / newest untouched. Otherwise they are the first buffered records of least / greatest start time. |
| Navigator.Descendants.ScanExtremes | proctree_Jill_Patel_110176154.c:245-261 | Starting from the first entry, the two scans settle on the first entry of least start time and the first of greatest start time. |
| Navigator.Descendants.SortByStart | proctree_Jill_Patel_110176154.c:504-512 | The buffer is left as a permutation of itself, in non-decreasing start-time order. |
| Navigator.Descendants.PlaceMinimum | proctree_Jill_Patel_110176154.c:505-511 | One pass of the outer loop puts a least remaining start time at position i, keeping the multiset and the prefix. |
| Navigator.Descendants.OrderPair | proctree_Jill_Patel_110176154.c:506-510 | Swaps positions i and j exactly when j's start time is smaller, leaving i's at most j's. |
| Queries.AtLevelMembers | proctree_Jill_Patel_110176154.c:216-229 | An index is counted by `handle_lvl` exactly when its pid is not the root and its depth from the root equals the given depth. |
| Queries.AtLevelMember | proctree_Jill_Patel_110176154.c:223-227 | For one index: it is counted exactly when it is in range, its pid is not the root, and its depth is the given one. |
| Queries.LevelHasTarget | proctree_Jill_Patel_110176154.c:216-229 | A present target other than the root is counted on its own level, so the count is at least 1. |
| Queries.HandleLvl | proctree_Jill_Patel_110176154.c:216-229 | The loop's count is the number of non-root records on the target's level. |
| Queries.SameLevel | proctree_Jill_Patel_110176154.c:224-226 | Record i counts exactly when its pid is not the root and its depth from the root equals the target's. |
| Queries.HandleCnt | proctree_Jill_Patel_110176154.c:232-236 | As written: prints 0. |
| Queries.CountDescendants | proctree_Jill_Patel_110176154.c:232-236 | Corrected: the number of proper descendants visited. |
| Queries.ReportExtreme | proctree_Jill_Patel_110176154.c:271-281 | "No descendants" exactly when the buffer is empty. Otherwise the reported record is the first of least / greatest start time. |
| Queries.HandleOdtNdt | proctree_Jill_Patel_110176154.c:268-294 | As written: always "No descendants". |
| Queries.ExtremeDescendant | proctree_Jill_Patel_110176154.c:268-294 | Corrected: None exactly when there are no descendants. Otherwise the earliest or latest of the visited records. |
| Queries.EarliestIsOldestDescendant | proctree_Jill_Patel_110176154.c:268-282 | The reported oldest record is a proper descendant whose start time is at most every descendant's. |
| Queries.LatestIsNewestDescendant | proctree_Jill_Patel_110176154.c:285-294 | The reported newest record is a proper descendant whose start time is at least every descendant's. |
| Queries.DirectSplit | proctree_Jill_Patel_110176154.c:301-309 | Direct plus indirect entries are all the entries, so the non-direct count is never negative. |
| Queries.NonDirect | proctree_Jill_Patel_110176154.c:301-310 | The loop's answer is the number of buffered entries whose ppid is not the target. |
| Queries.HandleDnd | proctree_Jill_Patel_110176154.c:297-311 | As written: prints 0. |
| Queries.NonDirectDescendants | proctree_Jill_Patel_110176154.c:297-311 | Corrected: the number of proper descendants that are not children of the target. |
| Queries.MaxOver | proctree_Jill_Patel_110176154.c:574-596 | The loop's answer is the maximum over the buffer, or 0. |
| Queries.MaxOverStep | proctree_Jill_Patel_110176154.c:578-581 | One iteration extends the running maximum from the first i buffered entries to the first i + 1. |
| Queries.FindMax | proctree_Jill_Patel_110176154.c:574-596 | As written: 0. |
| Queries.TiesMembers | proctree_Jill_Patel_110176154.c:607-615 | A pid is listed exactly when its record is the target or in its subtree and uses exactly the maximum. |
| Queries.TiesHas | proctree_Jill_Patel_110176154.c:607-612 | Every scanned record in the target's subtree that uses exactly m has its pid listed. |
| Queries.TiesWitness | proctree_Jill_Patel_110176154.c:607-612 | Every listed pid belongs to a scanned record in the target's subtree that uses exactly m. |
| Queries.ListTies | proctree_Jill_Patel_110176154.c:607-615 | The loop lists those pids in table order. |
| Queries.ListTiesStep | proctree_Jill_Patel_110176154.c:608-611 | One iteration appends record i's pid exactly when it is in the subtree and uses m. |
| Queries.HandleMostUsage | proctree_Jill_Patel_110176154.c:599-636 | As written: the maximum is 0, and the records using 0 are listed. |
| Queries.MostUsage | proctree_Jill_Patel_110176154.c:599-636 | Corrected: the maximum over the proper descendants, and the listing at that maximum. |
| Queries.PositiveMaxListed | proctree_Jill_Patel_110176154.c:607-615 | A positive maximum is always listed at least once, so "No descendants" is not printed then. |
| Queries.CountsPartition | proctree_Jill_Patel_110176154.c:650-672 | The shell count and the other count together cover at most the records. They cover all of them when every pid is above 1 and is not the caller. |
| Queries.CountBcp | proctree_Jill_Patel_110176154.c:650-658 | The loop counts the records in a shell subtree other than the caller. |
| Queries.CountBcpStep | proctree_Jill_Patel_110176154.c:654-655 | One iteration adds record i exactly when it has shell ancestry and is not the caller. |
| Queries.CountBop | proctree_Jill_Patel_110176154.c:665-672 | The loop counts the records with pid above 1 outside every shell subtree. |
| Queries.CountBopStep | proctree_Jill_Patel_110176154.c:668-669 | One iteration adds record i exactly when it has no shell ancestry and its pid is above 1. |
| Queries.Admit | proctree_Jill_Patel_110176154.c:752-759 | Pids ≤ 0 are invalid. A target outside the root's subtree is refused. Otherwise the handler runs. |
| Queries.AdmittedPresent | proctree_Jill_Patel_110176154.c:759 | An admitted target has a non-negative depth, and is present unless it is the root. |
| Queries.ShowParent | proctree_Jill_Patel_110176154.c:720-731 | The three-argument mode prints the parent exactly when the target is in the root's subtree, and the printed value is its ppid. |
| Signals.CanKillIffSafe | proctree_Jill_Patel_110176154.c:314-332 | The gate approves exactly when the pid is not 1, the command name is readable, and "bash" occurs nowhere in its trimmed first 31 bytes. |
| Signals.Kernel.constructor | proctree_Jill_Patel_110176154.c:349-355 | The trace starts empty. |
| Signals.Kernel.Kill | proctree_Jill_Patel_110176154.c:351 | Each call appends one event. Its success is unknown. |
| Signals.SendsMembers | proctree_Jill_Patel_110176154.c:349 | An event is sent exactly when its pid is in the list, the gate approves it, and it carries the handler's signal. |
| Signals.SendsConcat | proctree_Jill_Patel_110176154.c:515-531 | Sending to a concatenation is sending to each part in turn. |
| Signals.SendsAreSafe | proctree_Jill_Patel_110176154.c:314-332 | No sent event targets init, an unreadable command or a shell. |
| Signals.KinMembers | 1.c:333 | The listed pids are exactly those of records with the given ppid, minus the excluded pid. |
| Signals.ChildIdxMembers | 1.c:421 | The child indices are exactly those with ppid equal to the target. |
| Signals.GrandKinMembers | 1.c:382-401 | The grandchild pids are exactly those of records whose ppid is one of the listed children's pids. |
| Signals.GrandchildrenOfTarget | proctree_Jill_Patel_110176154.c:433-476 | A pid is a grandchild exactly when its record's parent is a record whose ppid is the target. |
| Signals.BufferPidsMembers | 1.c:486-492 | The pids signalled from the buffer are the buffered records' pids, restricted to state 'T' when resuming. |
| Signals.SignalOne | proctree_Jill_Patel_110176154.c:349-356 | The trace gains exactly the gated send to that pid. |
| Signals.SignalKin | proctree_Jill_Patel_110176154.c:384-396 | The trace gains the gated sends to the selected kin, in table order. |
| Signals.HandleKgp | proctree_Jill_Patel_110176154.c:335-357 | No parent or no grandparent gives the message and no send. Otherwise only the grandparent is gated and sent SIGKILL. |
| Signals.HandleKpp | proctree_Jill_Patel_110176154.c:360-374 | No parent gives the message. Otherwise only the parent is gated and sent SIGKILL. |
| Signals.HandleKsp | proctree_Jill_Patel_110176154.c:377-399 | No parent gives the message and no send. Otherwise the siblings (the parent's children other than the target) are gated and killed in table order. |
| Signals.HandleKps | proctree_Jill_Patel_110176154.c:402-430 | A missing parent or grandparent gives "No grandparent". Otherwise the parent's siblings are gated and killed in table order. |
| Signals.ChildrenOf | proctree_Jill_Patel_110176154.c:440-455 | The collected indices are those of the target's children, in table order. |
| Signals.SignalGrandchildren | proctree_Jill_Patel_110176154.c:457-474 | The trace gains the gated sends to each child's children, child by child. |
| Signals.SignalGrandchildrenStep | proctree_Jill_Patel_110176154.c:458-473 | One iteration appends the gated SIGKILLs to child c's children. |
| Signals.HandleKgc | proctree_Jill_Patel_110176154.c:433-476 | The trace gains the gated SIGKILLs to the target's grandchildren. |
| Signals.HandleKcp | proctree_Jill_Patel_110176154.c:479-495 | The trace gains the gated SIGKILLs to the target's children. |
| Signals.HandleKrp | proctree_Jill_Patel_110176154.c:562-571 | The trace gains the gated SIGKILL to the root. |
| Signals.SignalBuffer | proctree_Jill_Patel_110176154.c:538-558 | The trace gains the gated sends to the buffered pids, restricted to state 'T' when resuming. |
| Signals.SignalBufferStep | proctree_Jill_Patel_110176154.c:538-558 | One iteration appends the gated send to entry i's pid, skipped when resuming and the record is not in state 'T'. |
| Signals.KillInCreationOrder | proctree_Jill_Patel_110176154.c:504-531 | The buffer ends sorted by start time as a permutation of itself, and the sends follow that order. |
| Signals.HandleKst | proctree_Jill_Patel_110176154.c:498-532 | As written: nothing is sent. |
| Signals.KillSubtree | proctree_Jill_Patel_110176154.c:498-532 | Corrected: the buffer is a permutation of the proper descendants, sorted by start time, and they are gated and killed in that order. |
| Signals.HandleDstDct | proctree_Jill_Patel_110176154.c:535-559 | As written: nothing is sent. |
| Signals.StopOrResume | proctree_Jill_Patel_110176154.c:535-559 | Corrected: SIGSTOP to every gated descendant, or SIGCONT to every gated descendant in state 'T'. |
| EarlierCopy.NonDirectFloored | 1.c:254-261 | The floored value is the number of buffered non-children, because the floor never applies. |
| EarlierCopy.HandleDnd | 1.c:251-262 | As written: prints 0. |
| EarlierCopy.RoleIgnored | 1.c:265-283 | The role-taking gate decides as the final gate does, whatever the role. |
| EarlierCopy.HandleKps | 1.c:349-372 | A missing parent returns silently. A missing grandparent prints "No grandparent". Otherwise the parent's siblings are gated and killed. |
| Draft.FindProcIndex | hello.c:79-84 | The first index below `num_procs` with the pid, or -1. |
| Draft.GetPpid | hello.c:87-91 | That record's ppid, or -1. |
| Draft.CheckProcessAtRoot | hello.c:94-101 | True exactly when the root is met before 0 or 1. False for targets 0 and 1. |
| Draft.NegativeNeverStops | hello.c:96-98 | With positive pids, a walk that reaches -1 never meets 0, 1 or a non-negative root again. |
| Draft.ReachesInSubtree | hello.c:94-101 | For roots above 1, a target the draft accepts is in the root's subtree. |
| Draft.InitRootRefused | hello.c:96 | With root 1 the draft refuses init's own child, which the final check accepts. |
| Draft.WalkCoversChildren | hello.c:115-122 | The collected list is at least as long as the target's child list. |
| Draft.WalkRecordsLinked | hello.c:115-122 | Every record collected from the j-th link of p on is the record at the end of a child-link path from p whose first step is one of links j and on. |
| Draft.WalkCoversReachable | hello.c:115-122 | Conversely, the record at the end of every such child-link path is collected. |
| Draft.WalkIsReachable | hello.c:115-122 | A record is collected from p exactly when it belongs to an index reachable from p along one or more child links. |
| Draft.CollectDescendants | hello.c:115-122 | The list gains exactly the depth-first pre-order walk along the child lists, each child before its own subtree. |
| Draft.HandleDnd | hello.c:207-226 | "Not found" exactly when the target is missing. Otherwise the collected count minus the child-list length, which is never negative, so the floor never changes it. |
| Draft.Extreme | hello.c:161-172 | Empty gives "No descendants". Otherwise the first record of least start time (oldest scan, `<`) or greatest start time (newest scan, `>`). |
| Draft.HandleNdt | hello.c:182-204 | None exactly when nothing is collected. Otherwise the first collected record of greatest start time. |

## Findings

| source | as written | input that shows it | evidently intended | confidence | as-written member | corrected member |
|---|---|---|---|---|---|---|
| proctree_Jill_Patel_110176154.c:188 | `collect_descendants` sets `desc_count = 0` on every entry, including the recursive call at :204, so each call wipes what its caller appended; 1.c:158 does the same | records init (pid 1, ppid 0) and pid 2 (ppid 1), target 1: the buffer should hold pid 2, but `desc_count` is 0 on return, so `-cnt` prints 0 and `-odt`/`-ndt` print "No descendants" | reset once, in the outermost call, then append every proper descendant | not executed | Navigator.Descendants.CollectDescendants, Navigator.ResetLosesChild | Navigator.Descendants.Collect, Tree.WalkIsDescendants |

Every handler that reads the buffer exists in both forms:
- as written over `CollectDescendants`: `Queries.HandleCnt`, `Queries.HandleOdtNdt`, `Queries.HandleDnd`, `Queries.HandleMostUsage`, `Signals.HandleKst`, `Signals.HandleDstDct`, `EarlierCopy.HandleDnd`;
- corrected over `Collect`: `Queries.CountDescendants`, `Queries.ExtremeDescendant`, `Queries.NonDirectDescendants`, `Queries.MostUsage`, `Signals.KillSubtree`, `Signals.StopOrResume`.

### Behaviour worth noting

- The subtree kill's selection sort is not stable. Equal start times can change their relative order: keys 2a, 2b, 1 end as 1, 2b, 2a. Only sortedness and permutation are claimed.
- Oldest and newest keep the first buffer entry of an extreme start time (strict `<` and `>`).
- Records are not de-duplicated by pid. Uniqueness is an explicit premise only where a lemma needs it (`Tree.WalkIsDescendants`).
- The most-memory / most-CPU listings include the target itself and any record in its subtree, not just proper descendants. The maximum, however, is taken over the proper descendants only.

### 1.c compared with the final program

- `handle_dnd` floors the printed value at 0.
- `can_kill_process` takes a role label it never reads.
- `handle_kps` returns silently when the target has no parent.
- `main` at 1.c:668 matches `arguments[1]` against the option table.

Everything else is the same code, modelled once.

### hello.c compared with the final program

hello.c uses a global fixed table plus per-index child lists. Its subtree check stops at 0 and 1. Its collector's pre-order along the child lists visits each child before its own subtree.

## Left out

- The /proc scan's I/O (`opendir`, `readdir`, `fopen`, `fscanf`, VmRSS parsing). Each directory entry is an abstract `DirEntry` that either yields a record or is skipped.
- The creation time from `time(NULL)`. It is an uninterpreted field.
- `kill` itself. It is a trace event with a nondeterministic result. The "terminated" / "failed" messages are not modelled.
- The read of `/proc/<pid>/comm`. It is the `comms` parameter.
- `getpid()`. It is the `self` parameter of `Queries.CountBcp`.
- All `printf` text and the `localtime` / `strftime` formatting.
- CLI dispatch in `main`: `atoi`, `strcmp` and the option tables. Only the gate before the handlers is modelled (`Queries.Admit`), along with the three-argument mode (`Queries.ShowParent`). That leaves out:
  - 1.c's matching of `arguments[1]` against the option table at 1.c:668, whose root then comes from `atoi` of the option and is 0;
  - 1.c's missing pid ≤ 0 gate.
- Reallocation failure inside `collect_descendants` and `handle_kgc`. Both collectors take success for granted, and `handle_kgc`'s child array is a sequence.
- Store.ProcList.AddToList: the draft's `add_to_list` does not check its `realloc` (hello.c:59), so the model takes the reallocation to succeed every time.
- `free_proclist` and the final `free(descendants)`. They release memory only.
- Integer widths. Pids, counts, `long` and `unsigned long` are unbounded, and no `count * 2` overflow is modelled.
- Out-of-range indexing. Handlers that index `items[find_proc_index(...)]` without a -1 check require the target to be present. Together with the gate, this leaves out a root that is absent when target == root.
- The compile error in 1.c: `oldest_desc` is used at 1.c:217 before its declaration at 1.c:221.
- The non-compiling or stub parts of hello.c:
  - `handle_dpt` (hello.c:104-112);
  - `handle_cnt` with the undeclared `target` (hello.c:148-154);
  - `handle_lvl` and `collect_all_in_tree`, which appends an uninitialised record (hello.c:123-147);
  - the empty `handle_kgp`, `handle_kpp`, `handle_bcp` and `handle_bop`;
  - `main`'s zero-argument calls.
- The rest of the draft's `handle_odt`, which passes a pid where an index is expected (hello.c:160). Only its scan is modelled (`Draft.Extreme`).
- a2sampletree.c. It is a `fork` / `sleep` demonstration with nothing to model.
- `fgets` on an empty comm file, which leaves the buffer unset. The model treats the contents as the empty line.
- Navigator.Descendants.CollectDescendants: states only the final count (0) and the buffer's frame, not which slot holds the last visited index.
- Tree.WalkIsDescendants: the walk is proved to hold exactly the proper descendants as a set, but not to be free of duplicates.
