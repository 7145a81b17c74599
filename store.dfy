/**
 * The growable record store `ProcList` (items, count, capacity), its
 * constructors and growth, the store step of the /proc scan, and the list
 * helpers of the draft program (init_list, add_to_list, free_list), which
 * work on the same structure.
 */
module Store {
  import opened Records

  /** INITIAL_CAPACITY of create_proclist. */
  const InitialCapacity: int := 1024

  /** The capacity init_list starts a list with. */
  const DraftInitialCapacity: int := 16

  /**
   * What one directory entry of /proc yields: a name that is not a positive
   * number, a process whose stat file cannot be opened or parsed (it may
   * have exited meanwhile), or the record read from its stat and status files.
   */
  datatype DirEntry = NotAPid | Unreadable | Stat(info: ProcInfo)

  /** The records a sequence of directory entries contributes, in directory order. */
  function Captured(entries: seq<DirEntry>): (r: seq<ProcInfo>)
    ensures |r| <= |entries|
  {
    if entries == [] then []
    else
      Captured(entries[..|entries| - 1]) +
      match entries[|entries| - 1]
      case Stat(info) => [info]
      case _ => []
  }

  /** Capturing one more entry appends what that entry contributes. */
  lemma CapturedStep(entries: seq<DirEntry>, i: nat)
    requires i < |entries|
    ensures Captured(entries[..i + 1]) == Captured(entries[..i]) + Captured([entries[i]])
  {
    assert entries[..i + 1][..i] == entries[..i];
    assert [entries[i]][..0] == [];
  }

  class ProcList {
    var items: array<ProcInfo>
    var count: int
    var capacity: int

    ghost predicate Valid()
      reads this
    {
      0 <= count <= capacity && capacity == items.Length
    }

    /** The snapshot the list holds: its first `count` items. */
    ghost function Records(): seq<ProcInfo>
      reads this, items
      requires Valid()
    {
      items[..count]
    }

    /** create_proclist when both allocations succeed. */
    constructor Create()
      ensures Valid() && fresh(items)
      ensures count == 0 && capacity == InitialCapacity
    {
      items := new ProcInfo[InitialCapacity];
      count := 0;
      capacity := InitialCapacity;
    }

    /** init_list of the draft program. */
    constructor InitList()
      ensures Valid() && fresh(items)
      ensures count == 0 && capacity == DraftInitialCapacity
    {
      items := new ProcInfo[DraftInitialCapacity];
      count := 0;
      capacity := DraftInitialCapacity;
    }

    /**
     * expand_proclist: nothing to do while there is room; otherwise double the
     * capacity, keeping every item, or, when the reallocation fails, report 0
     * and leave the list as it was.
     */
    method Expand(reallocOk: bool) returns (ok: bool)
      requires Valid()
      modifies this
      ensures Valid() && count == old(count)
      ensures old(count) < old(capacity) ==> ok && capacity == old(capacity) && items == old(items)
      ensures old(count) >= old(capacity) ==> ok == reallocOk
      ensures ok && old(count) >= old(capacity) ==>
        capacity == 2 * old(capacity) && fresh(items) && items[..old(capacity)] == old(items[..])
      ensures !ok ==> capacity == old(capacity) && items == old(items)
      ensures Records() == old(Records())
      ensures ok && old(capacity) > 0 ==> count < capacity
    {
      if count < capacity {
        return true;
      }
      var newCapacity := capacity * 2;
      if !reallocOk {
        return false;
      }
      var newItems := new ProcInfo[newCapacity];
      forall k | 0 <= k < capacity {
        newItems[k] := items[k];
      }
      items := newItems;
      capacity := newCapacity;
      return true;
    }

    /**
     * scanprocfs over a given listing of /proc: when the directory cannot be
     * opened nothing changes; otherwise the list is emptied and, for each
     * entry while expand_proclist succeeds, a readable process is appended.
     * `reallocOk[i]` is the outcome of the reallocation expand_proclist would
     * attempt at entry i.
     */
    method ScanProcfs(dirOpened: bool, entries: seq<DirEntry>, reallocOk: seq<bool>)
      requires Valid() && capacity > 0 && |reallocOk| == |entries|
      modifies this, items
      ensures Valid() && capacity > 0
      ensures !dirOpened ==> count == old(count) && items == old(items) && items[..] == old(items[..])
      ensures dirOpened ==> exists n :: 0 <= n <= |entries| && Records() == Captured(entries[..n])
      ensures dirOpened && (forall i :: 0 <= i < |reallocOk| ==> reallocOk[i]) ==>
        Records() == Captured(entries)
    {
      if !dirOpened {
        return;
      }
      count := 0;
      var i := 0;
      var stopped := false;
      while i < |entries| && !stopped
        invariant 0 <= i <= |entries|
        invariant Valid() && capacity > 0
        invariant Records() == Captured(entries[..i])
        invariant stopped ==> i < |entries| && !reallocOk[i]
        invariant fresh(items) || items == old(items)
        decreases |entries| - i, if stopped then 0 else 1
      {
        ghost var before := Records();
        var ok := Expand(reallocOk[i]);
        if !ok {
          stopped := true;
        } else {
          StoreEntry(entries[i], before);
          CapturedStep(entries, i);
          i := i + 1;
        }
      }
      assert entries[..|entries|] == entries;
    }

    /** The store step of the scan: a readable entry's record goes after the existing items. */
    method StoreEntry(entry: DirEntry, ghost before: seq<ProcInfo>)
      requires Valid() && count < capacity && Records() == before
      modifies this, items
      ensures Valid() && items == old(items) && capacity == old(capacity)
      ensures Records() == before + Captured([entry])
    {
      if entry.Stat? {
        items[count] := entry.info;
        count := count + 1;
      }
    }

    /**
     * add_to_list of the draft program: when the list is full, double the
     * capacity (the reallocation is not checked for failure), then store
     * `info` after the existing items.
     */
    method AddToList(info: ProcInfo)
      requires Valid() && capacity > 0
      modifies this, items
      ensures Valid()
      ensures Records() == old(Records()) + [info]
      ensures capacity == if old(count) >= old(capacity) then 2 * old(capacity) else old(capacity)
      ensures fresh(items) || items == old(items)
    {
      if count >= capacity {
        var newItems := new ProcInfo[capacity * 2];
        forall k | 0 <= k < capacity {
          newItems[k] := items[k];
        }
        items := newItems;
        capacity := capacity * 2;
      }
      items[count] := info;
      count := count + 1;
    }

    /** free_list of the draft program: no items, count and capacity 0. */
    method FreeList()
      modifies this
      ensures Valid() && count == 0 && capacity == 0 && items.Length == 0
    {
      items := new ProcInfo[0];
      count := 0;
      capacity := 0;
    }
  }

  /** create_proclist: NULL when an allocation fails, otherwise an empty list of capacity 1024. */
  method CreateProcList(mallocOk: bool) returns (list: ProcList?)
    ensures list != null <==> mallocOk
    ensures list != null ==> fresh(list) && fresh(list.items) && list.Valid()
    ensures list != null ==> list.count == 0 && list.capacity == InitialCapacity
  {
    if !mallocOk {
      return null;
    }
    list := new ProcList.Create();
  }
}
