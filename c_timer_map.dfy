/** The Win32 timer map of the C layer: a singly linked list of timer
    entries, reached from the global `timer_map`, that links a Win32 timer
    id to the dispatch record to run when the timer fires. The list is a
    chain of `TimerEntry` objects; the ghost sequence `nodes` names them in
    list order, and `freed` collects the entries handed to `free`. */
module TimerMap {
  import opened Wrappers
  import opened Dispatch

  /** `bw_ApplicationTimerMapEntry`. */
  class TimerEntry {
    var next: TimerEntry?
    const timerId: nat
    const record: DispatchData

    constructor (timerId: nat, record: DispatchData)
      ensures this.timerId == timerId && this.record == record && next == null
    {
      this.timerId := timerId;
      this.record := record;
      next := null;
    }
  }

  /** What an entry stands for: a timer id and its dispatch record. */
  datatype Timer = Timer(id: nat, record: DispatchData)

  ghost function Contents(nodes: seq<TimerEntry>): (ts: seq<Timer>)
    ensures |ts| == |nodes|
    ensures forall i :: 0 <= i < |nodes| ==> ts[i] == Timer(nodes[i].timerId, nodes[i].record)
  {
    if |nodes| == 0 then []
    else Contents(nodes[..|nodes| - 1]) + [Timer(nodes[|nodes| - 1].timerId, nodes[|nodes| - 1].record)]
  }

  function Ids(ts: seq<Timer>): (ids: seq<nat>)
    ensures |ids| == |ts| && forall i :: 0 <= i < |ts| ==> ids[i] == ts[i].id
  {
    if |ts| == 0 then [] else Ids(ts[..|ts| - 1]) + [ts[|ts| - 1].id]
  }

  /** The position of the first timer with the given id: the reference
      that a lookup in the map should agree with. */
  function IndexOf(ids: seq<nat>, id: nat): (r: Option<nat>)
    ensures r.None? <==> id !in ids
    ensures r.Some? ==> r.value < |ids| && ids[r.value] == id && id !in ids[..r.value]
  {
    if |ids| == 0 then None
    else if ids[0] == id then Some(0)
    else match IndexOf(ids[1..], id)
      case None => None
      case Some(k) =>
        assert ids[..k + 1] == [ids[0]] + ids[1..][..k];
        Some(k + 1)
  }

  /** `IndexOf` is the only position that is the first occurrence. */
  lemma {:induction false} IndexOfFirst(ids: seq<nat>, id: nat, k: nat)
    requires k < |ids| && ids[k] == id
    requires forall j :: 0 <= j < k ==> ids[j] != id
    ensures IndexOf(ids, id) == Some(k)
  {
    if k > 0 {
      IndexOfFirst(ids[1..], id, k - 1);
    }
  }

  /** The entries of a list, as a set. */
  ghost function NodeSet(ns: seq<TimerEntry>): (r: set<TimerEntry>)
    ensures forall i :: 0 <= i < |ns| ==> ns[i] in r
    ensures forall x :: x in r ==> x in ns
  {
    if |ns| == 0 then {} else NodeSet(ns[..|ns| - 1]) + {ns[|ns| - 1]}
  }

  /** What the lookup loop of `bw_ApplicationWin32_findInTimerMap` does:
      it tests the head entry and, since `entry` is never advanced, either
      returns at once or spins forever. */
  datatype FindOutcome = Returns(index: Option<nat>) | Hangs

  function FindAsWritten(ids: seq<nat>, id: nat): (r: FindOutcome)
    ensures |ids| == 0 ==> r == Returns(None)
  {
    if |ids| == 0 then Returns(None)
    else if ids[0] == id then Returns(Some(0))
    else if |ids| == 1 then Returns(None)
    else Hangs
  }

  /** As written, the lookup agrees with `IndexOf` exactly when the map has
      at most one entry or the id is the head's; otherwise it never
      returns. */
  lemma FindAsWrittenHangsIff(ids: seq<nat>, id: nat)
    ensures FindAsWritten(ids, id) == Hangs <==> (|ids| >= 2 && ids[0] != id)
    ensures FindAsWritten(ids, id) != Hangs ==> FindAsWritten(ids, id) == Returns(IndexOf(ids, id))
  {
    if |ids| == 1 && ids[0] != id {
      assert ids == [ids[0]];
    }
  }

  /** The smallest case: the second of two timers is never found. */
  lemma FindAsWrittenMissesSecond()
    ensures FindAsWritten([1, 2], 2) == Hangs
    ensures IndexOf([1, 2], 2) == Some(1)
  {
    IndexOfFirst([1, 2], 2, 1);
  }

  /** Each entry's `next` is the entry after it, the last one's is NULL. */
  ghost predicate Linked(ns: seq<TimerEntry>)
    reads ns
  {
    forall i {:trigger ns[i]} :: 0 <= i < |ns| ==> ns[i].next == (if i + 1 < |ns| then ns[i + 1] else null)
  }

  ghost predicate Distinct(ns: seq<TimerEntry>) {
    forall i, j :: 0 <= i < j < |ns| ==> ns[i] != ns[j]
  }

  ghost predicate Disjoint(ns: seq<TimerEntry>, freed: set<TimerEntry>) {
    forall i :: 0 <= i < |ns| ==> ns[i] !in freed
  }

  /** The list with the entry at `k` taken out. */
  ghost function Without(ns: seq<TimerEntry>, k: nat): (r: seq<TimerEntry>)
    requires k < |ns|
    ensures |r| == |ns| - 1
    ensures forall j :: 0 <= j < k ==> r[j] == ns[j]
    ensures forall j :: k <= j < |r| ==> r[j] == ns[j + 1]
  {
    ns[..k] + ns[k + 1..]
  }

  lemma WithoutKeepsDistinct(ns: seq<TimerEntry>, k: nat)
    requires k < |ns| && Distinct(ns)
    ensures Distinct(Without(ns, k))
  {
    var r := Without(ns, k);
    forall a, b | 0 <= a < b < |r|
      ensures r[a] != r[b]
    {
      var a', b' := if a < k then a else a + 1, if b < k then b else b + 1;
      assert r[a] == ns[a'] && r[b] == ns[b'];
    }
  }

  lemma WithoutFreed(ns: seq<TimerEntry>, freed: set<TimerEntry>, k: nat)
    requires k < |ns| && Distinct(ns) && Disjoint(ns, freed)
    ensures Disjoint(Without(ns, k), freed + {ns[k]})
  {
    var r := Without(ns, k);
    forall j | 0 <= j < |r|
      ensures r[j] !in freed + {ns[k]}
    {
      var j' := if j < k then j else j + 1;
      assert r[j] == ns[j'];
    }
  }

  /** Taking an entry out leaves only entries that were there. */
  lemma WithoutListed(ns: seq<TimerEntry>, k: nat)
    requires k < |ns|
    ensures forall i :: 0 <= i < |Without(ns, k)| ==> Without(ns, k)[i] in ns
  {
    var r := Without(ns, k);
    forall i | 0 <= i < |r|
      ensures r[i] in ns
    {
      assert r[i] == ns[if i < k then i else i + 1];
    }
  }

  /** A released entry is not on the list. */
  lemma FreedNotListed(ns: seq<TimerEntry>, freed: set<TimerEntry>, e: TimerEntry)
    requires Disjoint(ns, freed) && e in freed
    ensures e !in ns
  {
  }

  lemma AppendKeepsDistinct(ns: seq<TimerEntry>, e: TimerEntry)
    requires Distinct(ns) && e !in ns
    ensures Distinct(ns + [e])
  {
  }

  lemma AppendFreed(ns: seq<TimerEntry>, freed: set<TimerEntry>, e: TimerEntry)
    requires Disjoint(ns, freed) && e !in freed
    ensures Disjoint(ns + [e], freed)
  {
  }

  /** The list held by the global `timer_map`. */
  class TimerMap {
    var head: TimerEntry?
    ghost var nodes: seq<TimerEntry>
    ghost var freed: set<TimerEntry>

    /** `head` starts a NULL-terminated chain through exactly `nodes`, the
        entries are distinct and none of them has been freed. */
    ghost predicate Valid()
      reads this, nodes
    {
      (if |nodes| == 0 then head == null else head == nodes[0])
      && Linked(nodes) && Distinct(nodes) && Disjoint(nodes, freed)
    }

    /** The global starts out NULL. */
    constructor ()
      ensures Valid() && nodes == [] && freed == {}
    {
      head := null;
      nodes := [];
      freed := {};
    }

    /** `bw_ApplicationWin32_addToTimerMap`: a new entry with `next = 0` is
        linked after the last one, or becomes the map when it is empty. */
    method Add(timerId: nat, record: DispatchData)
      requires Valid()
      modifies this, nodes
      ensures Valid() && freed == old(freed)
      ensures |nodes| == |old(nodes)| + 1 && nodes[..|old(nodes)|] == old(nodes)
      ensures fresh(nodes[|old(nodes)|])
      ensures Contents(nodes) == Contents(old(nodes)) + [Timer(timerId, record)]
    {
      ghost var before := nodes;
      var e := new TimerEntry(timerId, record);
      if head != null {
        var entry := head;
        ghost var k := 0;
        while entry.next != null
          invariant 0 <= k < |nodes| && entry == nodes[k]
          decreases |nodes| - k
        {
          entry := entry.next;
          k := k + 1;
        }
        assert k == |nodes| - 1;
        entry.next := e;
        nodes := before + [e];
        forall j | 0 <= j < |nodes|
          ensures nodes[j].next == (if j + 1 < |nodes| then nodes[j + 1] else null)
        {
          if j < k {
            assert before[j] != entry;
          }
        }
      } else {
        head := e;
        nodes := [e];
      }
      AppendKeepsDistinct(before, e);
      AppendFreed(before, freed, e);
    }

    /** `bw_ApplicationWin32_findInTimerMap` with the walk advancing to the
        next entry: the first entry with the id, NULL when there is none. */
    method Find(timerId: nat) returns (e: TimerEntry?)
      requires Valid()
      ensures IndexOf(Ids(Contents(nodes)), timerId).None? ==> e == null
      ensures IndexOf(Ids(Contents(nodes)), timerId).Some? ==> e == nodes[IndexOf(Ids(Contents(nodes)), timerId).value]
    {
      ghost var ids := Ids(Contents(nodes));
      if head == null {
        return null;
      }
      var entry := head;
      ghost var k := 0;
      while entry.timerId != timerId
        invariant 0 <= k < |nodes| && entry == nodes[k]
        invariant forall j :: 0 <= j < k ==> ids[j] != timerId
        decreases |nodes| - k
      {
        if entry.next == null {
          assert k == |nodes| - 1;
          assert forall j :: 0 <= j < |ids| ==> ids[j] != timerId;
          return null;
        }
        entry := entry.next;
        k := k + 1;
      }
      IndexOfFirst(ids, timerId, k);
      return entry;
    }

    /** `bw_ApplicationWin32_removeFromTimerMap` with the predecessor
        relinked: the entry is unlinked and freed and the result is true;
        an entry that is not in the map leaves everything as it was. */
    method Remove(entry: TimerEntry?) returns (removed: bool, ghost k: nat)
      requires Valid()
      modifies this, nodes
      ensures Valid()
      ensures removed <==> entry in old(nodes)
      ensures removed ==> entry != null && freed == old(freed) + {entry}
      ensures removed ==> k < |old(nodes)| && old(nodes)[k] == entry && nodes == Without(old(nodes), k)
      ensures !removed ==> nodes == old(nodes) && freed == old(freed)
    {
      if head == null {
        return false, 0;
      }
      if head == entry {
        UnlinkHead();
        return true, 0;
      }
      var prev, i;
      prev, i, k := FindPrevious(entry);
      if i == null {
        return false, k;
      }
      Unlink(prev, k);
      return true, k;
    }

    /** The search of `Remove` past a head that is not `entry`: the entry
        before `entry` and `entry` itself at position `k`, or the last entry
        and NULL when `entry` is not in the map. */
    method FindPrevious(entry: TimerEntry?) returns (prev: TimerEntry, i: TimerEntry?, ghost k: nat)
      requires |nodes| > 0 && head == nodes[0] && Linked(nodes) && head != entry
      ensures 1 <= k <= |nodes| && prev == nodes[k - 1]
      ensures i == null ==> k == |nodes| && entry !in nodes
      ensures i != null ==> k < |nodes| && i == nodes[k] && i == entry
    {
      prev := head;
      i := prev.next;
      k := 1;
      while i != null && i != entry
        invariant 1 <= k <= |nodes| && prev == nodes[k - 1]
        invariant i == (if k < |nodes| then nodes[k] else null)
        invariant forall j :: 0 <= j < k ==> nodes[j] != entry
        decreases |nodes| - k
      {
        prev := i;
        i := i.next;
        k := k + 1;
      }
    }

    /** The head case of `Remove`: the map starts at the second entry and
        the first is freed. */
    method UnlinkHead()
      requires Valid() && head != null
      modifies this
      ensures Valid()
      ensures nodes == Without(old(nodes), 0)
      ensures freed == old(freed) + {old(nodes)[0]}
    {
      var entry := head;
      head := entry.next;
      WithoutKeepsDistinct(nodes, 0);
      WithoutFreed(nodes, freed, 0);
      freed := freed + {entry};
      nodes := Without(nodes, 0);
    }

    /** The relinking step of `Remove`: the successor of `prev`, at position
        `k`, is bypassed and freed. */
    method Unlink(prev: TimerEntry, ghost k: nat)
      requires Valid() && 1 <= k < |nodes| && prev == nodes[k - 1]
      modifies this, prev
      ensures Valid() && head == old(head)
      ensures nodes == Without(old(nodes), k)
      ensures freed == old(freed) + {old(nodes)[k]}
    {
      ghost var before := nodes;
      var i := prev.next;
      prev.next := i.next;
      freed := freed + {i};
      nodes := Without(before, k);
      WithoutKeepsDistinct(before, k);
      WithoutFreed(before, old(freed), k);
      forall j | 0 <= j < |nodes|
        ensures nodes[j].next == (if j + 1 < |nodes| then nodes[j + 1] else null)
      {
        if j < k - 1 {
          assert before[j] != prev;
        } else if j >= k {
          assert before[j + 1] != prev;
        }
      }
    }

    /** `bw_ApplicationWin32_removeFromTimerMap` as written. The head case
        unlinks the entry; for any later entry the loop assigns the local
        `prev` instead of `prev->next`, so the entry is freed while the list
        still reaches it, and the map no longer satisfies `Valid`. The
        source dereferences `timer_map` unconditionally, so it must not be
        NULL. */
    method RemoveAsWritten(entry: TimerEntry?) returns (removed: bool)
      requires Valid() && head != null
      modifies this
      ensures removed <==> entry in old(nodes)
      ensures entry == old(head) ==> Valid() && nodes == old(nodes)[1..] && freed == old(freed) + {entry}
      ensures entry in old(nodes)[1..] ==> nodes == old(nodes) && head == old(head) && entry in freed && !Valid()
      ensures !removed ==> nodes == old(nodes) && freed == old(freed) && Valid()
    {
      if head == entry {
        head := entry.next;
        freed := freed + {entry};
        nodes := nodes[1..];
        return true;
      }
      var prev := head;
      var i := prev.next;
      ghost var k := 1;
      while i != null
        invariant 1 <= k <= |nodes|
        invariant i == (if k < |nodes| then nodes[k] else null)
        invariant forall j :: 0 <= j < k ==> nodes[j] != entry
        invariant unchanged(this)
        decreases |nodes| - k
      {
        if i == entry {
          prev := i.next;
          freed := freed + {i};
          assert nodes[k] in freed;
          return true;
        }
        i := i.next;
        k := k + 1;
      }
      return false;
    }

    /** `bw_ApplicationWin32_freeTimerMap`: every entry's timer is killed,
        in list order, and every entry is freed. The global itself is not
        reset and keeps pointing at the freed head. */
    method Free() returns (killed: seq<nat>)
      requires Valid()
      modifies this
      ensures |killed| == |nodes| && forall j :: 0 <= j < |nodes| ==> killed[j] == nodes[j].timerId
      ensures nodes == old(nodes) && head == old(head)
      ensures freed == old(freed) + NodeSet(nodes)
    {
      var entry := head;
      killed := [];
      ghost var k := 0;
      while entry != null
        invariant 0 <= k <= |nodes|
        invariant entry == (if k < |nodes| then nodes[k] else null)
        invariant |killed| == k && forall j :: 0 <= j < k ==> killed[j] == nodes[j].timerId
        invariant unchanged(this)
        decreases |nodes| - k
      {
        var next := entry.next;
        killed := killed + [entry.timerId];
        entry := next;
        k := k + 1;
      }
      freed := freed + NodeSet(nodes);
    }
  }
}
