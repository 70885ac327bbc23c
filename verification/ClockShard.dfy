/** ClockCacheShard with every operation run to its end before the next: byte accounting, the eviction
    scan over the circular list, and the capacity limit. */
module ClockShard {
  import opened Common

  type Key = int

  /** A cache handle: key, charge and the flags word (in-cache bit, usage bit, reference count). */
  datatype Handle = Handle(key: Key, charge: nat, inCache: bool, usage: bool, refs: nat)

  /** In use; a handle that is not is in the recycle bin. */
  predicate InUse(x: Handle) {
    x.inCache || x.refs > 0
  }

  /** TryEvict() takes it out. */
  predicate Evictable(x: Handle) {
    x.inCache && !x.usage && x.refs == 0
  }

  predicate Unreferenced(x: Handle) {
    x.inCache && x.refs == 0
  }

  function Used(x: Handle): nat {
    if InUse(x) then x.charge else 0
  }

  function Pinned(x: Handle): nat {
    if x.refs > 0 then x.charge else 0
  }

  function TotalUsed(list: seq<Handle>): nat {
    if list == [] then 0 else TotalUsed(list[..|list| - 1]) + Used(list[|list| - 1])
  }

  function TotalPinned(list: seq<Handle>): nat {
    if list == [] then 0 else TotalPinned(list[..|list| - 1]) + Pinned(list[|list| - 1])
  }

  lemma {:induction false} UpdateTotals(list: seq<Handle>, h: nat, x: Handle)
    requires h < |list|
    ensures TotalUsed(list[h := x]) + Used(list[h]) == TotalUsed(list) + Used(x)
    ensures TotalPinned(list[h := x]) + Pinned(list[h]) == TotalPinned(list) + Pinned(x)
  {
    var n := |list| - 1;
    if h == n {
      assert list[h := x][..n] == list[..n];
    } else {
      UpdateTotals(list[..n], h, x);
      assert list[h := x][..n] == list[..n][h := x];
    }
  }

  lemma AppendTotals(list: seq<Handle>, x: Handle)
    ensures TotalUsed(list + [x]) == TotalUsed(list) + Used(x)
    ensures TotalPinned(list + [x]) == TotalPinned(list) + Pinned(x)
  {
    assert (list + [x])[..|list|] == list;
  }

  lemma {:induction false} UsedContains(list: seq<Handle>, i: nat)
    requires i < |list|
    ensures TotalUsed(list) >= Used(list[i])
  {
    if i < |list| - 1 {
      UsedContains(list[..|list| - 1], i);
    }
  }

  /** Pinned bytes are used bytes, and all of them once nothing unreferenced is cached. */
  lemma {:induction false} PinnedWithinUsed(list: seq<Handle>)
    ensures TotalPinned(list) <= TotalUsed(list)
    ensures (forall x | x in list :: !Unreferenced(x)) ==> TotalPinned(list) == TotalUsed(list)
  {
    if list != [] {
      PinnedWithinUsed(list[..|list| - 1]);
      assert list[|list| - 1] in list;
      assert forall x | x in list[..|list| - 1] :: x in list;
    }
  }

  lemma {:induction false} NoneUsed(list: seq<Handle>)
    requires forall x | x in list :: !InUse(x)
    ensures TotalUsed(list) == 0
  {
    if list != [] {
      NoneUsed(list[..|list| - 1]);
    }
  }

  // ---------------------------------------------------------------- the data structure

  /** The bin names exactly the handles not in use, each once. */
  ghost predicate BinOk(list: seq<Handle>, recycle: seq<nat>) {
    && Distinct(recycle)
    && (forall h | h in recycle :: h < |list| && !InUse(list[h]))
    && (forall h | 0 <= h < |list| && !InUse(list[h]) :: h in recycle)
  }

  /** The table names exactly the in-cache handles, each under its key. */
  ghost predicate TableOk(list: seq<Handle>, table: map<Key, nat>) {
    && (forall k | k in table :: table[k] < |list| && list[table[k]].inCache && list[table[k]].key == k)
    && (forall h | 0 <= h < |list| && list[h].inCache :: list[h].key in table && table[list[h].key] == h)
  }

  /** A handle changes, and stays in or out of the cache and of the bin. */
  lemma UpdateKeeps(list: seq<Handle>, recycle: seq<nat>, table: map<Key, nat>, h: nat, x: Handle)
    requires BinOk(list, recycle) && TableOk(list, table) && h < |list|
    requires x.key == list[h].key && x.inCache == list[h].inCache
    ensures InUse(x) == InUse(list[h]) ==> BinOk(list[h := x], recycle)
    ensures InUse(list[h]) && !InUse(x) ==> BinOk(list[h := x], recycle + [h])
    ensures TableOk(list[h := x], table)
  {
  }

  /** The table names h under no key. */
  ghost predicate Unnamed(table: map<Key, nat>, h: nat) {
    forall k | k in table :: table[k] != h
  }

  /** Handle h filled with x; it is a new one if it is the first beyond the list. */
  function Taken(list: seq<Handle>, h: nat, x: Handle): (r: seq<Handle>)
    requires h <= |list|
    ensures |r| == |list| + Bit(h == |list|)
  {
    if h == |list| then list + [x] else list[h := x]
  }

  /** The entry of this key, if any, taken out of the cache. */
  function WithoutKey(list: seq<Handle>, table: map<Key, nat>, key: Key): (r: seq<Handle>)
    requires key in table ==> table[key] < |list|
    ensures |r| == |list|
  {
    if key in table then list[table[key] := Uncached(list[table[key]])] else list
  }

  /** A new entry in handle h, in the place of any older one of its key. */
  lemma Placed(before: seq<Handle>, table: map<Key, nat>, key: Key, h: nat, x: Handle)
    requires TableOk(before, table) && h <= |before| && x.inCache && x.key == key
    requires Unnamed(table, h)
    ensures key in table ==> table[key] < |before| && Taken(before, h, x)[table[key]] == before[table[key]]
    ensures var list := WithoutKey(Taken(before, h, x), table, key);
            && TableOk(list, table[key := h]) && list[h] == x
            && forall i | 0 <= i < |before| && i != h ::
                 list[i] == if key in table && table[key] == i then Uncached(before[i]) else before[i]
  {
  }

  lemma PopBin(list: seq<Handle>, recycle: seq<nat>, x: Handle)
    requires BinOk(list, recycle) && recycle != [] && InUse(x)
    ensures var h := recycle[|recycle| - 1];
            h < |list| && !InUse(list[h]) && BinOk(list[h := x], recycle[..|recycle| - 1])
  {
    var n := |recycle| - 1;
    assert recycle[n] in recycle;
    forall i | i in recycle[..n]
      ensures i in recycle && i != recycle[n]
    {
      var j :| 0 <= j < n && recycle[..n][j] == i;
      assert recycle[j] == i;
    }
    forall i | i in recycle && i != recycle[n]
      ensures i in recycle[..n]
    {
      var j :| 0 <= j < |recycle| && recycle[j] == i;
      assert recycle[..n][j] == i;
    }
  }

  /** The last handle of the bin is not in use; an empty bin means that all are. */
  lemma BinTop(list: seq<Handle>, recycle: seq<nat>)
    requires BinOk(list, recycle)
    ensures recycle != [] ==> recycle[|recycle| - 1] < |list| && !InUse(list[recycle[|recycle| - 1]])
    ensures recycle == [] ==> forall x | x in list :: InUse(x)
  {
    assert recycle != [] ==> recycle[|recycle| - 1] in recycle;
  }

  // ---------------------------------------------------------------- the scan

  /** What TryEvict() makes of a handle: it evicts it, or takes its usage bit away. */
  function Examined(x: Handle): Handle {
    x.(inCache := x.inCache && !Evictable(x), usage := false)
  }

  /** A handle after so many examinations. Two are enough: the second evicts what nobody holds. */
  function AfterVisits(x: Handle, visits: nat): Handle {
    if visits == 0 then x else if visits == 1 then Examined(x) else Examined(Examined(x))
  }

  /** How far handle i is from the head, going round the list of n handles. */
  function Offset(head: nat, n: nat, i: nat): nat
    requires head < n && i < n
  {
    if i >= head then i - head else i + n - head
  }

  /** How far a scan is from its start after k steps round the list of n handles, fewer than two rounds. */
  function Along(n: nat, k: nat): nat
    requires k < 2 * n
  {
    if k < n then k else k - n
  }

  /** How often the first k examinations of a scan look at the handle at this offset. */
  function Visits(offset: nat, n: nat, k: nat): nat {
    (if k > offset then 1 else 0) + (if k > offset + n then 1 else 0)
  }

  ghost predicate ScannedBy(before: seq<Handle>, after: seq<Handle>, head: nat, k: nat) {
    && |after| == |before|
    && (k > 0 ==> head < |before|)
    && (k == 0 ==> after == before)
    && (k > 0 ==> forall i | 0 <= i < |before| ::
         after[i] == AfterVisits(before[i], Visits(Offset(head, |before|, i), |before|, k)))
  }

  /** Until the scan had made its k examinations, the charge did not fit. */
  ghost predicate NoRoomBefore(before: seq<Handle>, head: nat, k: nat, charge: nat, capacity: nat) {
    forall list: seq<Handle>, j: nat | j < k && ScannedBy(before, list, head, j) :: TotalUsed(list) + charge > capacity
  }

  /** What fits from the start needs no scan. */
  lemma NothingExamined(before: seq<Handle>, head: nat, k: nat, charge: nat, capacity: nat)
    requires NoRoomBefore(before, head, k, charge, capacity) && TotalUsed(before) + charge <= capacity
    ensures k == 0
  {
    assert ScannedBy(before, before, head, 0);
  }

  lemma NoRoomYet(before: seq<Handle>, list: seq<Handle>, head: nat, k: nat, charge: nat, capacity: nat)
    requires NoRoomBefore(before, head, k, charge, capacity) && ScannedBy(before, list, head, k)
    requires TotalUsed(list) + charge > capacity
    ensures NoRoomBefore(before, head, k + 1, charge, capacity)
  {
    forall l: seq<Handle>, j: nat | j < k + 1 && ScannedBy(before, l, head, j)
      ensures TotalUsed(l) + charge > capacity
    {
      if j == k {
        assert l == list;
      }
    }
  }

  /** The handle a scan comes to last. */
  function LastOf(head: nat, n: nat): nat
    requires head < n
  {
    if head == 0 then n - 1 else head - 1
  }

  /** What the second round reaches too late: the last handle, if it was given a second chance. */
  function TooLate(list: seq<Handle>, head: nat): nat {
    if head < |list| && Unreferenced(list[LastOf(head, |list|)]) && list[LastOf(head, |list|)].usage
    then list[LastOf(head, |list|)].charge else 0
  }

  lemma {:induction false} UsedAtLeast(list: seq<Handle>, i: nat)
    requires i < |list| && Unreferenced(list[i])
    ensures TotalUsed(list) >= TotalPinned(list) + list[i].charge
  {
    var n := |list| - 1;
    PinnedWithinUsed(list[..n]);
    if i < n {
      UsedAtLeast(list[..n], i);
    }
  }

  /** All but one handle are in use only by reference. */
  lemma {:induction false} UsedExcept(list: seq<Handle>, i: nat)
    requires i < |list| && forall j | 0 <= j < |list| && j != i :: !Unreferenced(list[j])
    ensures TotalUsed(list) == TotalPinned(list) + if Unreferenced(list[i]) then list[i].charge else 0
  {
    var n := |list| - 1;
    if i < n {
      UsedExcept(list[..n], i);
    } else {
      PinnedWithinUsed(list[..n]);
    }
  }

  lemma ScanNone(list: seq<Handle>, head: nat, charge: nat, capacity: nat)
    ensures ScannedBy(list, list, head, 0) && NoRoomBefore(list, head, 0, charge, capacity)
    ensures TotalUsed(list) > 0 ==> list != []
  {
  }

  /** One more examination. */
  lemma ScanStep(before: seq<Handle>, list: seq<Handle>, head: nat, k: nat, h: nat)
    requires ScannedBy(before, list, head, k) && head < |before| && h < |list| && k < 2 * |before|
    requires Offset(head, |before|, h) == Along(|before|, k)
    ensures ScannedBy(before, list[h := Examined(list[h])], head, k + 1)
  {
  }

  /** A scan that stops before its last examination has not touched what it would reach too late. */
  lemma StoppedInTime(before: seq<Handle>, list: seq<Handle>, head: nat, k: nat)
    requires ScannedBy(before, list, head, k) && head < |before| && k < 2 * |before|
    ensures TotalUsed(list) >= TotalPinned(list) + TooLate(before, head)
  {
    var last := LastOf(head, |before|);
    PinnedWithinUsed(list);
    if Unreferenced(before[last]) && before[last].usage {
      assert Offset(head, |before|, last) == |before| - 1;
      UsedAtLeast(list, last);
    }
  }

  /** Before its last examination only the last handle can be cached without a reference. */
  lemma AllButLast(before: seq<Handle>, list: seq<Handle>, head: nat)
    requires head < |before| && ScannedBy(before, list, head, 2 * |before| - 1)
    ensures TotalUsed(list) == TotalPinned(list) + TooLate(before, head)
  {
    var last := LastOf(head, |before|);
    assert Offset(head, |before|, last) == |before| - 1;
    UsedExcept(list, last);
  }

  /** After both rounds nothing is cached without a reference. */
  lemma BothRounds(before: seq<Handle>, list: seq<Handle>, head: nat)
    requires head < |before| && ScannedBy(before, list, head, 2 * |before|)
    ensures TotalUsed(list) == TotalPinned(list) && forall x | x in list :: !Unreferenced(x)
  {
    PinnedWithinUsed(list);
  }

  /** The scan can fail with room to spare: a full cache of one entry that has been used since the last
      scan. The second round evicts it, and the scan gives up without looking at the usage again. */
  lemma FailsWithRoomToSpare()
    ensures var list := [Handle(7, 1, true, true, 0)];
            var after := [Handle(7, 1, false, false, 0)];
            && ScannedBy(list, after, 0, 2) && TotalUsed(after) + 1 <= 1
            && TotalPinned(list) + TooLate(list, 0) + 1 > 1
  {
    var after := [Handle(7, 1, false, false, 0)];
    assert after[..0] == [];
  }

  /** Taking a cached entry out of the table; it is recycled if nobody holds it. */
  function Uncached(x: Handle): Handle {
    x.(inCache := false)
  }

  /** Giving a reference back through Release() marks the entry as used. */
  function Released(x: Handle): Handle
    requires x.refs > 0
  {
    x.(refs := x.refs - 1, usage := true)
  }

  class ClockCacheShard {
    var list: seq<Handle>
    var head: nat
    var recycle: seq<nat>
    var capacity: nat
    var usage: nat
    var pinned: nat
    var strict: bool
    var table: map<Key, nat>

    ghost predicate Valid()
      reads this
    {
      && (head < |list| || head == 0)
      && BinOk(list, recycle) && TableOk(list, table)
      && usage == TotalUsed(list) && pinned == TotalPinned(list)
    }

    constructor (capacity_: nat, strict_: bool)
      ensures Valid() && list == [] && capacity == capacity_ && strict == strict_
    {
      list, head, recycle, table := [], 0, [], map[];
      capacity, usage, pinned, strict := capacity_, 0, 0, strict_;
    }

    /** TryEvict() with its RecycleHandle(). */
    method TryEvict(h: nat) returns (evicted: bool)
      requires Valid() && h < |list|
      modifies this`list, this`recycle, this`usage, this`table
      ensures Valid()
      ensures evicted <==> Evictable(old(list[h]))
      ensures list == old(list)[h := Examined(old(list[h]))]
      ensures usage == old(usage) - if evicted then old(list[h]).charge else 0
      ensures table == if evicted then old(table) - {old(list[h]).key} else old(table)
      ensures recycle == if evicted then old(recycle) + [h] else old(recycle)
    {
      var x := list[h];
      UpdateTotals(list, h, Examined(x));
      evicted := Evictable(x);
      if evicted {
        list := list[h := x.(inCache := false)];
        table := table - {x.key};
        recycle := recycle + [h];
        usage := usage - x.charge;
      } else {
        list := list[h := x.(usage := false)];
      }
    }

    /** The eviction scan: at most two rounds over the circular list. If it succeeds the charge fits. If it
        fails no unreferenced byte is left; it fails exactly when the charge does not fit beside the
        pinned bytes and the entry that the second round would evict last. It examines no handle once the
        charge fits, and the next scan starts where this one stopped. */
    method EvictFromCache(charge: nat) returns (ok: bool, ghost examined: nat)
      requires Valid()
      modifies this`list, this`recycle, this`usage, this`table, this`head
      ensures Valid() && ScannedBy(old(list), list, old(head), examined)
      ensures examined <= 2 * |list|
      ensures ok ==> usage + charge <= capacity
      ensures !ok ==> usage == pinned
      ensures ok <==> pinned + TooLate(old(list), old(head)) + charge <= capacity
      ensures NoRoomBefore(old(list), old(head), examined, charge, capacity)
      ensures !ok || list == [] ==> head == old(head)
      ensures ok && list != [] ==> examined < 2 * |list| && Offset(old(head), |list|, head) == Along(|list|, examined)
    {
      hide BinOk, TableOk, TotalUsed, TotalPinned, ScannedBy, NoRoomBefore;
      examined := 0;
      ScanNone(list, head, charge, capacity);
      if usage == 0 {
        ok := charge <= capacity;
        PinnedWithinUsed(list);
        if TooLate(list, head) > 0 {
          UsedAtLeast(list, LastOf(head, |list|));
        }
        return;
      }
      var newHead: nat := head;
      var second := false;
      while usage + charge > capacity
        invariant Valid() && ScannedBy(old(list), list, old(head), examined) && head == old(head)
        invariant |list| == |old(list)| && head < |list| && newHead < |list| && examined < 2 * |list|
        invariant Offset(head, |list|, newHead) == Along(|list|, examined)
        invariant NoRoomBefore(old(list), head, examined, charge, capacity)
        invariant second <==> examined >= |list|
        decreases 2 * |list| - examined
      {
        ghost var before := list;
        NoRoomYet(old(list), list, head, examined, charge, capacity);
        var evicted := TryEvict(newHead);
        ScanStep(old(list), before, head, examined, newHead);
        examined := examined + 1;
        newHead := if newHead + 1 >= |list| then 0 else newHead + 1;
        if newHead == head {
          if second {
            AllButLast(old(list), before, head);
            BothRounds(old(list), list, head);
            return false, examined;
          } else {
            second := true;
          }
        }
      }
      StoppedInTime(old(list), list, head, examined);
      head := newHead;
      ok := true;
    }

    method SetCapacity(capacity_: nat) returns (ghost examined: nat)
      requires Valid()
      modifies this
      ensures Valid() && capacity == capacity_ && strict == old(strict)
      ensures usage <= capacity || usage == pinned
      ensures ScannedBy(old(list), list, old(head), examined)
      ensures NoRoomBefore(old(list), old(head), examined, 0, capacity)
    {
      capacity := capacity_;
      var ok;
      ok, examined := EvictFromCache(0);
    }

    /** Fill a handle from the bin, or a new one if the bin is empty. It is not in the table, and not
        accounted for, yet. */
    method TakeHandle(x: Handle) returns (h: nat)
      requires Valid() && InUse(x)
      modifies this`list, this`recycle
      ensures BinOk(list, recycle)
      ensures h == if old(recycle) == [] then |old(list)| else old(recycle)[|old(recycle)| - 1]
      ensures h <= |old(list)| && list == Taken(old(list), h, x)
      ensures Unnamed(table, h)
      ensures TotalUsed(list) == usage + Used(x) && TotalPinned(list) == pinned + Pinned(x)
    {
      hide TotalUsed, TotalPinned;
      if recycle != [] {
        h := recycle[|recycle| - 1];
        PopBin(list, recycle, x);
        recycle := recycle[..|recycle| - 1];
        UpdateTotals(list, h, x);
        list := list[h := x];
      } else {
        h := |list|;
        AppendTotals(list, x);
        list := list + [x];
      }
    }

    /** Clear the in-cache bit of an entry that was taken out of the table, and recycle it if it was in
        the cache and nobody holds it. */
    method UnsetInCache(h: nat)
      requires BinOk(list, recycle) && h < |list| && usage >= Used(list[h])
      modifies this`list, this`recycle, this`usage
      ensures BinOk(list, recycle) && list == old(list)[h := Uncached(old(list[h]))]
      ensures old(usage) - usage == old(TotalUsed(list)) - TotalUsed(list) && usage <= old(usage)
      ensures TotalPinned(list) == old(TotalPinned(list))
    {
      hide TotalUsed, TotalPinned;
      UpdateTotals(list, h, Uncached(list[h]));
      var wasInCache := list[h].inCache;
      list := list[h := Uncached(list[h])];
      if wasInCache && list[h].refs == 0 {
        recycle := recycle + [h];
        usage := usage - list[h].charge;
      }
    }

    /** Take the entry of this key, if any, out of the table. */
    method TakeOut(key: Key)
      requires BinOk(list, recycle) && (key in table ==> table[key] < |list| && usage >= Used(list[table[key]]))
      modifies this`list, this`recycle, this`usage, this`table
      ensures BinOk(list, recycle) && table == old(table) - {key} && usage <= old(usage)
      ensures list == WithoutKey(old(list), old(table), key)
      ensures old(usage) - usage == old(TotalUsed(list)) - TotalUsed(list)
      ensures TotalPinned(list) == old(TotalPinned(list))
    {
      hide BinOk, TotalUsed, TotalPinned;
      if key in table {
        var existing := table[key];
        table := table - {key};
        UnsetInCache(existing);
      }
    }

    /** The entry gets a handle of its own and its place in the table. It is not accounted for yet. */
    method PlaceHandle(x: Handle) returns (h: nat)
      requires Valid() && x.inCache
      modifies this`list, this`recycle, this`usage, this`table
      ensures BinOk(list, recycle) && TableOk(list, table) && table == old(table)[x.key := h]
      ensures h == if old(recycle) == [] then |old(list)| else old(recycle)[|old(recycle)| - 1]
      ensures |list| == |old(list)| + Bit(h == |old(list)|) && h < |list| && list[h] == x
      ensures forall i | 0 <= i < |old(list)| && i != h ::
                list[i] == if x.key in old(table) &&
                    old(table)[x.key] == i then Uncached(old(list)[i]) else old(list)[i]
      ensures TotalUsed(list) == usage + Used(x) && TotalPinned(list) == pinned + Pinned(x) && usage <= old(usage)
    {
      hide BinOk, TotalUsed, TotalPinned, TableOk, Taken, WithoutKey, Unnamed;
      h := TakeHandle(x);
      Placed(old(list), old(table), x.key, h, x);
      if x.key in table {
        UsedContains(old(list), table[x.key]);
      }
      TakeOut(x.key);
      assert (old(table) - {x.key})[x.key := h] == old(table)[x.key := h];
      table := table[x.key := h];
    }

    /** Put the entry in a handle of its own and in the table, in the place of any older one. */
    method Place(key: Key, charge: nat, hold: bool) returns (h: nat)
      requires Valid()
      modifies this`list, this`recycle, this`usage, this`pinned, this`table
      ensures Valid()
      ensures h == if old(recycle) == [] then |old(list)| else old(recycle)[|old(recycle)| - 1]
      ensures table == old(table)[key := h]
      ensures |list| == |old(list)| + Bit(h == |old(list)|)
      ensures h < |list| && list[h] == Handle(key, charge, true, false, if hold then 1 else 0)
      ensures forall i | 0 <= i < |old(list)| && i != h ::
                list[i] == if key in old(table) && old(table)[key] == i then Uncached(old(list)[i]) else old(list)[i]
      ensures usage <= old(usage) + charge
    {
      hide BinOk, TotalUsed, TotalPinned, TableOk;
      h := PlaceHandle(Handle(key, charge, true, false, if hold then 1 else 0));
      if hold {
        pinned := pinned + charge;
      }
      usage := usage + charge;
    }

    /** Insert(): admitted if the scan made room, or if the caller holds the entry and the limit is not
        strict. Without one of the two, usage stays within capacity. */
    method Insert(key: Key, charge: nat, hold: bool)
      returns (r: Option<nat>, ghost examined: nat, ghost scanned: seq<Handle>)
      requires Valid()
      modifies this
      ensures Valid() && capacity == old(capacity) && strict == old(strict)
      ensures r.Some? <==> old(pinned) + TooLate(old(list), old(head)) + charge <= capacity || (hold && !strict)
      ensures r.Some? ==> r.value < |list| && list[r.value] == Handle(key, charge, true, false, if hold then 1 else 0)
      ensures r.Some? ==> key in table && table[key] == r.value
      ensures r.Some? && (strict || !hold) ==> usage <= capacity
      ensures r.None? ==> usage == pinned == old(pinned)
      ensures ScannedBy(old(list), scanned, old(head), examined)
      ensures NoRoomBefore(old(list), old(head), examined, charge, capacity)
      ensures r.None? ==> list == scanned
      ensures r.Some? ==>
                |list| == |scanned| + Bit(r.value == |scanned|) && forall i | 0 <= i < |scanned| && i != r.value ::
                list[i] == if scanned[i].inCache && scanned[i].key == key then Uncached(scanned[i]) else scanned[i]
      ensures r.Some? ==> if r.value < |scanned| then !InUse(scanned[r.value]) else forall x | x in scanned :: InUse(x)
    {
      hide NoRoomBefore, ScannedBy, TotalUsed, TotalPinned, BinOk;
      var ok;
      ok, examined := EvictFromCache(charge);
      scanned := list;
      if !ok && (strict || !hold) {
        r := None;
        return;
      }
      BinTop(list, recycle);
      var h := Place(key, charge, hold);
      r := Some(h);
    }

    /** Lookup(): takes a reference on the entry the table names. */
    method Lookup(key: Key) returns (r: Option<nat>)
      requires Valid()
      modifies this`list, this`pinned
      ensures Valid()
      ensures r == if key in table then Some(table[key]) else None
      ensures r.Some? ==>
                r.value < |list| && list ==
                    old(list)[r.value := old(list)[r.value].(refs := old(list)[r.value].refs + 1)]
      ensures r.None? ==> list == old(list)
    {
      if key !in table {
        return None;
      }
      var h := table[key];
      var x := list[h].(refs := list[h].refs + 1);
      UpdateTotals(list, h, x);
      UpdateKeeps(list, recycle, table, h, x);
      assert InUse(x) && InUse(list[h]);
      hide TotalUsed, TotalPinned, BinOk, TableOk, InUse;
      if list[h].refs == 0 {
        pinned := pinned + list[h].charge;
      }
      list := list[h := x];
      r := Some(h);
    }

    /** Unref(): gives a reference back and recycles an erased entry with the last one. */
    method Unref(h: nat, setUsage: bool) returns (erased: bool)
      requires Valid() && h < |list| && list[h].refs > 0
      modifies this`list, this`pinned, this`recycle, this`usage
      ensures Valid()
      ensures erased <==> old(list[h]).refs == 1 && !old(list[h]).inCache
      ensures list == old(list)[h := old(list[h]).(refs := old(list[h]).refs - 1, usage := setUsage ||
                old(list[h]).usage)]
    {
      var x := list[h].(refs := list[h].refs - 1, usage := setUsage || list[h].usage);
      UpdateTotals(list, h, x);
      UpdateKeeps(list, recycle, table, h, x);
      hide TotalUsed, TotalPinned, BinOk, TableOk;
      list := list[h := x];
      erased := false;
      if x.refs == 0 {
        pinned := pinned - x.charge;
        if !x.inCache {
          recycle := recycle + [h];
          usage := usage - x.charge;
          erased := true;
        }
      }
    }

    /** EraseAndConfirm(): takes the key out of the table; true if the entry is gone at once. */
    method EraseAndConfirm(key: Key) returns (erased: bool)
      requires Valid()
      modifies this`list, this`recycle, this`usage, this`table
      ensures Valid() && table == old(table) - {key}
      ensures erased <==> key in old(table) && old(list)[old(table)[key]].refs == 0
      ensures list == if key in old(table) then old(list)[old(table)[key] := Uncached(old(list)[old(table)[key]])]
                else old(list)
    {
      hide BinOk, TotalUsed, TotalPinned;
      erased := key in table && list[table[key]].refs == 0;
      if key in table {
        UsedContains(list, table[key]);
      }
      TakeOut(key);
    }

    /** Release(). With `force` an entry that is not gone yet is erased by its key: that takes out whatever
        the table names by then, which is another entry if this one had been replaced. */
    method Release(h: nat, force: bool) returns (erased: bool)
      requires Valid() && h < |list| && list[h].refs > 0
      modifies this`list, this`pinned, this`recycle, this`usage, this`table
      ensures Valid()
      ensures var x := old(list[h]); var one := old(list)[h := Released(x)];
              if !force || (x.refs == 1 && !x.inCache) then
                list == one && table == old(table) && (erased <==> x.refs == 1 && !x.inCache)
              else if x.key in old(table) then
                var e := old(table)[x.key];
                e < |one| && list == one[e := Uncached(one[e])] && table == old(table) - {x.key} &&
                    (erased <==> one[e].refs == 0)
              else
                list == one && table == old(table) && !erased
    {
      erased := Unref(h, true);
      if force && !erased {
        erased := EraseAndConfirm(list[h].key);
      }
    }

    /** EraseUnRefEntries(): nothing stays in the cache; what somebody holds keeps its bytes. */
    method EraseUnRefEntries()
      requires Valid()
      modifies this`list, this`recycle, this`usage, this`table
      ensures Valid() && table == map[] && usage == pinned
      ensures |list| == |old(list)| && forall i | 0 <= i < |list| :: list[i] == Uncached(old(list)[i])
    {
      hide BinOk, TotalUsed, TotalPinned;
      table := map[];
      var i := 0;
      while i < |list|
        invariant 0 <= i <= |list| == |old(list)| && BinOk(list, recycle) && table == map[]
        invariant usage == TotalUsed(list) && pinned == TotalPinned(list)
        invariant forall j | 0 <= j < i :: list[j] == Uncached(old(list)[j])
        invariant forall j | i <= j < |list| :: list[j] == old(list)[j]
      {
        UsedContains(list, i);
        UnsetInCache(i);
        i := i + 1;
      }
      PinnedWithinUsed(list);
    }
  }

  /** A forced release can erase an entry that nobody released, even when operations do not interleave: the
      first entry for key 7 is held twice, replaced, and force-released once. It is not freed, so the key is
      erased, and with it the entry that replaced it. */
  method ForcedReleaseErasesReplacement() returns (shard: ClockCacheShard, first: nat, second: nat)
    ensures fresh(shard) && shard.Valid() && first != second && first < |shard.list| && second < |shard.list|
    ensures shard.table == map[] && shard.list[first].refs == 1 && !shard.list[second].inCache
  {
    hide ClockCacheShard.Valid, NoRoomBefore, ScannedBy, TotalUsed, TotalPinned;
    shard := new ClockCacheShard(10, false);
    first := InsertFirst(shard);
    second := InsertSecond(shard, first);
    var erased := shard.Release(first, true);
  }

  /** Key 7 is inserted into an empty shard, and held. */
  method InsertFirst(shard: ClockCacheShard) returns (h: nat)
    requires shard.Valid() && shard.list == [] && shard.capacity == 10 && !shard.strict
    modifies shard
    ensures shard.Valid() && shard.capacity == 10 && !shard.strict && h == 0
    ensures shard.list == [Handle(7, 1, true, false, 2)] && shard.table == map[7 := 0]
  {
    var r, examined, scanned := shard.Insert(7, 1, true);
    assert scanned == [];
    h := r.value;
    OnlyKey(shard.list, shard.table, 7);
    var again := shard.Lookup(7);
  }

  lemma OnlyKey(list: seq<Handle>, table: map<Key, nat>, k: Key)
    requires TableOk(list, table) && |list| == 1 && list[0].inCache && list[0].key == k
    ensures table == map[k := 0]
  {
    assert forall x | x in table :: list[table[x]].key == x;
  }

  /** It is replaced. Everything fits, so nothing is examined. */
  method InsertSecond(shard: ClockCacheShard, first: nat) returns (h: nat)
    requires shard.Valid() && shard.capacity == 10 && !shard.strict && first == 0
    requires shard.list == [Handle(7, 1, true, false, 2)] && shard.table == map[7 := 0]
    modifies shard
    ensures shard.Valid() && h == 1 && shard.table == map[7 := 1]
    ensures shard.list == [Handle(7, 1, false, false, 2), Handle(7, 1, true, false, 0)]
  {
    ghost var before, head := shard.list, shard.head;
    OneEntry(before, head);
    var r, examined, scanned := shard.Insert(7, 1, false);
    NothingExamined(before, head, examined, 1, 10);
    h := r.value;
    TwoKeys(shard.list, shard.table);
  }

  lemma OneEntry(list: seq<Handle>, head: nat)
    requires list == [Handle(7, 1, true, false, 2)]
    ensures TotalUsed(list) == TotalPinned(list) == 1 && TooLate(list, head) == 0
  {
    assert list[..0] == [];
    assert LastOf(0, 1) == 0;
  }

  lemma TwoKeys(list: seq<Handle>, table: map<Key, nat>)
    requires TableOk(list, table) && |list| == 2 && !list[0].inCache && list[1].inCache && list[1].key == 7
    ensures table == map[7 := 1]
  {
    assert forall x | x in table :: table[x] == 1 && list[table[x]].key == x;
  }
}
