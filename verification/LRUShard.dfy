/** LRUCacheShard: reference counts, the capacity limit and eviction on top of the handle table and the
    LRU list. The mutex makes every operation a single step, and entries are freed at the end of it. */
module LRUShard {
  import opened Common
  import opened LRUTable
  import L = LRUList

  /** An allocated entry: tag, charge, reference count and the flags IN_CACHE and IS_HIGH_PRI. */
  datatype Handle = Handle(tag: Tag, charge: nat, refs: nat, inCache: bool, high: bool)

  function HeldOf(held: map<Id, nat>, e: Id): nat {
    if e in held then held[e] else 0
  }

  /** The count is the references given out, plus one for the cache. */
  ghost predicate EntriesOk(handles: map<Id, Handle>, held: map<Id, nat>, nextId: Id) {
    && (forall e | e in handles ::
         0 < e < nextId && handles[e].refs == HeldOf(held, e) + Bit(handles[e].inCache) && handles[e].refs > 0)
    && (forall e | e in held && held[e] > 0 :: e in handles)
  }

  /** In the cache and referenced by nobody else: state 2 of an LRUHandle. */
  predicate Evictable(handles: map<Id, Handle>, e: Id) {
    e in handles && handles[e].inCache && handles[e].refs == 1
  }

  /** The list is exactly the evictable entries. */
  ghost predicate ListOk(handles: map<Id, Handle>, order: seq<Id>, charge: map<Id, nat>) {
    && (forall e | e in order :: Evictable(handles, e) && e in charge && charge[e] == handles[e].charge)
    && (forall e | Evictable(handles, e) :: e in order)
  }

  /** The table is exactly the cached entries. */
  ghost predicate CachedOk(handles: map<Id, Handle>, contents: map<Tag, Id>) {
    && (forall t | t in contents ::
         contents[t] in handles && handles[contents[t]].inCache && handles[contents[t]].tag == t)
    && (forall e | e in handles && handles[e].inCache :: handles[e].tag in contents && contents[handles[e].tag] == e)
  }

  /** Every entry ever allocated is either still allocated or was freed. */
  ghost predicate FreedOk(handles: map<Id, Handle>, freed: set<Id>, nextId: Id) {
    && (forall e | e in freed :: e !in handles && 0 < e < nextId)
    && (forall e | 0 < e < nextId :: e in handles || e in freed)
  }

  function ChargeAt(handles: map<Id, Handle>, e: Id): nat {
    if e in handles then handles[e].charge else 0
  }

  /** The charges of all allocated entries below n. */
  function TotalCharge(handles: map<Id, Handle>, n: nat): nat {
    if n == 0 then 0 else TotalCharge(handles, n - 1) + ChargeAt(handles, n - 1)
  }

  lemma {:induction false} TotalChange(handles: map<Id, Handle>, handles': map<Id, Handle>, e: Id, n: nat)
    requires e < n && forall x: Id | x != e && x < n :: ChargeAt(handles', x) == ChargeAt(handles, x)
    ensures TotalCharge(handles', n) + ChargeAt(handles, e) == TotalCharge(handles, n) + ChargeAt(handles', e)
  {
    if e < n - 1 {
      TotalChange(handles, handles', e, n - 1);
    } else {
      TotalSame(handles, handles', n - 1);
    }
  }

  lemma {:induction false} TotalSame(handles: map<Id, Handle>, handles': map<Id, Handle>, n: nat)
    requires forall x: Id | x < n :: ChargeAt(handles', x) == ChargeAt(handles, x)
    ensures TotalCharge(handles', n) == TotalCharge(handles, n)
  {
    if n > 0 {
      TotalSame(handles, handles', n - 1);
    }
  }

  // ---------------------------------------------------------------- one entry changes

  lemma EntriesPut(handles: map<Id, Handle>, held: map<Id, nat>, nextId: Id, e: Id, x: Handle, n: nat)
    requires EntriesOk(handles, held, nextId) && 0 < e < nextId && x.refs == n + Bit(x.inCache) && x.refs > 0
    ensures EntriesOk(handles[e := x], held[e := n], nextId)
  {
  }

  lemma EntryAt(handles: map<Id, Handle>, held: map<Id, nat>, nextId: Id, e: Id)
    requires EntriesOk(handles, held, nextId) && (e in handles || HeldOf(held, e) > 0)
    ensures 0 < e < nextId && e in handles && handles[e].refs == HeldOf(held, e) + Bit(handles[e].inCache)
    ensures handles[e].refs > 0
  {
  }

  lemma EntriesDrop(handles: map<Id, Handle>, held: map<Id, nat>, nextId: Id, e: Id)
    requires EntriesOk(handles, held, nextId)
    ensures EntriesOk(handles - {e}, held[e := 0], nextId)
    ensures HeldOf(held, e) == 0 ==> EntriesOk(handles - {e}, held, nextId)
  {
  }

  lemma FreedPut(handles: map<Id, Handle>, freed: set<Id>, nextId: Id, e: Id, x: Handle)
    requires FreedOk(handles, freed, nextId) && e in handles
    ensures FreedOk(handles[e := x], freed, nextId)
  {
  }

  lemma FreedDrop(handles: map<Id, Handle>, freed: set<Id>, nextId: Id, e: Id)
    requires FreedOk(handles, freed, nextId) && e in handles && 0 < e < nextId
    ensures e !in freed && FreedOk(handles - {e}, freed + {e}, nextId)
  {
  }

  /** The same tag in or out of the cache as before. */
  lemma CachedSame(handles: map<Id, Handle>, contents: map<Tag, Id>, e: Id, x: Handle)
    requires CachedOk(handles, contents) && e in handles && x.inCache == handles[e].inCache && x.tag == handles[e].tag
    ensures CachedOk(handles[e := x], contents)
  {
  }

  /** An entry leaves the cache. */
  lemma CachedCut(handles: map<Id, Handle>, contents: map<Tag, Id>, e: Id, handles': map<Id, Handle>)
    requires CachedOk(handles, contents) && e in handles && handles[e].inCache
    requires handles' == handles - {e} ||
               (e in handles' && handles' == handles[e := handles'[e]] && !handles'[e].inCache)
    ensures CachedOk(handles', contents - {handles[e].tag})
  {
  }

  /** An entry out of the cache is freed. */
  lemma CachedDrop(handles: map<Id, Handle>, contents: map<Tag, Id>, e: Id)
    requires CachedOk(handles, contents) && e in handles && !handles[e].inCache
    ensures CachedOk(handles - {e}, contents)
  {
  }

  /** The list is unaffected by an entry that is not evictable before or after. */
  lemma ListSame(handles: map<Id, Handle>, order: seq<Id>, charge: map<Id, nat>, e: Id, handles': map<Id, Handle>)
    requires ListOk(handles, order, charge) && !Evictable(handles, e) && !Evictable(handles', e)
    requires handles' == handles - {e} || (e in handles' && handles' == handles[e := handles'[e]])
    ensures ListOk(handles', order, charge)
  {
    assert forall x | x in order :: x != e;
  }

  lemma ListCut(handles: map<Id, Handle>, order: seq<Id>, charge: map<Id, nat>, k: nat, handles': map<Id, Handle>)
    requires ListOk(handles, order, charge) && k < |order| && Distinct(order) && !Evictable(handles', order[k])
    requires handles' == handles - {order[k]} ||
               (order[k] in handles' && handles' == handles[order[k] := handles'[order[k]]])
    ensures ListOk(handles', L.RemoveAt(order, k), charge)
  {
    hide L.RemoveAt;
    forall x: Id
      ensures x in L.RemoveAt(order, k) <==> x in order && x != order[k]
    {
      L.RemoveMembers(order, k, x);
    }
  }

  lemma ListPut(handles: map<Id, Handle>, order: seq<Id>, charge: map<Id, nat>, e: Id, x: Handle, order': seq<Id>)
    requires ListOk(handles, order, charge) && x.inCache && x.refs == 1 && e !in order
    requires forall y: Id :: y in order' <==> y in order || y == e
    ensures ListOk(handles[e := x], order', charge[e := x.charge])
  {
  }

  /** The first k handles of the list are gone, from the table too. */
  function Tags(handles: map<Id, Handle>, ids: seq<Id>): set<Tag> {
    set e | e in ids && e in handles :: handles[e].tag
  }

  function Members(ids: seq<Id>): set<Id> {
    set e | e in ids
  }

  lemma MembersStep(ids: seq<Id>, k: nat, handles: map<Id, Handle>, contents: map<Tag, Id>)
    requires k < |ids| && ids[k] in handles
    ensures ids[k..][0] == ids[k] && ids[k..][1..] == ids[k + 1..]
    ensures handles - Members(ids[..k]) - {ids[k]} == handles - Members(ids[..k + 1])
    ensures contents - Tags(handles, ids[..k]) - {handles[ids[k]].tag} == contents - Tags(handles, ids[..k + 1])
  {
    assert ids[..k + 1] == ids[..k] + [ids[k]];
    assert Members(ids[..k + 1]) == Members(ids[..k]) + {ids[k]};
    assert Tags(handles, ids[..k + 1]) == Tags(handles, ids[..k]) + {handles[ids[k]].tag};
  }

  lemma RemoveFirst(order: seq<Id>)
    requires order != []
    ensures L.RemoveAt(order, 0) == order[1..]
  {
  }

  lemma ListFirst(handles: map<Id, Handle>, order: seq<Id>, charge: map<Id, nat>)
    requires ListOk(handles, order, charge) && order != []
    ensures Evictable(handles, order[0]) && L.ChargeOf(order[0], charge) == handles[order[0]].charge
  {
    assert order[0] in order;
  }

  lemma CachedFound(handles: map<Id, Handle>, contents: map<Tag, Id>, t: Tag)
    requires CachedOk(handles, contents) && t in contents
    ensures contents[t] in handles && handles[contents[t]].inCache && handles[contents[t]].tag == t
  {
  }

  lemma CachedAt(handles: map<Id, Handle>, contents: map<Tag, Id>, e: Id)
    requires CachedOk(handles, contents) && e in handles && handles[e].inCache
    ensures handles[e].tag in contents && contents[handles[e].tag] == e
  {
  }

  // ---------------------------------------------------------------- pinned bytes

  function HeldCharge(handles: map<Id, Handle>, held: map<Id, nat>, n: nat): nat {
    if n == 0 then 0
    else HeldCharge(handles, held, n - 1) + if HeldOf(held, n - 1) > 0 then ChargeAt(handles, n - 1) else 0
  }

  function ListedCharge(order: seq<Id>, charge: map<Id, nat>, n: nat): nat {
    if n == 0 then 0 else ListedCharge(order, charge, n - 1) + if n - 1 in order then L.ChargeOf(n - 1, charge) else 0
  }

  lemma {:induction false} ListedNone(charge: map<Id, nat>, n: nat)
    ensures ListedCharge([], charge, n) == 0
  {
    if n > 0 {
      ListedNone(charge, n - 1);
    }
  }

  lemma {:induction false} ListedMore(order: seq<Id>, e: Id, charge: map<Id, nat>, n: nat)
    requires e !in order
    ensures ListedCharge(order + [e], charge, n) == ListedCharge(order, charge, n) + if e < n then L.ChargeOf(e, charge)
              else 0
  {
    if n > 0 {
      ListedMore(order, e, charge, n - 1);
    }
  }

  lemma {:induction false} ListedIsSum(order: seq<Id>, charge: map<Id, nat>, n: nat)
    requires Distinct(order) && forall e | e in order :: e < n
    ensures ListedCharge(order, charge, n) == L.Sum(order, charge)
  {
    if order == [] {
      ListedNone(charge, n);
    } else {
      var k := |order| - 1;
      assert order == order[..k] + [order[k]] && order[k] in order;
      assert forall e | e in order[..k] :: e in order;
      ListedIsSum(order[..k], charge, n);
      ListedMore(order[..k], order[k], charge, n);
    }
  }

  lemma {:induction false} SplitCharge(handles: map<Id, Handle>, held: map<Id, nat>, nextId: Id, order: seq<Id>,
                                       charge: map<Id, nat>, n: nat)
    requires EntriesOk(handles, held, nextId) && ListOk(handles, order, charge)
    ensures TotalCharge(handles, n) == ListedCharge(order, charge, n) + HeldCharge(handles, held, n)
  {
    if n > 0 {
      SplitCharge(handles, held, nextId, order, charge, n - 1);
      var e := n - 1;
      if e in handles {
        EntryAt(handles, held, nextId, e);
      }
      assert HeldOf(held, e) > 0 ==> e in handles;
      assert e in order <==> Evictable(handles, e);
    }
  }

  /** All bytes are either evictable or held by somebody outside. */
  lemma PinnedBytes(handles: map<Id, Handle>, held: map<Id, nat>, nextId: Id, order: seq<Id>, charge: map<Id, nat>)
    requires EntriesOk(handles, held, nextId) && ListOk(handles, order, charge) && Distinct(order)
    ensures TotalCharge(handles, nextId) == L.Sum(order, charge) + HeldCharge(handles, held, nextId)
  {
    SplitCharge(handles, held, nextId, order, charge, nextId);
    forall e | e in order
      ensures e < nextId
    {
      EntryAt(handles, held, nextId, e);
    }
    ListedIsSum(order, charge, nextId);
  }

  lemma {:induction false} TotalGrow(handles: map<Id, Handle>, nextId: Id, x: Handle)
    ensures TotalCharge(handles[nextId := x], nextId + 1) == TotalCharge(handles, nextId) + x.charge
  {
    TotalSame(handles, handles[nextId := x], nextId);
  }

  lemma EntriesGrow(handles: map<Id, Handle>, held: map<Id, nat>, nextId: Id, x: Handle, n: nat)
    requires EntriesOk(handles, held, nextId) && nextId > 0 && x.refs == n + Bit(x.inCache) && x.refs > 0
    ensures nextId !in handles && HeldOf(held, nextId) == 0
    ensures EntriesOk(handles[nextId := x], held[nextId := n], nextId + 1) && EntriesOk(handles, held, nextId + 1)
  {
  }

  lemma FreedGrow(handles: map<Id, Handle>, freed: set<Id>, nextId: Id, x: Handle)
    requires FreedOk(handles, freed, nextId) && nextId > 0 && nextId !in handles
    ensures nextId !in freed && FreedOk(handles[nextId := x], freed, nextId + 1)
    ensures FreedOk(handles, freed + {nextId}, nextId + 1)
  {
  }

  /** A new entry in the place of the one that left. */
  lemma CachedPut(handles: map<Id, Handle>, contents: map<Tag, Id>, e: Id, x: Handle)
    requires CachedOk(handles, contents) && e !in handles && x.inCache && x.tag !in contents
    ensures CachedOk(handles[e := x], contents[x.tag := e])
  {
  }

  lemma FreshIsUnlinked(handles: map<Id, Handle>, held: map<Id, nat>, nextId: Id, contents: map<Tag, Id>)
    requires EntriesOk(handles, held, nextId) && CachedOk(handles, contents)
    ensures Unlinked(contents, nextId) && nextId !in handles
  {
  }

  // ---------------------------------------------------------------- the shard

  /** The capacity of the high-priority pool. */
  function Share(capacity: nat, ratio: real): real {
    capacity as real * ratio
  }

  lemma ShareNonNegative(capacity: nat, ratio: real)
    requires ratio >= 0.0
    ensures Share(capacity, ratio) >= 0.0
  {
  }

  datatype InsertResult = Rejected | Admitted(id: Id)

  /** With fewer than k of the listed entries evicted, the charge does not fit. */
  ghost predicate Needed(handles: map<Id, Handle>, order: seq<Id>, n: nat, capacity: nat, charge: nat, k: nat)
    requires k <= |order|
  {
    forall i | 0 <= i < k :: TotalCharge(handles - Members(order[..i]), n) + charge > capacity
  }

  /** k is the least number of listed entries, oldest first, whose eviction makes the charge fit, or all of them. */
  ghost predicate JustEnough(handles: map<Id, Handle>, order: seq<Id>, n: nat, capacity: nat, charge: nat, k: nat) {
    && k <= |order| && Needed(handles, order, n, capacity, charge, k)
    && (TotalCharge(handles - Members(order[..k]), n) + charge <= capacity || k == |order|)
  }

  lemma NoneNeeded(handles: map<Id, Handle>, order: seq<Id>, n: nat, capacity: nat, charge: nat)
    ensures Needed(handles, order, n, capacity, charge, 0)
  {
  }

  lemma OneMoreNeeded(handles: map<Id, Handle>, order: seq<Id>, n: nat, capacity: nat, charge: nat, k: nat)
    requires k < |order| && Needed(handles, order, n, capacity, charge, k)
    requires TotalCharge(handles - Members(order[..k]), n) + charge > capacity
    ensures Needed(handles, order, n, capacity, charge, k + 1)
  {
  }

  class LRUCacheShard {
    const table: LRUHandleTable
    const lru: L.LruList
    var handles: map<Id, Handle>
    var nextId: Id
    var capacity: nat
    var usage: nat
    var strict: bool
    ghost var held: map<Id, nat>
    ghost var freed: set<Id>

    /** Counts, list and bytes fit the allocated entries. */
    ghost predicate Accounted()
      reads this`handles, this`held, this`freed, this`nextId, this`usage, lru
    {
      && lru.Valid() && nextId > 0
      && EntriesOk(handles, held, nextId) && FreedOk(handles, freed, nextId)
      && ListOk(handles, lru.order, lru.charge) && usage == TotalCharge(handles, nextId)
    }

    /** So does the table: all but the capacity limit. */
    ghost predicate Consistent()
      reads this, table, table.list, lru
    {
      Accounted() && table.Valid() && CachedOk(handles, table.contents)
    }

    /** high_pri_pool_capacity_ is the given share of the capacity. */
    ghost predicate PoolSized()
      reads this`capacity, lru`ratio, lru`highCapacity
    {
      lru.highCapacity == Share(capacity, lru.ratio)
    }

    /** A shard over its capacity has nothing left to evict. */
    ghost predicate Valid()
      reads this, table, table.list, lru
    {
      Consistent() && PoolSized() && (usage > capacity ==> lru.order == [])
    }

    constructor (capacity_: nat, strict_: bool, ratio_: real)
      requires ratio_ >= 0.0
      ensures Valid() && handles == map[] && capacity == capacity_ && strict == strict_
      ensures fresh(table) && fresh(table.list) && fresh(lru)
    {
      handles, nextId, capacity, usage, strict := map[], 1, capacity_, 0, strict_;
      held, freed := map[], {};
      table := new LRUHandleTable();
      hide Share;
      ShareNonNegative(capacity_, ratio_);
      lru := new L.LruList(ratio_, Share(capacity_, ratio_));
    }

    /** Ref() on an allocated entry, which takes it off the list if it was evictable. */
    method Ref(e: Id)
      requires Valid() && e in handles
      modifies this`handles, this`held, lru
      ensures Valid()
      ensures handles == old(handles)[e := old(handles[e]).(refs := old(handles[e]).refs + 1)]
      ensures held == old(held)[e := HeldOf(old(held), e) + 1]
      ensures lru.order == L.Without(old(lru.order), e)
    {
      hide EntriesOk, FreedOk, ListOk, CachedOk, TotalCharge, PoolSized, L.Without, L.LruList.Valid,
             LRUHandleTable.Valid;
      var x := handles[e].(refs := handles[e].refs + 1);
      EntryAt(handles, held, nextId, e);
      EntriesPut(handles, held, nextId, e, x, HeldOf(held, e) + 1);
      FreedPut(handles, freed, nextId, e, x);
      CachedSame(handles, table.contents, e, x);
      TotalSame(handles, handles[e := x], nextId);
      if handles[e].inCache && handles[e].refs == 1 {
        ListDistinct();
        ghost var k := Listed(handles, lru.order, lru.charge, e);
        L.WithoutAt(lru.order, k);
        ListCut(handles, lru.order, lru.charge, k, handles[e := x]);
        lru.Remove(e, k);
      } else {
        NotListed(handles, lru.order, lru.charge, e);
        ListSame(handles, lru.order, lru.charge, e, handles[e := x]);
      }
      handles, held := handles[e := x], held[e := HeldOf(held, e) + 1];
    }

    /** high_pri_pool_capacity_ follows the capacity; the pool is not trimmed to it. */
    method SetPoolCapacity(capacity_: nat)
      requires Accounted()
      modifies lru`highCapacity
      ensures Accounted() && lru.highCapacity == Share(capacity_, lru.ratio)
    {
      hide EntriesOk, FreedOk, ListOk, TotalCharge, Share;
      ShareNonNegative(capacity_, lru.ratio);
      lru.highCapacity := Share(capacity_, lru.ratio);
    }

    lemma ListDistinct()
      requires lru.Valid()
      ensures Distinct(lru.order) && L.DUMMY !in lru.order
    {
    }

    /** Lookup(): the entry the table names, with one more reference. */
    method Lookup(t: Tag) returns (r: Option<Id>)
      requires Valid()
      modifies this`handles, this`held, lru
      ensures Valid()
      ensures r == if t in table.contents then Some(table.contents[t]) else None
      ensures r.None? ==> handles == old(handles) && held == old(held) && lru.order == old(lru.order)
      ensures r.Some? ==> r.value in old(handles) && old(handles)[r.value].inCache && old(handles)[r.value].tag == t
      ensures r.Some? ==>
                handles == old(handles)[r.value := old(handles)[r.value].(refs := old(handles)[r.value].refs + 1)]
      ensures r.Some? ==> held == old(held)[r.value := HeldOf(old(held), r.value) + 1]
      ensures r.Some? ==> lru.order == L.Without(old(lru.order), r.value)
    {
      hide EntriesOk, FreedOk, ListOk, CachedOk, TotalCharge, PoolSized, LRUHandleTable.Valid, L.LruList.Valid;
      r := table.Lookup(t);
      if r.Some? {
        CachedFound(handles, table.contents, t);
        Ref(r.value);
      }
    }

    /** Evict the oldest entry of the list, and free it. */
    method EvictOldest()
      requires Consistent() && lru.order != []
      modifies this`handles, this`usage, this`freed, lru, table, table.list
      ensures Consistent() && table.list == old(table.list) && unchanged(lru`ratio, lru`highCapacity)
      ensures var e := old(lru.order)[0];
              && Evictable(old(handles), e) && handles == old(handles) - {e} && freed == old(freed) + {e}
              && e !in old(freed)
              && lru.order == old(lru.order)[1..] && table.contents == old(table.contents) - {old(handles)[e].tag}
              && old(usage) == usage + old(handles)[e].charge
              && old(lru.lruUsage) == lru.lruUsage + old(handles)[e].charge
    {
      hide EntriesOk, FreedOk, ListOk, CachedOk, TotalCharge, L.RemoveAt, LRUHandleTable.Valid, L.LruList.Valid;
      var e := lru.First();
      ListFirst(handles, lru.order, lru.charge);
      EntryAt(handles, held, nextId, e);
      CachedAt(handles, table.contents, e);
      EntriesDrop(handles, held, nextId, e);
      FreedDrop(handles, freed, nextId, e);
      CachedCut(handles, table.contents, e, handles - {e});
      ListDistinct();
      ListCut(handles, lru.order, lru.charge, 0, handles - {e});
      TotalChange(handles, handles - {e}, e, nextId);
      RemoveFirst(lru.order);
      lru.Remove(e, 0);
      var removed := table.Remove(handles[e].tag);
      usage := usage - handles[e].charge;
      handles, freed := handles - {e}, freed + {e};
    }

    /** EvictFromLRU(): evict the oldest entries until the charge fits or the list is empty, and no more. */
    method EvictFromLRU(charge: nat) returns (ghost k: nat)
      requires Consistent()
      modifies this`handles, this`usage, this`freed, lru, table, table.list
      ensures Consistent() && table.list == old(table.list) && k <= |old(lru.order)|
      ensures unchanged(lru`ratio, lru`highCapacity)
      ensures lru.order == old(lru.order)[k..] && handles == old(handles) - Members(old(lru.order)[..k])
      ensures table.contents == old(table.contents) - Tags(old(handles), old(lru.order)[..k])
      ensures usage + charge <= capacity || lru.order == []
      ensures JustEnough(old(handles), old(lru.order), nextId, capacity, charge, k)
      ensures k > 0 ==>
                old(lru.order)[k - 1] in old(handles) &&
                    usage + old(handles)[old(lru.order)[k - 1]].charge + charge > capacity
      ensures old(usage) - usage == old(lru.lruUsage) - lru.lruUsage && usage <= old(usage)
    {
      hide Members, Tags, Accounted, CachedOk, LRUHandleTable.Valid, TotalCharge, Needed;
      k := 0;
      NoneNeeded(handles, lru.order, nextId, capacity, charge);
      EvictNone(handles, table.contents, lru.order);
      var oldest := FirstOrNone();
      while usage + charge > capacity && oldest != L.DUMMY
        invariant Consistent() && table.list == old(table.list) && k <= |old(lru.order)|
        invariant unchanged(lru`ratio, lru`highCapacity)
        invariant lru.order == old(lru.order)[k..] && handles == old(handles) - Members(old(lru.order)[..k])
        invariant table.contents == old(table.contents) - Tags(old(handles), old(lru.order)[..k])
        invariant k > 0 ==>
                    old(lru.order)[k - 1] in old(handles) &&
                        usage + old(handles)[old(lru.order)[k - 1]].charge + charge > capacity
        invariant Needed(old(handles), old(lru.order), nextId, capacity, charge, k)
        invariant old(usage) - usage == old(lru.lruUsage) - lru.lruUsage && usage <= old(usage)
        invariant oldest == L.DUMMY <==> lru.order == []
        decreases |lru.order|
      {
        UsageIs();
        OneMoreNeeded(old(handles), old(lru.order), nextId, capacity, charge, k);
        EvictOldest();
        MembersStep(old(lru.order), k, old(handles), old(table.contents));
        k := k + 1;
        oldest := FirstOrNone();
      }
      UsageIs();
    }

    lemma UsageIs()
      requires Consistent()
      ensures usage == TotalCharge(handles, nextId)
    {
    }

    /** lru_.next, which is lru_ exactly if the list is empty. */
    method FirstOrNone() returns (e: Id)
      requires Accounted()
      ensures e == L.DUMMY <==> lru.order == []
    {
      e := lru.First();
      assert lru.order != [] ==> lru.order[0] in lru.order;
    }

    /** SetCapacity(): evicts the oldest entries until what is left fits, and no more. */
    method SetCapacity(capacity_: nat) returns (ghost k: nat)
      requires Valid()
      modifies this`capacity, this`handles, this`usage, this`freed, lru, table, table.list
      ensures Valid() && capacity == capacity_ && table.list == old(table.list) && lru.ratio == old(lru.ratio)
      ensures k <= |old(lru.order)| && lru.order == old(lru.order)[k..]
      ensures handles == old(handles) - Members(old(lru.order)[..k])
      ensures table.contents == old(table.contents) - Tags(old(handles), old(lru.order)[..k])
      ensures usage <= capacity || lru.order == []
      ensures k > 0 ==>
                old(lru.order)[k - 1] in old(handles) && usage + old(handles)[old(lru.order)[k - 1]].charge > capacity
    {
      hide Accounted, CachedOk, LRUHandleTable.Valid, Members, Tags;
      capacity := capacity_;
      SetPoolCapacity(capacity_);
      k := EvictFromLRU(0);
    }

    /** An entry that the table no longer names: the cache gives up its reference, and with the last one
        the entry leaves the list and is freed. */
    method Displace(e: Id) returns (last: bool)
      requires Accounted() && e in handles && handles[e].inCache
      modifies this`handles, this`usage, this`freed, lru
      ensures Accounted() && last == Evictable(old(handles), e)
      ensures handles == if last then old(handles) - {e}
                else old(handles)[e := old(handles)[e].(refs := old(handles)[e].refs - 1, inCache := false)]
      ensures freed == if last then old(freed) + {e} else old(freed)
      ensures usage == old(usage) - if last then old(handles)[e].charge else 0
      ensures lru.order == L.Without(old(lru.order), e) && unchanged(lru`ratio, lru`highCapacity)
      ensures last ==> e !in old(freed)
    {
      hide EntriesOk, FreedOk, ListOk, TotalCharge, L.RemoveAt, L.Without, L.LruList.Valid;
      EntryAt(handles, held, nextId, e);
      var x := handles[e].(refs := handles[e].refs - 1, inCache := false);
      last := x.refs == 0;
      if last {
        ghost var k := Listed(handles, lru.order, lru.charge, e);
        EntriesDrop(handles, held, nextId, e);
        FreedDrop(handles, freed, nextId, e);
        ListDistinct();
        ListCut(handles, lru.order, lru.charge, k, handles - {e});
        L.WithoutAt(lru.order, k);
        TotalChange(handles, handles - {e}, e, nextId);
        lru.Remove(e, k);
        usage := usage - handles[e].charge;
        handles, freed := handles - {e}, freed + {e};
      } else {
        EntriesUncache(handles, held, nextId, e, x);
        FreedPut(handles, freed, nextId, e, x);
        NotListed(handles, lru.order, lru.charge, e);
        ListSame(handles, lru.order, lru.charge, e, handles[e := x]);
        TotalSame(handles, handles[e := x], nextId);
        handles := handles[e := x];
      }
    }

    method Erase(t: Tag)
      requires Valid()
      modifies this`handles, this`usage, this`freed, lru, table, table.list
      ensures Valid() && table.contents == old(table.contents) - {t} && table.list == old(table.list)
      ensures t !in old(table.contents) ==> handles == old(handles) && lru.order == old(lru.order)
      ensures t in old(table.contents) ==>
                var e := old(table.contents)[t];
                && e in old(handles) && lru.order == L.Without(old(lru.order), e)
                && handles == if Evictable(old(handles), e) then old(handles) - {e}
                              else old(handles)[e := old(handles)[e].(refs := old(handles)[e].refs - 1, inCache :=
                                false)]
    {
      hide Accounted, CachedOk, LRUHandleTable.Valid, L.Without;
      var r := table.Remove(t);
      if r.Some? {
        CachedFound(handles, old(table.contents), t);
        var last := Displace(r.value);
        CachedCut(old(handles), old(table.contents), r.value, handles);
        NoneWithout(old(lru.order), r.value);
      } else {
        assert old(table.contents) - {t} == old(table.contents);
      }
    }

    /** Give back the last reference to an entry that is not on the list, and free it. */
    method FreeLast(e: Id)
      requires Accounted() && e in handles && !Evictable(handles, e) && HeldOf(held, e) == 1
      modifies this`handles, this`held, this`usage, this`freed
      ensures Accounted() && handles == old(handles) - {e} && held == old(held)[e := 0]
      ensures usage == old(usage) - old(handles)[e].charge && freed == old(freed) + {e} && e !in old(freed)
    {
      hide EntriesOk, FreedOk, ListOk, TotalCharge, L.LruList.Valid;
      EntryAt(handles, held, nextId, e);
      EntriesDrop(handles, held, nextId, e);
      FreedDrop(handles, freed, nextId, e);
      ListSame(handles, lru.order, lru.charge, e, handles - {e});
      TotalChange(handles, handles - {e}, e, nextId);
      usage := usage - handles[e].charge;
      handles, held, freed := handles - {e}, held[e := 0], freed + {e};
    }

    /** Give back a reference that is not the last one outside, or not the last one. */
    method Unref(e: Id)
      requires Accounted() && e in handles && HeldOf(held, e) > 0 && handles[e].refs > 1
      requires handles[e].inCache ==> handles[e].refs > 2
      modifies this`handles, this`held
      ensures Accounted() && handles == old(handles)[e := old(handles)[e].(refs := old(handles)[e].refs - 1)]
      ensures held == old(held)[e := HeldOf(old(held), e) - 1]
    {
      hide EntriesOk, FreedOk, ListOk, TotalCharge, L.LruList.Valid;
      var x := handles[e].(refs := handles[e].refs - 1);
      EntryAt(handles, held, nextId, e);
      EntriesPut(handles, held, nextId, e, x, HeldOf(held, e) - 1);
      FreedPut(handles, freed, nextId, e, x);
      ListSame(handles, lru.order, lru.charge, e, handles[e := x]);
      TotalSame(handles, handles[e := x], nextId);
      handles, held := handles[e := x], held[e := HeldOf(held, e) - 1];
    }

    /** Give back the last reference outside to a cached entry, which becomes evictable. */
    method PutOnList(e: Id)
      requires Accounted() && e in handles && handles[e].inCache && handles[e].refs == 2 && HeldOf(held, e) == 1
      modifies this`handles, this`held, lru
      ensures Accounted() && handles == old(handles)[e := old(handles)[e].(refs := 1)] && held == old(held)[e := 0]
      ensures unchanged(lru`ratio, lru`highCapacity) && old(lru.low) <= |old(lru.order)|
      ensures lru.order == L.Entered(old(lru.order), old(lru.low), lru.ratio > 0.0 && old(handles)[e].high, e)
    {
      hide EntriesOk, FreedOk, ListOk, TotalCharge, L.LruList.Valid, L.Entered;
      var x := handles[e].(refs := 1);
      EntryAt(handles, held, nextId, e);
      EntriesPut(handles, held, nextId, e, x, 0);
      FreedPut(handles, freed, nextId, e, x);
      TotalSame(handles, handles[e := x], nextId);
      NotListed(handles, lru.order, lru.charge, e);
      LowWithin();
      lru.Insert(e, x.charge, x.high);
      Inserted(old(lru.order), old(lru.low), lru.ratio > 0.0 && x.high, e);
      ListPut(handles, old(lru.order), old(lru.charge), e, x, lru.order);
      handles, held := handles[e := x], held[e := 0];
    }

    lemma LowWithin()
      requires lru.Valid()
      ensures lru.low <= |lru.order|
    {
    }

    /** Release(). An entry that only the cache refers to afterwards goes on the list, unless the shard is
        over its capacity or the caller wants it gone. */
    method Release(e: Id, force: bool) returns (last: bool)
      requires Valid() && HeldOf(held, e) > 0
      modifies this`handles, this`held, this`usage, this`freed, lru, table, table.list
      ensures Valid() && table.list == old(table.list) && e in old(handles)
      ensures held == old(held)[e := HeldOf(old(held), e) - 1]
      ensures var h := old(handles)[e];
              && (last <==> h.refs == 1 || (h.refs == 2 && h.inCache && (old(usage) > capacity || force)))
              && handles == (if last then old(handles) - {e} else old(handles)[e := h.(refs := h.refs - 1)])
              && freed == (if last then old(freed) + {e} else old(freed)) && (last ==> e !in old(freed))
              && usage == old(usage) - (if last then h.charge else 0)
              && table.contents == (if last && h.inCache then old(table.contents) - {h.tag} else old(table.contents))
              && old(lru.low) <= |old(lru.order)|
              && lru.order == (if !last && h.refs == 2 &&
                   h.inCache then L.Entered(old(lru.order), old(lru.low), lru.ratio > 0.0 && h.high, e)
                               else old(lru.order))
    {
      hide EntriesOk, FreedOk, ListOk, CachedOk, TotalCharge, PoolSized, L.Entered, LRUHandleTable.Valid,
             L.LruList.Valid;
      EntryAt(handles, held, nextId, e);
      LowWithin();
      var h := handles[e];
      last := h.refs == 1;
      if last {
        CachedDrop(handles, table.contents, e);
        FreeLast(e);
      } else if h.refs == 2 && h.inCache {
        if usage > capacity || force {
          assert !(usage > capacity) || lru.order == [];
          CachedCut(handles, table.contents, e, handles - {e});
          var removed := table.Remove(h.tag);
          FreeLast(e);
          last := true;
        } else {
          CachedSame(handles, table.contents, e, h.(refs := 1));
          PutOnList(e);
        }
      } else {
        CachedSame(handles, table.contents, e, h.(refs := h.refs - 1));
        Unref(e);
      }
    }

    /** GetPinnedUsage(): exactly the bytes of the entries that somebody outside refers to. */
    method GetPinnedUsage() returns (pinned: nat)
      requires Accounted()
      ensures pinned == HeldCharge(handles, held, nextId) && usage == lru.lruUsage + pinned
    {
      ListDistinct();
      PinnedBytes(handles, held, nextId, lru.order, lru.charge);
      pinned := usage - lru.lruUsage;
    }

    /** The three states of an allocated entry: held and in the table; in the table and on the list, held by
        nobody; held and neither in the table nor on the list. */
    lemma ThreeStates(e: Id)
      requires Consistent() && e in handles
      ensures handles[e].inCache <==> handles[e].tag in table.contents && table.contents[handles[e].tag] == e
      ensures e in lru.order <==> handles[e].inCache && HeldOf(held, e) == 0
      ensures !handles[e].inCache ==> HeldOf(held, e) > 0 && e !in lru.order
      ensures e !in freed
    {
      EntryAt(handles, held, nextId, e);
    }

    /** An entry that somebody outside holds is allocated and has not been freed; a freed entry is gone for
        good, since no number is given out twice. */
    lemma NeverFreedWhileHeld(e: Id)
      requires Consistent() && HeldOf(held, e) > 0
      ensures e in handles && e !in freed && e < nextId
    {
      EntryAt(handles, held, nextId, e);
    }

    /** Enter a new entry in the accounts: held by the caller, or on the list. */
    method Add(x: Handle, want: bool) returns (e: Id)
      requires Accounted() && x.inCache && x.refs == 1 + Bit(want)
      modifies this`handles, this`held, this`nextId, this`usage, lru
      ensures Accounted() && e == old(nextId) && e !in old(handles) && handles == old(handles)[e := x]
      ensures held == old(held)[e := Bit(want)] && nextId == old(nextId) + 1 && usage == old(usage) + x.charge
      ensures unchanged(lru`ratio, lru`highCapacity)
      ensures if want then lru.order == old(lru.order) else L.Without(lru.order, e) == old(lru.order) && Newest(e)
    {
      hide EntriesOk, FreedOk, ListOk, TotalCharge, L.LruList.Valid, L.Entered;
      e := nextId;
      EntriesGrow(handles, held, nextId, x, Bit(want));
      FreedGrow(handles, freed, nextId, x);
      TotalGrow(handles, nextId, x);
      if want {
        ListSame(handles, lru.order, lru.charge, e, handles[e := x]);
      } else {
        NotListed(handles, lru.order, lru.charge, e);
        ListDistinct();
        LowWithin();
        lru.Insert(e, x.charge, x.high);
        Inserted(old(lru.order), old(lru.low), lru.ratio > 0.0 && x.high, e);
        L.WithoutEntered(old(lru.order), old(lru.low), lru.ratio > 0.0 && x.high, e);
        ListPut(handles, old(lru.order), old(lru.charge), e, x, lru.order);
      }
      handles, held, nextId, usage := handles[e := x], held[e := Bit(want)], nextId + 1, usage + x.charge;
    }

    /** e is the newest entry of its pool. */
    ghost predicate Newest(e: Id)
      reads this`handles, lru
    {
      && e in handles && lru.order != []
      && (if lru.ratio > 0.0 && handles[e].high then lru.order[|lru.order| - 1] == e
          else 0 < lru.low <= |lru.order| && lru.order[lru.low - 1] == e)
    }

    lemma EmptyList()
      requires lru.Valid() && lru.order == []
      ensures lru.lruUsage == 0
    {
    }

    /** Put a new entry in the table in the place of any older one. */
    method Replace(t: Tag, charge: nat, high: bool, want: bool) returns (e: Id)
      requires Consistent()
      modifies this`handles, this`held, this`nextId, this`usage, this`freed, lru, table, table.list
      ensures Consistent() && (table.list == old(table.list) || fresh(table.list))
      ensures e == old(nextId) && table.contents == old(table.contents)[t := e]
      ensures e in handles && handles[e] == Handle(t, charge, 1 + Bit(want), true, high) && HeldOf(held, e) == Bit(want)
      ensures handles - {e} ==
                (if t in old(table.contents) then Displaced(old(handles), old(table.contents)[t]) else old(handles))
      ensures usage <= old(usage) + charge && (want && old(lru.order) == [] ==> lru.order == [])
      ensures unchanged(lru`ratio, lru`highCapacity)
      ensures var rest := if t in old(table.contents) then L.Without(old(lru.order), old(table.contents)[t])
                else old(lru.order);
              if want then lru.order == rest else L.Without(lru.order, e) == rest && Newest(e)
    {
      hide EntriesOk, FreedOk, ListOk, CachedOk, TotalCharge, LRUHandleTable.Valid, L.LruList.Valid, L.Without, Newest;
      var x := Handle(t, charge, 1 + Bit(want), true, high);
      FreshIsUnlinked(handles, held, nextId, table.contents);
      var replaced := table.Insert(nextId, t);
      if replaced.Some? {
        CachedFound(handles, old(table.contents), t);
        var last := Displace(replaced.value);
        CachedCut(old(handles), old(table.contents), replaced.value, handles);
        NoneWithout(old(lru.order), replaced.value);
      } else {
        assert old(table.contents) - {t} == old(table.contents);
      }
      CachedPut(handles, old(table.contents) - {t}, nextId, x);
      ghost var others := handles;
      e := Add(x, want);
      assert handles - {e} == others;
      assert (old(table.contents) - {t})[t := e] == old(table.contents)[t := e];
    }

    /** Insert(): evict, then admit the entry if it fits beside the pinned bytes, or if the caller wants a
        handle and the limit is not strict. */
    method Insert(t: Tag, charge: nat, high: bool, want: bool) returns (r: InsertResult, ghost k: nat)
      requires Valid()
      modifies this`handles, this`held, this`nextId, this`usage, this`freed, lru, table, table.list
      ensures Valid() && (table.list == old(table.list) || fresh(table.list)) && k <= |old(lru.order)|
      ensures JustEnough(old(handles), old(lru.order), old(nextId), capacity, charge, k)
      ensures r.Admitted? <==> old(HeldCharge(handles, held, nextId)) + charge <= capacity || (want && !strict)
      ensures var evicted := old(table.contents) - Tags(old(handles), old(lru.order)[..k]);
              table.contents == if r.Admitted? then evicted[t := r.id] else evicted
      ensures r.Admitted? ==>
                r.id == old(nextId) && r.id in handles && handles[r.id] == Handle(t, charge, 1 + Bit(want), true, high)
      ensures r.Admitted? ==> HeldOf(held, r.id) == Bit(want)
      ensures var rest := old(handles) - Members(old(lru.order)[..k]);
              var evicted := old(table.contents) - Tags(old(handles), old(lru.order)[..k]);
              && (r.Rejected? ==> handles == rest && held == old(held))
              && (r.Admitted? ==> handles - {r.id} == if t in evicted then Displaced(rest, evicted[t]) else rest)
      ensures var evicted := old(table.contents) - Tags(old(handles), old(lru.order)[..k]);
              var rest := if t in evicted then L.Without(old(lru.order)[k..], evicted[t]) else old(lru.order)[k..];
              && (r.Rejected? ==> lru.order == old(lru.order)[k..])
              && (r.Admitted? && want ==> lru.order == rest)
              && (r.Admitted? && !want ==> L.Without(lru.order, r.id) == rest && Newest(r.id))
      ensures strict || !want ==> usage <= capacity || usage <= old(usage)
    {
      hide EntriesOk, FreedOk, ListOk, CachedOk, TotalCharge, LRUHandleTable.Valid, L.LruList.Valid, Members, Tags,
             PoolSized, L.Without, Newest, JustEnough;
      var before := GetPinnedUsage();
      k := EvictFromLRU(charge);
      var pinned := GetPinnedUsage();
      assert pinned == before;
      if lru.order == [] {
        EmptyList();
      }
      if pinned + charge > capacity && (strict || !want) {
        EntriesGrow(handles, held, nextId, Handle(t, charge, 1, true, high), 0);
        FreedGrow(handles, freed, nextId, Handle(t, charge, 1, true, high));
        TotalSkip(handles, nextId);
        freed, nextId := freed + {nextId}, nextId + 1;
        r := Rejected;
      } else {
        var e := Replace(t, charge, high, want);
        r := Admitted(e);
      }
    }

    /** EraseUnRefEntries(): evict everything nobody holds. */
    method EraseUnRefEntries()
      requires Valid()
      modifies this`handles, this`usage, this`freed, lru, table, table.list
      ensures Valid() && lru.order == [] && table.list == old(table.list)
      ensures handles == old(handles) - Members(old(lru.order)) && lru.ratio == old(lru.ratio)
      ensures table.contents == old(table.contents) - Tags(old(handles), old(lru.order))
    {
      hide Members, Tags, Accounted, CachedOk, LRUHandleTable.Valid;
      ghost var k := 0;
      EvictNone(handles, table.contents, lru.order);
      var oldest := FirstOrNone();
      while oldest != L.DUMMY
        invariant Consistent() && table.list == old(table.list) && k <= |old(lru.order)| && usage <= old(usage)
        invariant unchanged(lru`ratio, lru`highCapacity)
        invariant lru.order == old(lru.order)[k..] && handles == old(handles) - Members(old(lru.order)[..k])
        invariant table.contents == old(table.contents) - Tags(old(handles), old(lru.order)[..k])
        invariant oldest == L.DUMMY <==> lru.order == []
        decreases |lru.order|
      {
        EvictOldest();
        MembersStep(old(lru.order), k, old(handles), old(table.contents));
        k := k + 1;
        oldest := FirstOrNone();
      }
      assert old(lru.order)[..k] == old(lru.order);
    }

    method SetHighPriorityPoolRatio(ratio: real)
      requires Valid() && ratio >= 0.0
      modifies lru
      ensures Valid() && lru.ratio == ratio && lru.highUsage as real <= lru.highCapacity && lru.order == old(lru.order)
      ensures old(lru.low) <= lru.low <= |lru.order|
      ensures lru.low == old(lru.low) || L.Sum(lru.order[lru.low - 1..], lru.charge) as real > lru.highCapacity
    {
      hide EntriesOk, FreedOk, ListOk, CachedOk, TotalCharge, LRUHandleTable.Valid, Share, L.Sum;
      ShareNonNegative(capacity, ratio);
      lru.SetRatio(ratio, Share(capacity, ratio));
    }
  }

  /** The entry the table no longer names. */
  function Displaced(handles: map<Id, Handle>, e: Id): map<Id, Handle> {
    if Evictable(handles, e) || e !in handles || handles[e].refs == 0 then handles - {e}
    else handles[e := handles[e].(refs := handles[e].refs - 1, inCache := false)]
  }

  lemma TotalSkip(handles: map<Id, Handle>, nextId: Id)
    requires nextId !in handles
    ensures TotalCharge(handles, nextId + 1) == TotalCharge(handles, nextId)
  {
  }

  lemma NotListed(handles: map<Id, Handle>, order: seq<Id>, charge: map<Id, nat>, e: Id)
    requires ListOk(handles, order, charge) && !Evictable(handles, e)
    ensures e !in order && L.Without(order, e) == order
  {
  }

  /** Either way of entering the list adds e and nothing else. */
  lemma Inserted(order: seq<Id>, low: nat, atEnd: bool, e: Id)
    requires low <= |order|
    ensures forall y: Id :: y in L.Entered(order, low, atEnd, e) <==> y in order || y == e
    ensures var order' := L.Entered(order, low, atEnd, e);
            |order'| == |order| + 1 && order'[if atEnd then |order| else low] == e
  {
    forall y: Id
      ensures y in L.InsertAt(order, low, e) <==> y in order || y == e
    {
      L.InsertMembers(order, low, e, y);
    }
  }

  lemma EntriesUncache(handles: map<Id, Handle>, held: map<Id, nat>, nextId: Id, e: Id, x: Handle)
    requires EntriesOk(handles, held, nextId) && e in handles && handles[e].inCache && handles[e].refs > 1
    requires x.refs == handles[e].refs - 1 && !x.inCache
    ensures EntriesOk(handles[e := x], held, nextId)
  {
  }

  lemma NoneWithout(order: seq<Id>, e: Id)
    ensures order == [] ==> L.Without(order, e) == []
  {
  }

  lemma Listed(handles: map<Id, Handle>, order: seq<Id>, charge: map<Id, nat>, e: Id) returns (k: nat)
    requires ListOk(handles, order, charge) && Evictable(handles, e)
    ensures k < |order| && order[k] == e
  {
    k :| k < |order| && order[k] == e;
  }

  lemma EvictNone(handles: map<Id, Handle>, contents: map<Tag, Id>, order: seq<Id>)
    ensures handles - Members(order[..0]) == handles && contents - Tags(handles, order[..0]) == contents
    ensures order[0..] == order
  {
  }
}
