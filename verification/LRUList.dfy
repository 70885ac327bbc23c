/** The LRU list of LRUCacheShard: a circular doubly linked list through the dummy head lru_, oldest entry
    first, split by lru_low_pri_ into a low-priority and a high-priority pool. A handle is a number
    standing for its address; 0 is lru_ itself. */
module LRUList {
  import opened Common

  type Id = nat

  /** lru_ */
  const DUMMY: Id := 0

  /** The k-th stop of a walk that starts and ends at the dummy head. */
  function Stop(order: seq<Id>, k: nat): Id {
    if 1 <= k <= |order| then order[k - 1] else DUMMY
  }

  /** a and b point at each other. */
  predicate Joined(next: map<Id, Id>, prev: map<Id, Id>, a: Id, b: Id) {
    a in next && next[a] == b && b in prev && prev[b] == a
  }

  /** next and prev form one ring through the dummy head and exactly these handles, in this order; all
      other handles have null links. */
  ghost predicate Ring(next: map<Id, Id>, prev: map<Id, Id>, order: seq<Id>) {
    && Distinct(order) && DUMMY !in order
    && (forall k | 0 <= k <= |order| :: Joined(next, prev, Stop(order, k), Stop(order, k + 1)))
    && (forall e | e in next || e in prev :: e == DUMMY || e in order)
  }

  function InsertAt(order: seq<Id>, p: nat, e: Id): seq<Id>
    requires p <= |order|
  {
    order[..p] + [e] + order[p..]
  }

  function RemoveAt(order: seq<Id>, k: nat): seq<Id>
    requires k < |order|
  {
    order[..k] + order[k + 1..]
  }

  function NextInserted(next: map<Id, Id>, a: Id, e: Id): map<Id, Id>
    requires a in next
  {
    next[e := next[a]][a := e]
  }

  function PrevInserted(next: map<Id, Id>, prev: map<Id, Id>, a: Id, e: Id): map<Id, Id>
    requires a in next
  {
    prev[e := a][next[a] := e]
  }

  function NextRemoved(next: map<Id, Id>, prev: map<Id, Id>, e: Id): map<Id, Id>
    requires e in next && e in prev
  {
    next[prev[e] := next[e]] - {e}
  }

  function PrevRemoved(next: map<Id, Id>, prev: map<Id, Id>, e: Id): map<Id, Id>
    requires e in next && e in prev
  {
    prev[next[e] := prev[e]] - {e}
  }

  lemma StopInsert(order: seq<Id>, p: nat, e: Id, k: nat)
    requires p <= |order| && k <= |order| + 2
    ensures |InsertAt(order, p, e)| == |order| + 1
    ensures Stop(InsertAt(order, p, e), k) == if k <= p then Stop(order, k) else if k == p + 1 then e
              else Stop(order, k - 1)
  {
  }

  lemma StopRemove(order: seq<Id>, k: nat, i: nat)
    requires k < |order| && i <= |order|
    ensures |RemoveAt(order, k)| == |order| - 1
    ensures Stop(RemoveAt(order, k), i) == if i <= k then Stop(order, i) else Stop(order, i + 1)
  {
  }

  lemma DistinctStops(order: seq<Id>, i: nat, j: nat)
    requires Distinct(order) && DUMMY !in order && i < j <= |order|
    ensures Stop(order, i) != Stop(order, j)
  {
    assert order[j - 1] in order;
  }

  lemma InsertMembers(order: seq<Id>, p: nat, e: Id, x: Id)
    requires p <= |order|
    ensures x in InsertAt(order, p, e) <==> x in order || x == e
  {
    assert order == order[..p] + order[p..];
  }

  lemma RemoveMembers(order: seq<Id>, k: nat, x: Id)
    requires k < |order| && Distinct(order)
    ensures x in RemoveAt(order, k) <==> x in order && x != order[k]
  {
    assert order == order[..k] + [order[k]] + order[k + 1..];
    if x in RemoveAt(order, k) {
      var i :| 0 <= i < |RemoveAt(order, k)| && RemoveAt(order, k)[i] == x;
      assert x == if i < k then order[i] else order[i + 1];
    }
  }

  /** The list without e. */
  ghost function Without(order: seq<Id>, e: Id): seq<Id> {
    if e in order then var k: nat :| k < |order| && order[k] == e; RemoveAt(order, k) else order
  }

  lemma WithoutAt(order: seq<Id>, k: nat)
    requires k < |order| && Distinct(order)
    ensures Without(order, order[k]) == RemoveAt(order, k)
  {
    assert forall i: nat | i < |order| && order[i] == order[k] :: i == k;
  }

  /** The list with e entered: at its newest end, or as the newest of the low-priority pool. */
  function Entered(order: seq<Id>, low: nat, atEnd: bool, e: Id): seq<Id>
    requires low <= |order|
  {
    if atEnd then order + [e] else InsertAt(order, low, e)
  }

  lemma WithoutEntered(order: seq<Id>, low: nat, atEnd: bool, e: Id)
    requires low <= |order| && Distinct(order) && e !in order
    ensures Without(Entered(order, low, atEnd, e), e) == order
  {
    var k := if atEnd then |order| else low;
    assert Entered(order, low, atEnd, e) == InsertAt(order, k, e);
    DistinctInsert(order, k, e);
    WithoutAt(InsertAt(order, k, e), k);
    assert RemoveAt(InsertAt(order, k, e), k) == order;
  }

  lemma DistinctInsert(order: seq<Id>, p: nat, e: Id)
    requires Distinct(order) && p <= |order| && e !in order
    ensures Distinct(InsertAt(order, p, e))
  {
  }

  lemma DistinctRemove(order: seq<Id>, k: nat)
    requires Distinct(order) && k < |order|
    ensures Distinct(RemoveAt(order, k))
  {
  }

  /** Linking e in after the p-th stop. */
  lemma RingInsert(next: map<Id, Id>, prev: map<Id, Id>, order: seq<Id>, p: nat, e: Id)
    requires Ring(next, prev, order) && p <= |order| && e != DUMMY && e !in order
    ensures Stop(order, p) in next
    ensures Ring(NextInserted(next, Stop(order, p), e), PrevInserted(next, prev, Stop(order, p), e),
              InsertAt(order, p, e))
  {
    var a := Stop(order, p);
    assert Joined(next, prev, a, Stop(order, p + 1));
    var next', prev', order' := NextInserted(next, a, e), PrevInserted(next, prev, a, e), InsertAt(order, p, e);
    DistinctInsert(order, p, e);
    InsertMembers(order, p, e, DUMMY);
    forall k | 0 <= k <= |order'|
      ensures Joined(next', prev', Stop(order', k), Stop(order', k + 1))
    {
      StopInsert(order, p, e, k);
      StopInsert(order, p, e, k + 1);
      if k < p {
        assert Joined(next, prev, Stop(order, k), Stop(order, k + 1));
        DistinctStops(order, k, p);
      } else if k > p + 1 {
        assert Joined(next, prev, Stop(order, k - 1), Stop(order, k));
        DistinctStops(order, p, k - 1);
      }
    }
    forall x | x in next' || x in prev'
      ensures x == DUMMY || x in order'
    {
      InsertMembers(order, p, e, x);
    }
  }

  /** Unlinking the k-th handle. */
  lemma RingRemove(next: map<Id, Id>, prev: map<Id, Id>, order: seq<Id>, k: nat)
    requires Ring(next, prev, order) && k < |order|
    ensures order[k] in next && order[k] in prev && prev[order[k]] == Stop(order, k)
    ensures next[order[k]] == Stop(order, k + 2)
    ensures Ring(NextRemoved(next, prev, order[k]), PrevRemoved(next, prev, order[k]), RemoveAt(order, k))
  {
    var e := order[k];
    assert Joined(next, prev, Stop(order, k), Stop(order, k + 1));
    assert Joined(next, prev, Stop(order, k + 1), Stop(order, k + 2));
    var next', prev', order' := NextRemoved(next, prev, e), PrevRemoved(next, prev, e), RemoveAt(order, k);
    DistinctRemove(order, k);
    RemoveMembers(order, k, DUMMY);
    forall i | 0 <= i <= |order'|
      ensures Joined(next', prev', Stop(order', i), Stop(order', i + 1))
    {
      StopRemove(order, k, i);
      StopRemove(order, k, i + 1);
      if i < k {
        assert Joined(next, prev, Stop(order, i), Stop(order, i + 1));
        DistinctStops(order, i, k);
        DistinctStops(order, i, k + 1);
      } else if i == k {
        DistinctStops(order, k, k + 1);
      } else {
        assert Joined(next, prev, Stop(order, i + 1), Stop(order, i + 2));
        DistinctStops(order, k, i + 1);
        DistinctStops(order, k + 1, i + 1);
      }
    }
    forall x | x in next' || x in prev'
      ensures x == DUMMY || x in order'
    {
      RemoveMembers(order, k, x);
    }
  }

  // ---------------------------------------------------------------- charges

  function Sum(ids: seq<Id>, charge: map<Id, nat>): nat {
    if ids == [] then 0 else Sum(ids[..|ids| - 1], charge) + ChargeOf(ids[|ids| - 1], charge)
  }

  function ChargeOf(e: Id, charge: map<Id, nat>): nat {
    if e in charge then charge[e] else 0
  }

  lemma {:induction false} SumConcat(a: seq<Id>, b: seq<Id>, charge: map<Id, nat>)
    ensures Sum(a + b, charge) == Sum(a, charge) + Sum(b, charge)
  {
    if b == [] {
      assert a + b == a;
    } else {
      SumConcat(a, b[..|b| - 1], charge);
      assert (a + b)[..|a + b| - 1] == a + b[..|b| - 1];
    }
  }

  lemma SumOne(e: Id, charge: map<Id, nat>)
    ensures Sum([e], charge) == ChargeOf(e, charge)
  {
    assert [e][..0] == [];
  }

  lemma SumInsert(ids: seq<Id>, p: nat, e: Id, charge: map<Id, nat>)
    requires p <= |ids|
    ensures Sum(InsertAt(ids, p, e), charge) == Sum(ids, charge) + ChargeOf(e, charge)
  {
    SumConcat(ids[..p], [e], charge);
    SumConcat(ids[..p] + [e], ids[p..], charge);
    SumConcat(ids[..p], ids[p..], charge);
    assert ids[..p] + ids[p..] == ids;
    SumOne(e, charge);
  }

  lemma SumRemove(ids: seq<Id>, k: nat, charge: map<Id, nat>)
    requires k < |ids|
    ensures Sum(ids, charge) == Sum(RemoveAt(ids, k), charge) + ChargeOf(ids[k], charge)
  {
    SumInsert(RemoveAt(ids, k), k, ids[k], charge);
    assert InsertAt(RemoveAt(ids, k), k, ids[k]) == ids;
  }

  lemma {:induction false} SumSame(ids: seq<Id>, charge: map<Id, nat>, charge': map<Id, nat>)
    requires forall e | e in ids :: ChargeOf(e, charge) == ChargeOf(e, charge')
    ensures Sum(ids, charge) == Sum(ids, charge')
  {
    if ids != [] {
      assert forall e | e in ids[..|ids| - 1] :: e in ids;
      assert ids[|ids| - 1] in ids;
      SumSame(ids[..|ids| - 1], charge, charge');
    }
  }

  // ---------------------------------------------------------------- the list

  /** The first `low` handles form the low-priority pool, the others carry the high-priority flag. */
  ghost predicate Split(order: seq<Id>, low: nat, inHigh: set<Id>) {
    low <= |order| && forall k | 0 <= k < |order| :: order[k] in inHigh <==> k >= low
  }

  lemma RingBasics(next: map<Id, Id>, prev: map<Id, Id>, order: seq<Id>)
    requires Ring(next, prev, order)
    ensures Distinct(order) && DUMMY !in order && DUMMY in next && DUMMY in prev
    ensures next[DUMMY] == Stop(order, 1) && prev[DUMMY] == Stop(order, |order|)
  {
    assert Joined(next, prev, Stop(order, 0), Stop(order, 1));
    assert Joined(next, prev, Stop(order, |order|), Stop(order, |order| + 1));
  }

  lemma SplitBasics(order: seq<Id>, low: nat, inHigh: set<Id>, k: nat)
    requires Split(order, low, inHigh) && k < |order|
    ensures low <= |order| && (order[k] in inHigh <==> k >= low)
  {
  }

  function LowAfterRemove(low: nat, k: nat): nat {
    if k < low then low - 1 else low
  }

  lemma SplitRemove(order: seq<Id>, low: nat, inHigh: set<Id>, k: nat)
    requires Split(order, low, inHigh) && k < |order|
    ensures Split(RemoveAt(order, k), LowAfterRemove(low, k), inHigh)
  {
    var order' := RemoveAt(order, k);
    assert forall i | 0 <= i < |order'| :: order'[i] == if i < k then order[i] else order[i + 1];
  }

  /** lru_low_pri_ steps back when its own handle goes. */
  lemma LowPriRemove(order: seq<Id>, low: nat, k: nat)
    requires Distinct(order) && DUMMY !in order && low <= |order| && k < |order|
    ensures (Stop(order, low) == order[k] <==> low == k + 1)
    ensures Stop(RemoveAt(order, k), LowAfterRemove(low, k)) == if low == k + 1 then Stop(order, k)
              else Stop(order, low)
  {
    StopRemove(order, k, LowAfterRemove(low, k));
    if low < k + 1 {
      DistinctStops(order, low, k + 1);
    } else if low > k + 1 {
      DistinctStops(order, k + 1, low);
    }
  }

  lemma HighRemove(order: seq<Id>, low: nat, k: nat, charge: map<Id, nat>)
    requires low <= |order| && k < |order|
    ensures Sum(order[low..], charge) ==
              Sum(RemoveAt(order, k)[LowAfterRemove(low, k)..], charge) + if k >= low then ChargeOf(order[k], charge)
                  else 0
  {
    if k >= low {
      SumRemove(order[low..], k - low, charge);
      assert RemoveAt(order, k)[low..] == RemoveAt(order[low..], k - low);
    } else {
      assert RemoveAt(order, k)[low - 1..] == order[low..];
    }
  }

  lemma RingNext(next: map<Id, Id>, prev: map<Id, Id>, order: seq<Id>, k: nat)
    requires Ring(next, prev, order) && k <= |order|
    ensures Stop(order, k) in next && next[Stop(order, k)] == Stop(order, k + 1)
  {
    assert Joined(next, prev, Stop(order, k), Stop(order, k + 1));
  }

  /** The first handle of the high-priority pool overflows into the low-priority pool. */
  lemma Overflow(order: seq<Id>, low: nat, inHigh: set<Id>, charge: map<Id, nat>)
    requires Distinct(order) && Split(order, low, inHigh) && Sum(order[low..], charge) > 0
    ensures low < |order| && Split(order, low + 1, inHigh - {order[low]}) && Stop(order, low + 1) == order[low]
    ensures Sum(order[low..], charge) == ChargeOf(order[low], charge) + Sum(order[low + 1..], charge)
  {
    assert Sum([], charge) == 0;
    SumConcat([order[low]], order[low + 1..], charge);
    assert order[low..] == [order[low]] + order[low + 1..];
    SumOne(order[low], charge);
  }

  /** A new handle at the end of the high-priority pool. */
  lemma SplitAppend(order: seq<Id>, low: nat, inHigh: set<Id>, e: Id, charge: map<Id, nat>)
    requires Split(order, low, inHigh) && e !in order
    ensures InsertAt(order, |order|, e) == order + [e] && low <= |order| && Split(order + [e], low, inHigh + {e})
    ensures Stop(order + [e], low) == Stop(order, low)
    ensures Sum((order + [e])[low..], charge) == Sum(order[low..], charge) + ChargeOf(e, charge)
  {
    assert (order + [e])[low..] == order[low..] + [e];
    SumConcat(order[low..], [e], charge);
    SumOne(e, charge);
  }

  /** A new handle at the end of the low-priority pool. */
  lemma SplitInsert(order: seq<Id>, low: nat, inHigh: set<Id>, e: Id, charge: map<Id, nat>)
    requires Split(order, low, inHigh) && e !in order
    ensures low <= |order| && Split(InsertAt(order, low, e), low + 1, inHigh - {e})
    ensures Stop(InsertAt(order, low, e), low + 1) == e
    ensures InsertAt(order, low, e)[low + 1..] == order[low..]
  {
    StopInsert(order, low, e, low + 1);
    var order' := InsertAt(order, low, e);
    assert forall k | 0 <= k < |order'| ::
             order'[k] == if k < low then order[k] else if k == low then e else order[k - 1];
  }

  class LruList {
    var next: map<Id, Id>
    var prev: map<Id, Id>
    var lowPri: Id
    var inHigh: set<Id>
    var charge: map<Id, nat>
    var lruUsage: nat
    var highUsage: nat
    var ratio: real
    var highCapacity: real
    ghost var order: seq<Id>
    ghost var low: nat

    /** All but lru_usage_. */
    ghost predicate Linked()
      reads this
    {
      && Ring(next, prev, order) && low <= |order| && Split(order, low, inHigh) && lowPri == Stop(order, low)
      && highUsage == Sum(order[low..], charge) && highCapacity >= 0.0 && ratio >= 0.0
    }

    ghost predicate Valid()
      reads this
    {
      Linked() && lruUsage == Sum(order, charge)
    }

    constructor (ratio_: real, highCapacity_: real)
      requires ratio_ >= 0.0 && highCapacity_ >= 0.0
      ensures Valid() && order == [] && ratio == ratio_ && highCapacity == highCapacity_
    {
      next, prev, lowPri := map[DUMMY := DUMMY], map[DUMMY := DUMMY], DUMMY;
      inHigh, charge, lruUsage, highUsage := {}, map[], 0, 0;
      ratio, highCapacity := ratio_, highCapacity_;
      order, low := [], 0;
    }

    /** lru_.next: the oldest handle, or lru_ itself if the list is empty. */
    method First() returns (e: Id)
      requires Valid()
      ensures e == if order == [] then DUMMY else order[0]
    {
      RingBasics(next, prev, order);
      e := next[DUMMY];
    }

    /** LRU_Remove(), of the k-th handle. */
    method Remove(e: Id, ghost k: nat)
      requires Valid() && k < |order| && order[k] == e
      modifies this`next, this`prev, this`lowPri, this`lruUsage, this`highUsage, this`order, this`low
      ensures Valid() && order == RemoveAt(old(order), k) && old(lruUsage) == lruUsage + ChargeOf(e, charge)
      ensures low == LowAfterRemove(old(low), k)
    {
      hide Sum, Ring, Split, Stop, RemoveAt;
      RingBasics(next, prev, order);
      SplitBasics(order, low, inHigh, k);
      RingRemove(next, prev, order, k);
      SumRemove(order, k, charge);
      SplitRemove(order, low, inHigh, k);
      LowPriRemove(order, low, k);
      HighRemove(order, low, k, charge);
      if lowPri == e {
        lowPri := prev[e];
      }
      next, prev := NextRemoved(next, prev, e), PrevRemoved(next, prev, e);
      lruUsage := lruUsage - ChargeOf(e, charge);
      if e in inHigh {
        highUsage := highUsage - ChargeOf(e, charge);
      }
      order := RemoveAt(order, k);
      low := LowAfterRemove(low, k);
    }

    /** Overflow the high-priority pool into the low-priority pool, oldest first, until it fits. */
    method MaintainPoolSize()
      requires Linked()
      modifies this`lowPri, this`inHigh, this`highUsage, this`low
      ensures Linked() && old(low) <= low && highUsage as real <= highCapacity
      ensures low == old(low) || Sum(order[low - 1..], charge) as real > highCapacity
    {
      hide Sum, Ring, Split, Stop;
      RingBasics(next, prev, order);
      while highUsage as real > highCapacity
        invariant Linked() && old(low) <= low <= |order|
        invariant low == old(low) || Sum(order[low - 1..], charge) as real > highCapacity
        decreases |order| - low
      {
        Overflow(order, low, inHigh, charge);
        RingNext(next, prev, order, low);
        lowPri := next[lowPri];
        assert lowPri != DUMMY;
        inHigh := inHigh - {lowPri};
        highUsage := highUsage - ChargeOf(lowPri, charge);
        low := low + 1;
      }
    }

    /** LRU_Insert(), for a handle of high priority: it becomes the newest of all. */
    method InsertHigh(e: Id, c: nat)
      requires Valid() && e != DUMMY && e !in order
      modifies this`next, this`prev, this`lowPri, this`inHigh, this`charge, this`highUsage, this`order, this`low
      ensures Linked() && charge == old(charge)[e := c] && order == old(order) + [e]
      ensures Sum(order, charge) == lruUsage + c
      ensures old(low) <= low && highUsage as real <= highCapacity
      ensures low == old(low) || Sum(order[low - 1..], charge) as real > highCapacity
    {
      hide Sum, Ring, Split, Stop, InsertAt;
      RingBasics(next, prev, order);
      var charges := charge[e := c];
      SumSame(order, charge, charges);
      SumSame(order[low..], charge, charges) by { SuffixMembers(order, low); }
      SplitAppend(order, low, inHigh, e, charges);
      SumInsert(order, |order|, e, charges);
      RingInsert(next, prev, order, |order|, e);
      next, prev := NextInserted(next, prev[DUMMY], e), PrevInserted(next, prev, prev[DUMMY], e);
      inHigh := inHigh + {e};
      charge := charges;
      highUsage := highUsage + c;
      order := order + [e];
      MaintainPoolSize();
    }

    /** LRU_Insert(), otherwise: it becomes the newest of the low-priority pool. */
    method InsertLow(e: Id, c: nat)
      requires Valid() && e != DUMMY && e !in order
      modifies this`next, this`prev, this`lowPri, this`inHigh, this`charge, this`order, this`low
      ensures Linked() && charge == old(charge)[e := c] && order == InsertAt(old(order), old(low), e)
      ensures low == old(low) + 1
      ensures Sum(order, charge) == lruUsage + c
    {
      hide Sum, Ring, Split, Stop, InsertAt;
      RingBasics(next, prev, order);
      var charges := charge[e := c];
      SumSame(order, charge, charges);
      SumSame(order[low..], charge, charges) by { SuffixMembers(order, low); }
      SplitInsert(order, low, inHigh, e, charges);
      SumInsert(order, low, e, charges);
      RingInsert(next, prev, order, low, e);
      next, prev := NextInserted(next, lowPri, e), PrevInserted(next, prev, lowPri, e);
      inHigh := inHigh - {e};
      lowPri := e;
      charge := charges;
      order := InsertAt(order, low, e);
      low := low + 1;
    }

    /** LRU_Insert(). */
    method Insert(e: Id, c: nat, high: bool)
      requires Valid() && e != DUMMY && e !in order
      modifies this`next, this`prev, this`lowPri, this`inHigh, this`charge, this`lruUsage, this`highUsage, this`order,
                 this`low
      ensures Valid() && charge == old(charge)[e := c] && lruUsage == old(lruUsage) + c
      ensures order == Entered(old(order), old(low), ratio > 0.0 && high, e)
      ensures ratio > 0.0 && high ==> old(low) <= low && highUsage as real <= highCapacity
      ensures ratio > 0.0 && high ==> low == old(low) || Sum(order[low - 1..], charge) as real > highCapacity
      ensures !(ratio > 0.0 && high) ==> low == old(low) + 1 && highUsage == old(highUsage)
    {
      hide Sum, Ring, Split, Stop, InsertAt;
      if ratio > 0.0 && high {
        InsertHigh(e, c);
      } else {
        InsertLow(e, c);
      }
      lruUsage := lruUsage + c;
    }

    /** SetHighPriorityPoolRatio(). */
    method SetRatio(ratio_: real, highCapacity_: real)
      requires Valid() && ratio_ >= 0.0 && highCapacity_ >= 0.0
      modifies this`ratio, this`highCapacity, this`lowPri, this`inHigh, this`highUsage, this`low
      ensures Valid() && ratio == ratio_ && highCapacity == highCapacity_
      ensures highUsage as real <= highCapacity && old(low) <= low
      ensures low == old(low) || Sum(order[low - 1..], charge) as real > highCapacity
    {
      ratio, highCapacity := ratio_, highCapacity_;
      MaintainPoolSize();
    }
  }

  lemma SuffixMembers(order: seq<Id>, low: nat)
    requires low <= |order|
    ensures forall e | e in order[low..] :: e in order
  {
  }
}
