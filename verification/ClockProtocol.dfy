/** The concurrent side of ClockCacheShard: lookups and releases work on a handle's atomic flags without
    the mutex, while evictions, inserts and erases change the table under it. Every atomic operation on a
    handle's flags is a step of its own, so any interleaving of them is a run. */
module ClockProtocol {
  import opened Common

  type Id = nat
  type Key = int

  /** A cache handle of list_. The flags word is inCache, usage and refs; `binned` says that it is in
      recycle_; fills and recycles count how often it was filled and recycled. */
  datatype Handle = Handle(key: Key, charge: nat, inCache: bool, usage: bool, refs: nat, binned: bool, fills: nat,
      recycles: nat)

  /** What a handle holds: the key, and which fill of the handle it is. */
  datatype Entry = Entry(key: Key, fill: nat)

  /** A Lookup() or Release() call between two atomic operations. `force` says that Release() will erase the
      entry by its key, `was` which entry it released. */
  datatype Call =
    | Found(key: Key, h: Id)        // the table named h; Ref() comes next
    | Referenced(key: Key, h: Id)   // Ref() succeeded; the key check comes next
    | Marking(h: Id, force: bool)   // Unref() is about to set the usage bit
    | Dropping(h: Id, force: bool)  // Unref() is about to take its reference off
    | Unpinning(h: Id, force: bool, was: Entry) // took the last one off a cached entry; pinned_usage_ comes next
    | Recycling(h: Id)              // took the last one off an erased entry; waits for the mutex
    | Forcing(h: Id, was: Entry)    // Unref() recycled nothing; the key is read next
    | Erasing(h: Id, read: Option<Entry>, was: Entry) // the key is read; waits for the mutex

  /** How far the owner of the mutex has got. */
  datatype Stage =
    | Free                          // nobody holds the mutex
    | Rest
    | Evicted(h: Id)                // TryEvict() cleared the flags of h; the table still names it
    | Filled(h: Id, hold: bool)     // Insert() filled h; it is not in the table yet
    | Clearing(i: Id)               // EraseUnRefEntries() emptied the table and is at list_[i]
    | Unsetting(h: Id, next: Stage) // h is out of the table; its in-cache bit is cleared next
    | Discarding(h: Id, next: Stage) // RecycleHandle(h) comes next

  /** A reference in the hands of the user: the handle, and the key that was asked for. */
  datatype Pin = Pin(h: Id, key: Key)

  datatype State = State(
    list: seq<Handle>,
    table: map<Key, Id>,
    usage: int,
    pinned: int,                    // pinned_usage_, before any wrap-around
    pins: map<nat, Pin>,
    calls: map<nat, Call>,
    stage: Stage)

  const Init := State([], map[], 0, 0, map[], map[], Free)

  // ---------------------------------------------------------------- lookup and release, without the mutex

  predicate CanFind(s: State, c: nat, key: Key) {
    c !in s.calls && key in s.table
  }

  function DoFind(s: State, c: nat, key: Key): State
    requires CanFind(s, c, key)
  {
    s.(calls := s.calls[c := Found(key, s.table[key])])
  }

  predicate CanRef(s: State, c: nat) {
    c in s.calls && s.calls[c].Found? && s.calls[c].h < |s.list|
  }

  /** What the first reference adds to pinned_usage_. Its holder keeps the charge from changing, so it
      makes no difference that the addition is a separate atomic operation. */
  function FirstRef(x: Handle): nat {
    if x.refs == 0 then x.charge else 0
  }

  /** Ref(): the compare-and-swap succeeds on an in-cache handle; otherwise the lookup fails. */
  function DoRef(s: State, c: nat): State
    requires CanRef(s, c)
  {
    var h := s.calls[c].h;
    if s.list[h].inCache then
      s.(list := s.list[h := s.list[h].(refs := s.list[h].refs + 1)], calls :=
        s.calls[c := Referenced(s.calls[c].key, h)],
         pinned := s.pinned + FirstRef(s.list[h]))
    else s.(calls := s.calls - {c})
  }

  predicate CanCheckKey(s: State, c: nat, p: nat) {
    c in s.calls && s.calls[c].Referenced? && s.calls[c].h < |s.list| && p !in s.pins
  }

  /** The double check of the key: the handle may have been refilled. */
  function DoCheckKey(s: State, c: nat, p: nat): State
    requires CanCheckKey(s, c, p)
  {
    var call := s.calls[c];
    if s.list[call.h].key == call.key then s.(calls := s.calls - {c}, pins := s.pins[p := Pin(call.h, call.key)])
    else s.(calls := s.calls[c := Dropping(call.h, false)])
  }

  predicate CanRefAgain(s: State, p: nat, q: nat) {
    p in s.pins && q !in s.pins && s.pins[p].h < |s.list|
  }

  /** Ref() called by the user on a handle it holds. */
  function DoRefAgain(s: State, p: nat, q: nat): State
    requires CanRefAgain(s, p, q)
  {
    var h := s.pins[p].h;
    if s.list[h].inCache then
      s.(list := s.list[h := s.list[h].(refs := s.list[h].refs + 1)], pins := s.pins[q := s.pins[p]])
    else s
  }

  predicate CanRelease(s: State, c: nat, p: nat) {
    c !in s.calls && p in s.pins
  }

  function DoRelease(s: State, c: nat, p: nat, force: bool): State
    requires CanRelease(s, c, p)
  {
    s.(calls := s.calls[c := Marking(s.pins[p].h, force)], pins := s.pins - {p})
  }

  predicate CanMark(s: State, c: nat) {
    c in s.calls && s.calls[c].Marking? && s.calls[c].h < |s.list|
  }

  function DoMark(s: State, c: nat): State
    requires CanMark(s, c)
  {
    var h := s.calls[c].h;
    s.(list := s.list[h := s.list[h].(usage := true)], calls := s.calls[c := Dropping(h, s.calls[c].force)])
  }

  predicate CanDrop(s: State, c: nat) {
    c in s.calls && s.calls[c].Dropping? && s.calls[c].h < |s.list|
  }

  function Held(x: Handle): Entry {
    Entry(x.key, x.fills)
  }

  /** A release that recycled nothing is over, unless it is to erase the entry. */
  function Done(calls: map<nat, Call>, c: nat, force: bool, h: Id, was: Entry): map<nat, Call> {
    if force then calls[c := Forcing(h, was)] else calls - {c}
  }

  /** The fetch_sub of Unref(). An erased entry stays as it is until it is recycled, so its charge can
      be taken off pinned_usage_ at once; for a cached one that is a step of its own. */
  function DoDrop(s: State, c: nat): State
    requires CanDrop(s, c)
  {
    var h, force := s.calls[c].h, s.calls[c].force;
    var x := s.list[h];
    s.(list := s.list[h := x.(refs := if x.refs == 0 then 0 else x.refs - 1)],
       calls := if x.refs != 1 then Done(s.calls, c, force, h, Held(x))
                else s.calls[c := if x.inCache then Unpinning(h, force, Held(x)) else Recycling(h)],
       pinned := if x.refs == 1 && !x.inCache then s.pinned - x.charge else s.pinned)
  }

  predicate CanUnpin(s: State, c: nat) {
    c in s.calls && s.calls[c].Unpinning? && s.calls[c].h < |s.list|
  }

  /** The fetch_sub on pinned_usage_, with whatever charge the handle has by now. */
  function DoUnpin(s: State, c: nat): State
    requires CanUnpin(s, c)
  {
    var call := s.calls[c];
    s.(calls := Done(s.calls, c, call.force, call.h, call.was), pinned := s.pinned - s.list[call.h].charge)
  }

  predicate CanReadKey(s: State, c: nat) {
    c in s.calls && s.calls[c].Forcing? && s.calls[c].h < |s.list|
  }

  /** A forced Release() reads the key of the handle it no longer refers to. RecycleHandle() clears the key. */
  function DoReadKey(s: State, c: nat): State
    requires CanReadKey(s, c)
  {
    var call := s.calls[c];
    var x := s.list[call.h];
    s.(calls := s.calls[c := Erasing(call.h, if x.binned then None else Some(Held(x)), call.was)])
  }

  predicate CanForceErase(s: State, c: nat) {
    c in s.calls && s.calls[c].Erasing? && s.stage.Free?
  }

  /** EraseAndConfirm() of a forced Release(): it takes the mutex and the key out of the table. */
  function DoForceErase(s: State, c: nat): State
    requires CanForceErase(s, c)
  {
    var read := s.calls[c].read;
    if read.Some? && read.value.key in s.table then
      s.(calls := s.calls - {c}, table := s.table - {read.value.key}, stage := Unsetting(s.table[read.value.key], Rest))
    else s.(calls := s.calls - {c})
  }

  function Recycled(x: Handle): Handle {
    x.(binned := true, recycles := x.recycles + 1)
  }

  predicate CanRecycle(s: State, c: nat) {
    c in s.calls && s.calls[c].Recycling? && s.calls[c].h < |s.list| && s.stage.Free?
  }

  /** RecycleHandle() at the end of Unref(), a mutex section of its own. */
  function DoRecycle(s: State, c: nat): State
    requires CanRecycle(s, c)
  {
    var h := s.calls[c].h;
    s.(list := s.list[h := Recycled(s.list[h])], usage := s.usage - s.list[h].charge, calls := s.calls - {c})
  }

  // ---------------------------------------------------------------- under the mutex

  predicate CanEvict(s: State, h: Id) {
    s.stage.Rest? && h < |s.list| && s.list[h].inCache && !s.list[h].usage && s.list[h].refs == 0
  }

  /** The compare-and-swap of TryEvict(). */
  function DoEvict(s: State, h: Id): State
    requires CanEvict(s, h)
  {
    s.(list := s.list[h := s.list[h].(inCache := false)], stage := Evicted(h))
  }

  predicate CanClearUsage(s: State, h: Id) {
    s.stage.Rest? && h < |s.list|
  }

  function DoClearUsage(s: State, h: Id): State
    requires CanClearUsage(s, h)
  {
    s.(list := s.list[h := s.list[h].(usage := false)])
  }

  predicate CanEvictErase(s: State) {
    s.stage.Evicted? && s.stage.h < |s.list|
  }

  function DoEvictErase(s: State): State
    requires CanEvictErase(s)
  {
    s.(table := s.table - {s.list[s.stage.h].key}, stage := Discarding(s.stage.h, Rest))
  }

  predicate CanDiscard(s: State) {
    s.stage.Discarding? && s.stage.h < |s.list|
  }

  /** RecycleHandle(). */
  function DoDiscard(s: State): State
    requires CanDiscard(s)
  {
    var h := s.stage.h;
    s.(list := s.list[h := Recycled(s.list[h])], usage := s.usage - s.list[h].charge, stage := s.stage.next)
  }

  predicate CanErase(s: State, key: Key) {
    s.stage.Rest? && key in s.table
  }

  function DoErase(s: State, key: Key): State
    requires CanErase(s, key)
  {
    s.(table := s.table - {key}, stage := Unsetting(s.table[key], Rest))
  }

  predicate CanUnset(s: State) {
    s.stage.Unsetting? && s.stage.h < |s.list|
  }

  /** The fetch_and of UnsetInCache(), which recycles only what it took out of the cache itself. */
  function DoUnset(s: State): State
    requires CanUnset(s)
  {
    var h := s.stage.h;
    s.(list := s.list[h := s.list[h].(inCache := false)],
       stage := if s.list[h].inCache && s.list[h].refs == 0 then Discarding(h, s.stage.next) else s.stage.next)
  }

  /** A handle of the list; one that does not exist yet counts as an empty handle in the bin. */
  function HandleAt(list: seq<Handle>, h: Id): Handle {
    if h < |list| then list[h] else Handle(0, 0, false, false, 0, true, 0, 0)
  }

  predicate CanFill(s: State, h: Id) {
    s.stage.Rest? && h < |s.list| && s.list[h].binned
  }

  function Filling(was: Handle, key: Key, charge: nat, hold: bool): Handle {
    Handle(key, charge, true, false, Bit(hold), false, was.fills + 1, was.recycles)
  }

  /** Insert() takes a handle from the bin and fills it. */
  function DoFill(s: State, h: Id, key: Key, charge: nat, hold: bool): State
    requires CanFill(s, h)
  {
    s.(list := s.list[h := Filling(s.list[h], key, charge, hold)], stage := Filled(h, hold))
  }

  predicate CanAppend(s: State) {
    s.stage.Rest? && forall x | x in s.list :: !x.binned
  }

  /** Insert() appends a handle, if the bin is empty, and fills it. */
  function DoAppend(s: State, key: Key, charge: nat, hold: bool): State
    requires CanAppend(s)
  {
    s.(list := s.list + [Filling(HandleAt(s.list, |s.list|), key, charge, hold)], stage := Filled(|s.list|, hold))
  }

  predicate CanDisplace(s: State) {
    s.stage.Filled? && s.stage.h < |s.list| && s.list[s.stage.h].key in s.table
  }

  /** Insert() takes the older entry of the same key out of the table. */
  function DoDisplace(s: State): State
    requires CanDisplace(s)
  {
    var key := s.list[s.stage.h].key;
    s.(table := s.table - {key}, stage := Unsetting(s.table[key], s.stage))
  }

  predicate CanPublish(s: State, p: nat) {
    s.stage.Filled? && s.stage.h < |s.list| && s.list[s.stage.h].key !in s.table && p !in s.pins
  }

  /** Insert() enters the new handle in the table, charges it and returns it. */
  function DoPublish(s: State, p: nat): State
    requires CanPublish(s, p)
  {
    var h := s.stage.h;
    s.(table := s.table[s.list[h].key := h], usage := s.usage + s.list[h].charge, stage := Free,
       pins := if s.stage.hold then s.pins[p := Pin(h, s.list[h].key)] else s.pins,
       pinned := if s.stage.hold then s.pinned + s.list[h].charge else s.pinned)
  }

  predicate CanClear(s: State) {
    s.stage.Rest?
  }

  function DoClear(s: State): State {
    s.(table := map[], stage := Clearing(0))
  }

  predicate CanClearOne(s: State) {
    s.stage.Clearing? && s.stage.i < |s.list|
  }

  function DoClearOne(s: State): State
    requires CanClearOne(s)
  {
    s.(stage := Unsetting(s.stage.i, Clearing(s.stage.i + 1)))
  }

  predicate CanUnlock(s: State) {
    s.stage.Rest? || (s.stage.Clearing? && s.stage.i >= |s.list|)
  }

  // ---------------------------------------------------------------- all steps

  datatype Action =
    | Find(c: nat, key: Key)
    | Ref(c: nat)
    | CheckKey(c: nat, p: nat)
    | RefAgain(p: nat, q: nat)
    | Release(c: nat, p: nat, force: bool)
    | Mark(c: nat)
    | Drop(c: nat)
    | Unpin(c: nat)
    | Recycle(c: nat)
    | ReadKey(c: nat)
    | ForceErase(c: nat)
    | Lock
    | Evict(h: Id)
    | ClearUsage(h: Id)
    | EvictErase
    | Discard
    | Erase(key: Key)
    | Unset
    | Fill(h: Id, key: Key, charge: nat, hold: bool)
    | Append(key: Key, charge: nat, hold: bool)
    | Displace
    | Publish(p: nat)
    | Clear
    | ClearOne
    | Unlock

  predicate Enabled(s: State, a: Action) {
    match a
    case Find(c, key) => CanFind(s, c, key)
    case Ref(c) => CanRef(s, c)
    case CheckKey(c, p) => CanCheckKey(s, c, p)
    case RefAgain(p, q) => CanRefAgain(s, p, q)
    case Release(c, p, force) => CanRelease(s, c, p)
    case Mark(c) => CanMark(s, c)
    case Drop(c) => CanDrop(s, c)
    case Unpin(c) => CanUnpin(s, c)
    case Recycle(c) => CanRecycle(s, c)
    case ReadKey(c) => CanReadKey(s, c)
    case ForceErase(c) => CanForceErase(s, c)
    case Lock => s.stage.Free?
    case Evict(h) => CanEvict(s, h)
    case ClearUsage(h) => CanClearUsage(s, h)
    case EvictErase => CanEvictErase(s)
    case Discard => CanDiscard(s)
    case Erase(key) => CanErase(s, key)
    case Unset => CanUnset(s)
    case Fill(h, key, charge, hold) => CanFill(s, h)
    case Append(key, charge, hold) => CanAppend(s)
    case Displace => CanDisplace(s)
    case Publish(p) => CanPublish(s, p)
    case Clear => CanClear(s)
    case ClearOne => CanClearOne(s)
    case Unlock => CanUnlock(s)
  }

  function Apply(s: State, a: Action): State
    requires Enabled(s, a)
  {
    match a
    case Find(c, key) => DoFind(s, c, key)
    case Ref(c) => DoRef(s, c)
    case CheckKey(c, p) => DoCheckKey(s, c, p)
    case RefAgain(p, q) => DoRefAgain(s, p, q)
    case Release(c, p, force) => DoRelease(s, c, p, force)
    case Mark(c) => DoMark(s, c)
    case Drop(c) => DoDrop(s, c)
    case Unpin(c) => DoUnpin(s, c)
    case Recycle(c) => DoRecycle(s, c)
    case ReadKey(c) => DoReadKey(s, c)
    case ForceErase(c) => DoForceErase(s, c)
    case Lock => s.(stage := Rest)
    case Evict(h) => DoEvict(s, h)
    case ClearUsage(h) => DoClearUsage(s, h)
    case EvictErase => DoEvictErase(s)
    case Discard => DoDiscard(s)
    case Erase(key) => DoErase(s, key)
    case Unset => DoUnset(s)
    case Fill(h, key, charge, hold) => DoFill(s, h, key, charge, hold)
    case Append(key, charge, hold) => DoAppend(s, key, charge, hold)
    case Displace => DoDisplace(s)
    case Publish(p) => DoPublish(s, p)
    case Clear => DoClear(s)
    case ClearOne => DoClearOne(s)
    case Unlock => s.(stage := Free)
  }

  // ---------------------------------------------------------------- who refers to a handle

  function RefOf(call: Call): Option<Id> {
    if call.Referenced? || call.Marking? || call.Dropping? then Some(call.h) else None
  }

  function RecyclerOf(call: Call): Option<Id> {
    if call.Recycling? then Some(call.h) else None
  }

  function PinOf(pin: Pin): Option<Id> {
    Some(pin.h)
  }

  /** The handle Insert() has filled and not published yet. */
  function FillOf(stage: Stage): Option<Id> {
    match stage
    case Filled(h, hold) => Some(h)
    case Unsetting(h, next) => FillOf(next)
    case Discarding(h, next) => FillOf(next)
    case _ => None
  }

  /** The reference Insert() is about to return. */
  function StageRef(stage: Stage): Option<Id> {
    match stage
    case Filled(h, hold) => if hold then Some(h) else None
    case Unsetting(h, next) => StageRef(next)
    case Discarding(h, next) => StageRef(next)
    case _ => None
  }

  /** The handle the mutex owner is about to recycle. */
  function StageRecycler(stage: Stage): Option<Id> {
    match stage
    case Evicted(h) => Some(h)
    case Discarding(h, next) => Some(h)
    case _ => None
  }

  function Which<T>(m: map<nat, T>, f: T -> Option<Id>, h: Id): set<nat> {
    set c | c in m && f(m[c]) == Some(h)
  }

  function Count<T>(m: map<nat, T>, f: T -> Option<Id>, h: Id): nat {
    |Which(m, f, h)|
  }

  function Refs(s: State, h: Id): nat {
    Count(s.calls, RefOf, h) + Count(s.pins, PinOf, h) + Bit(StageRef(s.stage) == Some(h))
  }

  function Recyclers(s: State, h: Id): nat {
    Count(s.calls, RecyclerOf, h) + Bit(StageRecycler(s.stage) == Some(h))
  }

  // ---------------------------------------------------------------- the invariant

  /** The flags count the references; a handle in the bin is out of the cache, unreferenced and awaits
      nobody; one outside has been filled once more than recycled, and somebody is about to recycle it
      exactly if it is out of the cache without references. */
  ghost predicate HandleOk(x: Handle, refs: nat, recyclers: nat) {
    && x.refs == refs
    && (x.binned ==> !x.inCache && refs == 0 && recyclers == 0 && x.recycles == x.fills)
    && (!x.binned ==> x.fills == x.recycles + 1 && recyclers == if x.inCache || refs > 0 then 0 else 1)
  }

  ghost predicate CountedAt(s: State, h: Id) {
    HandleOk(HandleAt(s.list, h), Refs(s, h), Recyclers(s, h))
  }

  ghost predicate Counted(s: State) {
    forall h: Id :: CountedAt(s, h)
  }

  /** The table still names h, which TryEvict() has just taken out of the cache. */
  predicate Gone(stage: Stage, h: Id) {
    stage == Evicted(h)
  }

  /** In-cache handles that the running section has not entered yet, or has already taken out. */
  predicate Absent(stage: Stage, h: Id) {
    match stage
    case Filled(g, hold) => h == g
    case Clearing(i) => h >= i
    case Unsetting(g, next) => h == g || Absent(next, h)
    case Discarding(g, next) => Absent(next, h)
    case _ => false
  }

  ghost predicate TableOk(list: seq<Handle>, table: map<Key, Id>, stage: Stage) {
    && (forall k | k in table :: EntryOk(list, table[k], k, stage))
    && (forall h | 0 <= h < |list| && list[h].inCache && !Absent(stage, h) ::
         list[h].key in table && table[list[h].key] == h)
    && (stage.Evicted? && stage.h < |list| ==> list[stage.h].key in table && table[list[stage.h].key] == stage.h)
  }

  predicate EntryOk(list: seq<Handle>, h: Id, k: Key, stage: Stage) {
    h < |list| && list[h].key == k && !list[h].binned && (list[h].inCache || Gone(stage, h)) && !Absent(stage, h)
  }

  /** The handles a stage names exist, and a filled one is in the cache. */
  ghost predicate StageOk(list: seq<Handle>, stage: Stage) {
    match stage
    case Evicted(h) => h < |list|
    case Filled(h, hold) => h < |list| && list[h].inCache
    case Unsetting(h, next) => h < |list| && h != FillOr(next, |list|) && StageOk(list, next) && Resumes(next)
    case Discarding(h, next) => h < |list| && h != FillOr(next, |list|) && StageOk(list, next) && Resumes(next)
    case _ => true
  }

  function FillOr(stage: Stage, none: Id): Id {
    if FillOf(stage).Some? then FillOf(stage).value else none
  }

  predicate Resumes(stage: Stage) {
    stage.Rest? || stage.Filled? || stage.Clearing?
  }

  ghost predicate CallsOk(list: seq<Handle>, calls: map<nat, Call>) {
    forall c | c in calls :: calls[c].h < |list|
  }

  /** A pinned handle keeps the key it was looked up or inserted with. */
  ghost predicate PinsOk(list: seq<Handle>, pins: map<nat, Pin>) {
    forall p | p in pins :: pins[p].h < |list| && list[pins[p].h].key == pins[p].key
  }

  function Charge(x: Handle): nat {
    if x.binned then 0 else x.charge
  }

  /** The charges of all handles outside the bin. */
  function Charges(list: seq<Handle>): nat {
    if list == [] then 0 else Charges(list[..|list| - 1]) + Charge(list[|list| - 1])
  }

  /** What Insert() has filled and not charged yet. */
  function Uncharged(list: seq<Handle>, stage: Stage): nat {
    if FillOf(stage).Some? && FillOf(stage).value < |list| then list[FillOf(stage).value].charge else 0
  }

  ghost predicate UsageOk(s: State) {
    s.usage + Uncharged(s.list, s.stage) == Charges(s.list)
  }

  ghost predicate Inv(s: State) {
    && Counted(s) && TableOk(s.list, s.table, s.stage) && StageOk(s.list, s.stage)
    && CallsOk(s.list, s.calls) && PinsOk(s.list, s.pins) && UsageOk(s)
  }

  // ---------------------------------------------------------------- counting

  lemma CountPut<T>(m: map<nat, T>, f: T -> Option<Id>, c: nat, x: T, h: Id)
    ensures Count(m[c := x], f, h) + Bit(c in m && f(m[c]) == Some(h)) == Count(m, f, h) + Bit(f(x) == Some(h))
  {
    WhichPut(m, f, c, x, h);
    assert c in Which(m, f, h) <==> c in m && f(m[c]) == Some(h);
    hide Which;
  }

  lemma WhichPut<T>(m: map<nat, T>, f: T -> Option<Id>, c: nat, x: T, h: Id)
    ensures Which(m[c := x], f, h) == (Which(m, f, h) - {c}) + (if f(x) == Some(h) then {c} else {})
  {
    var m' := m[c := x];
    forall d: nat
      ensures d in Which(m', f, h) <==> d in (Which(m, f, h) - {c}) + (if f(x) == Some(h) then {c} else {})
    {
      assert d in m' <==> d in m || d == c;
    }
  }

  lemma CountCut<T>(m: map<nat, T>, f: T -> Option<Id>, c: nat, h: Id)
    requires c in m
    ensures Count(m - {c}, f, h) + Bit(f(m[c]) == Some(h)) == Count(m, f, h)
  {
    assert Which(m - {c}, f, h) == Which(m, f, h) - {c};
  }

  lemma {:induction false} ChargesUpdate(list: seq<Handle>, h: Id, x: Handle)
    requires h < |list|
    ensures Charges(list[h := x]) + Charge(list[h]) == Charges(list) + Charge(x)
  {
    var n := |list| - 1;
    if h == n {
      assert list[h := x][..n] == list[..n];
    } else {
      ChargesUpdate(list[..n], h, x);
      assert list[h := x][..n] == list[..n][h := x];
    }
  }

  function CallRef(calls: map<nat, Call>, c: nat): Option<Id> {
    if c in calls then RefOf(calls[c]) else None
  }

  function CallRecycler(calls: map<nat, Call>, c: nat): Option<Id> {
    if c in calls then RecyclerOf(calls[c]) else None
  }

  function PinRef(pins: map<nat, Pin>, p: nat): Option<Id> {
    if p in pins then Some(pins[p].h) else None
  }

  /** Only call c, pin p and the stage change. */
  ghost predicate Moves(s: State, s': State, c: nat, p: nat) {
    && (s'.calls == s.calls || s'.calls == s.calls - {c} || (c in s'.calls && s'.calls == s.calls[c := s'.calls[c]]))
    && (s'.pins == s.pins || s'.pins == s.pins - {p} || (p in s'.pins && s'.pins == s.pins[p := s'.pins[p]]))
  }

  lemma CountCalls(s: State, s': State, c: nat, p: nat, i: Id)
    requires Moves(s, s', c, p)
    ensures Count(s'.calls, RefOf, i) + Bit(CallRef(s.calls, c) == Some(i)) ==
              Count(s.calls, RefOf, i) + Bit(CallRef(s'.calls, c) == Some(i))
    ensures Count(s'.calls, RecyclerOf, i) + Bit(CallRecycler(s.calls, c) == Some(i)) ==
              Count(s.calls, RecyclerOf, i) + Bit(CallRecycler(s'.calls, c) == Some(i))
  {
    hide Count;
    if s'.calls == s.calls || (c !in s.calls && s'.calls == s.calls - {c}) {
      assert s'.calls == s.calls;
    } else if s'.calls == s.calls - {c} {
      CountCut(s.calls, RefOf, c, i);
      CountCut(s.calls, RecyclerOf, c, i);
    } else {
      CountPut(s.calls, RefOf, c, s'.calls[c], i);
      CountPut(s.calls, RecyclerOf, c, s'.calls[c], i);
    }
  }

  lemma CountPins(s: State, s': State, c: nat, p: nat, i: Id)
    requires Moves(s, s', c, p)
    ensures Count(s'.pins, PinOf, i) + Bit(PinRef(s.pins, p) == Some(i)) ==
              Count(s.pins, PinOf, i) + Bit(PinRef(s'.pins, p) == Some(i))
  {
    hide Count;
    if s'.pins == s.pins || (p !in s.pins && s'.pins == s.pins - {p}) {
      assert s'.pins == s.pins;
    } else if s'.pins == s.pins - {p} {
      CountCut(s.pins, PinOf, p, i);
    } else {
      CountPut(s.pins, PinOf, p, s'.pins[p], i);
    }
  }

  /** How many references to i sit in the places that may change. */
  function RefsHere(s: State, c: nat, p: nat, i: Id): nat {
    Bit(CallRef(s.calls, c) == Some(i)) + Bit(PinRef(s.pins, p) == Some(i)) + Bit(StageRef(s.stage) == Some(i))
  }

  function RecyclersHere(s: State, c: nat, i: Id): nat {
    Bit(CallRecycler(s.calls, c) == Some(i)) + Bit(StageRecycler(s.stage) == Some(i))
  }

  /** All other places keep their references: the totals follow the changed places. */
  lemma Recount(s: State, s': State, c: nat, p: nat, i: Id)
    requires Moves(s, s', c, p)
    ensures Refs(s', i) + RefsHere(s, c, p, i) == Refs(s, i) + RefsHere(s', c, p, i)
    ensures Recyclers(s', i) + RecyclersHere(s, c, i) == Recyclers(s, i) + RecyclersHere(s', c, i)
  {
    hide Count, Moves;
    CountCalls(s, s', c, p, i);
    CountPins(s, s', c, p, i);
  }

  /** Every handle but h is untouched and referred to as before. */
  ghost predicate Elsewhere(s: State, s': State, c: nat, p: nat, h: Id) {
    forall i: Id | i != h ::
      && HandleAt(s'.list, i) == HandleAt(s.list, i)
      && RefsHere(s', c, p, i) == RefsHere(s, c, p, i)
      && RecyclersHere(s', c, i) == RecyclersHere(s, c, i)
  }

  lemma CountedStep(s: State, s': State, c: nat, p: nat, h: Id)
    requires Counted(s) && Moves(s, s', c, p) && Elsewhere(s, s', c, p, h) && CountedAt(s', h)
    ensures Counted(s')
  {
    hide Refs, Recyclers, RefsHere, RecyclersHere, HandleOk, HandleAt, Moves;
    forall i: Id
      ensures CountedAt(s', i)
    {
      if i != h {
        Recount(s, s', c, p, i);
        assert CountedAt(s, i);
      }
    }
  }

  // ---------------------------------------------------------------- list, table, stage and usage

  /** The handles keep key, charge and their place in or out of cache and bin. */
  ghost predicate Alike(list: seq<Handle>, list': seq<Handle>) {
    && |list'| == |list|
    && forall i | 0 <= i < |list| ::
         && list'[i].key == list[i].key && list'[i].charge == list[i].charge
         && list'[i].inCache == list[i].inCache && list'[i].binned == list[i].binned
  }

  lemma {:induction false} AlikeCharges(list: seq<Handle>, list': seq<Handle>)
    requires Alike(list, list')
    ensures Charges(list') == Charges(list)
  {
    if list != [] {
      AlikeCharges(list[..|list| - 1], list'[..|list| - 1]);
    }
  }

  lemma {:induction false} AlikeStage(list: seq<Handle>, list': seq<Handle>, stage: Stage)
    requires Alike(list, list') && StageOk(list, stage)
    ensures StageOk(list', stage)
  {
    match stage
    case Unsetting(h, next) => AlikeStage(list, list', next);
    case Discarding(h, next) => AlikeStage(list, list', next);
    case _ =>
  }

  /** What a step without the mutex keeps. */
  ghost predicate Shared(s: State) {
    TableOk(s.list, s.table, s.stage) && StageOk(s.list, s.stage) && UsageOk(s)
  }

  lemma AlikeShared(s: State, s': State)
    requires Shared(s) && Alike(s.list, s'.list) && s'.table == s.table && s'.stage == s.stage && s'.usage == s.usage
    ensures Shared(s')
  {
    AlikeCharges(s.list, s'.list);
    AlikeStage(s.list, s'.list, s.stage);
    hide StageOk, Charges;
    assert forall k, h: Id :: EntryOk(s.list, h, k, s.stage) ==> EntryOk(s'.list, h, k, s'.stage);
  }

  // ---------------------------------------------------------------- every step keeps the invariant

  /** A place keeps what it refers to, or changes between h and nothing. */
  predicate OnlyAbout(o: Option<Id>, o': Option<Id>, h: Id) {
    o == o' || ((o == None || o == Some(h)) && (o' == None || o' == Some(h)))
  }

  ghost predicate AllAbout(s: State, s': State, c: nat, p: nat, h: Id) {
    && OnlyAbout(CallRef(s.calls, c), CallRef(s'.calls, c), h)
    && OnlyAbout(CallRecycler(s.calls, c), CallRecycler(s'.calls, c), h)
    && OnlyAbout(PinRef(s.pins, p), PinRef(s'.pins, p), h)
  }

  /** A step without the mutex: it changes the flags of at most one handle. */
  lemma InvCallStep(s: State, s': State, c: nat, p: nat, h: Id)
    requires Inv(s) && Moves(s, s', c, p) && CountedAt(s', h) && AllAbout(s, s', c, p, h)
    requires s'.list == s.list ||
               (h < |s.list| == |s'.list| && s'.list == s.list[h := s'.list[h]] && Alike(s.list, s'.list))
    requires s'.table == s.table && s'.stage == s.stage && s'.usage == s.usage
    requires CallsOk(s'.list, s'.calls) && PinsOk(s'.list, s'.pins)
    ensures Inv(s')
  {
    hide TableOk, StageOk, CallsOk, PinsOk, Charges, Counted, Moves, CountedAt;
    AlikeShared(s, s');
    CountedStep(s, s', c, p, h);
  }

  lemma InvFind(s: State, c: nat, key: Key)
    requires Inv(s) && CanFind(s, c, key)
    ensures Inv(DoFind(s, c, key))
  {
    var s' := DoFind(s, c, key);
    assert CallsOk(s'.list, s'.calls);
    hide TableOk, StageOk, CallsOk, PinsOk, Charges, Refs, Recyclers;
    Recount(s, s', c, 0, 0);
    assert CountedAt(s, 0);
    hide Counted;
    InvCallStep(s, s', c, 0, 0);
  }

  lemma InvRef(s: State, c: nat)
    requires Inv(s) && CanRef(s, c)
    ensures Inv(DoRef(s, c))
  {
    hide TableOk, StageOk, Charges, Refs, Recyclers;
    var s', h := DoRef(s, c), s.calls[c].h;
    assert CountedAt(s, h);
    hide Counted;
    assert CallsOk(s'.list, s'.calls) && PinsOk(s'.list, s'.pins);
    hide CallsOk, PinsOk;
    Recount(s, s', c, 0, h);
    InvCallStep(s, s', c, 0, h);
  }

  lemma InvCheckKey(s: State, c: nat, p: nat)
    requires Inv(s) && CanCheckKey(s, c, p)
    ensures Inv(DoCheckKey(s, c, p))
  {
    hide TableOk, StageOk, Charges, Refs, Recyclers;
    var s', h := DoCheckKey(s, c, p), s.calls[c].h;
    assert CountedAt(s, h);
    hide Counted;
    assert CallsOk(s'.list, s'.calls) && PinsOk(s'.list, s'.pins);
    hide CallsOk, PinsOk;
    Recount(s, s', c, p, h);
    InvCallStep(s, s', c, p, h);
  }

  lemma InvRefAgain(s: State, p: nat, q: nat)
    requires Inv(s) && CanRefAgain(s, p, q)
    ensures Inv(DoRefAgain(s, p, q))
  {
    hide TableOk, StageOk, Charges, Refs, Recyclers;
    var s', h := DoRefAgain(s, p, q), s.pins[p].h;
    assert CountedAt(s, h);
    hide Counted;
    assert CallsOk(s'.list, s'.calls) && PinsOk(s'.list, s'.pins);
    hide CallsOk, PinsOk;
    Recount(s, s', 0, q, h);
    InvCallStep(s, s', 0, q, h);
  }

  lemma InvRelease(s: State, c: nat, p: nat, force: bool)
    requires Inv(s) && CanRelease(s, c, p)
    ensures Inv(DoRelease(s, c, p, force))
  {
    hide TableOk, StageOk, Charges, Refs, Recyclers;
    var s', h := DoRelease(s, c, p, force), s.pins[p].h;
    assert CountedAt(s, h);
    hide Counted;
    assert CallsOk(s'.list, s'.calls) && PinsOk(s'.list, s'.pins);
    hide CallsOk, PinsOk;
    Recount(s, s', c, p, h);
    InvCallStep(s, s', c, p, h);
  }

  lemma InvMark(s: State, c: nat)
    requires Inv(s) && CanMark(s, c)
    ensures Inv(DoMark(s, c))
  {
    hide TableOk, StageOk, Charges, Refs, Recyclers;
    var s', h := DoMark(s, c), s.calls[c].h;
    assert CountedAt(s, h);
    hide Counted;
    assert CallsOk(s'.list, s'.calls) && PinsOk(s'.list, s'.pins);
    hide CallsOk, PinsOk;
    Recount(s, s', c, 0, h);
    InvCallStep(s, s', c, 0, h);
  }

  lemma InvDrop(s: State, c: nat)
    requires Inv(s) && CanDrop(s, c)
    ensures Inv(DoDrop(s, c))
  {
    hide TableOk, StageOk, Charges, Refs, Recyclers;
    var s', h := DoDrop(s, c), s.calls[c].h;
    assert CountedAt(s, h);
    hide Counted;
    assert CallsOk(s'.list, s'.calls) && PinsOk(s'.list, s'.pins);
    hide CallsOk, PinsOk;
    Recount(s, s', c, 0, h);
    InvCallStep(s, s', c, 0, h);
  }

  lemma InvUnpin(s: State, c: nat)
    requires Inv(s) && CanUnpin(s, c)
    ensures Inv(DoUnpin(s, c))
  {
    hide TableOk, StageOk, Charges, Refs, Recyclers;
    var s', h := DoUnpin(s, c), s.calls[c].h;
    assert CountedAt(s, h);
    hide Counted;
    assert CallsOk(s'.list, s'.calls);
    hide CallsOk, PinsOk;
    Recount(s, s', c, 0, h);
    InvCallStep(s, s', c, 0, h);
  }

  lemma InvReadKey(s: State, c: nat)
    requires Inv(s) && CanReadKey(s, c)
    ensures Inv(DoReadKey(s, c))
  {
    var s', h := DoReadKey(s, c), s.calls[c].h;
    assert CallsOk(s'.list, s'.calls);
    hide TableOk, StageOk, CallsOk, PinsOk, Charges, Refs, Recyclers;
    assert CountedAt(s, h);
    hide Counted;
    Recount(s, s', c, 0, h);
    InvCallStep(s, s', c, 0, h);
  }

  /** A step under the mutex. */
  lemma InvStageStep(s: State, s': State, c: nat, p: nat, h: Id)
    requires Counted(s) && Moves(s, s', c, p) && Elsewhere(s, s', c, p, h) && CountedAt(s', h)
    requires TableOk(s'.list, s'.table, s'.stage) && StageOk(s'.list, s'.stage) && UsageOk(s')
    requires CallsOk(s'.list, s'.calls) && PinsOk(s'.list, s'.pins)
    ensures Inv(s')
  {
    hide TableOk, StageOk, CallsOk, PinsOk, Charges, Counted, Moves, Elsewhere, CountedAt;
    CountedStep(s, s', c, p, h);
  }

  lemma InvRecycle(s: State, c: nat)
    requires Inv(s) && CanRecycle(s, c)
    ensures Inv(DoRecycle(s, c))
  {
    var s', h := DoRecycle(s, c), s.calls[c].h;
    assert CountedAt(s, h);
    Recount(s, s', c, 0, h);
    ChargesUpdate(s.list, h, s'.list[h]);
    hide Charges, Counted, Refs, Recyclers;
    InvStageStep(s, s', c, 0, h);
  }

  lemma InvEvict(s: State, h: Id)
    requires Inv(s) && CanEvict(s, h)
    ensures Inv(DoEvict(s, h))
  {
    var s' := DoEvict(s, h);
    assert CountedAt(s, h);
    Recount(s, s', 0, 0, h);
    ChargesUpdate(s.list, h, s'.list[h]);
    hide Charges, Counted, Refs, Recyclers;
    InvStageStep(s, s', 0, 0, h);
  }

  lemma InvClearUsage(s: State, h: Id)
    requires Inv(s) && CanClearUsage(s, h)
    ensures Inv(DoClearUsage(s, h))
  {
    var s' := DoClearUsage(s, h);
    assert CountedAt(s, h);
    assert CallsOk(s'.list, s'.calls) && PinsOk(s'.list, s'.pins);
    hide TableOk, StageOk, CallsOk, PinsOk, Charges, Counted, Refs, Recyclers;
    Recount(s, s', 0, 0, h);
    InvCallStep(s, s', 0, 0, h);
  }

  lemma InvEvictErase(s: State)
    requires Inv(s) && CanEvictErase(s)
    ensures Inv(DoEvictErase(s))
  {
    var s', h := DoEvictErase(s), s.stage.h;
    assert StageRef(Rest) == None && FillOf(Rest) == None;
    assert forall i: Id :: Absent(s'.stage, i) == Absent(Rest, i) == false;
    assert CountedAt(s, h);
    Recount(s, s', 0, 0, h);
    hide Charges, Counted, Refs, Recyclers;
    InvStageStep(s, s', 0, 0, h);
  }

  lemma {:induction false} StageUpdate(list: seq<Handle>, h: Id, x: Handle, stage: Stage)
    requires h < |list| && StageOk(list, stage) && h != FillOr(stage, |list|)
    ensures StageOk(list[h := x], stage)
  {
    match stage
    case Unsetting(g, next) => StageUpdate(list, h, x, next);
    case Discarding(g, next) => StageUpdate(list, h, x, next);
    case _ =>
  }

  lemma InvDiscard(s: State)
    requires Inv(s) && CanDiscard(s)
    ensures Inv(DoDiscard(s))
  {
    var s', h := DoDiscard(s), s.stage.h;
    assert CountedAt(s, h);
    Recount(s, s', 0, 0, h);
    ChargesUpdate(s.list, h, s'.list[h]);
    StageUpdate(s.list, h, s'.list[h], s.stage.next);
    hide Charges, Counted, Refs, Recyclers;
    InvStageStep(s, s', 0, 0, h);
  }

  lemma InvErase(s: State, key: Key)
    requires Inv(s) && CanErase(s, key)
    ensures Inv(DoErase(s, key))
  {
    var s', h := DoErase(s, key), s.table[key];
    assert CountedAt(s, h);
    Recount(s, s', 0, 0, h);
    hide Charges, Counted, Refs, Recyclers;
    InvStageStep(s, s', 0, 0, h);
  }

  lemma InvUnset(s: State)
    requires Inv(s) && CanUnset(s)
    ensures Inv(DoUnset(s))
  {
    var s', h := DoUnset(s), s.stage.h;
    assert CountedAt(s, h);
    Recount(s, s', 0, 0, h);
    ChargesUpdate(s.list, h, s'.list[h]);
    StageUpdate(s.list, h, s'.list[h], s.stage.next);
    hide Charges, Counted, Refs, Recyclers;
    InvStageStep(s, s', 0, 0, h);
  }

  lemma PinnedIsReferenced(s: State, p: nat)
    requires p in s.pins
    ensures Refs(s, s.pins[p].h) >= 1
  {
    CountCut(s.pins, PinOf, p, s.pins[p].h);
  }

  lemma FillPins(s: State, h: Id, key: Key, charge: nat, hold: bool)
    requires Inv(s) && CanFill(s, h)
    ensures PinsOk(DoFill(s, h, key, charge, hold).list, s.pins)
  {
    hide TableOk, StageOk, CallsOk, Charges, Recyclers;
    assert CountedAt(s, h);
    forall p | p in s.pins
      ensures s.pins[p].h != h
    {
      PinnedIsReferenced(s, p);
    }
  }

  lemma InvFill(s: State, h: Id, key: Key, charge: nat, hold: bool)
    requires Inv(s) && CanFill(s, h)
    ensures Inv(DoFill(s, h, key, charge, hold))
  {
    var s' := DoFill(s, h, key, charge, hold);
    FillPins(s, h, key, charge, hold);
    assert CountedAt(s, h);
    Recount(s, s', 0, 0, h);
    ChargesUpdate(s.list, h, s'.list[h]);
    hide Charges, Counted, Refs, Recyclers, PinsOk;
    InvStageStep(s, s', 0, 0, h);
  }

  lemma InvAppend(s: State, key: Key, charge: nat, hold: bool)
    requires Inv(s) && CanAppend(s)
    ensures Inv(DoAppend(s, key, charge, hold))
  {
    var s', h := DoAppend(s, key, charge, hold), |s.list|;
    assert CountedAt(s, h);
    Recount(s, s', 0, 0, h);
    assert s'.list[..h] == s.list;
    assert UsageOk(s');
    hide Charges, Counted, Refs, Recyclers;
    InvStageStep(s, s', 0, 0, h);
  }

  lemma InvDisplace(s: State)
    requires Inv(s) && CanDisplace(s)
    ensures Inv(DoDisplace(s))
  {
    var s' := DoDisplace(s);
    var h := s.table[s.list[s.stage.h].key];
    assert CountedAt(s, h);
    Recount(s, s', 0, 0, h);
    hide Charges, Counted, Refs, Recyclers;
    InvStageStep(s, s', 0, 0, h);
  }

  lemma InvPublish(s: State, p: nat)
    requires Inv(s) && CanPublish(s, p)
    ensures Inv(DoPublish(s, p))
  {
    var s', h := DoPublish(s, p), s.stage.h;
    assert CountedAt(s, h);
    Recount(s, s', 0, p, h);
    hide Charges, Counted, Refs, Recyclers;
    InvStageStep(s, s', 0, p, h);
  }

  lemma InvClear(s: State)
    requires Inv(s) && CanClear(s)
    ensures Inv(DoClear(s))
  {
    var s' := DoClear(s);
    assert CountedAt(s, 0);
    Recount(s, s', 0, 0, 0);
    hide Charges, Counted, Refs, Recyclers;
    InvStageStep(s, s', 0, 0, 0);
  }

  lemma InvClearOne(s: State)
    requires Inv(s) && CanClearOne(s)
    ensures Inv(DoClearOne(s))
  {
    var s', i := DoClearOne(s), s.stage.i;
    assert StageRef(Clearing(i + 1)) == None && FillOf(Clearing(i + 1)) == None;
    forall h: Id
      ensures Absent(s'.stage, h) == Absent(s.stage, h)
    {
      assert Absent(Clearing(i + 1), h) == (h >= i + 1);
    }
    assert CountedAt(s, 0);
    Recount(s, s', 0, 0, 0);
    hide Charges, Counted, Refs, Recyclers;
    InvStageStep(s, s', 0, 0, 0);
  }

  lemma InvLock(s: State)
    requires Inv(s) && s.stage.Free?
    ensures Inv(s.(stage := Rest))
  {
    var s' := s.(stage := Rest);
    assert CountedAt(s, 0);
    Recount(s, s', 0, 0, 0);
    hide Charges, Counted, Refs, Recyclers;
    InvStageStep(s, s', 0, 0, 0);
  }

  lemma InvUnlock(s: State)
    requires Inv(s) && CanUnlock(s)
    ensures Inv(s.(stage := Free))
  {
    var s' := s.(stage := Free);
    assert CountedAt(s, 0);
    Recount(s, s', 0, 0, 0);
    hide Charges, Counted, Refs, Recyclers;
    InvStageStep(s, s', 0, 0, 0);
  }

  /** A forced Release() ends, takes the mutex and erases. */
  lemma InvForceErase(s: State, c: nat)
    requires Inv(s) && CanForceErase(s, c)
    ensures Inv(DoForceErase(s, c))
  {
    var s', read := s.(calls := s.calls - {c}), s.calls[c].read;
    InvEnds(s, c);
    if read.Some? && read.value.key in s.table {
      InvLock(s');
      InvErase(s'.(stage := Rest), read.value.key);
    }
  }

  lemma InvEnds(s: State, c: nat)
    requires Inv(s) && c in s.calls && s.calls[c].Erasing?
    ensures Inv(s.(calls := s.calls - {c}))
  {
    var s', h := s.(calls := s.calls - {c}), s.calls[c].h;
    assert CallsOk(s'.list, s'.calls);
    hide TableOk, StageOk, CallsOk, PinsOk, Charges, Refs, Recyclers;
    assert CountedAt(s, h);
    hide Counted;
    Recount(s, s', c, 0, h);
    InvCallStep(s, s', c, 0, h);
  }

  lemma InvInit()
    ensures Inv(Init)
  {
    assert Counted(Init) by {
      forall h: Id
        ensures CountedAt(Init, h)
      {
        CountedInit(h);
      }
    }
    hide Counted, CountedAt;
  }

  lemma CountedInit(h: Id)
    ensures CountedAt(Init, h)
  {
    assert Which(Init.calls, RefOf, h) == {} && Which(Init.calls, RecyclerOf, h) == {};
    assert Which(Init.pins, PinOf, h) == {};
  }

  lemma InvStep(s: State, a: Action)
    requires Inv(s) && Enabled(s, a)
    ensures Inv(Apply(s, a))
  {
    hide Inv;
    match a
    case Find(c, key) => InvFind(s, c, key);
    case Ref(c) => InvRef(s, c);
    case CheckKey(c, p) => InvCheckKey(s, c, p);
    case RefAgain(p, q) => InvRefAgain(s, p, q);
    case Release(c, p, force) => InvRelease(s, c, p, force);
    case Mark(c) => InvMark(s, c);
    case Drop(c) => InvDrop(s, c);
    case Unpin(c) => InvUnpin(s, c);
    case Recycle(c) => InvRecycle(s, c);
    case ReadKey(c) => InvReadKey(s, c);
    case ForceErase(c) => InvForceErase(s, c);
    case Lock => InvLock(s);
    case Evict(h) => InvEvict(s, h);
    case ClearUsage(h) => InvClearUsage(s, h);
    case EvictErase => InvEvictErase(s);
    case Discard => InvDiscard(s);
    case Erase(key) => InvErase(s, key);
    case Unset => InvUnset(s);
    case Fill(h, key, charge, hold) => InvFill(s, h, key, charge, hold);
    case Append(key, charge, hold) => InvAppend(s, key, charge, hold);
    case Displace => InvDisplace(s);
    case Publish(p) => InvPublish(s, p);
    case Clear => InvClear(s);
    case ClearOne => InvClearOne(s);
    case Unlock => InvUnlock(s);
  }

  // ---------------------------------------------------------------- every run

  /** The state after these steps, in this interleaving; None if some step cannot happen. */
  function After(steps: seq<Action>): Option<State> {
    if steps == [] then Some(Init)
    else
      var before := After(steps[..|steps| - 1]);
      if before.Some? && Enabled(before.value, steps[|steps| - 1]) then Some(Apply(before.value, steps[|steps| - 1]))
          else None
  }

  predicate Reaches(steps: seq<Action>, s: State) {
    After(steps) == Some(s)
  }

  lemma {:induction false} InvAlways(steps: seq<Action>, s: State)
    requires Reaches(steps, s)
    ensures Inv(s)
  {
    hide Inv, Enabled, Apply;
    if steps == [] {
      InvInit();
    } else {
      var before := After(steps[..|steps| - 1]).value;
      InvAlways(steps[..|steps| - 1], before);
      InvStep(before, steps[|steps| - 1]);
    }
  }

  /** Every fill of a handle is recycled at most once, and the handle is in the bin exactly when its last
      fill has been recycled. */
  lemma RecycledAtMostOnce(steps: seq<Action>, s: State, h: Id)
    requires Reaches(steps, s) && h < |s.list|
    ensures s.list[h].recycles <= s.list[h].fills <= s.list[h].recycles + 1
    ensures s.list[h].binned <==> s.list[h].recycles == s.list[h].fills
    ensures s.list[h].binned ==> !s.list[h].inCache && s.list[h].refs == 0
  {
    InvAlways(steps, s);
    assert CountedAt(s, h);
  }

  /** The handle a RecycleHandle() works on. */
  function RecycleTarget(s: State, a: Action): Option<Id>
    requires Enabled(s, a)
  {
    match a
    case Recycle(c) => Some(s.calls[c].h)
    case Discard => Some(s.stage.h)
    case _ => None
  }

  /** The assert of RecycleHandle(): it works on an entry out of the cache without references, not yet
      recycled, and nobody else is about to recycle it. */
  lemma RecycleAssertHolds(steps: seq<Action>, s: State, a: Action, h: Id)
    requires Reaches(steps, s) && Enabled(s, a) && RecycleTarget(s, a) == Some(h)
    ensures h < |s.list| && !s.list[h].inCache && s.list[h].refs == 0 && !s.list[h].binned && Recyclers(s, h) == 1
  {
    InvAlways(steps, s);
    hide Reaches, TableOk, StageOk, PinsOk, Charges;
    assert CountedAt(s, h);
    if a.Recycle? {
      CountCut(s.calls, RecyclerOf, a.c, h);
    }
  }

  /** A handle that a lookup or an insert returned is referenced, out of the bin, and still the entry
      for the key that was asked for. */
  lemma PinnedKeepsItsKey(steps: seq<Action>, s: State, p: nat)
    requires Reaches(steps, s) && p in s.pins
    ensures var h := s.pins[p].h;
            h < |s.list| && s.list[h].key == s.pins[p].key && s.list[h].refs >= 1 && !s.list[h].binned
  {
    InvAlways(steps, s);
    hide Reaches, TableOk, StageOk, CallsOk, Charges;
    PinnedIsReferenced(s, p);
    assert CountedAt(s, s.pins[p].h);
  }

  /** No call works on a reference to a handle in the bin, and Unref() finds a positive count. */
  lemma CallsHoldReferences(steps: seq<Action>, s: State, c: nat)
    requires Reaches(steps, s) && c in s.calls && RefOf(s.calls[c]).Some?
    ensures s.calls[c].h < |s.list| && s.list[s.calls[c].h].refs >= 1 && !s.list[s.calls[c].h].binned
  {
    InvAlways(steps, s);
    hide Reaches, TableOk, StageOk, PinsOk, Charges;
    CountCut(s.calls, RefOf, c, s.calls[c].h);
    assert CountedAt(s, s.calls[c].h);
  }

  /** The assert of TryEvict(): the entry it evicts is in the table. */
  lemma EvictedIsInTable(steps: seq<Action>, s: State)
    requires Reaches(steps, s) && s.stage.Evicted?
    ensures CanEvictErase(s) && s.list[s.stage.h].key in s.table && s.table[s.list[s.stage.h].key] == s.stage.h
  {
    InvAlways(steps, s);
  }

  /** With the mutex free the table holds exactly the in-cache handles, each under its key, and usage_ is
      the sum of the charges outside the bin. */
  lemma FreeMutexMeansConsistent(steps: seq<Action>, s: State)
    requires Reaches(steps, s) && s.stage.Free?
    ensures forall k | k in s.table ::
              s.table[k] < |s.list| && s.list[s.table[k]].inCache && s.list[s.table[k]].key == k
    ensures forall h | 0 <= h < |s.list| && s.list[h].inCache :: s.list[h].key in s.table && s.table[s.list[h].key] == h
    ensures s.usage == Charges(s.list)
  {
    InvAlways(steps, s);
    hide Reaches;
    forall k | k in s.table
      ensures EntryOk(s.list, s.table[k], k, s.stage)
    {
    }
  }

  /** Nothing leaks: once no call is under way, a handle outside the bin is cached or pinned. */
  lemma QuiescentMeansNoLeak(steps: seq<Action>, s: State, h: Id)
    requires Reaches(steps, s) && s.calls == map[] && s.stage.Free? && h < |s.list|
    ensures !s.list[h].binned <==> s.list[h].inCache || exists p | p in s.pins :: s.pins[p].h == h
  {
    InvAlways(steps, s);
    hide Reaches, TableOk, StageOk, PinsOk, Charges;
    assert CountedAt(s, h);
    assert Which(s.calls, RecyclerOf, h) == {} && Which(s.calls, RefOf, h) == {};
    if p :| p in s.pins && s.pins[p].h == h {
      PinnedIsReferenced(s, p);
    } else {
      assert Which(s.pins, PinOf, h) == {};
    }
  }

  /** What a call does next; p is a free place for a pin. */
  function CallNext(call: Call, c: nat, p: nat): Action {
    match call
    case Found(key, h) => Ref(c)
    case Referenced(key, h) => CheckKey(c, p)
    case Marking(h, force) => Mark(c)
    case Dropping(h, force) => Drop(c)
    case Unpinning(h, force, was) => Unpin(c)
    case Recycling(h) => Recycle(c)
    case Forcing(h, was) => ReadKey(c)
    case Erasing(h, read, was) => ForceErase(c)
  }

  /** What the owner of the mutex can do next. */
  function StageNext(s: State, p: nat): Action
    requires s.stage.Filled? ==> s.stage.h < |s.list|
  {
    match s.stage
    case Free => Lock
    case Rest => Unlock
    case Evicted(h) => EvictErase
    case Filled(h, hold) => if s.list[h].key in s.table then Displace else Publish(p)
    case Clearing(i) => if i < |s.list| then ClearOne else Unlock
    case Unsetting(h, next) => Unset
    case Discarding(h, next) => Discard
  }

  /** Nobody is stuck: the owner of the mutex always has a step, and so has every call, unless it waits for the
      mutex to recycle or to erase. */
  lemma NeverStuck(steps: seq<Action>, s: State, c: nat, p: nat)
    requires Reaches(steps, s) && p !in s.pins
    ensures s.stage.Filled? ==> s.stage.h < |s.list|
    ensures Enabled(s, StageNext(s, p))
    ensures c in s.calls && (s.calls[c].Recycling? || s.calls[c].Erasing? ==> s.stage.Free?) ==>
              Enabled(s, CallNext(s.calls[c], c, p))
  {
    InvAlways(steps, s);
    hide Reaches;
  }

  // ---------------------------------------------------------------- pinned_usage_ is not exact

  lemma Then(steps: seq<Action>, s: State, a: Action) returns (more: seq<Action>, s': State)
    requires Reaches(steps, s) && Enabled(s, a)
    ensures Reaches(more, s') && s' == Apply(s, a)
  {
    more, s' := steps + [a], Apply(s, a);
    assert more[..|steps|] == steps;
  }

  /** An entry of charge 1 was inserted and is held. */
  lemma InsertedAndHeld() returns (steps: seq<Action>, s: State)
    ensures Reaches(steps, s) && s.stage == Free && s.pinned == 1 && s.calls == map[] && s.pins == map[0 := Pin(0, 7)]
    ensures s.table == map[7 := 0]
    ensures s.list == [Handle(7, 1, true, false, 1, false, 1, 0)]
  {
    steps, s := [], Init;
    hide After;
    assert Reaches(steps, s) by { InitReached(); }
    hide Reaches;
    steps, s := Then(steps, s, Lock);
    steps, s := Then(steps, s, Append(7, 1, true));
    steps, s := Then(steps, s, Publish(0));
  }

  /** It was released; the release has not read the charge yet. */
  lemma ReleasedButNotRead() returns (steps: seq<Action>, s: State)
    ensures Reaches(steps, s) && s.stage == Free && s.pinned == 1
    ensures s.calls == map[0 := Unpinning(0, false, Entry(7, 1))] && s.pins == map[] && s.table == map[7 := 0]
    ensures |s.list| == 1 && s.list[0] == Handle(7, 1, true, true, 0, false, 1, 0)
  {
    steps, s := InsertedAndHeld();
    hide Reaches;
    steps, s := Then(steps, s, Release(0, 0, false));
    steps, s := Then(steps, s, Mark(0));
    steps, s := Then(steps, s, Drop(0));
  }

  lemma InitReached()
    ensures Reaches([], Init)
  {
  }

  /** Meanwhile the handle was evicted and recycled. */
  lemma EvictedMeanwhile() returns (steps: seq<Action>, s: State)
    ensures Reaches(steps, s) && s.stage == Rest && s.pinned == 1
    ensures s.calls == map[0 := Unpinning(0, false, Entry(7, 1))] && s.pins == map[]
    ensures |s.list| == 1 && s.list[0].binned && s.table == map[]
  {
    steps, s := ReleasedButNotRead();
    hide Reaches;
    steps, s := Then(steps, s, Lock);
    steps, s := Then(steps, s, ClearUsage(0));
    steps, s := Then(steps, s, Evict(0));
    steps, s := Then(steps, s, EvictErase);
    steps, s := Then(steps, s, Discard);
  }

  /** If it is then refilled with a larger charge, the larger charge is taken off: pinned_usage_ ends at
      1 - 5 although nothing is pinned and no call is under way. */
  lemma PinnedUsageIsInexact() returns (steps: seq<Action>, s: State)
    ensures Reaches(steps, s) && s.calls == map[] && s.pins == map[] && s.pinned == -4
  {
    steps, s := EvictedMeanwhile();
    hide Reaches;
    steps, s := Then(steps, s, Fill(0, 8, 5, false));
    steps, s := Then(steps, s, Publish(0));
    steps, s := Then(steps, s, Unpin(0));
  }
}
