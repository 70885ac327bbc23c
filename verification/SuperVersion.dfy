/** The thread-local SuperVersion cache (ColumnFamilyData), as interleaved atomic steps: readers swap and
    compare-and-swap their slot without the mutex, an install scrapes all slots, and reference counts
    decide who cleans a SuperVersion up. */
module SuperVersion {
  import opened Common

  type Id = nat
  type Thread = nat

  /** One SuperVersion: refs, version_number, and how often Cleanup() ran on it. */
  datatype Version = Version(refs: nat, number: nat, cleaned: nat)

  /** A thread-local slot: kSVObsolete (null), kSVInUse, or a cached pointer. */
  datatype Slot = Obsolete | InUse | Cached(id: Id)

  /** Where a thread stands between two atomic operations. */
  datatype Pc =
    | Idle
    | Swapped(got: Option<Id>)     // slot swapped for kSVInUse; None: it was kSVObsolete
    | Stale(id: Id)                // version number differs; Unref() comes next
    | NeedLock(clean: Option<Id>)  // about to lock; `clean` fell to zero references
    | Using(id: Id)                // GetThreadLocalSuperVersion() has returned
    | MustUnref(id: Id)            // ReturnThreadLocalSuperVersion() failed, or another reference goes
    | MustClean(id: Id)            // Unref() returned true; Cleanup() under the mutex comes next
    | Installing

  datatype State = State(
    svs: map<Id, Version>,
    current: Option<Id>,           // super_version_
    number: nat,                   // super_version_number_
    slots: map<Thread, Slot>,
    pcs: map<Thread, Pc>,
    mutex: Option<Thread>,
    outgoing: Option<Id>,          // old_superversion of the running install
    todo: set<Thread>,             // slots the running install has not scraped yet
    scraped: map<Thread, Id>,      // pointers it has scraped and not released yet
    out: map<nat, Id>)             // references given out by GetReferencedSuperVersion()

  datatype Action =
    | Join(t: Thread)
    | Swap(t: Thread)
    | Check(t: Thread)
    | UnrefStale(t: Thread)
    | LockRef(t: Thread)
    | TakeRef(t: Thread, r: nat)
    | Return(t: Thread)
    | Unref(t: Thread)
    | Clean(t: Thread)
    | Release(t: Thread, r: nat)
    | Exit(t: Thread)
    | Leave(t: Thread)
    | BeginInstall(t: Thread, n: Id)
    | Scrape(t: Thread, u: Thread)
    | UnrefScraped(t: Thread, u: Thread)
    | EndInstall(t: Thread)

  const Init := State(map[], None, 0, map[], map[], None, None, {}, map[], map[])

  predicate At(s: State, t: Thread, pc: Pc) {
    t in s.pcs && s.pcs[t] == pc
  }

  predicate Live(s: State, v: Id) {
    v in s.svs && s.svs[v].cleaned == 0
  }

  function AddRef(svs: map<Id, Version>, v: Id): map<Id, Version>
    requires v in svs
  {
    svs[v := svs[v].(refs := svs[v].refs + 1)]
  }

  function DropRef(svs: map<Id, Version>, v: Id): map<Id, Version>
    requires v in svs
  {
    svs[v := svs[v].(refs := if svs[v].refs == 0 then 0 else svs[v].refs - 1)]
  }

  function CleanUp(svs: map<Id, Version>, v: Id): map<Id, Version>
    requires v in svs
  {
    svs[v := svs[v].(cleaned := svs[v].cleaned + 1)]
  }

  /** Unref(), then Cleanup() at once if it was the last reference: the install holds the mutex. */
  function DropAndClean(svs: map<Id, Version>, v: Id): map<Id, Version>
    requires v in svs
  {
    if svs[v].refs == 1 then CleanUp(DropRef(svs, v), v) else DropRef(svs, v)
  }

  function Goto(s: State, t: Thread, pc: Pc): State {
    s.(pcs := s.pcs[t := pc])
  }

  // ---------------------------------------------------------------- steps of a reader

  predicate CanJoin(s: State, t: Thread) {
    t !in s.pcs && t !in s.slots
  }

  function DoJoin(s: State, t: Thread): State {
    s.(pcs := s.pcs[t := Idle], slots := s.slots[t := Obsolete])
  }

  predicate CanSwap(s: State, t: Thread) {
    At(s, t, Idle) && t in s.slots
  }

  /** local_sv_->Swap(kSVInUse). */
  function DoSwap(s: State, t: Thread): State
    requires CanSwap(s, t)
  {
    Goto(s, t, Swapped(if s.slots[t].Cached? then Some(s.slots[t].id) else None)).(slots := s.slots[t := InUse])
  }

  predicate CanCheck(s: State, t: Thread) {
    t in s.pcs && s.pcs[t].Swapped? && (s.pcs[t].got.Some? ==> s.pcs[t].got.value in s.svs)
  }

  /** Compare sv->version_number with super_version_number_. */
  function DoCheck(s: State, t: Thread): State
    requires CanCheck(s, t)
  {
    if s.pcs[t].got.None? then Goto(s, t, NeedLock(None))
    else if s.svs[s.pcs[t].got.value].number != s.number then Goto(s, t, Stale(s.pcs[t].got.value))
    else Goto(s, t, Using(s.pcs[t].got.value))
  }

  predicate CanUnrefStale(s: State, t: Thread) {
    t in s.pcs && s.pcs[t].Stale? && s.pcs[t].id in s.svs
  }

  function DoUnrefStale(s: State, t: Thread): State
    requires CanUnrefStale(s, t)
  {
    var v := s.pcs[t].id;
    Goto(s, t, NeedLock(if s.svs[v].refs == 1 then Some(v) else None)).(svs := DropRef(s.svs, v))
  }

  predicate CanLockRef(s: State, t: Thread) {
    && t in s.pcs && s.pcs[t].NeedLock? && s.mutex.None? && s.current.Some? && s.current.value in s.svs
    && (s.pcs[t].clean.Some? ==> s.pcs[t].clean.value in s.svs)
  }

  /** Under the mutex: Cleanup() what this thread released last, then super_version_->Ref(). */
  function DoLockRef(s: State, t: Thread): State
    requires CanLockRef(s, t)
  {
    var svs := if s.pcs[t].clean.Some? then CleanUp(s.svs, s.pcs[t].clean.value) else s.svs;
    Goto(s, t, Using(s.current.value)).(svs := AddRef(svs, s.current.value))
  }

  predicate CanTakeRef(s: State, t: Thread, r: nat) {
    t in s.pcs && s.pcs[t].Using? && s.pcs[t].id in s.svs && r !in s.out
  }

  /** sv->Ref() of GetReferencedSuperVersion(). */
  function DoTakeRef(s: State, t: Thread, r: nat): State
    requires CanTakeRef(s, t, r)
  {
    s.(svs := AddRef(s.svs, s.pcs[t].id), out := s.out[r := s.pcs[t].id])
  }

  predicate CanReturn(s: State, t: Thread) {
    t in s.pcs && s.pcs[t].Using? && t in s.slots
  }

  /** local_sv_->CompareAndSwap(sv, kSVInUse). */
  function DoReturn(s: State, t: Thread): State
    requires CanReturn(s, t)
  {
    if s.slots[t] == InUse then Goto(s, t, Idle).(slots := s.slots[t := Cached(s.pcs[t].id)])
    else Goto(s, t, MustUnref(s.pcs[t].id))
  }

  predicate CanUnref(s: State, t: Thread) {
    t in s.pcs && s.pcs[t].MustUnref? && s.pcs[t].id in s.svs
  }

  function DoUnref(s: State, t: Thread): State
    requires CanUnref(s, t)
  {
    var v := s.pcs[t].id;
    Goto(s, t, if s.svs[v].refs == 1 then MustClean(v) else Idle).(svs := DropRef(s.svs, v))
  }

  predicate CanClean(s: State, t: Thread) {
    t in s.pcs && s.pcs[t].MustClean? && s.pcs[t].id in s.svs && s.mutex.None?
  }

  function DoClean(s: State, t: Thread): State
    requires CanClean(s, t)
  {
    Goto(s, t, Idle).(svs := CleanUp(s.svs, s.pcs[t].id))
  }

  predicate CanRelease(s: State, t: Thread, r: nat) {
    At(s, t, Idle) && r in s.out
  }

  /** The holder of a given-out reference decides to drop it. */
  function DoRelease(s: State, t: Thread, r: nat): State
    requires CanRelease(s, t, r)
  {
    Goto(s, t, MustUnref(s.out[r])).(out := s.out - {r})
  }

  predicate CanExit(s: State, t: Thread) {
    At(s, t, Idle) && t in s.slots && s.slots[t].Cached?
  }

  /** SuperVersionUnrefHandle() at thread exit. */
  function DoExit(s: State, t: Thread): State
    requires CanExit(s, t)
  {
    Goto(s, t, MustUnref(s.slots[t].id)).(slots := s.slots[t := Obsolete])
  }

  predicate CanLeave(s: State, t: Thread) {
    At(s, t, Idle) && t in s.slots && s.slots[t].Obsolete?
  }

  function DoLeave(s: State, t: Thread): State {
    s.(pcs := s.pcs - {t}, slots := s.slots - {t}, todo := s.todo - {t})
  }

  // ---------------------------------------------------------------- steps of an install

  predicate CanBeginInstall(s: State, t: Thread, n: Id) {
    At(s, t, Idle) && s.mutex.None? && n !in s.svs
  }

  /** Init() the new SuperVersion, publish it and bump super_version_number_. */
  function DoBeginInstall(s: State, t: Thread, n: Id): State
    requires CanBeginInstall(s, t, n)
  {
    Goto(s, t, Installing).(
      svs := s.svs[n := Version(1, s.number + 1, 0)], current := Some(n), number := s.number + 1,
      mutex := Some(t), outgoing := s.current, todo := s.slots.Keys, scraped := map[])
  }

  /** Scrape() reaches every slot that was there when the install began, and may reach slots of threads that
      joined since. */
  predicate CanScrape(s: State, t: Thread, u: Thread) {
    At(s, t, Installing) && u in s.slots && u !in s.scraped
  }

  /** Exchange one slot for kSVObsolete. */
  function DoScrape(s: State, u: Thread): State
    requires u in s.slots
  {
    s.(todo := s.todo - {u}, slots := s.slots[u := Obsolete],
       scraped := if s.slots[u].Cached? then s.scraped[u := s.slots[u].id] else s.scraped)
  }

  predicate CanUnrefScraped(s: State, t: Thread, u: Thread) {
    At(s, t, Installing) && s.todo == {} && u in s.scraped && s.scraped[u] in s.svs
  }

  function DoUnrefScraped(s: State, u: Thread): State
    requires u in s.scraped && s.scraped[u] in s.svs
  {
    s.(svs := DropAndClean(s.svs, s.scraped[u]), scraped := s.scraped - {u})
  }

  predicate CanEndInstall(s: State, t: Thread) {
    At(s, t, Installing) && s.todo == {} && s.scraped == map[] && (s.outgoing.Some? ==> s.outgoing.value in s.svs)
  }

  function DoEndInstall(s: State, t: Thread): State
    requires CanEndInstall(s, t)
  {
    Goto(s, t, Idle).(svs := if s.outgoing.Some? then DropAndClean(s.svs, s.outgoing.value) else s.svs,
                      outgoing := None, mutex := None)
  }

  // ---------------------------------------------------------------- all steps

  /** When a step can happen. The pointers it follows must exist; that they are live is proved. */
  predicate Enabled(s: State, a: Action) {
    match a
    case Join(t) => CanJoin(s, t)
    case Swap(t) => CanSwap(s, t)
    case Check(t) => CanCheck(s, t)
    case UnrefStale(t) => CanUnrefStale(s, t)
    case LockRef(t) => CanLockRef(s, t)
    case TakeRef(t, r) => CanTakeRef(s, t, r)
    case Return(t) => CanReturn(s, t)
    case Unref(t) => CanUnref(s, t)
    case Clean(t) => CanClean(s, t)
    case Release(t, r) => CanRelease(s, t, r)
    case Exit(t) => CanExit(s, t)
    case Leave(t) => CanLeave(s, t)
    case BeginInstall(t, n) => CanBeginInstall(s, t, n)
    case Scrape(t, u) => CanScrape(s, t, u)
    case UnrefScraped(t, u) => CanUnrefScraped(s, t, u)
    case EndInstall(t) => CanEndInstall(s, t)
  }

  function Apply(s: State, a: Action): State
    requires Enabled(s, a)
  {
    match a
    case Join(t) => DoJoin(s, t)
    case Swap(t) => DoSwap(s, t)
    case Check(t) => DoCheck(s, t)
    case UnrefStale(t) => DoUnrefStale(s, t)
    case LockRef(t) => DoLockRef(s, t)
    case TakeRef(t, r) => DoTakeRef(s, t, r)
    case Return(t) => DoReturn(s, t)
    case Unref(t) => DoUnref(s, t)
    case Clean(t) => DoClean(s, t)
    case Release(t, r) => DoRelease(s, t, r)
    case Exit(t) => DoExit(s, t)
    case Leave(t) => DoLeave(s, t)
    case BeginInstall(t, n) => DoBeginInstall(s, t, n)
    case Scrape(t, u) => DoScrape(s, u)
    case UnrefScraped(t, u) => DoUnrefScraped(s, u)
    case EndInstall(t) => DoEndInstall(s, t)
  }

  // ---------------------------------------------------------------- who holds what

  /** Every place a reference can sit. */
  datatype Holder = Tip | Outgoing | InSlot(t: Thread) | InHand(t: Thread) | InScrape(t: Thread) | GivenOut(r: nat)

  function HandOf(pc: Pc): Option<Id> {
    match pc
    case Swapped(got) => got
    case Stale(v) => Some(v)
    case Using(v) => Some(v)
    case MustUnref(v) => Some(v)
    case _ => None
  }

  function Held(s: State, h: Holder): Option<Id> {
    match h
    case Tip => s.current
    case Outgoing => s.outgoing
    case InSlot(t) => if t in s.slots && s.slots[t].Cached? then Some(s.slots[t].id) else None
    case InHand(t) => if t in s.pcs then HandOf(s.pcs[t]) else None
    case InScrape(t) => if t in s.scraped then Some(s.scraped[t]) else None
    case GivenOut(r) => if r in s.out then Some(s.out[r]) else None
  }

  function Places(s: State): set<Holder> {
    {Tip, Outgoing}
    + (set t | t in s.slots :: InSlot(t))
    + (set t | t in s.pcs :: InHand(t))
    + (set t | t in s.scraped :: InScrape(t))
    + (set r | r in s.out :: GivenOut(r))
  }

  /** [v is current] + [v is the outgoing one] + slots caching it + threads holding it + references given out. */
  function Holders(s: State, v: Id): set<Holder> {
    set h | h in Places(s) && Held(s, h) == Some(v)
  }

  /** What a thread is obliged to clean up. */
  function Duty(pc: Pc): Option<Id> {
    match pc
    case NeedLock(v) => v
    case MustClean(v) => Some(v)
    case _ => None
  }

  ghost predicate HasCleaner(pcs: map<Thread, Pc>, v: Id) {
    exists t | t in pcs :: Duty(pcs[t]) == Some(v)
  }

  // ---------------------------------------------------------------- the invariant

  ghost predicate CountOk(svs: map<Id, Version>, v: Id, n: nat) {
    if v in svs then svs[v].refs == n && (svs[v].cleaned > 0 ==> n == 0) else n == 0
  }

  /** Each SuperVersion counts exactly its holders; one that was cleaned up has none. */
  ghost predicate Counted(s: State) {
    forall v: Id :: CountOk(s.svs, v, |Holders(s, v)|)
  }

  predicate DueNow(svs: map<Id, Version>, v: Id) {
    v in svs && svs[v].refs == 0 && svs[v].cleaned == 0
  }

  /** Zero references and not cleaned: exactly one thread is on its way to clean it, and nobody
      is about to clean anything else. */
  ghost predicate CleanedOnce(svs: map<Id, Version>, pcs: map<Thread, Pc>) {
    && (forall v | v in svs :: svs[v].cleaned <= 1)
    && (forall v | v in svs && DueNow(svs, v) :: HasCleaner(pcs, v))
    && (forall t | t in pcs && Duty(pcs[t]).Some? :: DueNow(svs, Duty(pcs[t]).value))
    && (forall t, u | t in pcs && u in pcs && Duty(pcs[t]).Some? && Duty(pcs[t]) == Duty(pcs[u]) :: t == u)
  }

  /** Between Swap and the end of Return. */
  predicate InGet(pc: Pc) {
    pc.Swapped? || pc.Stale? || pc.NeedLock? || pc.Using?
  }

  /** One thread's slot and position fit. kSVInUse marks a get in progress; while a get is in
      progress the slot is kSVInUse or scraped; a pointer that is cached, or may still be put back,
      is the current SuperVersion, or the outgoing one if the install has yet to scrape the slot. */
  predicate ThreadOk(slot: Slot, pc: Pc, tip: Option<Id>, holdsMutex: bool) {
    && (slot == InUse ==> InGet(pc))
    && (InGet(pc) ==> !slot.Cached?)
    && (slot.Cached? ==> tip == Some(slot.id))
    && (slot == InUse && HandOf(pc).Some? ==> tip == HandOf(pc))
    && (pc == Installing <==> holdsMutex)
  }

  /** The SuperVersion that was current when the slot of `t` was last scraped or could be filled. */
  function TipFor(t: Thread, todo: set<Thread>, current: Option<Id>, outgoing: Option<Id>): Option<Id> {
    if t in todo then outgoing else current
  }

  ghost predicate ThreadsOk(slots: map<Thread, Slot>, pcs: map<Thread, Pc>, todo: set<Thread>, current: Option<Id>,
                            outgoing: Option<Id>, mutex: Option<Thread>) {
    && slots.Keys == pcs.Keys
    && forall t | t in pcs :: ThreadOk(slots[t], pcs[t], TipFor(t, todo, current, outgoing), mutex == Some(t))
  }

  ghost predicate InstallOk(slots: map<Thread, Slot>, todo: set<Thread>, scraped: map<Thread, Id>, outgoing: Option<Id>,
                            mutex: Option<Thread>, current: Option<Id>) {
    && (mutex.Some? ==> mutex.value in slots) && (outgoing.Some? ==> outgoing != current)
    && (mutex.None? ==> outgoing == None && todo == {} && scraped == map[]) && todo <= slots.Keys
    && scraped.Keys !! todo
  }

  /** Version numbers: the current one carries the counter, all others a smaller number. */
  ghost predicate NumbersOk(svs: map<Id, Version>, current: Option<Id>, number: nat) {
    && (current.Some? ==> current.value in svs && svs[current.value].number == number)
    && (forall v | v in svs && current != Some(v) :: svs[v].number < number)
    && (current.None? ==> svs == map[])
  }

  ghost predicate Inv(s: State) {
    && Counted(s) && CleanedOnce(s.svs, s.pcs)
    && ThreadsOk(s.slots, s.pcs, s.todo, s.current, s.outgoing, s.mutex)
    && InstallOk(s.slots, s.todo, s.scraped, s.outgoing, s.mutex, s.current)
    && NumbersOk(s.svs, s.current, s.number)
  }

  // ---------------------------------------------------------------- counting

  lemma HoldersIff(s: State, h: Holder, v: Id)
    ensures h in Holders(s, v) <==> Held(s, h) == Some(v)
  {
  }

  /** Only h1 and h2 change what they hold. */
  ghost predicate Moves(s: State, s': State, h1: Holder, h2: Holder) {
    h1 != h2 && forall h | h != h1 && h != h2 :: Held(s', h) == Held(s, h)
  }

  /** The counts change by those places. */
  lemma Recount(s: State, s': State, h1: Holder, h2: Holder, v: Id)
    requires Moves(s, s', h1, h2)
    ensures |Holders(s', v)| + Bit(Held(s, h1) == Some(v)) + Bit(Held(s, h2) == Some(v)) ==
            |Holders(s, v)| + Bit(Held(s', h1) == Some(v)) + Bit(Held(s', h2) == Some(v))
  {
    hide Held, Places;
    var rest := Holders(s, v) - {h1, h2};
    forall h
      ensures h in Holders(s, v) <==> Held(s, h) == Some(v)
      ensures h in Holders(s', v) <==> Held(s', h) == Some(v)
    {
      HoldersIff(s, h, v);
      HoldersIff(s', h, v);
    }
    hide Holders;
    assert rest == Holders(s', v) - {h1, h2};
    TakeTwo(Holders(s, v), h1, h2);
    TakeTwo(Holders(s', v), h1, h2);
  }

  lemma TakeTwo(all: set<Holder>, h1: Holder, h2: Holder)
    requires h1 != h2
    ensures |all| == |all - {h1, h2}| + Bit(h1 in all) + Bit(h2 in all)
  {
    assert all - {h1} - {h2} == all - {h1, h2};
  }

  /** No place changes hands, or a reference moves from h1 to h2. */
  lemma CountMove(s: State, s': State, h1: Holder, h2: Holder)
    requires Counted(s) && s'.svs == s.svs && Moves(s, s', h1, h2)
    requires || (Held(s', h1) == Held(s, h1) && Held(s', h2) == Held(s, h2))
             || (Held(s', h1) == None && Held(s, h2) == None && Held(s', h2) == Held(s, h1))
    ensures Counted(s')
  {
    hide Held, Places, Holders, CountOk;
    forall v: Id
      ensures CountOk(s'.svs, v, |Holders(s', v)|)
    {
      Recount(s, s', h1, h2, v);
      assert CountOk(s.svs, v, |Holders(s, v)|);
    }
  }

  /** A place h1 lets go of v, which loses a reference and may be cleaned up if that was the last. */
  lemma CountDrop(s: State, s': State, h1: Holder, h2: Holder, v: Id)
    requires Counted(s) && Moves(s, s', h1, h2) && Held(s', h2) == Held(s, h2)
    requires Held(s, h1) == Some(v) && Held(s', h1) == None && v in s.svs
    requires s'.svs == DropRef(s.svs, v) || s'.svs == DropAndClean(s.svs, v)
    ensures Counted(s')
  {
    hide Held, Places, Holders;
    forall w: Id
      ensures CountOk(s'.svs, w, |Holders(s', w)|)
    {
      Recount(s, s', h1, h2, w);
      assert CountOk(s.svs, w, |Holders(s, w)|);
    }
  }

  /** A place h1 takes a reference to the live v. */
  lemma CountGain(s: State, s': State, h1: Holder, h2: Holder, v: Id)
    requires Counted(s) && Moves(s, s', h1, h2) && Held(s', h2) == Held(s, h2)
    requires Held(s, h1) == None && Held(s', h1) == Some(v) && v in s.svs && s.svs[v].cleaned == 0
    requires s'.svs == AddRef(s.svs, v)
    ensures Counted(s')
  {
    hide Held, Places, Holders;
    forall w: Id
      ensures CountOk(s'.svs, w, |Holders(s', w)|)
    {
      Recount(s, s', h1, h2, w);
      assert CountOk(s.svs, w, |Holders(s, w)|);
    }
  }

  /** Whatever a place holds is counted, hence exists and has not been cleaned up. */
  lemma HeldIsLive(s: State, h: Holder, v: Id)
    requires Counted(s) && Held(s, h) == Some(v)
    ensures Live(s, v) && s.svs[v].refs >= 1
  {
    HoldersIff(s, h, v);
    hide Held, Holders;
    assert CountOk(s.svs, v, |Holders(s, v)|);
  }

  // ---------------------------------------------------------------- cleaning

  lemma CleanerStays(pcs: map<Thread, Pc>, t: Thread, pc: Pc, v: Id)
    requires (HasCleaner(pcs, v) && (t in pcs ==> Duty(pcs[t]) != Some(v))) || Duty(pc) == Some(v)
    ensures HasCleaner(pcs[t := pc], v)
  {
    var after := pcs[t := pc];
    if Duty(pc) == Some(v) {
      assert Duty(after[t]) == Some(v);
    } else {
      var u :| u in pcs && Duty(pcs[u]) == Some(v);
      assert Duty(after[u]) == Some(v);
    }
  }

  /** A thread without a duty moves on (or joins) and takes none over. */
  lemma CleanedGoto(svs: map<Id, Version>, pcs: map<Thread, Pc>, t: Thread, pc: Pc)
    requires CleanedOnce(svs, pcs) && (t in pcs ==> Duty(pcs[t]) == None) && Duty(pc) == None
    ensures CleanedOnce(svs, pcs[t := pc])
  {
    forall v | v in svs && DueNow(svs, v)
      ensures HasCleaner(pcs[t := pc], v)
    {
      CleanerStays(pcs, t, pc, v);
    }
  }

  /** A thread lets go of v, and owes its cleaning if that was the last reference. */
  lemma CleanedDrop(svs: map<Id, Version>, pcs: map<Thread, Pc>, t: Thread, v: Id, pc: Pc)
    requires CleanedOnce(svs, pcs) && t in pcs && Duty(pcs[t]) == None
    requires v in svs && svs[v].refs >= 1 && svs[v].cleaned == 0
    requires Duty(pc) == if svs[v].refs == 1 then Some(v) else None
    ensures CleanedOnce(DropRef(svs, v), pcs[t := pc])
  {
    var after := DropRef(svs, v);
    forall w | w in after && DueNow(after, w)
      ensures HasCleaner(pcs[t := pc], w)
    {
      assert w != v ==> DueNow(svs, w);
      CleanerStays(pcs, t, pc, w);
    }
    var moved := pcs[t := pc];
    forall u | u in moved && Duty(moved[u]).Some?
      ensures DueNow(after, Duty(moved[u]).value)
    {
      assert u != t ==> DueNow(svs, Duty(pcs[u]).value);
    }
  }

  /** The install lets go of v and cleans up at once. */
  lemma CleanedNow(svs: map<Id, Version>, pcs: map<Thread, Pc>, v: Id)
    requires CleanedOnce(svs, pcs) && v in svs && svs[v].refs >= 1 && svs[v].cleaned == 0
    ensures CleanedOnce(DropAndClean(svs, v), pcs)
  {
    var after := DropAndClean(svs, v);
    forall w | w in after && DueNow(after, w)
      ensures HasCleaner(pcs, w)
    {
      assert DueNow(svs, w);
    }
    forall u | u in pcs && Duty(pcs[u]).Some?
      ensures DueNow(after, Duty(pcs[u]).value)
    {
      assert DueNow(svs, Duty(pcs[u]).value);
    }
  }

  /** A thread does its duty. */
  lemma CleanedDuty(svs: map<Id, Version>, pcs: map<Thread, Pc>, t: Thread, v: Id, pc: Pc)
    requires CleanedOnce(svs, pcs) && t in pcs && Duty(pcs[t]) == Some(v) && Duty(pc) == None
    ensures DueNow(svs, v) && CleanedOnce(CleanUp(svs, v), pcs[t := pc])
  {
    assert DueNow(svs, Duty(pcs[t]).value);
    var after := CleanUp(svs, v);
    forall w | w in after && DueNow(after, w)
      ensures HasCleaner(pcs[t := pc], w)
    {
      assert DueNow(svs, w);
      CleanerStays(pcs, t, pc, w);
    }
    var moved := pcs[t := pc];
    forall u | u in moved && Duty(moved[u]).Some?
      ensures DueNow(after, Duty(moved[u]).value)
    {
      assert DueNow(svs, Duty(pcs[u]).value);
    }
  }

  lemma CleanedRef(svs: map<Id, Version>, pcs: map<Thread, Pc>, v: Id)
    requires CleanedOnce(svs, pcs) && v in svs && svs[v].refs >= 1
    ensures CleanedOnce(AddRef(svs, v), pcs)
  {
    var after := AddRef(svs, v);
    forall w | w in after && DueNow(after, w)
      ensures HasCleaner(pcs, w)
    {
      assert DueNow(svs, w);
    }
    forall u | u in pcs && Duty(pcs[u]).Some?
      ensures DueNow(after, Duty(pcs[u]).value)
    {
      assert DueNow(svs, Duty(pcs[u]).value);
    }
  }

  lemma CleanedLeave(svs: map<Id, Version>, pcs: map<Thread, Pc>, t: Thread)
    requires CleanedOnce(svs, pcs) && t in pcs && pcs[t] == Idle
    ensures CleanedOnce(svs, pcs - {t})
  {
    forall v: Id | HasCleaner(pcs, v)
      ensures HasCleaner(pcs - {t}, v)
    {
      var u :| u in pcs && Duty(pcs[u]) == Some(v);
      assert Duty((pcs - {t})[u]) == Some(v);
    }
  }

  lemma CleanedInstall(svs: map<Id, Version>, pcs: map<Thread, Pc>, n: Id, number: nat)
    requires CleanedOnce(svs, pcs) && n !in svs
    ensures CleanedOnce(svs[n := Version(1, number, 0)], pcs)
  {
    var after := svs[n := Version(1, number, 0)];
    forall w | w in after && DueNow(after, w)
      ensures HasCleaner(pcs, w)
    {
      assert DueNow(svs, w);
    }
    forall u | u in pcs && Duty(pcs[u]).Some?
      ensures DueNow(after, Duty(pcs[u]).value)
    {
      assert DueNow(svs, Duty(pcs[u]).value);
    }
  }

  // ---------------------------------------------------------------- every step keeps the invariant

  /** Only thread t's slot and position change. */
  lemma ThreadsStep(s: State, s': State, t: Thread, slot: Slot, pc: Pc)
    requires ThreadsOk(s.slots, s.pcs, s.todo, s.current, s.outgoing, s.mutex) && s'.current == s.current
    requires s'.mutex == s.mutex && s'.todo == s.todo && s'.outgoing == s.outgoing
    requires s'.slots == s.slots[t := slot] && s'.pcs == s.pcs[t := pc]
    requires ThreadOk(slot, pc, TipFor(t, s.todo, s.current, s.outgoing), s.mutex == Some(t))
    ensures ThreadsOk(s'.slots, s'.pcs, s'.todo, s'.current, s'.outgoing, s'.mutex)
  {
    hide ThreadOk;
    assert s'.slots.Keys == s.slots.Keys + {t} && s'.pcs.Keys == s.pcs.Keys + {t};
  }

  /** What is known of one thread. */
  lemma ThreadAt(s: State, t: Thread)
    requires ThreadsOk(s.slots, s.pcs, s.todo, s.current, s.outgoing, s.mutex) && t in s.pcs
    ensures t in s.slots && ThreadOk(s.slots[t], s.pcs[t], TipFor(t, s.todo, s.current, s.outgoing), s.mutex == Some(t))
  {
  }

  lemma InvJoin(s: State, t: Thread)
    requires Inv(s) && CanJoin(s, t)
    ensures Inv(DoJoin(s, t))
  {
    hide CleanedOnce, Counted, NumbersOk, ThreadsOk;
    var s' := DoJoin(s, t);
    ThreadsStep(s, s', t, Obsolete, Idle);
    assert Moves(s, s', InSlot(t), InHand(t));
    CountMove(s, s', InSlot(t), InHand(t));
    CleanedGoto(s.svs, s.pcs, t, Idle);
  }

  function CachedIn(slot: Slot): Option<Id> {
    if slot.Cached? then Some(slot.id) else None
  }

  /** A thread moves on; what it holds in hand and slot stays or changes over. */
  lemma InvMove(s: State, s': State, t: Thread, slot: Slot, pc: Pc)
    requires Inv(s) && t in s.pcs && t in s.slots && Duty(s.pcs[t]) == None && Duty(pc) == None
    requires s' == Goto(s, t, pc).(slots := s.slots[t := slot])
    requires || (CachedIn(slot) == CachedIn(s.slots[t]) && HandOf(pc) == HandOf(s.pcs[t]))
             || (CachedIn(slot) == None && HandOf(s.pcs[t]) == None && HandOf(pc) == CachedIn(s.slots[t]))
             || (HandOf(pc) == None && CachedIn(s.slots[t]) == None && CachedIn(slot) == HandOf(s.pcs[t]))
    requires ThreadOk(slot, pc, TipFor(t, s.todo, s.current, s.outgoing), s.mutex == Some(t))
    ensures Inv(s')
  {
    hide CleanedOnce, Counted, NumbersOk, ThreadsOk, ThreadOk, HandOf, Duty;
    ThreadsStep(s, s', t, slot, pc);
    assert Moves(s, s', InSlot(t), InHand(t));
    if CachedIn(slot) == HandOf(s.pcs[t]) && HandOf(pc) == None && CachedIn(s.slots[t]) == None {
      assert Moves(s, s', InHand(t), InSlot(t));
      CountMove(s, s', InHand(t), InSlot(t));
    } else {
      CountMove(s, s', InSlot(t), InHand(t));
    }
    CleanedGoto(s.svs, s.pcs, t, pc);
  }

  lemma InvSwap(s: State, t: Thread)
    requires Inv(s) && CanSwap(s, t)
    ensures Inv(DoSwap(s, t))
  {
    hide CleanedOnce, Counted, NumbersOk, ThreadsOk;
    ThreadAt(s, t);
    InvMove(s, DoSwap(s, t), t, InUse, DoSwap(s, t).pcs[t]);
  }

  lemma InvCheck(s: State, t: Thread)
    requires Inv(s) && CanCheck(s, t)
    ensures Inv(DoCheck(s, t))
  {
    hide CleanedOnce, Counted, NumbersOk, ThreadsOk, InstallOk;
    ThreadAt(s, t);
    var s' := DoCheck(s, t);
    assert s.slots[t := s.slots[t]] == s.slots;
    InvMove(s, s', t, s.slots[t], s'.pcs[t]);
  }

  /** Counting and cleaning leave the version numbers alone. */
  lemma NumbersKept(svs: map<Id, Version>, svs': map<Id, Version>, v: Id, current: Option<Id>, number: nat)
    requires NumbersOk(svs, current, number) && v in svs && v in svs'
    requires svs' == svs[v := svs'[v]] && svs'[v].number == svs[v].number
    ensures NumbersOk(svs', current, number)
  {
  }

  /** A thread drops the reference it holds. */
  lemma InvDrop(s: State, s': State, t: Thread, v: Id, pc: Pc)
    requires Inv(s) && t in s.pcs && HandOf(s.pcs[t]) == Some(v) && v in s.svs && HandOf(pc) == None
    requires Duty(pc) == if s.svs[v].refs == 1 then Some(v) else None
    requires s' == Goto(s, t, pc).(svs := DropRef(s.svs, v))
    requires t in s.slots && ThreadOk(s.slots[t], pc, TipFor(t, s.todo, s.current, s.outgoing), s.mutex == Some(t))
    ensures Inv(s')
  {
    hide CleanedOnce, Counted, NumbersOk, ThreadsOk;
    ThreadsStep(s, s', t, s.slots[t], pc);
    assert Held(s, InHand(t)) == Some(v);
    HeldIsLive(s, InHand(t), v);
    assert Moves(s, s', InHand(t), InSlot(t));
    hide InstallOk;
    CountDrop(s, s', InHand(t), InSlot(t), v);
    CleanedDrop(s.svs, s.pcs, t, v, pc);
    NumbersKept(s.svs, s'.svs, v, s.current, s.number);
  }

  lemma InvUnrefStale(s: State, t: Thread)
    requires Inv(s) && CanUnrefStale(s, t)
    ensures Inv(DoUnrefStale(s, t))
  {
    hide CleanedOnce, Counted, NumbersOk, ThreadsOk;
    ThreadAt(s, t);
    InvDrop(s, DoUnrefStale(s, t), t, s.pcs[t].id, DoUnrefStale(s, t).pcs[t]);
  }

  lemma InvUnref(s: State, t: Thread)
    requires Inv(s) && CanUnref(s, t)
    ensures Inv(DoUnref(s, t))
  {
    hide CleanedOnce, Counted, NumbersOk, ThreadsOk;
    ThreadAt(s, t);
    InvDrop(s, DoUnref(s, t), t, s.pcs[t].id, DoUnref(s, t).pcs[t]);
  }

  /** A thread cleans up what it owes. */
  lemma InvDuty(s: State, s': State, t: Thread, v: Id, pc: Pc)
    requires Inv(s) && t in s.pcs && Duty(s.pcs[t]) == Some(v) && v in s.svs && HandOf(pc) == None && Duty(pc) == None
    requires s' == Goto(s, t, pc).(svs := CleanUp(s.svs, v))
    requires t in s.slots && ThreadOk(s.slots[t], pc, TipFor(t, s.todo, s.current, s.outgoing), s.mutex == Some(t))
    ensures Inv(s')
  {
    hide CleanedOnce, Counted, NumbersOk, ThreadsOk;
    ThreadsStep(s, s', t, s.slots[t], pc);
    assert forall h :: Held(s', h) == Held(s, h);
    hide InstallOk;
    CleanedDuty(s.svs, s.pcs, t, v, pc);
    CountClean(s, s', v);
    NumbersKept(s.svs, s'.svs, v, s.current, s.number);
  }

  lemma CountClean(s: State, s': State, v: Id)
    requires Counted(s) && v in s.svs && s.svs[v].refs == 0 && s'.svs == CleanUp(s.svs, v)
    requires forall h :: Held(s', h) == Held(s, h)
    ensures Counted(s')
  {
    hide Held, Places, Holders;
    forall w: Id
      ensures CountOk(s'.svs, w, |Holders(s', w)|)
    {
      Recount(s, s', Tip, Outgoing, w);
      assert CountOk(s.svs, w, |Holders(s, w)|);
    }
  }

  lemma InvClean(s: State, t: Thread)
    requires Inv(s) && CanClean(s, t)
    ensures Inv(DoClean(s, t))
  {
    hide CleanedOnce, Counted, NumbersOk, ThreadsOk;
    ThreadAt(s, t);
    InvDuty(s, DoClean(s, t), t, s.pcs[t].id, Idle);
  }

  /** A thread takes a reference on a SuperVersion that some place holds. */
  lemma InvTake(s: State, s': State, t: Thread, v: Id)
    requires Inv(s) && s.mutex.None? && t in s.pcs && s.pcs[t] == NeedLock(None) && s.current == Some(v) && v in s.svs
    requires s' == Goto(s, t, Using(v)).(svs := AddRef(s.svs, v))
    ensures Inv(s')
  {
    hide CleanedOnce, Counted, NumbersOk, ThreadsOk;
    ThreadAt(s, t);
    ThreadsStep(s, s', t, s.slots[t], Using(v));
    HeldIsLive(s, Tip, v);
    assert Moves(s, s', InHand(t), InSlot(t));
    assert Held(s, InHand(t)) == None && Held(s', InHand(t)) == Some(v);
    hide InstallOk, Held;
    CountGain(s, s', InHand(t), InSlot(t), v);
    CleanedGoto(s.svs, s.pcs, t, Using(v));
    CleanedRef(s.svs, s'.pcs, v);
    NumbersKept(s.svs, s'.svs, v, s.current, s.number);
  }

  lemma InvLockRef(s: State, t: Thread)
    requires Inv(s) && CanLockRef(s, t)
    ensures Inv(DoLockRef(s, t))
  {
    hide CleanedOnce, Counted, NumbersOk, ThreadsOk;
    if s.pcs[t].clean.Some? {
      var v := s.pcs[t].clean.value;
      var mid := Goto(s, t, NeedLock(None)).(svs := CleanUp(s.svs, v));
      ThreadAt(s, t);
      InvDuty(s, mid, t, v, NeedLock(None));
      InvTake(mid, DoLockRef(s, t), t, s.current.value);
    } else {
      InvTake(s, DoLockRef(s, t), t, s.current.value);
    }
  }

  lemma InvTakeRef(s: State, t: Thread, r: nat)
    requires Inv(s) && CanTakeRef(s, t, r)
    ensures Inv(DoTakeRef(s, t, r))
  {
    hide CleanedOnce, Counted, NumbersOk, ThreadsOk, InstallOk;
    var s' := DoTakeRef(s, t, r);
    var v := s.pcs[t].id;
    assert Held(s, InHand(t)) == Some(v);
    HeldIsLive(s, InHand(t), v);
    assert Moves(s, s', GivenOut(r), InHand(t));
    CountGain(s, s', GivenOut(r), InHand(t), v);
    CleanedRef(s.svs, s.pcs, v);
    NumbersKept(s.svs, s'.svs, v, s.current, s.number);
  }

  lemma InvReturn(s: State, t: Thread)
    requires Inv(s) && CanReturn(s, t)
    ensures Inv(DoReturn(s, t))
  {
    hide CleanedOnce, Counted, NumbersOk, ThreadsOk, InstallOk;
    ThreadAt(s, t);
    var s' := DoReturn(s, t);
    assert s.slots[t := s.slots[t]] == s.slots;
    InvMove(s, s', t, s'.slots[t], s'.pcs[t]);
  }

  lemma InvRelease(s: State, t: Thread, r: nat)
    requires Inv(s) && CanRelease(s, t, r)
    ensures Inv(DoRelease(s, t, r))
  {
    hide CleanedOnce, Counted, NumbersOk, ThreadsOk;
    var s' := DoRelease(s, t, r);
    ThreadAt(s, t);
    ThreadsStep(s, s', t, s.slots[t], s'.pcs[t]);
    assert Moves(s, s', GivenOut(r), InHand(t));
    CountMove(s, s', GivenOut(r), InHand(t));
    CleanedGoto(s.svs, s.pcs, t, s'.pcs[t]);
  }

  lemma InvExit(s: State, t: Thread)
    requires Inv(s) && CanExit(s, t)
    ensures Inv(DoExit(s, t))
  {
    hide CleanedOnce, Counted, NumbersOk, ThreadsOk, InstallOk;
    ThreadAt(s, t);
    InvMove(s, DoExit(s, t), t, Obsolete, DoExit(s, t).pcs[t]);
  }

  lemma ThreadsLeave(s: State, t: Thread)
    requires ThreadsOk(s.slots, s.pcs, s.todo, s.current, s.outgoing, s.mutex) && At(s, t, Idle)
    ensures ThreadsOk(s.slots - {t}, s.pcs - {t}, s.todo - {t}, s.current, s.outgoing, s.mutex) && s.mutex != Some(t)
  {
    ThreadAt(s, t);
    hide ThreadOk;
  }

  lemma InvLeave(s: State, t: Thread)
    requires Inv(s) && CanLeave(s, t)
    ensures Inv(DoLeave(s, t))
  {
    hide CleanedOnce, Counted, NumbersOk, ThreadsOk;
    var s' := DoLeave(s, t);
    ThreadsLeave(s, t);
    assert Moves(s, s', InSlot(t), InHand(t));
    CountMove(s, s', InSlot(t), InHand(t));
    CleanedLeave(s.svs, s.pcs, t);
  }

  lemma ThreadsBegin(s: State, t: Thread, n: Id)
    requires ThreadsOk(s.slots, s.pcs, s.todo, s.current, s.outgoing, s.mutex) && At(s, t, Idle) && s.mutex.None?
    requires s.todo == {}
    ensures t in s.slots && ThreadsOk(s.slots, s.pcs[t := Installing], s.slots.Keys, Some(n), s.current, Some(t))
  {
    ThreadAt(s, t);
    assert s.pcs[t := Installing].Keys == s.pcs.Keys;
  }

  lemma NumbersBegin(svs: map<Id, Version>, current: Option<Id>, number: nat, n: Id)
    requires NumbersOk(svs, current, number) && n !in svs
    ensures NumbersOk(svs[n := Version(1, number + 1, 0)], Some(n), number + 1) && current != Some(n)
  {
  }

  lemma InvBeginInstall(s: State, t: Thread, n: Id)
    requires Inv(s) && CanBeginInstall(s, t, n)
    ensures Inv(DoBeginInstall(s, t, n))
  {
    hide CleanedOnce, Counted, NumbersOk, ThreadsOk;
    var s' := DoBeginInstall(s, t, n);
    ThreadsBegin(s, t, n);
    NumbersBegin(s.svs, s.current, s.number, n);
    assert Moves(s, s', Tip, Outgoing);
    CountInstall(s, s', n);
    CleanedGoto(s.svs, s.pcs, t, Installing);
    CleanedInstall(s.svs, s'.pcs, n, s.number + 1);
  }

  lemma CountInstall(s: State, s': State, n: Id)
    requires Counted(s) && Moves(s, s', Tip, Outgoing) && n !in s.svs
    requires Held(s, Outgoing) == None && Held(s', Tip) == Some(n) && Held(s', Outgoing) == Held(s, Tip)
    requires n in s'.svs && s'.svs[n].refs == 1 && s'.svs[n].cleaned == 0 && s'.svs == s.svs[n := s'.svs[n]]
    ensures Counted(s')
  {
    forall w: Id
      ensures CountOk(s'.svs, w, |Holders(s', w)|)
    {
      hide Held, Places, Holders;
      Recount(s, s', Tip, Outgoing, w);
      assert CountOk(s.svs, w, |Holders(s, w)|);
      assert Held(s, Tip) != Some(n) by {
        if Held(s, Tip) == Some(n) {
          HeldIsLive(s, Tip, n);
        }
      }
    }
  }

  lemma ThreadsScrape(s: State, u: Thread)
    requires ThreadsOk(s.slots, s.pcs, s.todo, s.current, s.outgoing, s.mutex) && u in s.slots
    ensures ThreadsOk(s.slots[u := Obsolete], s.pcs, s.todo - {u}, s.current, s.outgoing, s.mutex)
  {
    ThreadAt(s, u);
    assert s.slots[u := Obsolete].Keys == s.slots.Keys;
  }

  lemma InvScrape(s: State, t: Thread, u: Thread)
    requires Inv(s) && CanScrape(s, t, u)
    ensures Inv(DoScrape(s, u))
  {
    hide CleanedOnce, Counted, NumbersOk, ThreadsOk;
    var s' := DoScrape(s, u);
    ThreadAt(s, t);
    ThreadsScrape(s, u);
    assert Moves(s, s', InSlot(u), InScrape(u));
    CountMove(s, s', InSlot(u), InScrape(u));
  }

  lemma InvUnrefScraped(s: State, t: Thread, u: Thread)
    requires Inv(s) && CanUnrefScraped(s, t, u)
    ensures Inv(DoUnrefScraped(s, u))
  {
    hide CleanedOnce, Counted, NumbersOk, ThreadsOk;
    var s' := DoUnrefScraped(s, u);
    var v := s.scraped[u];
    HeldIsLive(s, InScrape(u), v);
    assert Moves(s, s', InScrape(u), InSlot(u));
    CountDrop(s, s', InScrape(u), InSlot(u), v);
    CleanedNow(s.svs, s.pcs, v);
    NumbersKept(s.svs, s'.svs, v, s.current, s.number);
  }

  lemma ThreadsEnd(s: State, t: Thread)
    requires ThreadsOk(s.slots, s.pcs, s.todo, s.current, s.outgoing, s.mutex) && At(s, t, Installing) && s.todo == {}
    ensures ThreadsOk(s.slots, s.pcs[t := Idle], s.todo, s.current, None, None)
  {
    ThreadAt(s, t);
    assert s.pcs[t := Idle].Keys == s.pcs.Keys;
  }

  lemma InvEndInstall(s: State, t: Thread)
    requires Inv(s) && CanEndInstall(s, t)
    ensures Inv(DoEndInstall(s, t))
  {
    hide CleanedOnce, Counted, NumbersOk, ThreadsOk;
    var s' := DoEndInstall(s, t);
    ThreadsEnd(s, t);
    assert Moves(s, s', Outgoing, Tip);
    CleanedGoto(s.svs, s.pcs, t, Idle);
    if s.outgoing.Some? {
      var v := s.outgoing.value;
      HeldIsLive(s, Outgoing, v);
      CountDrop(s, s', Outgoing, Tip, v);
      CleanedNow(s.svs, s'.pcs, v);
      NumbersKept(s.svs, s'.svs, v, s.current, s.number);
    } else {
      CountMove(s, s', Outgoing, Tip);
    }
  }

  lemma InvInit()
    ensures Inv(Init)
  {
    forall v: Id
      ensures Holders(Init, v) == {}
    {
    }
  }

  lemma InvStep(s: State, a: Action)
    requires Inv(s) && Enabled(s, a)
    ensures Inv(Apply(s, a))
  {
    hide Inv;
    match a
    case Join(t) => InvJoin(s, t);
    case Swap(t) => InvSwap(s, t);
    case Check(t) => InvCheck(s, t);
    case UnrefStale(t) => InvUnrefStale(s, t);
    case LockRef(t) => InvLockRef(s, t);
    case TakeRef(t, r) => InvTakeRef(s, t, r);
    case Return(t) => InvReturn(s, t);
    case Unref(t) => InvUnref(s, t);
    case Clean(t) => InvClean(s, t);
    case Release(t, r) => InvRelease(s, t, r);
    case Exit(t) => InvExit(s, t);
    case Leave(t) => InvLeave(s, t);
    case BeginInstall(t, n) => InvBeginInstall(s, t, n);
    case Scrape(t, u) => InvScrape(s, t, u);
    case UnrefScraped(t, u) => InvUnrefScraped(s, t, u);
    case EndInstall(t) => InvEndInstall(s, t);
  }

  // ---------------------------------------------------------------- every run

  /** The state after these steps, in this interleaving; None if some step cannot happen. */
  function After(steps: seq<Action>): Option<State> {
    if steps == [] then Some(Init)
    else
      var before := After(steps[..|steps| - 1]);
      if before.Some? && Enabled(before.value, steps[|steps| - 1]) then Some(Apply(before.value, steps[|steps| - 1]))
          else None
  }

  predicate Reaches(steps: seq<Action>, s: State) {
    After(steps) == Some(s)
  }

  /** The invariant holds after every interleaving. */
  lemma {:induction false} InvAlways(steps: seq<Action>, s: State)
    requires Reaches(steps, s)
    ensures Inv(s)
    decreases |steps|
  {
    hide Inv, Enabled, Apply;
    if steps == [] {
      InvInit();
    } else {
      var before := After(steps[..|steps| - 1]).value;
      InvAlways(steps[..|steps| - 1], before);
      InvStep(before, steps[|steps| - 1]);
    }
  }

  function CachingSlots(s: State, v: Id): set<Thread> {
    set t | t in s.slots && s.slots[t] == Cached(v)
  }

  function Borrowers(s: State, v: Id): set<Thread> {
    set t | t in s.pcs && HandOf(s.pcs[t]) == Some(v)
  }

  function GivenRefs(s: State, v: Id): set<nat> {
    set r | r in s.out && s.out[r] == v
  }

  function InSlots(ts: set<Thread>): set<Holder> {
    set t | t in ts :: InSlot(t)
  }

  function InHands(ts: set<Thread>): set<Holder> {
    set t | t in ts :: InHand(t)
  }

  function AllGiven(rs: set<nat>): set<Holder> {
    set r | r in rs :: GivenOut(r)
  }

  lemma {:induction false} SlotImage(ts: set<Thread>)
    ensures |InSlots(ts)| == |ts|
  {
    if ts != {} {
      var t :| t in ts;
      SlotImage(ts - {t});
      assert InSlots(ts) == InSlots(ts - {t}) + {InSlot(t)};
    }
  }

  lemma {:induction false} HandImage(ts: set<Thread>)
    ensures |InHands(ts)| == |ts|
  {
    if ts != {} {
      var t :| t in ts;
      HandImage(ts - {t});
      assert InHands(ts) == InHands(ts - {t}) + {InHand(t)};
    }
  }

  lemma {:induction false} RefImage(rs: set<nat>)
    ensures |AllGiven(rs)| == |rs|
  {
    if rs != {} {
      var r :| r in rs;
      RefImage(rs - {r});
      assert AllGiven(rs) == AllGiven(rs - {r}) + {GivenOut(r)};
    }
  }

  /** Outside an install: refs == [it is current] + slots caching it + borrowed references. */
  lemma RefsAreExact(steps: seq<Action>, s: State, v: Id)
    requires Reaches(steps, s) && s.mutex.None? && v in s.svs
    ensures s.svs[v].refs == Bit(s.current == Some(v)) + |CachingSlots(s, v)| + |Borrowers(s, v)| + |GivenRefs(s, v)|
  {
    InvAlways(steps, s);
    assert s.outgoing == None && s.scraped == map[];
    assert CountOk(s.svs, v, |Holders(s, v)|);
    hide Inv, Reaches, CountOk;
    CountParts(s, v);
  }

  lemma CountParts(s: State, v: Id)
    requires s.outgoing == None && s.scraped == map[]
    ensures |Holders(s, v)| == Bit(s.current == Some(v)) + |CachingSlots(s, v)| + |Borrowers(s, v)| + |GivenRefs(s, v)|
  {
    var tip := if s.current == Some(v) then {Tip} else {};
    assert InSlots(CachingSlots(s, v)) !! InHands(Borrowers(s, v));
    assert tip + InSlots(CachingSlots(s, v)) + InHands(Borrowers(s, v)) !! AllGiven(GivenRefs(s, v));
    Partition(s, v);
    hide Holders, CachingSlots, Borrowers, GivenRefs, InSlots, InHands, AllGiven;
    SlotImage(CachingSlots(s, v));
    HandImage(Borrowers(s, v));
    RefImage(GivenRefs(s, v));
  }

  lemma Partition(s: State, v: Id)
    requires s.outgoing == None && s.scraped == map[]
    ensures Holders(s, v) ==
              (if s.current == Some(v) then {Tip} else {}) + InSlots(CachingSlots(s, v)) + InHands(Borrowers(s, v)) +
                  AllGiven(GivenRefs(s, v))
  {
    forall h
      ensures h in Holders(s, v) <==> Held(s, h) == Some(v)
    {
      HoldersIff(s, h, v);
    }
    hide Holders;
  }

  // ---------------------------------------------------------------- what every run guarantees

  /** The SuperVersion whose count or number a step reads or writes. */
  function Touched(s: State, a: Action): Option<Id>
    requires Enabled(s, a)
  {
    match a
    case Check(t) => s.pcs[t].got
    case UnrefStale(t) => Some(s.pcs[t].id)
    case LockRef(t) => s.current
    case TakeRef(t, r) => Some(s.pcs[t].id)
    case Unref(t) => Some(s.pcs[t].id)
    case UnrefScraped(t, u) => Some(s.scraped[u])
    case EndInstall(t) => s.outgoing
    case _ => None
  }

  lemma TouchedIsHeld(s: State, a: Action, v: Id) returns (h: Holder)
    requires Enabled(s, a) && Touched(s, a) == Some(v)
    ensures Held(s, h) == Some(v)
  {
    match a
    case LockRef(t) => h := Tip;
    case UnrefScraped(t, u) => h := InScrape(u);
    case EndInstall(t) => h := Outgoing;
    case _ => h := InHand(a.t);
  }

  /** Whatever a step touches has not been cleaned up, and Unref() finds a positive count. */
  lemma NeverUsedAfterCleanup(steps: seq<Action>, s: State, a: Action, v: Id)
    requires Reaches(steps, s) && Enabled(s, a) && Touched(s, a) == Some(v)
    ensures Live(s, v) && s.svs[v].refs >= 1
  {
    InvAlways(steps, s);
    hide CleanedOnce, NumbersOk, ThreadsOk, InstallOk, Counted, Reaches, Enabled, Touched;
    var h := TouchedIsHeld(s, a, v);
    HeldIsLive(s, h, v);
  }

  /** Nobody holds a SuperVersion that was cleaned up, no SuperVersion is cleaned up twice, and once no
      thread is on its way to clean, every unreferenced one has been cleaned up exactly once. */
  lemma CleanedExactlyOnce(steps: seq<Action>, s: State, v: Id)
    requires Reaches(steps, s) && v in s.svs
    ensures s.svs[v].cleaned <= 1
    ensures s.svs[v].cleaned == 1 ==> s.svs[v].refs == 0 && forall h :: Held(s, h) != Some(v)
    ensures (forall t | t in s.pcs :: Duty(s.pcs[t]) == None) ==> (s.svs[v].refs == 0 <==> s.svs[v].cleaned == 1)
  {
    InvAlways(steps, s);
    hide NumbersOk, ThreadsOk, InstallOk, Holders, Held, Reaches;
    assert CountOk(s.svs, v, |Holders(s, v)|);
    if s.svs[v].cleaned == 1 {
      forall h
        ensures Held(s, h) != Some(v)
      {
        HoldersIff(s, h, v);
      }
    }
  }

  /** The slot asserts: a get never finds kSVInUse, and a compare-and-swap that fails finds kSVObsolete. */
  lemma SlotAssertsHold(steps: seq<Action>, s: State, t: Thread)
    requires Reaches(steps, s) && t in s.pcs
    ensures t in s.slots
    ensures CanSwap(s, t) ==> s.slots[t] != InUse
    ensures CanReturn(s, t) && s.slots[t] != InUse ==> s.slots[t] == Obsolete
  {
    InvAlways(steps, s);
    hide CleanedOnce, NumbersOk, Counted, Reaches;
    ThreadAt(s, t);
  }

  /** Outside an install every cached SuperVersion is the current one; during one, a slot that the
      install has not reached yet may still cache the outgoing one. */
  lemma CachedIsCurrent(steps: seq<Action>, s: State, t: Thread)
    requires Reaches(steps, s) && t in s.slots && s.slots[t].Cached?
    ensures Some(s.slots[t].id) == if t in s.todo then s.outgoing else s.current
    ensures s.mutex.None? ==> s.current == Some(s.slots[t].id)
  {
    InvAlways(steps, s);
    hide CleanedOnce, NumbersOk, Counted, Reaches;
    ThreadAt(s, t);
  }

  /** A get that takes the fast path returns the SuperVersion that is current at that instant. */
  lemma FastPathIsCurrent(steps: seq<Action>, s: State, t: Thread)
    requires Reaches(steps, s) && CanCheck(s, t)
    ensures DoCheck(s, t).pcs[t].Using? <==> s.pcs[t].got.Some? && s.current == s.pcs[t].got
  {
    InvAlways(steps, s);
    hide CleanedOnce, ThreadsOk, Counted, Reaches;
  }

  /** A successful compare-and-swap puts the current SuperVersion back, unless an install has begun and
      not scraped this slot yet: then it puts back the outgoing one (which the scrape will collect). */
  lemma ReturnedIsCurrentIff(steps: seq<Action>, s: State, t: Thread)
    requires Reaches(steps, s) && CanReturn(s, t) && s.slots[t] == InUse
    ensures DoReturn(s, t).slots[t].Cached?
    ensures s.current == Some(DoReturn(s, t).slots[t].id) <==> t !in s.todo
  {
    InvAlways(steps, s);
    hide CleanedOnce, NumbersOk, Counted, Reaches, ThreadsOk;
    ThreadAt(s, t);
  }

  lemma AfterStep(steps: seq<Action>, s: State, a: Action, s': State)
    requires Reaches(steps, s) && Enabled(s, a) && s' == Apply(s, a)
    ensures Reaches(steps + [a], s')
  {
    assert (steps + [a])[..|steps|] == steps;
  }

  lemma JustJoined() returns (steps: seq<Action>, s: State)
    ensures Reaches(steps, s) && s == Init.(slots := map[1 := Obsolete], pcs := map[1 := Idle])
  {
    AfterStep([], Init, Join(1), DoJoin(Init, 1));
    steps, s := [Join(1)], DoJoin(Init, 1);
    assert [] + [Join(1)] == steps;
  }

  /** One SuperVersion installed; thread 2 is about to read. */
  lemma FirstInstall() returns (steps: seq<Action>, s: State)
    ensures Reaches(steps, s)
    ensures At(s, 1, Idle) && At(s, 2, Idle) && 2 in s.slots && s.slots[2] == Obsolete
    ensures s.mutex.None? && s.current == Some(0) && 0 in s.svs && 1 !in s.svs
  {
    hide After;
    steps, s := JustJoined();
    steps, s := Then(steps, s, BeginInstall(1, 0));
    assert s.todo == {1};
    steps, s := Then(steps, s, Scrape(1, 1));
    steps, s := Then(steps, s, EndInstall(1));
    steps, s := Then(steps, s, Join(2));
  }

  lemma Then(steps: seq<Action>, s: State, a: Action) returns (more: seq<Action>, s': State)
    requires Reaches(steps, s) && Enabled(s, a)
    ensures Reaches(more, s') && s' == Apply(s, a)
  {
    more, s' := steps + [a], Apply(s, a);
    AfterStep(steps, s, a, s');
  }

  /** A reader that returns between the start of an install and the scrape of its slot does cache the
      outgoing SuperVersion. */
  lemma ReturnCanCacheOutgoing() returns (steps: seq<Action>, s: State)
    ensures Reaches(steps, s) && s.current == Some(1) && 2 in s.slots && s.slots[2] == Cached(0)
  {
    steps, s := FirstInstall();
    hide Reaches;
    steps, s := Then(steps, s, Swap(2));
    steps, s := Then(steps, s, Check(2));
    steps, s := Then(steps, s, LockRef(2));
    steps, s := Then(steps, s, BeginInstall(1, 1));
    steps, s := Then(steps, s, Return(2));
  }

  /** No step is refused for a dangling pointer: where a thread stands, its next step can happen as
      soon as the mutex it needs is free (and, for the first read, a SuperVersion is installed). */
  lemma NeverStuck(steps: seq<Action>, s: State, t: Thread)
    requires Reaches(steps, s) && t in s.pcs
    ensures s.pcs[t].Swapped? ==> CanCheck(s, t)
    ensures s.pcs[t].Stale? ==> CanUnrefStale(s, t)
    ensures s.pcs[t].NeedLock? && s.mutex.None? && s.current.Some? ==> CanLockRef(s, t)
    ensures s.pcs[t].Using? ==> CanReturn(s, t)
    ensures s.pcs[t].MustUnref? ==> CanUnref(s, t)
    ensures s.pcs[t].MustClean? && s.mutex.None? ==> CanClean(s, t)
  {
    InvAlways(steps, s);
    hide Counted, Reaches, ThreadsOk;
    ThreadAt(s, t);
    assert Held(s, InHand(t)) == HandOf(s.pcs[t]);
    if HandOf(s.pcs[t]).Some? {
      HeldIsLive(s, InHand(t), HandOf(s.pcs[t]).value);
    }
    if Duty(s.pcs[t]).Some? {
      assert DueNow(s.svs, Duty(s.pcs[t]).value);
    }
  }

  /** GetReferencedSuperVersion() ignores what its Unref() returns: rightly, since the reference it has
      just taken keeps that Unref() from being the last. */
  lemma ReferencedIsNotLast(steps: seq<Action>, s: State, t: Thread, r: nat)
    requires Reaches(steps, s) && CanUnref(s, t) && r in s.out && s.out[r] == s.pcs[t].id
    ensures !DoUnref(s, t).pcs[t].MustClean?
  {
    InvAlways(steps, s);
    hide CleanedOnce, NumbersOk, ThreadsOk, InstallOk, Reaches;
    var v := s.pcs[t].id;
    HoldersIff(s, InHand(t), v);
    HoldersIff(s, GivenOut(r), v);
    hide Held, Holders;
    assert CountOk(s.svs, v, |Holders(s, v)|);
    TakeTwo(Holders(s, v), InHand(t), GivenOut(r));
  }
}
