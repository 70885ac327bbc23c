/** A forced Release() of the clock cache in interleaved runs: it erases by a key that it reads after it has
    given up its reference, so what it erases need not be what it released. */
module ClockForced {
  import opened Common
  import opened ClockProtocol

  /** Every fill of a handle keeps its key, and fills only increase. */
  ghost predicate Grows(list: seq<Handle>, list': seq<Handle>) {
    |list| <= |list'| && forall h | 0 <= h < |list| :: GrowsAt(list[h], list'[h])
  }

  /** In the bin a handle stays until it is filled again, and outside of the cache it stays out until then. */
  ghost predicate GrowsAt(x: Handle, x': Handle) {
    && x.fills <= x'.fills
    && (x.fills == x'.fills ==> x.key == x'.key && (x.binned ==> x'.binned) && (!x.inCache ==> !x'.inCache))
  }

  lemma UpdateGrows(list: seq<Handle>, h: Id, x: Handle)
    requires h < |list| && GrowsAt(list[h], x)
    ensures Grows(list, list[h := x])
  {
  }

  /** The handle a step changes, if any. */
  function ChangedBy(s: State, a: Action): Option<Id>
    requires Enabled(s, a)
  {
    match a
    case Ref(c) => Some(s.calls[c].h)
    case RefAgain(p, q) => Some(s.pins[p].h)
    case Mark(c) => Some(s.calls[c].h)
    case Drop(c) => Some(s.calls[c].h)
    case Recycle(c) => Some(s.calls[c].h)
    case Evict(h) => Some(h)
    case ClearUsage(h) => Some(h)
    case Discard => Some(s.stage.h)
    case Unset => Some(s.stage.h)
    case Fill(h, key, charge, hold) => Some(h)
    case _ => None
  }

  lemma OneChanges(s: State, a: Action)
    requires Enabled(s, a)
    ensures var h, list := ChangedBy(s, a), Apply(s, a).list;
            if h.None? then s.list <= list
            else
              && h.value < |s.list| == |list| && list == s.list[h.value := list[h.value]]
              && GrowsAt(s.list[h.value], list[h.value])
  {
  }

  lemma StepGrows(s: State, a: Action)
    requires Enabled(s, a)
    ensures Grows(s.list, Apply(s, a).list)
  {
    OneChanges(s, a);
    var h, list := ChangedBy(s, a), Apply(s, a).list;
    hide Enabled, Apply, ChangedBy;
    if h.Some? {
      UpdateGrows(s.list, h.value, list[h.value]);
    }
  }

  /** The handle has been filled again since it held this entry, or holds it, or held it last. */
  ghost predicate WasOk(x: Handle, was: Entry) {
    was.fill <= x.fills && (was.fill == x.fills ==> was.key == x.key)
  }

  /** What was read is the released entry or a later one; nothing was read from a handle in the bin. */
  ghost predicate ReadOk(x: Handle, read: Option<Entry>, was: Entry) {
    if read.Some? then was.fill <= read.value.fill <= x.fills && (was.fill == read.value.fill ==> read.value == was)
    else was.fill < x.fills || x.binned
  }

  ghost predicate CallOk(list: seq<Handle>, call: Call) {
    && call.h < |list|
    && (call.Unpinning? || call.Forcing? || call.Erasing? ==> WasOk(list[call.h], call.was))
    && (call.Erasing? ==> ReadOk(list[call.h], call.read, call.was))
  }

  ghost predicate ForcedOk(s: State) {
    forall c | c in s.calls :: CallOk(s.list, s.calls[c])
  }

  lemma CallStays(list: seq<Handle>, list': seq<Handle>, call: Call)
    requires CallOk(list, call) && Grows(list, list')
    ensures CallOk(list', call)
  {
    assert GrowsAt(list[call.h], list'[call.h]);
  }

  /** The call a step is part of, if any. */
  function CallerOf(a: Action): Option<nat> {
    match a
    case Find(c, key) => Some(c)
    case Ref(c) => Some(c)
    case CheckKey(c, p) => Some(c)
    case Release(c, p, force) => Some(c)
    case Mark(c) => Some(c)
    case Drop(c) => Some(c)
    case Unpin(c) => Some(c)
    case Recycle(c) => Some(c)
    case ReadKey(c) => Some(c)
    case ForceErase(c) => Some(c)
    case _ => None
  }

  lemma OtherCallsStay(s: State, a: Action, c: nat)
    requires Enabled(s, a) && CallerOf(a) != Some(c)
    ensures c in Apply(s, a).calls <==> c in s.calls
    ensures c in s.calls ==> Apply(s, a).calls[c] == s.calls[c]
  {
    if CallerOf(a).Some? {
      OnlyOwnCall(s, a);
    } else {
      NoCall(s, a);
    }
    hide Enabled, Apply, CallerOf;
  }

  lemma OnlyOwnCall(s: State, a: Action)
    requires Enabled(s, a) && CallerOf(a).Some?
    ensures Apply(s, a).calls - {CallerOf(a).value} == s.calls - {CallerOf(a).value}
  {
  }

  lemma NoCall(s: State, a: Action)
    requires Enabled(s, a) && CallerOf(a).None?
    ensures Apply(s, a).calls == s.calls
  {
  }

  lemma OwnCallOk(s: State, a: Action, c: nat)
    requires Enabled(s, a) && CallerOf(a) == Some(c) && (c in s.calls ==> CallOk(s.list, s.calls[c]))
    requires CallsOk(s.list, s.calls) && PinsOk(s.list, s.pins) && forall k | k in s.table :: s.table[k] < |s.list|
    ensures c in Apply(s, a).calls ==> CallOk(Apply(s, a).list, Apply(s, a).calls[c])
  {
  }

  lemma ForcedStep(s: State, a: Action)
    requires Inv(s) && ForcedOk(s) && Enabled(s, a)
    ensures ForcedOk(Apply(s, a))
  {
    var s' := Apply(s, a);
    assert forall k | k in s.table :: EntryOk(s.list, s.table[k], k, s.stage);
    StepGrows(s, a);
    hide Apply, Enabled, Counted, TableOk, StageOk, Charges, CallOk, Grows;
    forall c | c in s'.calls
      ensures CallOk(s'.list, s'.calls[c])
    {
      if CallerOf(a) == Some(c) {
        OwnCallOk(s, a, c);
      } else {
        OtherCallsStay(s, a, c);
        CallStays(s.list, s'.list, s.calls[c]);
      }
    }
  }

  lemma {:induction false} ForcedAlways(steps: seq<Action>, s: State)
    requires Reaches(steps, s)
    ensures ForcedOk(s)
  {
    if steps != [] {
      var n := |steps| - 1;
      var before := After(steps[..n]).value;
      ForcedAlways(steps[..n], before);
      InvAlways(steps[..n], before);
      hide Inv, ForcedOk, Enabled, Apply;
      ForcedStep(before, steps[n]);
    }
  }

  // ---------------------------------------------------------------- what it erases

  /** It reads the released entry's key if and only if the handle was neither recycled nor filled again since
      the reference was dropped; otherwise it reads no key, or that of a later entry. */
  lemma ReadsReleasedKeyIff(steps: seq<Action>, s: State, c: nat)
    requires Reaches(steps, s) && CanReadKey(s, c)
    ensures var x, was, read := s.list[s.calls[c].h], s.calls[c].was, DoReadKey(s, c).calls[c].read;
            && (read == Some(was) <==> !x.binned && x.fills == was.fill)
            && (read != Some(was) ==> read == None || read.value.fill > was.fill)
  {
    ForcedAlways(steps, s);
    hide Reaches;
    assert CallOk(s.list, s.calls[c]);
  }

  /** The entry a forced Release() takes out of the table: its handle and its fill. */
  function TakesOut(s: State, c: nat): Option<(Id, nat)>
    requires CanForceErase(s, c)
  {
    var read := s.calls[c].read;
    if read.Some? && read.value.key in s.table && s.table[read.value.key] < |s.list|
    then Some((s.table[read.value.key], s.list[s.table[read.value.key]].fills)) else None
  }

  /** It takes the released entry out if and only if that entry is still cached: neither evicted, erased or
      replaced, nor its handle filled again. Otherwise it takes out whatever is cached under the key it read. */
  lemma ErasesReleasedEntryIff(steps: seq<Action>, s: State, c: nat)
    requires Reaches(steps, s) && CanForceErase(s, c)
    ensures var h, was, read := s.calls[c].h, s.calls[c].was, s.calls[c].read;
            && h < |s.list|
            && (TakesOut(s, c) == Some((h, was.fill)) <==> s.list[h].inCache && s.list[h].fills == was.fill)
            && (TakesOut(s, c).Some? <==> read.Some? && read.value.key in s.table)
  {
    ForcedAlways(steps, s);
    FreeMutexMeansConsistent(steps, s);
    InvAlways(steps, s);
    assert CallOk(s.list, s.calls[c]);
    assert CountedAt(s, s.calls[c].h);
    hide Reaches, Counted, TableOk, StageOk, Charges, Refs, Recyclers;
  }

  /** An entry for key 7 is force-released. Before its key is read the handle is evicted and filled with key 8,
      and it is key 8, which nobody released, that leaves the table. */
  lemma ForcedReleaseErasesUnrelatedKey() returns (steps: seq<Action>, s: State)
    ensures Reaches(steps, s) && CanForceErase(s, 0) && s.calls[0].was.key == 7 && s.table == map[8 := 0]
    ensures DoForceErase(s, 0).table == map[]
  {
    steps, s := RefilledMeanwhile();
    hide Reaches;
    steps, s := Then(steps, s, Publish(0));
    steps, s := Then(steps, s, ReadKey(0));
  }

  lemma ForcedAndDropped() returns (steps: seq<Action>, s: State)
    ensures Reaches(steps, s) && s.stage == Free && s.calls == map[0 := Forcing(0, Entry(7, 1))] && s.pins == map[]
    ensures s.table == map[7 := 0] && s.list == [Handle(7, 1, true, true, 0, false, 1, 0)]
  {
    steps, s := InsertedAndHeld();
    hide Reaches;
    steps, s := Then(steps, s, Release(0, 0, true));
    steps, s := Then(steps, s, Mark(0));
    steps, s := Then(steps, s, Drop(0));
    steps, s := Then(steps, s, Unpin(0));
  }

  lemma RefilledMeanwhile() returns (steps: seq<Action>, s: State)
    ensures Reaches(steps, s) && s.stage == Filled(0, false) && s.calls == map[0 := Forcing(0, Entry(7, 1))]
    ensures s.pins == map[]
    ensures s.table == map[] && s.list == [Handle(8, 1, true, false, 0, false, 2, 1)]
  {
    steps, s := ForcedAndDropped();
    hide Reaches;
    steps, s := Then(steps, s, Lock);
    steps, s := Then(steps, s, ClearUsage(0));
    steps, s := Then(steps, s, Evict(0));
    steps, s := RefilledThen(steps, s);
  }

  lemma RefilledThen(steps: seq<Action>, s: State) returns (steps': seq<Action>, s': State)
    requires Reaches(steps, s) && s.stage == Evicted(0) && s.table == map[7 := 0]
    requires s.list == [Handle(7, 1, false, false, 0, false, 1, 0)]
    ensures Reaches(steps', s') && s'.stage == Filled(0, false) && s'.calls == s.calls && s'.pins == s.pins
    ensures s'.table == map[] && s'.list == [Handle(8, 1, true, false, 0, false, 2, 1)]
  {
    hide Reaches;
    steps', s' := Then(steps, s, EvictErase);
    steps', s' := Then(steps', s', Discard);
    steps', s' := Then(steps', s', Fill(0, 8, 1, false));
  }
}
