/** What pinned_usage_ is in every interleaved run of the clock cache: the charges of the entries in use, what
    releases have still to take off, and a drift that only refilling a handle can add to. */
module ClockAccounts {
  import opened Common
  import opened ClockProtocol

  function UnpinOf(call: Call): Option<Id> {
    if call.Unpinning? then Some(call.h) else None
  }

  function CallUnpin(calls: map<nat, Call>, c: nat): Option<Id> {
    if c in calls then UnpinOf(calls[c]) else None
  }

  /** Referenced, and not by an Insert() that has yet to publish it. */
  predicate InUse(s: State, h: Id) {
    HandleAt(s.list, h).refs > 0 && StageRef(s.stage) != Some(h)
  }

  /** How often the charge of h is in pinned_usage_: once if h is in use, and once for every release that has
      dropped the last reference and not yet taken the charge off. */
  function Weight(s: State, h: Id): nat {
    Bit(InUse(s, h)) + Count(s.calls, UnpinOf, h)
  }

  function Term(s: State, h: Id): nat {
    Weight(s, h) * HandleAt(s.list, h).charge
  }

  /** The sum over the first n handles. */
  function Owed(s: State, n: nat): nat {
    if n == 0 then 0 else Owed(s, n - 1) + Term(s, n - 1)
  }

  /** The charges of the handles in use: what pinned_usage_ stands for. */
  function UsedCharge(s: State, n: nat): nat {
    if n == 0 then 0 else UsedCharge(s, n - 1) + if InUse(s, n - 1) then HandleAt(s.list, n - 1).charge else 0
  }

  // ---------------------------------------------------------------- sums

  lemma {:induction false} OwedSame(s: State, s': State, n: nat)
    requires forall i: Id | i < n :: Term(s', i) == Term(s, i)
    ensures Owed(s', n) == Owed(s, n)
  {
    if n > 0 {
      hide Term;
      OwedSame(s, s', n - 1);
    }
  }

  lemma {:induction false} OwedChange(s: State, s': State, h: Id, n: nat)
    requires h < n && forall i: Id | i < n && i != h :: Term(s', i) == Term(s, i)
    ensures Owed(s', n) + Term(s, h) == Owed(s, n) + Term(s', h)
  {
    hide Term;
    if h == n - 1 {
      OwedSame(s, s', n - 1);
    } else {
      OwedChange(s, s', h, n - 1);
    }
  }

  lemma CountUnpins(s: State, s': State, c: nat, p: nat, i: Id)
    requires Moves(s, s', c, p)
    ensures Count(s'.calls, UnpinOf, i) + Bit(CallUnpin(s.calls, c) == Some(i)) ==
            Count(s.calls, UnpinOf, i) + Bit(CallUnpin(s'.calls, c) == Some(i))
  {
    hide Count;
    if s'.calls == s.calls || (c !in s.calls && s'.calls == s.calls - {c}) {
      assert s'.calls == s.calls;
    } else if s'.calls == s.calls - {c} {
      CountCut(s.calls, UnpinOf, c, i);
    } else {
      CountPut(s.calls, UnpinOf, c, s'.calls[c], i);
    }
  }

  // ---------------------------------------------------------------- one step

  /** Handle i is in use, charged and about to be taken off as before. */
  ghost predicate SameAt(s: State, s': State, c: nat, i: Id) {
    && HandleAt(s'.list, i).charge == HandleAt(s.list, i).charge && (InUse(s', i) <==> InUse(s, i))
    && (CallUnpin(s'.calls, c) == Some(i) <==> CallUnpin(s.calls, c) == Some(i))
  }

  lemma TermSame(s: State, s': State, c: nat, p: nat, i: Id)
    requires Moves(s, s', c, p) && SameAt(s, s', c, i)
    ensures Term(s', i) == Term(s, i)
  {
    CountUnpins(s, s', c, p, i);
    hide Count, HandleAt;
  }

  /** What pinned_usage_ has beyond what is owed. */
  function Excess(s: State): int {
    s.pinned - Owed(s, |s.list|)
  }

  lemma Quiet(s: State, s': State, c: nat, p: nat)
    requires Moves(s, s', c, p) && |s'.list| == |s.list| && s'.pinned == s.pinned && forall i: Id :: SameAt(s, s', c, i)
    ensures Excess(s') == Excess(s)
  {
    hide Moves, SameAt, Term;
    forall i: Id
      ensures Term(s', i) == Term(s, i)
    {
      TermSame(s, s', c, p, i);
    }
    OwedSame(s, s', |s.list|);
  }

  lemma TermChange(weight: nat, w: int, charge: nat)
    ensures (weight + w) * charge == weight * charge + w * charge
  {
  }

  /** The weight of h changes by w, and pinned_usage_ with it. */
  lemma OneHandle(s: State, s': State, c: nat, p: nat, h: Id, w: int)
    requires Moves(s, s', c, p) && h < |s.list| == |s'.list| && forall i: Id | i != h :: SameAt(s, s', c, i)
    requires HandleAt(s'.list, h).charge == HandleAt(s.list, h).charge && -1 <= w <= 1
    requires Bit(InUse(s', h)) + Bit(CallUnpin(s'.calls, c) == Some(h)) ==
               Bit(InUse(s, h)) + Bit(CallUnpin(s.calls, c) == Some(h)) + w
    requires s'.pinned == s.pinned + w * HandleAt(s.list, h).charge
    ensures Excess(s') == Excess(s)
  {
    CountUnpins(s, s', c, p, h);
    hide Moves, SameAt, InUse, HandleAt, Owed;
    assert Weight(s', h) == Weight(s, h) + w;
    TermChange(Weight(s, h), w, HandleAt(s.list, h).charge);
    assert Term(s', h) == Term(s, h) + w * HandleAt(s.list, h).charge;
    hide Term, Weight;
    forall i: Id | i != h
      ensures Term(s', i) == Term(s, i)
    {
      TermSame(s, s', c, p, i);
    }
    OwedChange(s, s', h, |s.list|);
  }

  lemma StageRefIsReferenced(s: State, h: Id)
    requires CountedAt(s, h) && StageRef(s.stage) == Some(h)
    ensures HandleAt(s.list, h).refs > 0
  {
  }

  lemma RefExcess(s: State, c: nat)
    requires Inv(s) && CanRef(s, c)
    ensures Excess(DoRef(s, c)) == Excess(s)
  {
    var s', h := DoRef(s, c), s.calls[c].h;
    assert CountedAt(s, h);
    hide Excess, Counted, TableOk, StageOk, PinsOk, Charges, Refs, Recyclers, Count;
    if StageRef(s.stage) == Some(h) {
      StageRefIsReferenced(s, h);
    }
    if s.list[h].inCache && s.list[h].refs == 0 {
      OneHandle(s, s', c, 0, h, 1);
    } else {
      Quiet(s, s', c, 0);
    }
  }

  lemma DropExcess(s: State, c: nat)
    requires Inv(s) && CanDrop(s, c)
    ensures Excess(DoDrop(s, c)) == Excess(s)
  {
    var s', h := DoDrop(s, c), s.calls[c].h;
    assert CountedAt(s, h);
    CountCut(s.calls, RefOf, c, h);
    assert s.list[h].refs == 1 ==> StageRef(s.stage) != Some(h);
    hide Excess, Counted, TableOk, StageOk, PinsOk, Charges, Refs, Recyclers, Count;
    if s.list[h].refs == 1 {
      OneHandle(s, s', c, 0, h, if s.list[h].inCache then 0 else -1);
    } else {
      Quiet(s, s', c, 0);
    }
  }

  lemma UnpinExcess(s: State, c: nat)
    requires Inv(s) && CanUnpin(s, c)
    ensures Excess(DoUnpin(s, c)) == Excess(s)
  {
    hide Excess, Counted, TableOk, StageOk, PinsOk, Charges, Count;
    OneHandle(s, DoUnpin(s, c), c, 0, s.calls[c].h, -1);
  }

  lemma RefAgainExcess(s: State, p: nat, q: nat)
    requires Inv(s) && CanRefAgain(s, p, q)
    ensures Excess(DoRefAgain(s, p, q)) == Excess(s)
  {
    PinnedIsReferenced(s, p);
    assert CountedAt(s, s.pins[p].h);
    hide Excess, Counted, TableOk, StageOk, Charges, Refs, Recyclers, Count;
    Quiet(s, DoRefAgain(s, p, q), 0, q);
  }

  lemma PublishExcess(s: State, p: nat)
    requires Inv(s) && CanPublish(s, p)
    ensures Excess(DoPublish(s, p)) == Excess(s)
  {
    var s', h := DoPublish(s, p), s.stage.h;
    assert CountedAt(s, h);
    if s.stage.hold {
      StageRefIsReferenced(s, h);
    }
    hide Excess, Counted, TableOk, StageOk, PinsOk, Charges, Refs, Recyclers, Count;
    if s.stage.hold {
      OneHandle(s, s', 0, p, h, 1);
    } else {
      Quiet(s, s', 0, p);
    }
  }

  /** A refill changes the charge that pending releases of the handle will take off. */
  lemma FillExcess(s: State, h: Id, key: Key, charge: nat, hold: bool)
    requires Inv(s) && CanFill(s, h)
    ensures Excess(DoFill(s, h, key, charge, hold)) ==
              Excess(s) + Count(s.calls, UnpinOf, h) * (s.list[h].charge - charge)
  {
    var s', n := DoFill(s, h, key, charge, hold), Count(s.calls, UnpinOf, h);
    FillTerms(s, h, key, charge, hold);
    hide Inv, Count, Owed, Term;
    OwedChange(s, s', h, |s.list|);
    assert n * s.list[h].charge - n * charge == n * (s.list[h].charge - charge);
  }

  lemma FillTerms(s: State, h: Id, key: Key, charge: nat, hold: bool)
    requires Inv(s) && CanFill(s, h)
    ensures var s', n := DoFill(s, h, key, charge, hold), Count(s.calls, UnpinOf, h);
            && Term(s, h) == n * s.list[h].charge && Term(s', h) == n * charge
            && forall i: Id | i != h :: Term(s', i) == Term(s, i)
  {
    var s', n := DoFill(s, h, key, charge, hold), Count(s.calls, UnpinOf, h);
    assert CountedAt(s, h);
    hide Counted, TableOk, StageOk, PinsOk, Charges, Refs, Recyclers, Count, CountedAt;
    assert Weight(s, h) == n && Weight(s', h) == n;
    forall i: Id | i != h
      ensures Term(s', i) == Term(s, i)
    {
      assert HandleAt(s'.list, i) == HandleAt(s.list, i);
    }
  }

  lemma AppendExcess(s: State, key: Key, charge: nat, hold: bool)
    requires Inv(s) && CanAppend(s)
    ensures Excess(DoAppend(s, key, charge, hold)) == Excess(s)
  {
    var s', h := DoAppend(s, key, charge, hold), |s.list|;
    assert Which(s.calls, UnpinOf, h) == {};
    assert Weight(s', h) == 0 && Term(s', h) == 0;
    hide Counted, TableOk, StageOk, PinsOk, Charges, Count;
    forall i: Id | i < h
      ensures Term(s', i) == Term(s, i)
    {
      assert HandleAt(s'.list, i) == HandleAt(s.list, i);
    }
    hide Term;
    OwedSame(s, s', h);
  }

  /** Steps of calls that move no charge. */
  lemma CallExcess(s: State, a: Action)
    requires Inv(s) && Enabled(s, a)
    requires a.Find? || a.CheckKey? || a.Release? || a.Mark? || a.Recycle? || a.ReadKey? || a.ForceErase?
    ensures Excess(Apply(s, a)) == Excess(s)
  {
    hide Excess, Inv, Count;
    match a
    case Find(c, key) => Quiet(s, Apply(s, a), c, 0);
    case CheckKey(c, p) => Quiet(s, Apply(s, a), c, p);
    case Release(c, p, force) => Quiet(s, Apply(s, a), c, p);
    case Mark(c) => Quiet(s, Apply(s, a), c, 0);
    case Recycle(c) => Quiet(s, Apply(s, a), c, 0);
    case ReadKey(c) => Quiet(s, Apply(s, a), c, 0);
    case ForceErase(c) => assert StageRef(ClockProtocol.Rest) == None; Quiet(s, Apply(s, a), c, 0);
    case _ =>
  }

  /** Steps under the mutex that move no charge. */
  lemma StageExcess(s: State, a: Action)
    requires Inv(s) && Enabled(s, a)
    requires a.Lock? || a.Evict? || a.ClearUsage? || a.EvictErase? || a.Discard? || a.Erase? || a.Unset? ||
               a.Displace? || a.Clear?
             || a.ClearOne? || a.Unlock?
    ensures Excess(Apply(s, a)) == Excess(s)
  {
    hide Excess, Inv, Count;
    assert StageRef(ClockProtocol.Rest) == None;
    assert StageRef(Apply(s, a).stage) == StageRef(s.stage) by { StageRefKept(s, a); }
    Quiet(s, Apply(s, a), 0, 0);
  }

  lemma StageRefKept(s: State, a: Action)
    requires Enabled(s, a)
    requires a.Lock? || a.Evict? || a.ClearUsage? || a.EvictErase? || a.Discard? || a.Erase? || a.Unset? ||
               a.Displace? || a.Clear?
             || a.ClearOne? || a.Unlock?
    ensures StageRef(Apply(s, a).stage) == StageRef(s.stage)
  {
    assert StageRef(ClockProtocol.Rest) == None;
    if a.ClearOne? {
      assert StageRef(Clearing(s.stage.i + 1)) == None;
    }
  }

  // ---------------------------------------------------------------- every run

  /** What a step adds to the drift: a refill of a handle, while releases of its former entry have still to take
      a charge off, adds the difference of the charges for each of them. */
  function DriftOf(s: State, a: Action): int
    requires Enabled(s, a)
  {
    if a.Fill? then Count(s.calls, UnpinOf, a.h) * (s.list[a.h].charge - a.charge) else 0
  }

  lemma ExcessStep(s: State, a: Action)
    requires Inv(s) && Enabled(s, a)
    ensures Excess(Apply(s, a)) == Excess(s) + DriftOf(s, a)
  {
    hide Excess, Inv, Count;
    match a
    case Ref(c) => RefExcess(s, c);
    case RefAgain(p, q) => RefAgainExcess(s, p, q);
    case Drop(c) => DropExcess(s, c);
    case Unpin(c) => UnpinExcess(s, c);
    case Fill(h, key, charge, hold) => FillExcess(s, h, key, charge, hold);
    case Append(key, charge, hold) => AppendExcess(s, key, charge, hold);
    case Publish(p) => PublishExcess(s, p);
    case _ =>
      if a.Find? || a.CheckKey? || a.Release? || a.Mark? || a.Recycle? || a.ReadKey? || a.ForceErase? {
        CallExcess(s, a);
      } else {
        StageExcess(s, a);
      }
  }

  /** The drift of a run. */
  function Drift(steps: seq<Action>): int {
    if steps == [] then 0
    else
      var n := |steps| - 1;
      var before := After(steps[..n]);
      Drift(steps[..n]) + if before.Some? && Enabled(before.value, steps[n]) then DriftOf(before.value, steps[n]) else 0
  }

  /** In every reachable state pinned_usage_ is what is owed plus the drift. */
  lemma {:induction false} PinnedUsageIs(steps: seq<Action>, s: State)
    requires Reaches(steps, s)
    ensures s.pinned == Owed(s, |s.list|) + Drift(steps)
  {
    if steps != [] {
      var before, a := LastStep(steps, s);
      hide Inv, DriftOf, Owed, Enabled, Apply, Drift, Reaches;
      InvAlways(steps[..|steps| - 1], before);
      PinnedUsageIs(steps[..|steps| - 1], before);
      ExcessStep(before, a);
    } else {
      hide Inv, Enabled, Apply;
    }
  }

  lemma LastStep(steps: seq<Action>, s: State) returns (before: State, a: Action)
    requires Reaches(steps, s) && steps != []
    ensures Reaches(steps[..|steps| - 1], before) && Enabled(before, a) && s == Apply(before, a)
    ensures Drift(steps) == Drift(steps[..|steps| - 1]) + DriftOf(before, a)
  {
    hide Enabled, Apply, DriftOf;
    before, a := After(steps[..|steps| - 1]).value, steps[|steps| - 1];
  }

  lemma {:induction false} NothingPending(s: State, n: nat)
    requires forall c | c in s.calls :: !s.calls[c].Unpinning?
    ensures Owed(s, n) == UsedCharge(s, n)
  {
    if n > 0 {
      NothingPending(s, n - 1);
      assert Which(s.calls, UnpinOf, n - 1) == {};
    }
  }

  /** So whenever no release is about to take a charge off, it is the charge of the entries in use if and only if
      the run's refills have made no drift. */
  lemma PinnedUsageExactIff(steps: seq<Action>, s: State)
    requires Reaches(steps, s) && forall c | c in s.calls :: !s.calls[c].Unpinning?
    ensures s.pinned == UsedCharge(s, |s.list|) <==> Drift(steps) == 0
  {
    PinnedUsageIs(steps, s);
    NothingPending(s, |s.list|);
  }

  /** A step drifts only if it refills a handle of another charge that a release has yet to take off. */
  lemma DriftsOnlyByRefill(s: State, a: Action)
    requires Enabled(s, a) && DriftOf(s, a) != 0
    ensures a.Fill? && a.charge != s.list[a.h].charge && exists c | c in s.calls ::
              s.calls[c].Unpinning? && s.calls[c].h == a.h
  {
    var w := Which(s.calls, UnpinOf, a.h);
    if w == {} {
      assert false;
    }
    var c :| c in w;
    assert s.calls[c].Unpinning? && s.calls[c].h == a.h;
  }
}
