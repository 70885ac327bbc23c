/** The compaction iterator as the program runs it: SeekToFirst/Next over a cursor into the input,
    with the moving level pointers of Compaction::KeyNotExistsBeyondOutputLevel. */
module CompactionIterator {
  import opened Common
  import opened Records
  import opened CompactionStream
  import opened CompactionReads

  // ---------------------------------------------------------------- the level cursor

  /** Every file a pointer has passed ends before `key`. */
  ghost predicate CursorOk(job: Job, ptrs: seq<nat>, key: Key) {
    && |ptrs| == |job.levels|
    && forall l | job.outputLevel < l < |job.levels| ::
         && ptrs[l] <= |job.levels[l]|
         && forall i | 0 <= i < ptrs[l] :: job.levels[l][i].file.largest < key
  }

  /** The pointers only move forward; the answer is that of a fresh scan of all deeper levels. */
  method KeyNotExistsBeyondOutputLevel(job: Job, key: Key, ptrs: array<nat>) returns (absent: bool)
    requires JobOk(job) && CursorOk(job, ptrs[..], key)
    modifies ptrs
    ensures absent <==> NotBeyond(job, key)
    ensures CursorOk(job, ptrs[..], key)
  {
    if job.universal {
      return job.bottommost;
    }
    var lvl := job.outputLevel + 1;
    while lvl < |job.levels|
      invariant job.outputLevel < lvl
      invariant CursorOk(job, ptrs[..], key)
      invariant forall l | job.outputLevel < l < lvl && l < |job.levels| :: !InLevel(job.levels[l], key)
    {
      var files := job.levels[lvl];
      while ptrs[lvl] < |files|
        invariant CursorOk(job, ptrs[..], key)
        invariant forall l | job.outputLevel < l < lvl && l < |job.levels| :: !InLevel(job.levels[l], key)
        decreases |files| - ptrs[lvl]
      {
        var f := files[ptrs[lvl]].file;
        if key <= f.largest {
          if key >= f.smallest {
            assert InLevel(files, key);
            return false;
          }
          break;
        }
        ptrs[lvl] := ptrs[lvl] + 1;
      }
      assert !InLevel(files, key);
      lvl := lvl + 1;
    }
    return true;
  }

  // ---------------------------------------------------------------- snapshot search

  method FindEarliestVisibleSnapshot(snaps: seq<nat>, q: nat) returns (cur: nat, prev: nat)
    requires snaps != [] && BelowMax(snaps)
    ensures cur == Stripe(snaps, q)
    ensures prev == Previous(snaps, q, 0)
  {
    var last := MAX_SEQUENCE;
    for i := 0 to |snaps|
      invariant last == if i == 0 then MAX_SEQUENCE else snaps[i - 1]
      invariant Stripe(snaps, q) == Stripe(snaps[i..], q)
      invariant Previous(snaps, q, 0) == Previous(snaps[i..], q, if i == 0 then 0 else snaps[i - 1])
    {
      assert snaps[i..][1..] == snaps[i + 1..];
      if snaps[i] >= q {
        return snaps[i], if last == MAX_SEQUENCE then 0 else last;
      }
      last := snaps[i];
    }
    return MAX_SEQUENCE, last;
  }

  /** The "clear value and output next" path never clears a SingleDelete. Its second assertion, that the record is in
      the stripe of the SingleDelete before it, holds exactly if number 0 does not clash with snapshot 0. */
  lemma ClearPath(job: Job, input: seq<Record>, st: State)
    requires JobOk(job) && input != [] && StateFits(job, input, st) && st.clear
    ensures input[0].kind != SingleDelete
    ensures Stripe(job.snapshots, input[0].seqno) == LastSnap(input[0], st) <==> !ZeroClash(job, input[0])
  {
    if ZeroClash(job, input[0]) {
      StripeDecides(job.snapshots, 0, 0);
    }
  }

  /** No listed snapshot but 0 is older than q. */
  ghost predicate NoneBelow(snaps: seq<nat>, q: nat) {
    forall i | 0 <= i < |snaps| :: snaps[i] == 0 || snaps[i] >= q
  }

  lemma {:induction false} PreviousIsNone(snaps: seq<nat>, q: nat, dflt: nat)
    requires Ascending(snaps) && forall i | 0 <= i < |snaps| :: dflt <= snaps[i]
    ensures Previous(snaps, q, dflt) == 0 <==> dflt == 0 && NoneBelow(snaps, q)
  {
    if snaps != [] && snaps[0] < q {
      assert forall i | 1 <= i < |snaps| :: snaps[i] == snaps[1..][i - 1];
      PreviousIsNone(snaps[1..], q, snaps[0]);
    }
  }

  /** The look-ahead of SingleDelete a takes b, which is no SingleDelete, for a version in its own stripe. */
  ghost predicate Joined(job: Job, a: Record, b: Record) {
    || Stripe(job.snapshots, b.seqno) == Stripe(job.snapshots, a.seqno)
    || (ZeroClash(job, b) && NoneBelow(job.snapshots, a.seqno))
  }

  lemma JoinedIff(job: Job, a: Record, b: Record)
    requires JobOk(job) && b.seqno < a.seqno <= MAX_SEQUENCE && b.kind != SingleDelete
    ensures var prev := Previous(job.snapshots, a.seqno, 0); (prev == 0 || b.seqno > prev) <==> Joined(job, a, b)
  {
    if ZeroClash(job, b) {
      PreviousIsNone(job.snapshots, a.seqno, 0);
      StripeDecides(job.snapshots, 0, 0);
      StripeDecides(job.snapshots, a.seqno, MAX_SEQUENCE);
    } else {
      SameStripe(job.snapshots, b.seqno, a.seqno, 0);
    }
  }

  /** The next pass clears the second record. */
  ghost predicate ClearsNext(job: Job, input: seq<Record>, st: State) {
    |input| > 1 && StepOf(job, input, st).consumed == 1 && StepOf(job, input, st).next.clear
  }

  /** A SingleDelete followed by a record that it takes for a version in its stripe. */
  ghost predicate PairBefore(job: Job, input: seq<Record>, i: nat) {
    && 0 < i < |input| && input[i - 1].kind == SingleDelete && input[i].kind != SingleDelete
    && input[i - 1].key == input[i].key && Joined(job, input[i - 1], input[i])
  }

  /** When the two assertions are about to fail: the value to be cleared is not a Put exactly if the record is a
      Delete, and it is in another stripe exactly if its number 0 clashes with snapshot 0, in a pair that may not be
      dropped. */
  lemma ClearAssertsFailIff(job: Job, input: seq<Record>, st: State)
    requires JobOk(job) && InputOk(input) && input != [] && !st.clear
    ensures var kept := job.writeConflict < input[0].seqno && !Enter(job, input[0], st).outputted;
            && (ClearsNext(job, input, st) && input[1].kind != Put <==>
                  kept && PairBefore(job, input, 1) && input[1].kind == Delete)
            && (ClearsNext(job, input, st) &&
                Stripe(job.snapshots, input[1].seqno) != Stripe(job.snapshots, input[0].seqno) <==>
                  kept && PairBefore(job, input, 1) && ZeroClash(job, input[1]))
  {
    if |input| > 1 && input[1].key == input[0].key && input[1].kind != SingleDelete {
      assert Before(input[0], input[1]);
      JoinedIff(job, input[0], input[1]);
      StripeDecides(job.snapshots, input[0].seqno, MAX_SEQUENCE);
      if ZeroClash(job, input[1]) {
        StripeDecides(job.snapshots, 0, 0);
      }
    }
  }

  /** The two assertions hold in every pass of a run. */
  ghost predicate ClearAssertsHold(job: Job, input: seq<Record>, st: State)
    decreases |input|
  {
    input != [] ==>
      && (st.clear ==> input[0].kind == Put && Stripe(job.snapshots, input[0].seqno) == LastSnap(input[0], st))
      && var step := StepOf(job, input, st); ClearAssertsHold(job, input[step.consumed..], step.next)
  }

  /** No Delete, and no record that clashes with snapshot 0, is in such a pair. */
  ghost predicate PairsOk(job: Job, input: seq<Record>) {
    forall i: nat | PairBefore(job, input, i) :: input[i].kind == Put && !ZeroClash(job, input[i])
  }

  /** Then they do. */
  lemma {:induction false} ClearAssertsAlways(job: Job, input: seq<Record>, st: State)
    requires JobOk(job) && InputOk(input) && StateFits(job, input, st) && PairsOk(job, input)
    requires st.clear ==> input[0].kind == Put && !ZeroClash(job, input[0])
    ensures ClearAssertsHold(job, input, st)
    decreases |input|
  {
    if input != [] {
      var step := StepOf(job, input, st);
      var rest := input[step.consumed..];
      if st.clear {
        ClearPath(job, input, st);
      } else {
        ClearAssertsFailIff(job, input, st);
      }
      StepKeepsFit(job, input, st);
      ClearedIsSecond(job, input, st);
      hide StepOf, StateFits;
      assert PairsOk(job, rest) by { PairsOkInRest(job, input, step.consumed); }
      ClearAssertsAlways(job, rest, step.next);
    }
  }

  lemma PairsOkInRest(job: Job, input: seq<Record>, n: nat)
    requires PairsOk(job, input) && n <= |input|
    ensures PairsOk(job, input[n..])
  {
    var rest := input[n..];
    forall i: nat | PairBefore(job, rest, i)
      ensures rest[i].kind == Put && !ZeroClash(job, rest[i])
    {
      assert rest[i] == input[i + n] && rest[i - 1] == input[i + n - 1];
      assert PairBefore(job, input, i + n);
    }
  }

  lemma ClearedIsSecond(job: Job, input: seq<Record>, st: State)
    requires input != []
    ensures StepOf(job, input, st).next.clear ==> !st.clear && ClearsNext(job, input, st)
  {
  }

  /** A Delete below a SingleDelete, which the documentation leaves undefined, makes the first one fail. */
  lemma ClearsDelete()
    ensures var job := Job([5], 5, true, false, false, false, 9, 1, [[], []], []);
            ClearsNext(job, [Record(1, 8, SingleDelete, ""), Record(1, 7, Delete, "")], Start)
  {
    assert Previous([5], 8, 0) == 5;
  }

  /** A Put with number 0 below a SingleDelete, with the empty database as the only snapshot, makes the second fail:
      the Put is visible to that snapshot, the SingleDelete is not. */
  lemma ClearsOtherStripe()
    ensures var job := Job([0], 0, true, false, false, false, 9, 1, [[], []], []);
            var input := [Record(1, 8, SingleDelete, ""), Record(1, 0, Put, "a")];
            && JobOk(job) && InputOk(input) && ClearsNext(job, input, Start)
            && Stripe(job.snapshots, 0) == 0 && StepOf(job, input, Start).next.snap == MAX_SEQUENCE
  {
    assert Previous([0], 8, 0) == 0 && Stripe([0], 8) == MAX_SEQUENCE;
  }

  lemma EmptyStripe(q: nat)
    ensures Stripe([], q) == MAX_SEQUENCE && Previous([], q, 0) == 0
  {
  }

  // ---------------------------------------------------------------- the iterator

  /** What one pass does to the rest of the output, the state and the cursor. */
  lemma Advance(job: Job, input: seq<Record>, from: nat, st: State, ptrs: seq<nat>)
    requires JobOk(job) && InputOk(input) && from < |input| && StateFits(job, input[from..], st)
    requires CursorOk(job, ptrs, input[from].key)
    ensures var step := StepOf(job, input[from..], st); var to := from + step.consumed;
            && to <= |input| && StateFits(job, input[to..], step.next)
            && Emit(job, input[from..], st) == Opt(step.emit) + Emit(job, input[to..], step.next)
            && (to < |input| ==> CursorOk(job, ptrs, input[to].key))
  {
    var rest := input[from..];
    var step := StepOf(job, rest, st);
    assert forall i | 0 <= i < |rest| :: rest[i] == input[i + from];
    assert InputOk(rest);
    StepKeepsFit(job, rest, st);
    assert rest[step.consumed..] == input[from + step.consumed..];
    if from + step.consumed < |input| {
      assert Before(input[from], input[from + step.consumed]);
    }
  }

  lemma EmitNothing(job: Job, st: State)
    ensures Emit(job, [], st) == []
  {
  }

  lemma StartedFits(job: Job, input: seq<Record>, st: State)
    requires StateFits(job, input, st)
    ensures StateFits(job, input, st.(started := true))
  {
  }

  lemma PrepareFirst(job: Job, r: Record, rest: seq<Record>)
    ensures PrepareAll(job, [r] + rest) == [Prepare(job, r)] + PrepareAll(job, rest)
  {
  }

  class Iterator {
    const job: Job
    const input: seq<Record>
    const levelPtrs: array<nat>
    var pos: nat
    var valid: bool
    var atNext: bool
    var current: Record
    var hasCurrentUserKey: bool
    var currentUserKey: Key
    var hasOutputtedKey: bool
    var currentUserKeySnapshot: nat
    var clearAndOutputNextKey: bool
    ghost var started: bool

    ghost function Abs(): State
      reads this
    {
      State(hasCurrentUserKey, currentUserKey, hasOutputtedKey, currentUserKeySnapshot, clearAndOutputNextKey, started)
    }

    /** Where the next call continues: Next() advances unless the iterator is there already. */
    ghost function NextPos(): nat
      reads this
    {
      if valid && !atNext then pos + 1 else pos
    }

    /** The state once the caller has recorded that a record is out. */
    ghost function After(): State
      reads this
    {
      if valid then Out(Abs()) else Abs()
    }

    ghost predicate Valid()
      reads this, levelPtrs
    {
      && JobOk(job) && InputOk(input) && NextPos() <= |input|
      && StateFits(job, input[NextPos()..], Abs())
      && levelPtrs.Length == |job.levels|
      && (NextPos() < |input| ==> CursorOk(job, levelPtrs[..], input[NextPos()].key))
    }

    /** The current record, then everything that Next() will still produce. */
    ghost function Remaining(): seq<Record>
      reads this, levelPtrs
      requires Valid()
    {
      if valid then [current] + PrepareAll(job, Emit(job, input[NextPos()..], Abs())) else []
    }

    constructor (job: Job, input: seq<Record>)
      requires JobOk(job) && InputOk(input)
      ensures Valid() && fresh(levelPtrs) && this.job == job && this.input == input
      ensures pos == 0 && !valid && Abs() == Start
    {
      this.job, this.input := job, input;
      levelPtrs := new nat[|job.levels|](_ => 0);
      pos, valid, atNext := 0, false, false;
      current := Record(0, 0, Put, "");
      hasCurrentUserKey, currentUserKey, hasOutputtedKey := false, 0, false;
      currentUserKeySnapshot, clearAndOutputNextKey := 0, false;
      started := false;
    }

    method SeekToFirst()
      requires Valid() && pos == 0 && !valid && Abs() == Start
      modifies this, levelPtrs
      ensures Valid() && started
      ensures Remaining() == PrepareAll(job, Emit(job, input, Start))
    {
      hide JobOk, InputOk, StateFits, CursorOk, Emit, Prepare, PrepareAll;
      assert input[0..] == input;
      NextFromInput();
      StartedFits(job, input[NextPos()..], After());
      started := true;
      PrepareFirst(job, current, Emit(job, input[NextPos()..], Abs()));
      PrepareOutput();
    }

    method Next()
      requires Valid() && valid && started
      modifies this, levelPtrs
      ensures Valid() && started
      ensures Remaining() == old(Remaining())[1..]
    {
      hide JobOk, InputOk, StateFits, CursorOk, Emit, Prepare, PrepareAll;
      if !atNext {
        pos := pos + 1;
      }
      atNext, valid := false, false;
      NextFromInput();
      if valid {
        hasOutputtedKey := true;
      }
      PrepareFirst(job, current, Emit(job, input[NextPos()..], Abs()));
      PrepareOutput();
    }

    /** Find the next record to emit; afterwards the caller marks the key as outputted (Out). */
    method NextFromInput()
      requires Valid() && !valid
      modifies this, levelPtrs
      ensures started == old(started)
      ensures NextPos() <= |input| && StateFits(job, input[NextPos()..], After())
      ensures NextPos() < |input| ==> CursorOk(job, levelPtrs[..], input[NextPos()].key)
      ensures valid ==>
        Emit(job, input[old(pos)..], old(Abs())) == [current] + Emit(job, input[NextPos()..], After())
      ensures !valid ==> Emit(job, input[old(pos)..], old(Abs())) == []
    {
      hide JobOk, InputOk, StateFits, CursorOk, Emit, StepOf;
      atNext := false;
      while !valid && pos < |input|
        invariant NextPos() <= |input| && started == old(started)
        invariant StateFits(job, input[NextPos()..], After())
        invariant NextPos() < |input| ==> CursorOk(job, levelPtrs[..], input[NextPos()].key)
        invariant Emit(job, input[old(pos)..], old(Abs())) ==
          if valid then [current] + Emit(job, input[NextPos()..], After()) else Emit(job, input[NextPos()..], After())
        decreases |input| - pos, !valid
      {
        ghost var from, st := pos, Abs();
        Examine();
        Advance(job, input, from, st, levelPtrs[..]);
      }
      assert pos == |input| ==> input[pos..] == [];
      EmitNothing(job, Abs());
    }

    /** The top of a pass: the record at hand becomes the current one. */
    method EnterRecord() returns (lastSnapshot: nat, prevSnapshot: nat)
      requires pos < |input| && BelowMax(job.snapshots)
      modifies this`current, this`atNext, this`currentUserKey, this`hasCurrentUserKey, this`hasOutputtedKey,
                 this`currentUserKeySnapshot
      ensures current == input[pos] && !atNext && Abs() == Enter(job, current, old(Abs()))
      ensures lastSnapshot == LastSnap(current, old(Abs())) && prevSnapshot == Previous(job.snapshots, current.seqno, 0)
    {
      hide BelowMax, Stripe, Previous;
      EmptyStripe(input[pos].seqno);
      current := input[pos];
      atNext := false;
      if !hasCurrentUserKey || current.key != currentUserKey {
        currentUserKey, hasCurrentUserKey, hasOutputtedKey := current.key, true, false;
        currentUserKeySnapshot := 0;
      }
      lastSnapshot, prevSnapshot := currentUserKeySnapshot, 0;
      if job.snapshots == [] {
        currentUserKeySnapshot := MAX_SEQUENCE;
      } else {
        currentUserKeySnapshot, prevSnapshot := FindEarliestVisibleSnapshot(job.snapshots, current.seqno);
      }
    }

    /** One pass of the loop: the branches of the source, against the step function. */
    method Examine()
      requires !valid && pos < |input|
      requires JobOk(job) && CursorOk(job, levelPtrs[..], input[pos].key) && StateFits(job, input[pos..], Abs())
      modifies this, levelPtrs
      ensures started == old(started) && old(pos) <= pos
      ensures CursorOk(job, levelPtrs[..], old(input[pos].key))
      ensures Took(StepOf(job, input[old(pos)..], old(Abs())), old(pos))
    {
      assert BelowMax(job.snapshots);
      if clearAndOutputNextKey {
        ClearPath(job, input[pos..], Abs());
      }
      hide JobOk, StateFits, Alternates, BelowMax, CursorOk, SingleDeleteStep, VersionStep, Stripe, Previous;
      ghost var st, rest := Abs(), input[pos..];
      var lastSnapshot, prevSnapshot := EnterRecord();
      if clearAndOutputNextKey {
        assert current.kind != SingleDelete && (currentUserKeySnapshot == lastSnapshot <==> !ZeroClash(job, current));
        current := current.(value := "");
        valid := true;
        clearAndOutputNextKey := false;
      } else if current.kind == SingleDelete {
        ExamineSingleDelete(prevSnapshot);
      } else {
        ExamineVersion(lastSnapshot);
      }
    }

    /** The iterator did what `step` says, starting at `from`. */
    ghost predicate Took(step: Step, from: nat)
      reads this
    {
      && NextPos() == from + step.consumed
      && (valid <==> step.emit.Some?)
      && (valid ==> step.emit == Some(current) && step.next == Out(Abs()))
      && (!valid ==> step.next == Abs() && pos > from)
    }

    method ExamineSingleDelete(prevSnapshot: nat)
      requires !valid && !atNext && pos < |input| && current == input[pos] && !clearAndOutputNextKey
      requires JobOk(job) && CursorOk(job, levelPtrs[..], current.key)
      modifies this, levelPtrs
      ensures started == old(started) && old(pos) <= pos
      ensures CursorOk(job, levelPtrs[..], old(current.key))
      ensures Took(SingleDeleteStep(job, input[old(pos)..], old(Abs()), prevSnapshot), old(pos))
    {
      ghost var rest := input[pos..];
      pos := pos + 1;
      if pos < |input| && current.key == input[pos].key {
        assert rest[1] == input[pos];
        if prevSnapshot == 0 || input[pos].seqno > prevSnapshot {
          if input[pos].kind == SingleDelete {
            // skipped; the next pass decides about the second SingleDelete
          } else if current.seqno <= job.writeConflict || hasOutputtedKey {
            pos := pos + 1;
          } else {
            valid := true;
            clearAndOutputNextKey := true;
          }
        } else {
          valid := true;
        }
      } else {
        hasCurrentUserKey := false;
        var drop := false;
        if job.attached && current.seqno <= Earliest(job.snapshots) {
          drop := KeyNotExistsBeyondOutputLevel(job, current.key, levelPtrs);
        }
        if !drop {
          valid := true;
        }
      }
      if valid {
        atNext := true;
      }
    }

    method ExamineVersion(lastSnapshot: nat)
      requires !valid && !atNext && pos < |input| && current == input[pos] && !clearAndOutputNextKey
      requires JobOk(job) && CursorOk(job, levelPtrs[..], current.key)
      modifies this, levelPtrs
      ensures started == old(started) && old(pos) <= pos
      ensures CursorOk(job, levelPtrs[..], old(current.key))
      ensures Took(VersionStep(job, old(current), old(Abs()), lastSnapshot), old(pos))
    {
      if lastSnapshot == currentUserKeySnapshot {
        pos := pos + 1;
      } else {
        var drop := false;
        if job.attached && current.kind == Delete && current.seqno <= Earliest(job.snapshots) {
          drop := KeyNotExistsBeyondOutputLevel(job, current.key, levelPtrs);
        }
        if drop {
          pos := pos + 1;
        } else {
          valid := true;
        }
      }
    }

    method PrepareOutput()
      modifies this`current
      ensures current == if valid then Prepare(job, old(current)) else old(current)
    {
      if job.attached && !job.ingestBehind && job.bottommost && valid &&
         current.seqno <= Earliest(job.snapshots) && job.largestKey != current.key {
        current := current.(seqno := 0);
      }
    }
  }
}
