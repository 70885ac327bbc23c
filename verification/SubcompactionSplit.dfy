/** What splitting a compaction changes in its output. An iterator marks a key as written only from its
    second record on (SeekToFirst() does not, Next() does), so the first key each range writes annihilates
    less than it would in the middle of an unsplit run. */
module SubcompactionSplit {
  import opened Common
  import opened Records
  import opened CompactionStream
  import opened CompactionReads
  import opened CompactionTheorems
  import opened Subcompaction

  // ---------------------------------------------------------------- the first key of a range

  /** The look-ahead test of a SingleDelete: no snapshot comes between the two records. */
  ghost predicate LooksSame(job: Job, a: Record, b: Record) {
    var prev := Previous(job.snapshots, a.seqno, 0);
    prev == 0 || b.seqno > prev
  }

  /** A SingleDelete and the version it would annihilate. */
  ghost predicate PairAt(job: Job, input: seq<Record>, j: nat) {
    && j + 1 < |input| && input[j].kind == SingleDelete && input[j + 1].kind != SingleDelete
    && input[j + 1].key == input[j].key && LooksSame(job, input[j], input[j + 1])
  }

  /** The record at m is swallowed: a SingleDelete before another one, a version hidden in the stripe `snap` of
      the record before it, or an obsolete tombstone. */
  ghost predicate SwallowedAt(job: Job, input: seq<Record>, snap: nat, m: nat)
    requires m + 1 < |input|
  {
    if input[m].kind == SingleDelete then input[m + 1].kind == SingleDelete && LooksSame(job, input[m], input[m + 1])
    else
      || Stripe(job.snapshots, input[m].seqno) == (if m == 0 then snap else Stripe(job.snapshots, input[m - 1].seqno))
      || (input[m].kind == Delete && Droppable(job, input[m]))
  }

  /** After a record of `k` in stripe `snap` was written, the next thing that could be written is a pair of
      `k` above the write-conflict boundary, at j. */
  ghost predicate LatePair(job: Job, input: seq<Record>, k: Key, snap: nat, j: nat) {
    && PairAt(job, input, j) && input[j].seqno > job.writeConflict
    && (forall m | 0 <= m <= j :: input[m].key == k)
    && (forall m | 0 <= m < j :: SwallowedAt(job, input, snap, m))
  }

  ghost predicate HasLatePair(job: Job, input: seq<Record>, k: Key, snap: nat) {
    exists j: nat :: LatePair(job, input, k, snap, j)
  }

  /** From this state, input[i] is written first, and not as part of a pair. */
  ghost predicate WritesFirst(job: Job, input: seq<Record>, st: State, i: nat) {
    var out := Emit(job, input, st);
    && i < |input| && out != [] && input[i].key == out[0].key && input[i].seqno == out[0].seqno
    && !PairAt(job, input, i)
  }

  /** After it, such a pair of the same key follows. */
  ghost predicate ThenPair(job: Job, input: seq<Record>, i: nat) {
    i < |input| && HasLatePair(job, input[i + 1..], input[i].key, Stripe(job.snapshots, input[i].seqno))
  }

  /** The first written record is followed by a late pair of its key. */
  ghost predicate StreamDiffers(job: Job, input: seq<Record>, st: State) {
    exists i: nat :: WritesFirst(job, input, st, i) && ThenPair(job, input, i)
  }

  // ---------------------------------------------------------------- which record a range writes first

  /** The next record is of the same key. */
  predicate Continues(input: seq<Record>, m: nat) {
    m + 1 < |input| && input[m + 1].key == input[m].key
  }

  /** The stripe of the record before, if that is of the same key. */
  function StripeBefore(job: Job, input: seq<Record>, m: nat): nat
    requires m < |input|
  {
    if m > 0 && Continues(input, m - 1) then Stripe(job.snapshots, input[m - 1].seqno) else 0
  }

  /** A pair that vanishes even at the first key of a range. */
  ghost predicate EarlyPair(job: Job, input: seq<Record>, m: nat) {
    PairAt(job, input, m) && input[m].seqno <= job.writeConflict
  }

  /** As long as nothing is written, this record is not written either: a SingleDelete before another one or in an
      early pair, or an obsolete one; a version in an early pair, hidden by the record before it, or an obsolete
      tombstone. */
  ghost predicate PassedAt(job: Job, input: seq<Record>, m: nat)
    requires m < |input|
  {
    if input[m].kind == SingleDelete then
      || EarlyPair(job, input, m) || (!Continues(input, m) && Droppable(job, input[m]))
      || (Continues(input, m) && input[m + 1].kind == SingleDelete && LooksSame(job, input[m], input[m + 1]))
    else
      || (m > 0 && EarlyPair(job, input, m - 1)) || Stripe(job.snapshots, input[m].seqno) == StripeBefore(job, input, m)
      || (input[m].kind == Delete && Droppable(job, input[m]))
  }

  /** The first record that is not passed. */
  ghost predicate FirstAt(job: Job, input: seq<Record>, i: nat) {
    i < |input| && !PassedAt(job, input, i) && forall m | 0 <= m < i :: PassedAt(job, input, m)
  }

  /** The range writes something. */
  ghost predicate Writes(job: Job, input: seq<Record>) {
    exists m | 0 <= m < |input| :: !PassedAt(job, input, m)
  }

  /** A range whose first record to be written belongs to no pair and is followed by a late pair of its key. */
  ghost predicate RangeDiffers(job: Job, input: seq<Record>) {
    exists i: nat :: FirstAt(job, input, i) && !PairAt(job, input, i) && ThenPair(job, input, i)
  }

  /** The state before the n-th record, as long as nothing is written. */
  ghost predicate NothingWritten(job: Job, input: seq<Record>, st: State, n: nat)
    requires n <= |input|
  {
    && !st.started && !st.outputted && !st.clear
    && (n < |input| ==> LastSnap(input[n], st) == StripeBefore(job, input, n))
    && (n > 0 ==> !EarlyPair(job, input, n - 1))
  }

  lemma PassStep(job: Job, input: seq<Record>, st: State, n: nat)
    requires JobOk(job) && InputOk(input) && n < |input| && NothingWritten(job, input, st, n)
    ensures var step := StepOf(job, input[n..], st);
            && (step.emit.None? <==> PassedAt(job, input, n))
            && (step.emit.Some? ==> step.emit.value.key == input[n].key && step.emit.value.seqno == input[n].seqno)
            && (step.emit.None? ==> NothingWritten(job, input, step.next, n + step.consumed))
            && (step.consumed == 2 ==> n + 1 < |input| && PassedAt(job, input, n + 1)) && step.consumed <= 2
  {
    var rest := input[n..];
    assert rest[0] == input[n] && (n + 1 < |input| ==> rest[1] == input[n + 1]);
    var step := StepOf(job, rest, st);
    if EarlyPair(job, input, n) && n + 2 < |input| && input[n + 2].key == input[n].key {
      assert Before(input[n], input[n + 1]) && Before(input[n + 1], input[n + 2]);
      SameStripe(job.snapshots, input[n + 1].seqno, input[n].seqno, 0);
    }
  }

  /** What the stream writes first is the first record that is not passed. */
  lemma {:induction false} FirstFrom(job: Job, input: seq<Record>, st: State, n: nat, i: nat)
    requires JobOk(job) && InputOk(input) && n <= |input| && NothingWritten(job, input, st, n)
    requires forall m | 0 <= m < n :: PassedAt(job, input, m)
    ensures Emit(job, input[n..], st) != [] <==> Writes(job, input)
    ensures var out := Emit(job, input[n..], st);
            FirstAt(job, input, i) <==>
              i < |input| && out != [] && out[0].key == input[i].key && out[0].seqno == input[i].seqno
    decreases |input| - n
  {
    if n < |input| {
      var step := StepOf(job, input[n..], st);
      PassStep(job, input, st, n);
      assert input[n..][step.consumed..] == input[n + step.consumed..];
      hide StepOf, PassedAt, NothingWritten;
      if step.emit.None? {
        FirstFrom(job, input, step.next, n + step.consumed, i);
      } else {
        assert i < |input| && i != n ==> Before(input[i], input[n]) || Before(input[n], input[i]);
      }
    }
  }

  /** So the difference can be told from the input. */
  lemma StreamDiffersIff(job: Job, input: seq<Record>)
    requires JobOk(job) && InputOk(input)
    ensures StreamDiffers(job, input, Start) <==> RangeDiffers(job, input)
    ensures Emit(job, input, Start) != [] <==> Writes(job, input)
  {
    assert input[0..] == input;
    forall i: nat
      ensures WritesFirst(job, input, Start, i) <==> FirstAt(job, input, i) && !PairAt(job, input, i)
    {
      FirstFrom(job, input, Start, 0, i);
    }
    FirstFrom(job, input, Start, 0, 0);
  }

  // ---------------------------------------------------------------- two states

  /** A state between two keys. */
  function Fresh(started: bool): State {
    Start.(started := started)
  }

  /** At a new key only `started` matters. */
  lemma EmitForgets(job: Job, input: seq<Record>, st: State, st': State)
    requires input != [] ==> (st.hasKey ==> st.key != input[0].key) && (st'.hasKey ==> st'.key != input[0].key)
    requires !st.clear && !st'.clear && st.started == st'.started
    ensures Emit(job, input, st) == Emit(job, input, st')
  {
    if input != [] {
      assert Enter(job, input[0], st) == Enter(job, input[0], st');
      assert StepOf(job, input, st) == StepOf(job, input, st');
    }
  }

  /** Something was written, of the current key, which counts as written in one run and not in the other: does
      the difference show before either writes the key again? */
  ghost predicate Shows(job: Job, input: seq<Record>, st: State)
    decreases |input|
  {
    if input == [] || st.clear || !st.hasKey || st.key != input[0].key then false
    else
      var step := StepOf(job, input, st);
      if step.emit.Some? then step.next.clear else Shows(job, input[step.consumed..], step.next)
  }

  /** If it does, it is two records that only the one run writes. */
  lemma {:induction false} ShowsInLength(job: Job, input: seq<Record>, st: State)
    requires JobOk(job) && InputOk(input) && StateFits(job, input, st) && st.started && !st.outputted
    ensures var less, more := Emit(job, input, st.(outputted := true)), Emit(job, input, st);
            if Shows(job, input, st) then |more| == |less| + 2 else more == less
    decreases |input|
  {
    var st' := st.(outputted := true);
    if input == [] {
    } else if !st.hasKey || st.key != input[0].key {
      EmitForgets(job, input, st, st');
    } else {
      var step, step' := StepOf(job, input, st), StepOf(job, input, st');
      var rest := input[step.consumed..];
      StepKeepsFit(job, input, st);
      StepsAlike(job, input, st);
      if step == step' {
      } else if step.next.clear {
        PairWritten(job, input, st);
      } else {
        ShowsInLength(job, rest, step.next);
      }
    }
  }

  /** How one pass of the two runs compares. */
  lemma StepsAlike(job: Job, input: seq<Record>, st: State)
    requires input != [] && st.hasKey && st.key == input[0].key && st.started && !st.outputted
    ensures var step, step' := StepOf(job, input, st), StepOf(job, input, st.(outputted := true));
            || (step == step' && !(step.emit.Some? && step.next.clear) && (st.clear || step.emit.Some?))
            || (step.emit == step'.emit == None && step.consumed == step'.consumed && !st.clear
                && step'.next == step.next.(outputted := true) && step.next.started && !step.next.outputted)
            || (PairAt(job, input, 0) && !st.clear && input[0].seqno > job.writeConflict
                && step == Step(Some(input[0]), 1, Out(Enter(job, input[0], st).(clear := true)))
                && step' == Step(None, 2, Enter(job, input[0], st.(outputted := true))))
  {
  }

  /** The pair, written in one run and annihilated in the other; from there on the two agree. */
  lemma PairWritten(job: Job, input: seq<Record>, st: State)
    requires JobOk(job) && InputOk(input) && PairAt(job, input, 0) && st.started && !st.clear
    requires StepOf(job, input, st) == Step(Some(input[0]), 1, Out(Enter(job, input[0], st).(clear := true)))
    requires StepOf(job, input, st.(outputted := true)) == Step(None, 2, Enter(job, input[0], st.(outputted := true)))
    requires st.hasKey && st.key == input[0].key
    ensures |Emit(job, input, st)| == |Emit(job, input, st.(outputted := true))| + 2
  {
    var rest, next := input[1..], Out(Enter(job, input[0], st).(clear := true));
    var after := StepOf(job, rest, next).next;
    assert rest[0] == input[1] && rest[1..] == input[2..];
    var other := Enter(job, input[0], st.(outputted := true));
    assert after == other.(snap := Stripe(job.snapshots, input[1].seqno));
    assert Before(input[0], input[1]) && (|input| > 2 ==> Before(input[1], input[2]));
    if ZeroClash(job, input[1]) {
      EmitForgets(job, input[2..], after, other);
    } else {
      SameStripe(job.snapshots, input[1].seqno, input[0].seqno, 0);
    }
    assert Emit(job, rest, next) == [rest[0].(value := "")] + Emit(job, rest[1..], after);
  }

  // ---------------------------------------------------------------- up to the first record

  /** The same for two runs that start here, one of them in the middle of a job. */
  ghost predicate ShowsFirst(job: Job, input: seq<Record>, st: State)
    decreases |input|
  {
    if input == [] then false
    else
      var step := StepOf(job, input, st);
      if step.emit.Some? then Shows(job, input[step.consumed..], step.next)
      else ShowsFirst(job, input[step.consumed..], step.next)
  }

  lemma {:induction false} ShowsFirstInLength(job: Job, input: seq<Record>, st: State)
    requires JobOk(job) && InputOk(input) && StateFits(job, input, st) && !st.started && !st.outputted && !st.clear
    ensures var less, more := Emit(job, input, st.(started := true)), Emit(job, input, st);
            if ShowsFirst(job, input, st) then |more| == |less| + 2 else more == less
    decreases |input|
  {
    if input != [] {
      var step, step' := StepOf(job, input, st), StepOf(job, input, st.(started := true));
      StepKeepsFit(job, input, st);
      FirstAlike(job, input, st);
      if step.emit.Some? {
        ShowsInLength(job, input[step.consumed..], step.next);
      } else {
        ShowsFirstInLength(job, input[step.consumed..], step.next);
      }
    }
  }

  lemma FirstAlike(job: Job, input: seq<Record>, st: State)
    requires input != [] && !st.started && !st.outputted && !st.clear
    ensures var step, step' := StepOf(job, input, st), StepOf(job, input, st.(started := true));
            && step.emit == step'.emit && step.consumed == step'.consumed && !step.next.outputted
            && (if step.emit.Some? then step.next.started && step'.next == step.next.(outputted := true)
                else !step.next.started && !step.next.clear && step'.next == step.next.(started := true))
  {
  }

  // ---------------------------------------------------------------- when it shows

  lemma LatePairFirst(job: Job, input: seq<Record>, k: Key, snap: nat, j: nat)
    requires LatePair(job, input, k, snap, j)
    ensures |input| > 1 && input[0].key == input[1].key == k && (j == 0 || SwallowedAt(job, input, snap, 0))
    ensures j == 0 <==> PairAt(job, input, 0)
  {
    if j > 0 {
      assert input[1].key == k;
    }
  }

  /** A swallowed record only moves the pair. */
  lemma LatePairMoves(job: Job, input: seq<Record>, k: Key, snap: nat)
    requires |input| > 1 && input[0].key == k && SwallowedAt(job, input, snap, 0)
    ensures HasLatePair(job, input, k, snap) <==> HasLatePair(job, input[1..], k, Stripe(job.snapshots, input[0].seqno))
  {
    var rest, snap' := input[1..], Stripe(job.snapshots, input[0].seqno);
    assert forall m | 0 <= m < |rest| :: rest[m] == input[m + 1];
    if HasLatePair(job, input, k, snap) {
      var j: nat :| LatePair(job, input, k, snap, j);
      LatePairFirst(job, input, k, snap, j);
      forall m | 0 <= m < j - 1
        ensures SwallowedAt(job, rest, snap', m)
      {
        assert SwallowedAt(job, input, snap, m + 1);
      }
      assert LatePair(job, rest, k, snap', j - 1);
    }
    if HasLatePair(job, rest, k, snap') {
      var j: nat :| LatePair(job, rest, k, snap', j);
      forall m | 0 <= m <= j
        ensures SwallowedAt(job, input, snap, m) && input[m].key == k
      {
        if m > 0 {
          assert SwallowedAt(job, rest, snap', m - 1) && rest[m - 1].key == k;
        }
      }
      assert rest[j].key == k;
      assert LatePair(job, input, k, snap, j + 1);
    }
  }

  /** Below the write-conflict boundary there is none. */
  lemma NoLatePairBelow(job: Job, input: seq<Record>, k: Key, snap: nat)
    requires Sorted(input) && (input != [] && input[0].key == k ==> input[0].seqno <= job.writeConflict)
    ensures !HasLatePair(job, input, k, snap)
  {
    forall j: nat | LatePair(job, input, k, snap, j)
      ensures false
    {
      LatePairNumber(job, input, k, snap, j);
    }
  }

  lemma LatePairNumber(job: Job, input: seq<Record>, k: Key, snap: nat, j: nat)
    requires Sorted(input) && LatePair(job, input, k, snap, j)
    ensures input[0].key == k && input[0].seqno > job.writeConflict
  {
    assert input[0].key == k && input[j].key == k;
  }

  lemma NoLatePairOfOther(job: Job, input: seq<Record>, k: Key, snap: nat)
    requires input == [] || input[0].key != k
    ensures !HasLatePair(job, input, k, snap)
  {
  }

  lemma {:induction false} ShowsIff(job: Job, input: seq<Record>, st: State)
    requires Sorted(input) && st.hasKey && !st.clear && !st.outputted
    ensures Shows(job, input, st) <==> HasLatePair(job, input, st.key, st.snap)
    decreases |input|
  {
    if input == [] || input[0].key != st.key {
      NoLatePairOfOther(job, input, st.key, st.snap);
    } else {
      var step := StepOf(job, input, st);
      assert forall i | 0 <= i < |input[step.consumed..]| :: input[step.consumed..][i] == input[i + step.consumed];
      if |input| > 1 && input[1].key == st.key {
        ShowsStep(job, input, st);
      } else {
        forall j: nat | LatePair(job, input, st.key, st.snap, j)
          ensures false
        {
          LatePairFirst(job, input, st.key, st.snap, j);
        }
      }
    }
  }

  /** One pass, with more of the key to come. */
  lemma ShowsStep(job: Job, input: seq<Record>, st: State)
    requires Sorted(input) && st.hasKey && !st.clear && !st.outputted
    requires |input| > 1 && input[0].key == input[1].key == st.key
    ensures Shows(job, input, st) <==> HasLatePair(job, input, st.key, st.snap)
    decreases |input|, 0
  {
    var step := StepOf(job, input, st);
    var rest := input[step.consumed..];
    assert forall i | 0 <= i < |rest| :: rest[i] == input[i + step.consumed];
    if SwallowedAt(job, input, st.snap, 0) {
      assert step.emit.None? && step.consumed == 1 && step.next.snap == Stripe(job.snapshots, input[0].seqno);
      LatePairMoves(job, input, st.key, st.snap);
      ShowsIff(job, rest, step.next);
    } else if PairAt(job, input, 0) {
      if input[0].seqno > job.writeConflict {
        assert LatePair(job, input, st.key, st.snap, 0);
      } else {
        NoLatePairBelow(job, input, st.key, st.snap);
        NoLatePairBelow(job, rest, step.next.key, step.next.snap);
        ShowsIff(job, rest, step.next);
      }
    } else {
      forall j: nat | LatePair(job, input, st.key, st.snap, j)
        ensures false
      {
        LatePairFirst(job, input, st.key, st.snap, j);
      }
    }
  }

  lemma {:induction false} ShowsFirstIff(job: Job, input: seq<Record>, st: State)
    requires InputOk(input) && !st.started && !st.outputted && !st.clear
    ensures ShowsFirst(job, input, st) <==> StreamDiffers(job, input, st)
    decreases |input|
  {
    if input != [] {
      var step := StepOf(job, input, st);
      var rest := input[step.consumed..];
      assert forall i | 0 <= i < |rest| :: rest[i] == input[i + step.consumed];
      FirstAlike(job, input, st);
      if step.emit.Some? {
        FirstWritten(job, input, st);
        assert ShowsFirst(job, input, st) <==> WritesFirst(job, input, st, 0) && ThenPair(job, input, 0);
        OnlyFirst(job, input, st);
      } else {
        ShowsFirstIff(job, rest, step.next);
        StreamDiffersLater(job, input, st);
      }
    }
  }

  /** The record at hand is the first to be written. */
  lemma FirstWritten(job: Job, input: seq<Record>, st: State)
    requires InputOk(input) && input != [] && !st.started && !st.outputted && !st.clear
    requires StepOf(job, input, st).emit.Some?
    ensures Emit(job, input, st)[0] == input[0]
    ensures Shows(job, input[StepOf(job, input, st).consumed..], StepOf(job, input, st).next) <==>
            WritesFirst(job, input, st, 0) && ThenPair(job, input, 0)
  {
    var step := StepOf(job, input, st);
    var rest, snap := input[1..], Stripe(job.snapshots, input[0].seqno);
    assert step.consumed == 1 && step.emit == Some(input[0]);
    assert Emit(job, input, st) == [input[0]] + Emit(job, rest, step.next);
    assert step.next.clear <==> PairAt(job, input, 0);
    assert step.next.key == input[0].key && step.next.snap == snap && !step.next.outputted;
    assert forall i | 0 <= i < |rest| :: rest[i] == input[i + 1];
    hide StepOf, Emit;
    if !step.next.clear {
      if step.next.hasKey {
        ShowsIff(job, rest, step.next);
      } else {
        NoLatePairOfOther(job, rest, input[0].key, snap);
      }
    }
  }

  lemma OnlyFirst(job: Job, input: seq<Record>, st: State)
    requires Sorted(input) && input != [] && Emit(job, input, st) != [] && Emit(job, input, st)[0] == input[0]
    ensures StreamDiffers(job, input, st) <==> WritesFirst(job, input, st, 0) && ThenPair(job, input, 0)
  {
    hide Emit;
    forall i: nat | WritesFirst(job, input, st, i)
      ensures i == 0
    {
    }
  }

  /** What a pass without output leaves to say. */
  lemma StreamDiffersLater(job: Job, input: seq<Record>, st: State)
    requires InputOk(input) && input != [] && StepOf(job, input, st).emit.None?
    ensures var step := StepOf(job, input, st);
            StreamDiffers(job, input, st) <==> StreamDiffers(job, input[step.consumed..], step.next)
  {
    var step := StepOf(job, input, st);
    var n, rest := step.consumed, input[step.consumed..];
    assert Emit(job, input, st) == Emit(job, rest, step.next);
    assert forall i | 0 <= i < |rest| :: rest[i] == input[i + n];
    hide StepOf, Emit, Sorted, LatePair;
    forall i: nat
      ensures WritesFirst(job, input, st, i) && ThenPair(job, input, i) <==>
              i >= n && WritesFirst(job, rest, step.next, i - n) && ThenPair(job, rest, i - n)
    {
      if i < n {
        NotBefore(job, input, st, step.next, i, n);
      } else if i < |input| {
        assert rest[i - n] == input[i] && rest[i - n + 1..] == input[i + 1..];
        assert PairAt(job, input, i) <==> PairAt(job, rest, i - n);
      }
    }
    if StreamDiffers(job, rest, step.next) {
      var i: nat :| WritesFirst(job, rest, step.next, i) && ThenPair(job, rest, i);
      assert WritesFirst(job, input, st, i + n) && ThenPair(job, input, i + n);
    }
  }

  lemma NotBefore(job: Job, input: seq<Record>, st: State, next: State, i: nat, n: nat)
    requires InputOk(input) && i < n <= |input| && Emit(job, input, st) == Emit(job, input[n..], next)
    ensures !WritesFirst(job, input, st, i)
  {
    var rest := input[n..];
    if rest != [] {
      assert rest[0] == input[n] && Before(input[i], input[n]);
      SuffixOk(input, n);
      EmitFollowsInput(job, rest, next);
    }
  }

  // ---------------------------------------------------------------- all ranges

  /** The input of the first range from `start` on. */
  function FirstRange(input: seq<Record>, start: Option<Key>, b: seq<Key>): seq<Record> {
    Slice(input, start, if b == [] then None else Some(b[0]))
  }

  /** How many ranges from `start` on differ: those behind some output whose first key is followed by a late
      pair. */
  ghost function Differing(job: Job, input: seq<Record>, start: Option<Key>, b: seq<Key>, started: bool): nat
    decreases |b|
  {
    var a := FirstRange(input, start, b);
    Bit(started && RangeDiffers(job, a)) +
    if b == [] then 0 else Differing(job, input, Some(b[0]), b[1..], started || Writes(job, a))
  }

  lemma StepStarts(job: Job, a: seq<Record>, st: State)
    requires a != []
    ensures var step := StepOf(job, a, st); step.next.started <==> st.started || step.emit.Some?
  {
  }

  /** The state at the end of a stretch of input. */
  lemma {:induction false} StateAtEnd(job: Job, a: seq<Record>, st: State)
    requires JobOk(job) && InputOk(a) && StateFits(job, a, st)
    ensures var end := StateAfter(job, a, st);
            && !end.clear && (end.started <==> st.started || Emit(job, a, st) != [])
            && (a != [] && end.hasKey ==> end.key == a[|a| - 1].key) && (a == [] ==> end == st)
    decreases |a|
  {
    if a != [] {
      var step := StepOf(job, a, st);
      var rest := a[step.consumed..];
      StepStarts(job, a, st);
      hide StepOf;
      StepKeepsFit(job, a, st);
      hide StateFits, InputOk, JobOk;
      StepKey(job, a, st);
      assert Emit(job, a, st) == Opt(step.emit) + Emit(job, rest, step.next);
      hide Emit;
      StateAtEnd(job, rest, step.next);
      assert rest != [] ==> rest[|rest| - 1] == a[|a| - 1];
    }
  }

  /** Cutting an unsplit run between two ranges. */
  lemma RunSplits(job: Job, a: seq<Record>, tail: seq<Record>, started: bool)
    requires JobOk(job) && InputOk(a) && KeysApart(a, tail)
    ensures Emit(job, a + tail, Fresh(started)) ==
            Emit(job, a, Fresh(started)) + Emit(job, tail, Fresh(started || Emit(job, a, Fresh(started)) != []))
  {
    EmitSplits(job, a, tail, Fresh(started));
    StateAtEnd(job, a, Fresh(started));
    var end := StateAfter(job, a, Fresh(started));
    EmitForgets(job, tail, end, Fresh(end.started));
  }

  /** One range, against the same stretch of an unsplit run. */
  lemma OneRange(job: Job, a: seq<Record>, started: bool)
    requires JobOk(job) && InputOk(a)
    ensures var run := Emit(job, a, Fresh(started));
            && (run != [] <==> Writes(job, a))
            && |Emit(job, a, Start)| == |run| + 2 * Bit(started && RangeDiffers(job, a))
            && ((started && RangeDiffers(job, a)) || Emit(job, a, Start) == run)
  {
    ShowsFirstInLength(job, a, Start);
    ShowsFirstIff(job, a, Start);
    FirstRecord(job, a, Start);
    StreamDiffersIff(job, a);
  }

  lemma {:induction false} FirstRecord(job: Job, a: seq<Record>, st: State)
    requires !st.started && !st.outputted && !st.clear
    ensures Emit(job, a, st) == [] <==> Emit(job, a, st.(started := true)) == []
    decreases |a|
  {
    if a != [] {
      FirstAlike(job, a, st);
      var step := StepOf(job, a, st);
      if step.emit.None? {
        FirstRecord(job, a[step.consumed..], step.next);
      }
    }
  }

  /** The outputs of all ranges together are the unsplit output with two more records per differing range. */
  lemma {:induction false} SplitLength(job: Job, input: seq<Record>, start: Option<Key>, b: seq<Key>, started: bool)
    requires JobOk(job) && InputOk(input) && StartsBefore(start, b)
    ensures var whole, n := Emit(job, From(input, start), Fresh(started)), Differing(job, input, start, b, started);
            && |AllRanges(job, input, start, b)| == |whole| + 2 * n
            && (n == 0 ==> AllRanges(job, input, start, b) == PrepareAll(job, whole))
    decreases |b|
  {
    hide JobOk, InputOk, Emit, From, Slice, RangeDiffers, Writes, KeysApart;
    var end := if b == [] then None else Some(b[0]);
    var a := FirstRange(input, start, b);
    var tail := SliceApart(input, start, end);
    RangeIsCompactedSlice(job, input, start, end);
    OneRange(job, a, started);
    if b == [] {
      TakeAll(From(input, start));
      assert a == From(input, start) by { SliceIsAll(input, start); }
      TakeAll(Compacted(job, From(input, start)));
    } else {
      FromSplits(input, start, b[0]);
      assert (a + tail)[|a|..] == tail && (a + From(input, end))[|a|..] == From(input, end);
      RunSplits(job, a, tail, started);
      assert forall i | 0 <= i < |b[1..]| :: b[1..][i] == b[i + 1];
      var started' := started || Writes(job, a);
      SplitLength(job, input, end, b[1..], started');
      PrepareConcat(job, Emit(job, a, Fresh(started)), Emit(job, tail, Fresh(started')));
    }
  }

  lemma SliceIsAll(input: seq<Record>, start: Option<Key>)
    ensures Slice(input, start, None) == From(input, start)
  {
    TakeAll(From(input, start));
  }

  lemma PrepareConcat(job: Job, x: seq<Record>, y: seq<Record>)
    ensures PrepareAll(job, x + y) == PrepareAll(job, x) + PrepareAll(job, y)
  {
  }

  /** Splitting a job changes its output if and only if some range that has output before it differs. */
  lemma SubcompactionsConcatenateIff(job: Job, input: seq<Record>, start: Option<Key>, b: seq<Key>)
    requires JobOk(job) && InputOk(input) && StartsBefore(start, b)
    ensures |AllRanges(job, input, start, b)| ==
            |Compacted(job, From(input, start))| + 2 * Differing(job, input, start, b, false)
    ensures AllRanges(job, input, start, b) == Compacted(job, From(input, start)) <==>
            Differing(job, input, start, b, false) == 0
  {
    SplitLength(job, input, start, b, false);
  }

  /** So it changes nothing if no SingleDelete is newer than the write-conflict boundary. */
  lemma SubcompactionsConcatenate(job: Job, input: seq<Record>, start: Option<Key>, b: seq<Key>)
    requires JobOk(job) && InputOk(input) && StartsBefore(start, b)
    requires forall i | 0 <= i < |input| && input[i].kind == SingleDelete :: input[i].seqno <= job.writeConflict
    ensures AllRanges(job, input, start, b) == Compacted(job, From(input, start))
  {
    SubcompactionsConcatenateIff(job, input, start, b);
    NoneDiffers(job, input, start, b, false);
  }

  lemma {:induction false} NoneDiffers(job: Job, input: seq<Record>, start: Option<Key>, b: seq<Key>, started: bool)
    requires InputOk(input)
    requires forall i | 0 <= i < |input| && input[i].kind == SingleDelete :: input[i].seqno <= job.writeConflict
    ensures Differing(job, input, start, b, started) == 0
    decreases |b|
  {
    var a := FirstRange(input, start, b);
    SliceMembers(input, start, if b == [] then None else Some(b[0]));
    forall i: nat | ThenPair(job, a, i)
      ensures false
    {
      var r := PairIsLate(job, a, i);
    }
    if b != [] {
      NoneDiffers(job, input, Some(b[0]), b[1..], started || Writes(job, a));
    }
  }

  lemma PairIsLate(job: Job, a: seq<Record>, i: nat) returns (r: Record)
    requires ThenPair(job, a, i)
    ensures r in a && r.kind == SingleDelete && r.seqno > job.writeConflict
  {
    var j: nat :| LatePair(job, a[i + 1..], a[i].key, Stripe(job.snapshots, a[i].seqno), j);
    r := a[i + 1..][j];
    assert r == a[i + 1 + j];
  }

  lemma SliceMembers(input: seq<Record>, start: Option<Key>, end: Option<Key>)
    requires InputOk(input)
    ensures forall r | r in Slice(input, start, end) :: r in input
  {
    FromMembers(input, start);
    FromOk(input, start);
    TakeUnderSplits(From(input, start), end);
  }

  lemma {:induction false} FromMembers(input: seq<Record>, start: Option<Key>)
    ensures forall r | r in From(input, start) :: r in input
  {
    if input != [] && !AtLeast(input[0].key, start) {
      FromMembers(input[1..], start);
    }
  }

  /** Key 2 is written at 20, and its SingleDelete at 10 is newer than the write-conflict boundary 5. In one run
      key 2 counts as written by then and the pair (10, 9) goes; a range that starts with key 2 keeps it. */
  lemma SplitWritesMore()
    ensures var job := Job([5, 15], 5, true, false, false, false, 9, 1, [[], []], []);
            var input := [Record(1, 30, Put, "a"), Record(2, 20, Put, "b"), Record(2, 10, SingleDelete, ""),
                Record(2, 9, Put, "c")];
            && JobOk(job) && InputOk(input)
            && |Compacted(job, input)| == 2 && |AllRanges(job, input, None, [2])| == 4
  {
    var job := Job([5, 15], 5, true, false, false, false, 9, 1, [[], []], []);
    var r1, r2, r3, r4 := Record(1, 30, Put, "a"), Record(2, 20, Put, "b"), Record(2, 10, SingleDelete, ""),
        Record(2, 9, Put, "c");
    var input, b := [r1, r2, r3, r4], [2];
    FourRecords();
    hide Emit, StepOf, RangeDiffers, Writes, From, FirstRange, PrepareAll, JobOk, InputOk;
    RangesOfFour(r1, r2, r3, r4);
    SplitLength(job, input, None, b, false);
    RangeOfTwo(job, r2, r3, r4);
    WholeRun(job, r1, r2, r3, r4);
    OneDiffers(job, input, [r1], [r2, r3, r4]);
  }

  lemma FourRecords()
    ensures JobOk(Job([5, 15], 5, true, false, false, false, 9, 1, [[], []], []))
    ensures InputOk([Record(1, 30, Put, "a"), Record(2, 20, Put, "b"), Record(2, 10, SingleDelete, ""),
                     Record(2, 9, Put, "c")])
  {
  }

  lemma OneDiffers(job: Job, input: seq<Record>, a: seq<Record>, b: seq<Record>)
    requires FirstRange(input, None, [2]) == a && FirstRange(input, Some(2), []) == b && Writes(job, a)
    requires RangeDiffers(job, b)
    ensures Differing(job, input, None, [2], false) == 1
  {
    var bounds: seq<Key> := [2];
    assert bounds[1..] == [];
    assert Differing(job, input, Some(2), [], true) == 1;
  }

  lemma RangesOfFour(r1: Record, r2: Record, r3: Record, r4: Record)
    requires r1.key == 1 && r2.key == r3.key == r4.key == 2
    ensures var input := [r1, r2, r3, r4];
            && From(input, None) == input && FirstRange(input, None, [2]) == [r1]
            && FirstRange(input, Some(2), []) == [r2, r3, r4]
  {
    var input := [r1, r2, r3, r4];
    assert input[1..] == [r2, r3, r4];
    assert TakeUnder([r2, r3, r4], Some(2)) == [];
    SliceIsAll(input, Some(2));
  }

  lemma Numbers15()
    ensures Stripe([5, 15], 30) == Stripe([5, 15], 20) == MAX_SEQUENCE
    ensures Stripe([5, 15], 10) == Stripe([5, 15], 9) == 15
    ensures Previous([5, 15], 10, 0) == 5
  {
    assert [5, 15][1..] == [15] && [15][1..] == [];
  }

  lemma RangeOfTwo(job: Job, r2: Record, r3: Record, r4: Record)
    requires job == Job([5, 15], 5, true, false, false, false, 9, 1, [[], []], [])
    requires r2 == Record(2, 20, Put, "b") && r3 == Record(2, 10, SingleDelete, "") && r4 == Record(2, 9, Put, "c")
    ensures RangeDiffers(job, [r2, r3, r4])
  {
    Numbers15();
    var a := [r2, r3, r4];
    assert FirstAt(job, a, 0);
    assert a[1..] == [r3, r4];
    assert LatePair(job, [r3, r4], 2, MAX_SEQUENCE, 0);
    assert ThenPair(job, a, 0);
  }

  lemma WholeRun(job: Job, r1: Record, r2: Record, r3: Record, r4: Record)
    requires job == Job([5, 15], 5, true, false, false, false, 9, 1, [[], []], [])
    requires r1 == Record(1, 30, Put, "a") && r2 == Record(2, 20, Put, "b")
    requires r3 == Record(2, 10, SingleDelete, "") && r4 == Record(2, 9, Put, "c")
    ensures Emit(job, [r1, r2, r3, r4], Start) == [r1, r2] && Writes(job, [r1])
  {
    Numbers15();
    assert !PassedAt(job, [r1], 0);
    var input := [r1, r2, r3, r4];
    assert input[1..] == [r2, r3, r4] && [r2, r3, r4][1..] == [r3, r4] && [r3, r4][2..] == [];
    var s1 := StepOf(job, input, Start);
    assert s1.emit == Some(r1) && s1.consumed == 1;
    var s2 := StepOf(job, [r2, r3, r4], s1.next);
    assert s2.emit == Some(r2) && s2.consumed == 1 && s2.next.outputted;
    var s3 := StepOf(job, [r3, r4], s2.next);
    assert s3.emit == None && s3.consumed == 2;
    assert Emit(job, [r3, r4], s2.next) == [];
    assert Emit(job, [r2, r3, r4], s1.next) == [r2];
  }
}
