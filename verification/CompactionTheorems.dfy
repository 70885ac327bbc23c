/** Whole compactions: reads over (output + older data) against reads over (input + older data),
    sequence zeroing, and the exact conditions under which the stream is faithful. */
module CompactionTheorems {
  import opened Common
  import opened Records
  import opened CompactionStream
  import opened CompactionReads

  // ---------------------------------------------------------------- older data

  function Flatten(files: seq<Table>): seq<Record> {
    if files == [] then [] else files[0].records + Flatten(files[1..])
  }

  function DeepRuns(levels: seq<seq<Table>>, from: nat): Runs
    decreases |levels| - from
  {
    if from >= |levels| then [] else [Flatten(levels[from])] + DeepRuns(levels, from + 1)
  }

  /** What a reader that finds nothing in the output turns to: the deeper levels, and before them, if the
      output goes to level 0, the older files there. (Above an output in a deeper level those files are
      read first.) */
  function BelowRuns(job: Job): Runs {
    (if job.outputLevel == 0 then job.olderL0 else []) + DeepRuns(job.levels, job.outputLevel + 1)
  }

  function ReadBelow(job: Job, k: Key, s: nat): Option<string> {
    ReadRuns(BelowRuns(job), k, s)
  }

  /** From the output on, reads are unchanged at (k, s). */
  ghost predicate Preserved(job: Job, input: seq<Record>, k: Key, s: nat) {
    ReadOver(Compacted(job, input), k, s, ReadBelow(job, k, s)) == ReadOver(input, k, s, ReadBelow(job, k, s))
  }

  lemma {:induction false} FlattenKeys(files: seq<Table>, k: Key)
    requires TablesOk(files) && !InLevel(files, k)
    ensures forall i | 0 <= i < |Flatten(files)| :: Flatten(files)[i].key != k
  {
    if files != [] {
      assert forall i | 0 <= i < |files[1..]| :: files[1..][i] == files[i + 1];
      FlattenKeys(files[1..], k);
    }
  }

  lemma {:induction false} DeepRunsKeys(levels: seq<seq<Table>>, from: nat, k: Key)
    requires from > 0 && forall l | from <= l < |levels| :: TablesOk(levels[l]) && !InLevel(levels[l], k)
    ensures !KeyInRuns(DeepRuns(levels, from), k)
    decreases |levels| - from
  {
    if from < |levels| {
      FlattenKeys(levels[from], k);
      DeepRunsKeys(levels, from + 1, k);
    }
  }

  /** What NotBeyond() claims: in leveled compaction it is how the answer is found, in universal compaction
      it is what the bottommost flag has to mean. */
  ghost predicate NotBeyondIsTrue(job: Job, k: Key) {
    NotBeyond(job, k) ==> forall l | job.outputLevel < l < |job.levels| :: !InLevel(job.levels[l], k)
  }

  /** No older level-0 file with the key is read below the output. */
  ghost predicate NoOlderL0(job: Job, k: Key) {
    job.outputLevel == 0 ==> !KeyInRuns(job.olderL0, k)
  }

  /** A key that no older L0 file and no deeper file covers is in none of the older data. */
  lemma NotBeyondMeansAbsent(job: Job, k: Key, s: nat)
    requires JobOk(job) && NotBeyondIsTrue(job, k) && NotBeyond(job, k) && NoOlderL0(job, k)
    ensures !KeyInRuns(BelowRuns(job), k)
    ensures ReadBelow(job, k, s) == None
  {
    DeepRunsKeys(job.levels, job.outputLevel + 1, k);
    ReadRunsAbsent(BelowRuns(job), k, s);
  }

  /** With nothing older in L0 below the output, a tombstone it drops has nothing to hide. */
  lemma DropOkWithoutOlderL0(job: Job, input: seq<Record>, k: Key, s: nat)
    requires JobOk(job) && NotBeyondIsTrue(job, k) && NoOlderL0(job, k)
    ensures DropOk(job, input, k, ReadBelow(job, k, s))
  {
    if NotBeyond(job, k) {
      NotBeyondMeansAbsent(job, k, s);
    }
  }

  // ---------------------------------------------------------------- sequence zeroing

  lemma EarliestIsLeast(snaps: seq<nat>, s: nat)
    requires Ascending(snaps) && Readable(snaps, s)
    requires BelowMax(snaps)
    ensures Earliest(snaps) <= s
  {
  }

  lemma {:induction false} PrepareKeepsReads(job: Job, rs: seq<Record>, k: Key, s: nat, below: Option<string>)
    requires SnapshotsOk(job) && Readable(job.snapshots, s)
    ensures ReadOver(PrepareAll(job, rs), k, s, below) == ReadOver(rs, k, s, below)
  {
    EarliestIsLeast(job.snapshots, s);
    if rs != [] {
      assert PrepareAll(job, rs)[1..] == PrepareAll(job, rs[1..]);
      PrepareKeepsReads(job, rs[1..], k, s, below);
    }
  }

  /** The main theorem. Every listed snapshot and the tip read `k` as before, for every key that is
      never single-deleted or strictly alternates, provided a tombstone the job drops has nothing
      older to hide. */
  lemma CompactionPreservesReads(job: Job, input: seq<Record>, k: Key, s: nat)
    requires JobOk(job) && InputOk(input) && Readable(job.snapshots, s)
    requires KeyHistoryOk(input, k, s, ReadBelow(job, k, s)) && NoClashOf(job, input, k)
    requires DropOk(job, input, k, ReadBelow(job, k, s))
    ensures Preserved(job, input, k, s)
  {
    NoClashIsApart(job, input, Start, k, s);
    EmitPreservesReads(job, input, Start, k, s, ReadBelow(job, k, s));
    PrepareKeepsReads(job, Emit(job, input, Start), k, s, ReadBelow(job, k, s));
  }

  /** For Put/Delete keys the answer is exact and asks for nothing: a reader notices the compaction if and
      only if the record it stopped at is lost and the older data answers otherwise. */
  lemma PutDeleteReadsIff(job: Job, input: seq<Record>, k: Key, s: nat)
    requires JobOk(job) && InputOk(input) && Readable(job.snapshots, s) && NoSingleDelete(input, k)
    ensures Preserved(job, input, k, s) <==>
            (Lookup(input, k, s).Some? && Lost(job, input, Lookup(input, k, s).value) ==>
               Answer(Lookup(input, k, s).value) == ReadBelow(job, k, s))
  {
    EmitReadsExactly(job, input, Start, k, s, ReadBelow(job, k, s));
    PrepareKeepsReads(job, Emit(job, input, Start), k, s, ReadBelow(job, k, s));
    hide Emit, PrepareAll;
    assert Lookup(input, k, s).Some? ==>
        (LostFrom(job, input, Start, Lookup(input, k, s).value) <==> Lost(job, input, Lookup(input, k, s).value));
  }

  /** bottommost_level_ speaks the truth about the keys of the input, no number 0 clashes with snapshot 0,
      and the write-conflict boundary is one of the snapshots or the maximum (SnapshotList::GetAll). */
  ghost predicate BottommostOk(job: Job, input: seq<Record>) {
    && job.attached && job.bottommost && NoClash(job, input)
    && (forall i | 0 <= i < |input| :: NotBeyond(job, input[i].key))
    && Earliest(job.snapshots) <= job.writeConflict
  }

  /** In a bottommost job, once the earliest stripe of a key is reached no record of it comes out. */
  lemma {:induction false} BottommostKeyIsDone(job: Job, input: seq<Record>, st: State, k: Key)
    requires JobOk(job) && InputOk(input) && StateFits(job, input, st) && BottommostOk(job, input)
    requires !st.clear
    requires input != [] && input[0].key == k ==> input[0].seqno <= Earliest(job.snapshots)
    requires input != [] ==> k <= input[0].key
    requires input != [] && input[0].key == k ==>
               input[0].kind != Put || (st.hasKey && st.key == k && st.snap == Earliest(job.snapshots))
    ensures forall r | r in Emit(job, input, st) :: r.key != k
    decreases |input|
  {
    if input != [] {
      if k < input[0].key {
        EmitFollowsInput(job, input, st);
      } else {
        var step := StepOf(job, input, st);
        var rest := input[step.consumed..];
        assert forall i | 0 <= i < |rest| :: rest[i] == input[i + step.consumed];
        StepKeepsFit(job, input, st);
        StripeDecides(job.snapshots, input[0].seqno, MAX_SEQUENCE);
        assert Previous(job.snapshots, input[0].seqno, 0) == 0;
        assert step.emit.None?;
        if rest != [] {
          assert Before(input[0], rest[0]);
        }
        BottommostKeyIsDone(job, rest, step.next, k);
      }
    }
  }

  ghost predicate OldIsLastPut(job: Job, out: seq<Record>) {
    && (forall i | 0 <= i < |out| && out[i].seqno <= Earliest(job.snapshots) :: out[i].kind == Put)
    && (forall i, j | 0 <= i < j < |out| && out[i].key == out[j].key :: out[i].seqno > Earliest(job.snapshots))
  }

  /** In a bottommost job, what comes out at or below the earliest snapshot is a Put, the oldest
      emitted version of its key. This discharges the assertion in PrepareOutput. */
  lemma {:induction false} BottommostOldIsLastPut(job: Job, input: seq<Record>, st: State)
    requires JobOk(job) && InputOk(input) && StateFits(job, input, st) && BottommostOk(job, input)
    requires st.clear ==> st.snap > Earliest(job.snapshots)
    ensures OldIsLastPut(job, Emit(job, input, st))
    decreases |input|
  {
    if input != [] {
      var step := StepOf(job, input, st);
      var rest := input[step.consumed..];
      assert forall i | 0 <= i < |rest| :: rest[i] == input[i + step.consumed];
      StepKeepsFit(job, input, st);
      ClearStaysNew(job, input, st);
      BottommostOldIsLastPut(job, rest, step.next);
      if step.emit.Some? && step.emit.value.seqno <= Earliest(job.snapshots) {
        BottommostEmitsPut(job, input, st);
        BottommostKeyIsDone(job, rest, step.next, input[0].key);
      }
      PrependOld(job, step.emit, Emit(job, rest, step.next));
    }
  }

  lemma BottommostEmitsPut(job: Job, input: seq<Record>, st: State)
    requires JobOk(job) && InputOk(input) && StateFits(job, input, st) && BottommostOk(job, input) && input != []
    requires st.clear ==> st.snap > Earliest(job.snapshots)
    requires var step := StepOf(job, input, st); step.emit.Some? && step.emit.value.seqno <= Earliest(job.snapshots)
    ensures var step := StepOf(job, input, st); var rest := input[step.consumed..];
            && step.emit.value == input[0] && input[0].kind == Put && !step.next.clear
            && step.next.hasKey && step.next.key == input[0].key && step.next.snap == Earliest(job.snapshots)
            && (rest != [] ==> Before(input[0], rest[0]))
  {
    ClearStaysNew(job, input, st);
    assert Previous(job.snapshots, input[0].seqno, 0) == 0;
    StripeDecides(job.snapshots, input[0].seqno, MAX_SEQUENCE);
  }

  lemma PrependOld(job: Job, o: Option<Record>, tail: seq<Record>)
    requires OldIsLastPut(job, tail)
    requires o.Some? && o.value.seqno <= Earliest(job.snapshots) ==>
               o.value.kind == Put && forall r | r in tail :: r.key != o.value.key
    ensures OldIsLastPut(job, Opt(o) + tail)
  {
    var out := Opt(o) + tail;
    var n := |Opt(o)|;
    forall i, j | 0 <= i < j < |out| && out[i].key == out[j].key
      ensures out[i].seqno > Earliest(job.snapshots)
    {
      assert out[j] == tail[j - n];
    }
  }

  lemma ClearStaysNew(job: Job, input: seq<Record>, st: State)
    requires JobOk(job) && InputOk(input) && StateFits(job, input, st) && input != [] && NoClash(job, input)
    requires Earliest(job.snapshots) <= job.writeConflict
    requires st.clear ==> st.snap > Earliest(job.snapshots)
    ensures var next := StepOf(job, input, st).next; next.clear ==> next.snap > Earliest(job.snapshots)
    ensures st.clear ==> input[0].seqno > Earliest(job.snapshots)
  {
    StripeDecides(job.snapshots, input[0].seqno, MAX_SEQUENCE);
  }

  /** After zeroing, the output is still strictly sorted, only Puts lose their sequence number, and
      nothing older than a zeroed record is left anywhere. */
  lemma ZeroedOutputSorted(job: Job, input: seq<Record>)
    requires JobOk(job) && InputOk(input)
    requires job.attached && job.bottommost ==> BottommostOk(job, input)
    ensures Sorted(Compacted(job, input))
    ensures forall r | r in Emit(job, input, Start) && Zeroes(job, r) :: r.kind == Put && NotBeyond(job, r.key)
  {
    if input != [] {
      var out := Emit(job, input, Start);
      EmitFollowsInput(job, input, Start);
      if job.attached && job.bottommost {
        BottommostOldIsLastPut(job, input, Start);
        EmitKeysFromInput(job, input, Start);
      }
      forall i, j | 0 <= i < j < |out|
        ensures Before(Prepare(job, out[i]), Prepare(job, out[j]))
      {
        assert Before(out[i], out[j]);
      }
    }
  }

  lemma {:induction false} EmitKeysFromInput(job: Job, input: seq<Record>, st: State)
    ensures forall r | r in Emit(job, input, st) :: exists i | 0 <= i < |input| :: input[i].key == r.key
    decreases |input|
  {
    if input != [] {
      var step := StepOf(job, input, st);
      var rest := input[step.consumed..];
      EmitKeysFromInput(job, rest, step.next);
      forall r | r in Emit(job, input, st)
        ensures exists i | 0 <= i < |input| :: input[i].key == r.key
      {
        if r in Emit(job, rest, step.next) {
          var i :| 0 <= i < |rest| && rest[i].key == r.key;
          assert input[i + step.consumed].key == r.key;
        } else {
          assert input[0].key == r.key;
        }
      }
    }
  }
}
