/** A compaction in its place: all runs of the database before and after it, in the order a reader goes
    through them. All of level 0 is searched before level 1, so an output below level 0 comes to lie under
    level-0 files that are older than its inputs, if such files stay. */
module DatabaseReads {
  import opened Common
  import opened Records
  import opened CompactionStream
  import opened CompactionReads
  import opened CompactionTheorems
  import opened LevelFiles

  // ---------------------------------------------------------------- reading several runs

  /** The record a reader stops at. */
  function LookupRuns(runs: Runs, k: Key, s: nat): Option<Record> {
    if runs == [] then None
    else if Lookup(runs[0], k, s).Some? then Lookup(runs[0], k, s)
    else LookupRuns(runs[1..], k, s)
  }

  lemma {:induction false} ReadRunsOver(a: Runs, b: Runs, k: Key, s: nat)
    ensures ReadRuns(a + b, k, s) ==
            if LookupRuns(a, k, s).Some? then Answer(LookupRuns(a, k, s).value) else ReadRuns(b, k, s)
  {
    if a == [] {
      assert a + b == b;
    } else {
      assert (a + b)[1..] == a[1..] + b;
      ReadRunsOver(a[1..], b, k, s);
    }
  }

  lemma {:induction false} LookupRunsOver(a: Runs, b: Runs, k: Key, s: nat)
    ensures LookupRuns(a + b, k, s) == if LookupRuns(a, k, s).Some? then LookupRuns(a, k, s) else LookupRuns(b, k, s)
  {
    if a == [] {
      assert a + b == b;
    } else {
      assert (a + b)[1..] == a[1..] + b;
      LookupRunsOver(a[1..], b, k, s);
    }
  }

  ghost predicate InRuns(runs: Runs, r: Record) {
    exists i | 0 <= i < |runs| :: r in runs[i]
  }

  /** Sorted runs, and of every key the newer versions come first. */
  ghost predicate NewestFirst(runs: Runs) {
    && (forall i | 0 <= i < |runs| :: Sorted(runs[i]))
    && (forall i, j, a, b | 0 <= i < j < |runs| && a in runs[i] && b in runs[j] && a.key == b.key :: a.seqno > b.seqno)
  }

  /** The input of a job: its runs merged into one. */
  ghost predicate Merges(input: seq<Record>, runs: Runs) {
    Sorted(input) && forall r :: r in input <==> InRuns(runs, r)
  }

  /** A reader stops at the newest version it sees. */
  lemma {:induction false} LookupRunsNewest(runs: Runs, k: Key, s: nat)
    requires NewestFirst(runs)
    ensures LookupRuns(runs, k, s).None? <==> forall r | InRuns(runs, r) :: !Visible(r, k, s)
    ensures LookupRuns(runs, k, s).Some? ==>
              var r := LookupRuns(runs, k, s).value;
              InRuns(runs, r) && Visible(r, k, s) && forall x | InRuns(runs, x) && Visible(x, k, s) ::
                  x.seqno <= r.seqno
  {
    if runs != [] {
      var rest := runs[1..];
      NewestFirstRest(runs);
      hide NewestFirst, InRuns, Sorted, Lookup;
      LookupIsNewest(runs[0], k, s);
      LookupRunsNewest(rest, k, s);
      forall x: Record
        ensures InRuns(runs, x) <==> x in runs[0] || InRuns(rest, x)
      {
        InRest(runs, x);
      }
    }
  }

  lemma NewestFirstRest(runs: Runs)
    requires NewestFirst(runs) && runs != []
    ensures Sorted(runs[0]) && NewestFirst(runs[1..])
    ensures forall a, b | a in runs[0] && InRuns(runs[1..], b) && a.key == b.key :: a.seqno > b.seqno
  {
    assert forall i | 0 <= i < |runs[1..]| :: runs[1..][i] == runs[i + 1];
  }

  lemma InRest(runs: Runs, x: Record)
    requires runs != []
    ensures InRuns(runs, x) <==> x in runs[0] || InRuns(runs[1..], x)
  {
    if InRuns(runs[1..], x) {
      var i :| 0 <= i < |runs[1..]| && x in runs[1..][i];
      assert x in runs[i + 1];
    }
    if InRuns(runs, x) {
      var i :| 0 <= i < |runs| && x in runs[i];
      assert i > 0 ==> x in runs[1..][i - 1];
    }
  }

  /** So reading the merged input is reading its runs. */
  lemma MergedLookup(input: seq<Record>, runs: Runs, k: Key, s: nat)
    requires Merges(input, runs) && NewestFirst(runs)
    ensures Lookup(input, k, s) == LookupRuns(runs, k, s)
  {
    LookupIsNewest(input, k, s);
    LookupRunsNewest(runs, k, s);
    if LookupRuns(runs, k, s).Some? {
      var r := LookupRuns(runs, k, s).value;
      assert r in input;
      var n :| 0 <= n < |input| && input[n] == r;
      var m :| 0 <= m < |input| && input[m] == Lookup(input, k, s).value;
      assert input[n].seqno == input[m].seqno;
      SameNumber(input, n, m);
    }
  }

  lemma SameNumber(input: seq<Record>, n: nat, m: nat)
    requires Sorted(input) && n < |input| && m < |input| && input[n].key == input[m].key
    requires input[n].seqno == input[m].seqno
    ensures n == m
  {
  }

  // ---------------------------------------------------------------- before and after

  /** What lies above the job's inputs and stays there, its level-0 inputs (newest first), and its inputs from
      deeper levels. */
  datatype Place = Place(newer: Runs, upper: Runs, lower: Runs)

  function RunsBefore(job: Job, p: Place): Runs {
    p.newer + (p.upper + (job.olderL0 + (p.lower + DeepRuns(job.levels, job.outputLevel + 1))))
  }

  function RunsAfter(job: Job, p: Place, out: seq<Record>): Runs {
    if job.outputLevel == 0 then p.newer + ([out] + BelowRuns(job))
    else p.newer + (job.olderL0 + ([out] + BelowRuns(job)))
  }

  ghost predicate SameRead(job: Job, p: Place, input: seq<Record>, k: Key, s: nat) {
    ReadRuns(RunsBefore(job, p), k, s) == ReadRuns(RunsAfter(job, p, Compacted(job, input)), k, s)
  }

  /** The place fits the job: the input is its inputs merged, and into level 0 only level-0 files go. */
  ghost predicate PlaceOk(job: Job, p: Place, input: seq<Record>) {
    && InputOk(input) && Merges(input, p.upper + p.lower) && NewestFirst(p.upper + p.lower)
    && (job.outputLevel == 0 ==> p.lower == [])
  }

  /** A reader that passed the newer data stops in a level-0 input, while an older level-0 file that stays
      holds another answer for it. */
  ghost predicate Buried(job: Job, p: Place, k: Key, s: nat) {
    && LookupRuns(p.newer, k, s).None? && LookupRuns(p.upper, k, s).Some? && LookupRuns(job.olderL0, k, s).Some?
    && Answer(LookupRuns(p.upper, k, s).value) != Answer(LookupRuns(job.olderL0, k, s).value)
  }

  lemma ReadOneOver(run: seq<Record>, below: Runs, k: Key, s: nat)
    ensures ReadRuns([run] + below, k, s) == ReadOver(run, k, s, ReadRuns(below, k, s))
  {
    assert ([run] + below)[1..] == below;
  }

  /** An output below level 0: every reader of every key reads as before, except those whose answer comes to
      lie under an older level-0 file. */
  lemma DeepOutputReadsIff(job: Job, p: Place, input: seq<Record>, k: Key, s: nat)
    requires JobOk(job) && PlaceOk(job, p, input) && job.outputLevel > 0 && Readable(job.snapshots, s)
    requires NotBeyondIsTrue(job, k) && NoClashOf(job, input, k) && KeyHistoryOk(input, k, s, ReadBelow(job, k, s))
    ensures SameRead(job, p, input, k, s) <==> !Buried(job, p, k, s)
  {
    hide JobOk, InputOk, NotBeyondIsTrue, NoClashOf, KeyHistoryOk, NewestFirst, Merges, LookupRuns, ReadRuns, Emit,
           PrepareAll;
    var out, deep := Compacted(job, input), DeepRuns(job.levels, job.outputLevel + 1);
    assert BelowRuns(job) == deep;
    ReadRunsOver(p.newer, p.upper + (job.olderL0 + (p.lower + deep)), k, s);
    ReadRunsOver(p.newer, job.olderL0 + ([out] + deep), k, s);
    ReadRunsOver(p.upper, job.olderL0 + (p.lower + deep), k, s);
    ReadRunsOver(job.olderL0, p.lower + deep, k, s);
    ReadRunsOver(job.olderL0, [out] + deep, k, s);
    ReadRunsOver(p.lower, deep, k, s);
    ReadOneOver(out, deep, k, s);
    LookupRunsOver(p.upper, p.lower, k, s);
    MergedLookup(input, p.upper + p.lower, k, s);
    DropOkWithoutOlderL0(job, input, k, s);
    CompactionPreservesReads(job, input, k, s);
  }

  /** An output in level 0: a reader of a Put/Delete key reads as before unless the record it stopped at is
      lost and the older data answers otherwise. */
  lemma Level0OutputReadsIff(job: Job, p: Place, input: seq<Record>, k: Key, s: nat)
    requires JobOk(job) && PlaceOk(job, p, input) && job.outputLevel == 0 && Readable(job.snapshots, s)
    requires NoSingleDelete(input, k)
    ensures SameRead(job, p, input, k, s) <==>
            || LookupRuns(p.newer, k, s).Some?
            || (Lookup(input, k, s).Some? && Lost(job, input, Lookup(input, k, s).value) ==>
                  Answer(Lookup(input, k, s).value) == ReadBelow(job, k, s))
  {
    hide JobOk, InputOk, NoSingleDelete, NewestFirst, Merges, LookupRuns, Lookup, ReadRuns, Emit, PrepareAll, Lost;
    var out, below := Compacted(job, input), BelowRuns(job);
    assert p.upper + p.lower == p.upper;
    assert job.olderL0 + (p.lower + DeepRuns(job.levels, 1)) == below;
    ReadRunsOver(p.newer, p.upper + below, k, s);
    ReadRunsOver(p.newer, [out] + below, k, s);
    ReadRunsOver(p.upper, below, k, s);
    ReadOneOver(out, below, k, s);
    MergedLookup(input, p.upper, k, s);
    PutDeleteReadsIff(job, input, k, s);
  }

  /** What a caller can check: if no key of the level-0 inputs is in an older level-0 file that stays, every
      key keeps its reads, wherever the output goes. */
  lemma NothingBuried(job: Job, p: Place, k: Key, s: nat)
    requires KeyInRuns(p.upper, k) ==> !KeyInRuns(job.olderL0, k)
    ensures !Buried(job, p, k, s)
  {
    if !KeyInRuns(p.upper, k) {
      LookupRunsAbsent(p.upper, k, s);
    } else {
      LookupRunsAbsent(job.olderL0, k, s);
    }
  }

  lemma {:induction false} LookupRunsAbsent(runs: Runs, k: Key, s: nat)
    requires !KeyInRuns(runs, k)
    ensures LookupRuns(runs, k, s) == None
  {
    if runs != [] {
      LookupAbsent(runs[0], k, s);
      assert forall i | 1 <= i < |runs| :: runs[i] == runs[1..][i - 1];
      LookupRunsAbsent(runs[1..], k, s);
    }
  }

  /** CompactFiles() of the newest level-0 file alone, with output level 1: the new value comes to lie under the
      old one. A file in level 2 covers the key, so nothing is dropped; the order of the runs alone does it. */
  lemma OlderLevel0FileBuriesNewValue()
    ensures var older, input := [Record(5, 1, Put, "old")], [Record(5, 2, Put, "new")];
            var levels := [[], [], [Table(File(7, 5, 5, 0), [])]];
            var job := Job([], MAX_SEQUENCE, true, false, false, false, 9, 1, levels, [older]);
            var p := Place([], [input], []);
            && JobOk(job) && PlaceOk(job, p, input) && Buried(job, p, 5, MAX_SEQUENCE)
            && ReadRuns(RunsBefore(job, p), 5, MAX_SEQUENCE) == Some("new")
            && ReadRuns(RunsAfter(job, p, Compacted(job, input)), 5, MAX_SEQUENCE) == Some("old")
  {
    var older, input := [Record(5, 1, Put, "old")], [Record(5, 2, Put, "new")];
    var levels := [[], [], [Table(File(7, 5, 5, 0), [])]];
    var job := Job([], MAX_SEQUENCE, true, false, false, false, 9, 1, levels, [older]);
    var p := Place([], [input], []);
    var upper: Runs := [input];
    assert p.upper + p.lower == upper;
    assert Merges(input, upper) by {
      forall r ensures r in input <==> InRuns(upper, r) {
        assert r in upper[0] <==> r in input;
      }
    }
    assert LookupRuns(upper, 5, MAX_SEQUENCE) == Some(input[0]);
    assert LookupRuns(job.olderL0, 5, MAX_SEQUENCE) == Some(older[0]);
    ReadRunsOver(p.newer, p.upper + (job.olderL0 + (p.lower + DeepRuns(job.levels, 2))), 5, MAX_SEQUENCE);
    ReadRunsOver(p.upper, job.olderL0 + (p.lower + DeepRuns(job.levels, 2)), 5, MAX_SEQUENCE);
    ReadRunsOver(p.newer, job.olderL0 + ([Compacted(job, input)] + BelowRuns(job)), 5, MAX_SEQUENCE);
    ReadRunsOver(job.olderL0, [Compacted(job, input)] + BelowRuns(job), 5, MAX_SEQUENCE);
  }
}
