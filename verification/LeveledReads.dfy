/** The leveled picker and the stream together. A picked compaction leaves files of its two levels in place, some of
    them older than its inputs, and its output comes to lie under those of the start level. Because the pick is
    apart from what it leaves, no reader notices. */
module LeveledReads {
  import opened Common
  import opened Records
  import opened LevelFiles
  import opened PickerInputs
  import opened CompactionStream
  import opened CompactionReads
  import opened CompactionTheorems
  import opened DatabaseReads
  import RunningCompactions

  /** The tables of a level as a reader goes through them. */
  function RunsOf(tables: seq<Table>): Runs {
    if tables == [] then [] else [tables[0].records] + RunsOf(tables[1..])
  }

  /** Those that are taken, or those that are left, in the same order. */
  function Part(tables: seq<Table>, taken: seq<File>, side: bool): Runs {
    if tables == [] then []
    else (if (tables[0].file in taken) == side then [tables[0].records] else []) + Part(tables[1..], taken, side)
  }

  ghost predicate Holds(table: Table, k: Key) {
    exists i | 0 <= i < |table.records| :: table.records[i].key == k
  }

  /** No table on the other side holds the key. */
  ghost predicate OnlySide(tables: seq<Table>, taken: seq<File>, side: bool, k: Key) {
    forall i | 0 <= i < |tables| :: (tables[i].file in taken) != side ==> !Holds(tables[i], k)
  }

  lemma {:induction false} OneSideAnswers(tables: seq<Table>, taken: seq<File>, side: bool, k: Key, s: nat)
    requires OnlySide(tables, taken, side, k)
    ensures LookupRuns(Part(tables, taken, !side), k, s) == None
    ensures LookupRuns(RunsOf(tables), k, s) == LookupRuns(Part(tables, taken, side), k, s)
  {
    if tables != [] {
      var rest, first := tables[1..], [tables[0].records];
      assert forall i | 0 <= i < |rest| :: rest[i] == tables[i + 1];
      OneSideAnswers(rest, taken, side, k, s);
      if (tables[0].file in taken) != side {
        assert !Holds(tables[0], k);
        LookupAbsent(tables[0].records, k, s);
      }
      LookupRunsOver(first, RunsOf(rest), k, s);
      LookupRunsOver(first, Part(rest, taken, side), k, s);
      LookupRunsOver(first, Part(rest, taken, !side), k, s);
      assert LookupRuns(first, k, s) == Lookup(tables[0].records, k, s) by { assert first[1..] == []; }
      assert [] + Part(rest, taken, side) == Part(rest, taken, side);
      assert [] + Part(rest, taken, !side) == Part(rest, taken, !side);
    }
  }

  /** In a sealed level the tables that hold a key are all taken or all left. */
  lemma SealedSides(tables: seq<Table>, taken: seq<File>, k: Key)
    requires Sealed(FilesOf(tables), taken) && forall i | 0 <= i < |tables| :: Contained(tables[i])
    ensures OnlySide(tables, taken, true, k) || OnlySide(tables, taken, false, k)
  {
    var files := FilesOf(tables);
    forall i, j | 0 <= i < |tables| && 0 <= j < |tables| && tables[i].file in taken && tables[j].file !in taken
      ensures !Holds(tables[i], k) || !Holds(tables[j], k)
    {
      assert files[i] in files && files[j] in files && !Share(files[i], files[j]);
    }
  }

  /** So what is left can be read first. */
  lemma LevelSplits(tables: seq<Table>, taken: seq<File>, k: Key, s: nat)
    requires Sealed(FilesOf(tables), taken) && forall i | 0 <= i < |tables| :: Contained(tables[i])
    ensures LookupRuns(RunsOf(tables), k, s) == LookupRuns(Part(tables, taken, false) + Part(tables, taken, true), k, s)
  {
    SealedSides(tables, taken, k);
    LookupRunsOver(Part(tables, taken, false), Part(tables, taken, true), k, s);
    if OnlySide(tables, taken, true, k) {
      OneSideAnswers(tables, taken, true, k, s);
    } else {
      OneSideAnswers(tables, taken, false, k, s);
    }
  }

  /** A key that is read from the files taken from the start level is in no file left in the output level. */
  lemma TakenAboveLeft(tables: seq<Table>, outs: seq<Table>, taken: seq<File>, chosen: seq<File>, k: Key, s: nat)
    requires Separate(FilesOf(tables), FilesOf(outs), taken, chosen)
    requires (forall i | 0 <= i < |tables| :: Contained(tables[i])) && forall i | 0 <= i < |outs| :: Contained(outs[i])
    ensures LookupRuns(Part(tables, taken, true), k, s).None? || LookupRuns(Part(outs, taken, false), k, s).None?
  {
    if forall i | 0 <= i < |tables| && tables[i].file in taken :: !Holds(tables[i], k) {
      OneSideAnswers(tables, taken, false, k, s);
    } else {
      var i :| 0 <= i < |tables| && tables[i].file in taken && Holds(tables[i], k);
      assert FilesOf(tables)[i] in FilesOf(tables);
      HullCovers(chosen, tables[i].file);
      forall j | 0 <= j < |outs| && outs[j].file !in taken
        ensures !Holds(outs[j], k)
      {
        assert FilesOf(outs)[j] in FilesOf(outs);
      }
      OneSideAnswers(outs, taken, true, k, s);
    }
  }

  // ---------------------------------------------------------------- before and after the compaction

  /** The database before: what lies above the start level, the start level, the output level and what is below.
      Levels between the two hold nothing. */
  function DatabaseBefore(job: Job, above: Runs, start: nat): Runs
    requires start < job.outputLevel < |job.levels|
  {
    above + (RunsOf(job.levels[start]) +
             (RunsOf(job.levels[job.outputLevel]) + DeepRuns(job.levels, job.outputLevel + 1)))
  }

  /** And after: the files taken are gone, and the output is in the output level. */
  function DatabaseAfter(job: Job, above: Runs, start: nat, taken: seq<File>, out: seq<Record>): Runs
    requires start < job.outputLevel < |job.levels|
  {
    above + (Part(job.levels[start], taken, false) +
             (Part(job.levels[job.outputLevel], taken, false) + ([out] + DeepRuns(job.levels, job.outputLevel + 1))))
  }

  /** The compaction in its place: everything it leaves of the two levels counts as newer. */
  function PlaceOf(job: Job, above: Runs, start: nat, taken: seq<File>): Place
    requires start < job.outputLevel < |job.levels|
  {
    Place(above + (Part(job.levels[start], taken, false) + Part(job.levels[job.outputLevel], taken, false)),
          Part(job.levels[start], taken, true), Part(job.levels[job.outputLevel], taken, true))
  }

  /** A job set up for a pick: the input is the contents of the files taken. */
  ghost predicate PickedJob(job: Job, above: Runs, start: nat, taken: seq<File>, chosen: seq<File>,
                            input: seq<Record>) {
    && JobOk(job) && start < job.outputLevel < |job.levels| && job.olderL0 == []
    && (forall i | 0 <= i < |job.levels[start]| :: Contained(job.levels[start][i]))
    && Separate(FilesOf(job.levels[start]), FilesOf(job.levels[job.outputLevel]), taken, chosen)
    && PlaceOk(job, PlaceOf(job, above, start, taken), input)
  }

  /** Reading goes through five groups of runs in turn. */
  function ReadFive(a: Runs, b: Runs, c: Runs, d: Runs, below: Runs, k: Key, s: nat): Option<string> {
    if LookupRuns(a, k, s).Some? then Answer(LookupRuns(a, k, s).value)
    else if LookupRuns(b, k, s).Some? then Answer(LookupRuns(b, k, s).value)
    else if LookupRuns(c, k, s).Some? then Answer(LookupRuns(c, k, s).value)
    else if LookupRuns(d, k, s).Some? then Answer(LookupRuns(d, k, s).value)
    else ReadRuns(below, k, s)
  }

  lemma ReadFiveIs(a: Runs, b: Runs, c: Runs, d: Runs, below: Runs, k: Key, s: nat)
    ensures ReadRuns(a + (b + (c + (d + below))), k, s) == ReadFive(a, b, c, d, below, k, s)
    ensures ReadRuns((a + (b + c)) + (d + below), k, s) == ReadFive(a, b, c, d, below, k, s)
  {
    ReadRunsOver(a, b + (c + (d + below)), k, s);
    ReadRunsOver(b, c + (d + below), k, s);
    ReadRunsOver(c, d + below, k, s);
    ReadRunsOver(d, below, k, s);
    assert (a + (b + c)) + (d + below) == a + (b + (c + (d + below)));
  }

  lemma ReadLeftFirst(above: Runs, level: Runs, left: Runs, upper: Runs, outLevel: Runs, leftOut: Runs, lower: Runs,
                      deep: Runs, k: Key, s: nat)
    requires LookupRuns(level, k, s) == LookupRuns(left + upper, k, s)
    requires LookupRuns(outLevel, k, s) == LookupRuns(leftOut + lower, k, s)
    requires LookupRuns(upper, k, s).None? || LookupRuns(leftOut, k, s).None?
    ensures ReadRuns(above + (level + (outLevel + deep)), k, s) ==
            ReadRuns((above + (left + leftOut)) + (upper + (lower + deep)), k, s)
  {
    hide LookupRuns, ReadRuns;
    LookupRunsOver(left, upper, k, s);
    LookupRunsOver(leftOut, lower, k, s);
    ReadRunsOver(above, level + (outLevel + deep), k, s);
    ReadRunsOver(level, outLevel + deep, k, s);
    ReadRunsOver(outLevel, deep, k, s);
    ReadFiveIs(above, left, leftOut, upper, lower + deep, k, s);
    ReadRunsOver(lower, deep, k, s);
  }

  /** How the two levels split. */
  lemma PickSplits(job: Job, above: Runs, start: nat, taken: seq<File>, chosen: seq<File>, input: seq<Record>, k: Key,
                   s: nat)
    requires PickedJob(job, above, start, taken, chosen, input)
    ensures var tables, outs := job.levels[start], job.levels[job.outputLevel];
            var left, upper := Part(tables, taken, false), Part(tables, taken, true);
            var leftOut, lower := Part(outs, taken, false), Part(outs, taken, true);
            && LookupRuns(RunsOf(tables), k, s) == LookupRuns(left + upper, k, s)
            && LookupRuns(RunsOf(outs), k, s) == LookupRuns(leftOut + lower, k, s)
            && (LookupRuns(upper, k, s).None? || LookupRuns(leftOut, k, s).None?)
  {
    var tables, outs := job.levels[start], job.levels[job.outputLevel];
    assert forall i | 0 <= i < |outs| :: Contained(outs[i]) by { assert TablesOk(outs); }
    hide JobOk, PlaceOk, Contained, FilesOf, Sealed, Complete, LookupRuns, RunsOf, Part, Smallest, Largest;
    LevelSplits(tables, taken, k, s);
    LevelSplits(outs, taken, k, s);
    TakenAboveLeft(tables, outs, taken, chosen, k, s);
  }

  /** Before: the taken files of the start level can be read after what is left of both levels. */
  lemma BeforeIsPlace(job: Job, above: Runs, start: nat, taken: seq<File>, chosen: seq<File>, input: seq<Record>,
                      k: Key, s: nat)
    requires PickedJob(job, above, start, taken, chosen, input)
    ensures ReadRuns(DatabaseBefore(job, above, start), k, s) ==
            ReadRuns(RunsBefore(job, PlaceOf(job, above, start, taken)), k, s)
  {
    var tables, outs, deep := job.levels[start], job.levels[job.outputLevel], DeepRuns(job.levels, job.outputLevel + 1);
    hide JobOk, PlaceOk, Separate, Contained, LookupRuns, ReadRuns, DeepRuns, RunsOf, Part, FilesOf;
    PickSplits(job, above, start, taken, chosen, input, k, s);
    PlaceRuns(job, above, start, taken);
    hide PickedJob, RunsBefore, PlaceOf;
    ReadLeftFirst(above, RunsOf(tables), Part(tables, taken, false), Part(tables, taken, true), RunsOf(outs),
                  Part(outs, taken, false), Part(outs, taken, true), deep, k, s);
  }

  lemma PlaceRuns(job: Job, above: Runs, start: nat, taken: seq<File>)
    requires start < job.outputLevel < |job.levels| && job.olderL0 == []
    ensures var tables, outs := job.levels[start], job.levels[job.outputLevel];
            RunsBefore(job, PlaceOf(job, above, start, taken)) ==
            (above + (Part(tables, taken, false) + Part(outs, taken, false))) +
            (Part(tables, taken, true) + (Part(outs, taken, true) + DeepRuns(job.levels, job.outputLevel + 1)))
  {
    hide Part, DeepRuns;
    var below := Part(job.levels[job.outputLevel], taken, true) + DeepRuns(job.levels, job.outputLevel + 1);
    assert job.olderL0 + below == below;
  }

  /** Every compaction that the leveled picker makes between two levels keeps every answer of every reader. */
  lemma LeveledPickKeepsReads(job: Job, above: Runs, start: nat, taken: seq<File>, chosen: seq<File>,
                              input: seq<Record>, k: Key, s: nat)
    requires PickedJob(job, above, start, taken, chosen, input) && Readable(job.snapshots, s)
    requires NotBeyondIsTrue(job, k) && NoClashOf(job, input, k) && KeyHistoryOk(input, k, s, ReadBelow(job, k, s))
    ensures ReadRuns(DatabaseBefore(job, above, start), k, s) ==
            ReadRuns(DatabaseAfter(job, above, start, taken, Compacted(job, input)), k, s)
  {
    var p := PlaceOf(job, above, start, taken);
    hide JobOk, PlaceOk, Separate, Contained, FilesOf, LookupRuns, ReadRuns, DeepRuns, RunsOf, Part, NotBeyondIsTrue,
           NoClashOf, KeyHistoryOk, ReadBelow, Readable, Buried, RunsBefore, RunsAfter, DatabaseBefore, DatabaseAfter,
           KeyInRuns, PlaceOf;
    BeforeIsPlace(job, above, start, taken, chosen, input, k, s);
    DeepOutputReadsIff(job, p, input, k, s);
    NoneOlder(job, k);
    NothingBuried(job, p, k, s);
    AfterIsPlace(job, above, start, taken, Compacted(job, input));
  }

  lemma NoneOlder(job: Job, k: Key)
    requires job.olderL0 == []
    ensures !KeyInRuns(job.olderL0, k)
  {
  }

  lemma AfterIsPlace(job: Job, above: Runs, start: nat, taken: seq<File>, out: seq<Record>)
    requires start < job.outputLevel < |job.levels| && job.olderL0 == []
    ensures RunsAfter(job, PlaceOf(job, above, start, taken), out) == DatabaseAfter(job, above, start, taken, out)
  {
    hide DeepRuns, Part;
    var below, left := DeepRuns(job.levels, job.outputLevel + 1), Part(job.levels[start], taken, false);
    var leftOut := Part(job.levels[job.outputLevel], taken, false);
    assert BelowRuns(job) == below && job.olderL0 + ([out] + below) == [out] + below;
    assert (above + (left + leftOut)) + ([out] + below) == above + (left + (leftOut + ([out] + below)));
  }

  /** The job works on these levels, takes these files and has their contents as its input. */
  ghost predicate CompactsFiles(job: Job, levels: seq<seq<File>>, above: Runs, start: nat, out: nat, taken: seq<File>,
                                input: seq<Record>) {
    && JobOk(job) && start < out == job.outputLevel < |job.levels| == |levels| && job.olderL0 == []
    && FilesOf(job.levels[start]) == levels[start] && FilesOf(job.levels[out]) == levels[out]
    && (forall i | 0 <= i < |job.levels[start]| :: Contained(job.levels[start][i]))
    && PlaceOk(job, PlaceOf(job, above, start, taken), input)
  }

  /** A reader for whom the stream keeps its promise. */
  ghost predicate ReaderOk(job: Job, input: seq<Record>, k: Key, s: nat) {
    && Readable(job.snapshots, s) && NotBeyondIsTrue(job, k) && NoClashOf(job, input, k)
    && KeyHistoryOk(input, k, s, ReadBelow(job, k, s))
  }

  ghost predicate SameAnswer(job: Job, above: Runs, start: nat, taken: seq<File>, input: seq<Record>, k: Key, s: nat)
    requires start < job.outputLevel < |job.levels|
  {
    ReadRuns(DatabaseBefore(job, above, start), k, s) ==
    ReadRuns(DatabaseAfter(job, above, start, taken, Compacted(job, input)), k, s)
  }

  /** Whatever the files contain, no reader notices that they are compacted. */
  ghost predicate Unnoticed(levels: seq<seq<File>>, start: nat, out: nat, taken: seq<File>) {
    forall job, above, input, k, s: nat |
        CompactsFiles(job, levels, above, start, out, taken, input) && ReaderOk(job, input, k, s) ::
      SameAnswer(job, above, start, taken, input, k, s)
  }

  /** PickCompaction(): what it picks can be compacted without any reader noticing. */
  method PickUnnoticed(picker: RunningCompactions.CompactionPicker, start: nat, out: nat, order: seq<nat>,
                       marked: Option<nat>, limit: nat, decline: bool)
    returns (r: Option<RunningCompactions.Compaction>)
    requires picker.Valid() && start < out < |picker.levels| && forall n | n in order :: n < |picker.levels[start]|
    requires marked.Some? ==>
               marked.value < |picker.levels[start]| &&
               picker.levels[start][marked.value].number !in picker.busy
    modifies picker`busy, picker`running, picker`level0Running, picker`nextId
    ensures picker.Valid() && (r.Some? ==> Unnoticed(picker.levels, start, out, r.value.inputs))
  {
    hide RunningCompactions.CompactionPicker.Valid, Separate, Unnoticed;
    var next;
    ghost var chosen;
    r, next, chosen := picker.PickCompaction(start, out, order, marked, limit, decline);
    if r.Some? {
      SeparateIsUnnoticed(picker.levels, start, out, r.value.inputs, chosen);
    }
  }

  lemma SeparateIsUnnoticed(levels: seq<seq<File>>, start: nat, out: nat, taken: seq<File>, chosen: seq<File>)
    requires start < out < |levels| && Separate(levels[start], levels[out], taken, chosen)
    ensures Unnoticed(levels, start, out, taken)
  {
    hide Separate, ReaderOk, JobOk, PlaceOk, Contained, FilesOf, DatabaseBefore, DatabaseAfter, PlaceOf, ReadRuns;
    forall job, above, input, k, s: nat |
        CompactsFiles(job, levels, above, start, out, taken, input) && ReaderOk(job, input, k, s)
      ensures SameAnswer(job, above, start, taken, input, k, s)
    {
      ReaderMeans(job, input, k, s);
      LeveledPickKeepsReads(job, above, start, taken, chosen, input, k, s);
    }
  }

  lemma ReaderMeans(job: Job, input: seq<Record>, k: Key, s: nat)
    requires ReaderOk(job, input, k, s)
    ensures Readable(job.snapshots, s) && NotBeyondIsTrue(job, k) && NoClashOf(job, input, k)
    ensures KeyHistoryOk(input, k, s, ReadBelow(job, k, s))
  {
  }
}
