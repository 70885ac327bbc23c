/** Is the output the last place its keys live? (Compaction::GetBoundaryKeys, IsBottommostLevel) */
module Bottommost {
  import opened Common
  import opened Records
  import opened CompactionStream
  import opened CompactionTheorems

  datatype InputFiles = InputFiles(level: nat, files: seq<Table>)

  ghost predicate InputsOk(inputs: seq<InputFiles>) {
    forall i | 0 <= i < |inputs| ::
      && (forall j | 0 <= j < |inputs[i].files| :: inputs[i].files[j].file.smallest <= inputs[i].files[j].file.largest)
      && (inputs[i].level > 0 ==> TablesOk(inputs[i].files))
  }

  ghost predicate Within(files: seq<Table>, lo: Key, hi: Key) {
    forall j | 0 <= j < |files| :: lo <= files[j].file.smallest && files[j].file.largest <= hi
  }

  ghost predicate Starts(files: seq<Table>, k: Key) {
    exists j | 0 <= j < |files| :: files[j].file.smallest == k
  }

  ghost predicate Ends(files: seq<Table>, k: Key) {
    exists j | 0 <= j < |files| :: files[j].file.largest == k
  }

  /** No input file reaches outside [lo, hi]. */
  ghost predicate Bounds(inputs: seq<InputFiles>, lo: Key, hi: Key) {
    forall i | 0 <= i < |inputs| :: Within(inputs[i].files, lo, hi)
  }

  ghost predicate Reached(inputs: seq<InputFiles>, lo: Key, hi: Key) {
    && (exists i | 0 <= i < |inputs| :: Starts(inputs[i].files, lo))
    && (exists i | 0 <= i < |inputs| :: Ends(inputs[i].files, hi))
  }

  ghost predicate NoFiles(inputs: seq<InputFiles>) {
    forall i | 0 <= i < |inputs| :: inputs[i].files == []
  }

  /** The tightest user-key range over all inputs. */
  method GetBoundaryKeys(inputs: seq<InputFiles>) returns (lo: Key, hi: Key, initialized: bool)
    requires InputsOk(inputs)
    ensures initialized <==> !NoFiles(inputs)
    ensures initialized ==> Bounds(inputs, lo, hi) && Reached(inputs, lo, hi)
  {
    lo, hi, initialized := 0, 0, false;
    for i := 0 to |inputs|
      invariant initialized <==> !NoFiles(inputs[..i])
      invariant initialized ==> Bounds(inputs[..i], lo, hi) && Reached(inputs, lo, hi)
    {
      hide Within, Starts, Ends;
      if inputs[i].files != [] {
        ghost var lo0, hi0 := lo, hi;
        lo, hi := Extend(inputs[i], lo, hi, initialized);
        if initialized {
          forall n | 0 <= n < i
            ensures Within(inputs[n].files, lo, hi)
          {
            assert inputs[..i][n] == inputs[n];
            WithinWider(inputs[n].files, lo0, hi0, lo, hi);
          }
        }
        initialized := true;
        assert inputs[..i + 1][i].files != [];
      }
      EmptyWithin(inputs[i].files, lo, hi);
      assert inputs[..i + 1] == inputs[..i] + [inputs[i]];
    }
    assert inputs[..|inputs|] == inputs;
  }

  lemma WithinWider(files: seq<Table>, lo: Key, hi: Key, lo': Key, hi': Key)
    requires Within(files, lo, hi) && lo' <= lo && hi <= hi'
    ensures Within(files, lo', hi')
  {
  }

  lemma EmptyWithin(files: seq<Table>, lo: Key, hi: Key)
    ensures files == [] ==> Within(files, lo, hi)
  {
  }

  /** Widen the range by one level: all files of L0, first and last file elsewhere. */
  method Extend(input: InputFiles, lo: Key, hi: Key, initialized: bool) returns (lo': Key, hi': Key)
    requires input.files != [] && (input.level > 0 ==> TablesOk(input.files))
    ensures initialized ==> lo' <= lo && hi <= hi'
    ensures Within(input.files, lo', hi')
    ensures (initialized && lo' == lo) || Starts(input.files, lo')
    ensures (initialized && hi' == hi) || Ends(input.files, hi')
  {
    lo', hi' := lo, hi;
    var files, init := input.files, initialized;
    if input.level == 0 {
      for j := 0 to |files|
        invariant init == (initialized || j > 0)
        invariant initialized ==> lo' <= lo && hi <= hi'
        invariant forall n | 0 <= n < j :: lo' <= files[n].file.smallest && files[n].file.largest <= hi'
        invariant init ==> (initialized && lo' == lo) || Starts(files, lo')
        invariant init ==> (initialized && hi' == hi) || Ends(files, hi')
      {
        if !init || files[j].file.smallest < lo' {
          lo' := files[j].file.smallest;
        }
        if !init || files[j].file.largest > hi' {
          hi' := files[j].file.largest;
        }
        init := true;
      }
    } else {
      EndsBoundLevel(files);
      if !init || files[0].file.smallest < lo' {
        lo' := files[0].file.smallest;
      }
      if !init || files[|files| - 1].file.largest > hi' {
        hi' := files[|files| - 1].file.largest;
      }
    }
  }

  lemma EndsBoundLevel(files: seq<Table>)
    requires TablesOk(files) && files != []
    ensures forall n | 0 <= n < |files| ::
              && files[0].file.smallest <= files[n].file.smallest
              && files[n].file.largest <= files[|files| - 1].file.largest
  {
  }

  ghost predicate OverlapInLevel(files: seq<Table>, lo: Key, hi: Key) {
    exists i | 0 <= i < |files| :: files[i].file.largest >= lo && files[i].file.smallest <= hi
  }

  /** The verdict as a statement about the storage: the oldest L0 file is an input (or no L0 file is),
      and below the output level there is nothing at all (output L0), or nothing in the key range. */
  ghost predicate BottommostSpec(outputLevel: nat, levels: seq<seq<Table>>, inputs: seq<InputFiles>, lo: Key, hi: Key)
    requires inputs != [] && inputs[0].files != [] && levels != [] && (inputs[0].level == 0 ==> levels[0] != [])
  {
    && (inputs[0].level == 0 ==>
          inputs[0].files[|inputs[0].files| - 1].file.number == levels[0][|levels[0]| - 1].file.number)
    && forall l | outputLevel < l < |levels| ::
         levels[l] == [] || (outputLevel != 0 && !OverlapInLevel(levels[l], lo, hi))
  }

  method IsBottommostLevel(outputLevel: nat, levels: seq<seq<Table>>, inputs: seq<InputFiles>)
    returns (b: bool, lo: Key, hi: Key)
    requires InputsOk(inputs) && inputs != [] && inputs[0].files != []
    requires levels != [] && (inputs[0].level == 0 ==> levels[0] != [])
    ensures Bounds(inputs, lo, hi) && Reached(inputs, lo, hi)
    ensures b <==> BottommostSpec(outputLevel, levels, inputs, lo, hi)
  {
    var smallest, largest, initialized := GetBoundaryKeys(inputs);
    assert initialized by { assert inputs[0].files != []; }
    lo, hi := smallest, largest;
    var last := inputs[0].files[|inputs[0].files| - 1];
    if inputs[0].level == 0 && last.file.number != levels[0][|levels[0]| - 1].file.number {
      return false, lo, hi;
    }
    for l := outputLevel + 1 to if outputLevel + 1 > |levels| then outputLevel + 1 else |levels|
      invariant forall m | outputLevel < m < l && m < |levels| ::
        levels[m] == [] || (outputLevel != 0 && !OverlapInLevel(levels[m], smallest, largest))
    {
      var overlap := FindOverlap(levels[l], smallest, largest);
      if |levels[l]| > 0 && (outputLevel == 0 || overlap) {
        return false, lo, hi;
      }
    }
    b := true;
  }

  method FindOverlap(files: seq<Table>, lo: Key, hi: Key) returns (overlap: bool)
    ensures overlap <==> OverlapInLevel(files, lo, hi)
  {
    for i := 0 to |files|
      invariant forall j | 0 <= j < i :: !(files[j].file.largest >= lo && files[j].file.smallest <= hi)
    {
      if files[i].file.largest >= lo && files[i].file.smallest <= hi {
        return true;
      }
    }
    return false;
  }

  /** The files of level 0 that are older than the inputs: those behind the last input file. Inputs from
      deeper levels have no older files there. */
  ghost predicate LeavesOlder(job: Job, inputs: seq<InputFiles>)
    requires inputs != [] && inputs[0].files != [] && job.levels != []
  {
    if inputs[0].level > 0 then job.olderL0 == []
    else exists p | 0 <= p < |job.levels[0]| ::
      && job.levels[0][p].file.number == inputs[0].files[|inputs[0].files| - 1].file.number
      && |job.olderL0| == |job.levels[0]| - p - 1
      && forall j | 0 <= j < |job.olderL0| :: job.olderL0[j] == job.levels[0][p + 1 + j].records
  }

  ghost predicate DistinctNumbers(files: seq<Table>) {
    forall i, j | 0 <= i < j < |files| :: files[i].file.number != files[j].file.number
  }

  /** How a job is set up: its flag is the verdict on its inputs, and its write-conflict boundary comes from
      the snapshot list. */
  ghost predicate SetUp(job: Job, inputs: seq<InputFiles>, list: seq<Snapshot>, lo: Key, hi: Key) {
    && JobOk(job) && job.attached && inputs != [] && inputs[0].files != [] && InputsOk(inputs)
    && job.levels != [] && (inputs[0].level == 0 ==> job.levels[0] != []) && DistinctNumbers(job.levels[0])
    && LeavesOlder(job, inputs) && Bounds(inputs, lo, hi)
    && (job.bottommost <==> BottommostSpec(job.outputLevel, job.levels, inputs, lo, hi))
    && job.snapshots == NumbersOf(list) && job.writeConflict == FirstBoundary(list)
  }

  /** A truthful bottommost flag: no key of the compaction is in any deeper level, in either compaction
      style, and nothing older answers for it. */
  lemma BottommostKeysAreGone(job: Job, inputs: seq<InputFiles>, list: seq<Snapshot>, lo: Key, hi: Key, k: Key, s: nat)
    requires SetUp(job, inputs, list, lo, hi) && job.bottommost && lo <= k <= hi
    ensures NotBeyond(job, k) && job.olderL0 == []
    ensures !KeyInRuns(BelowRuns(job), k) && ReadBelow(job, k, s) == None
  {
    forall l | job.outputLevel < l < |job.levels|
      ensures !InLevel(job.levels[l], k)
    {
      if InLevel(job.levels[l], k) {
        assert OverlapInLevel(job.levels[l], lo, hi);
      }
    }
    assert job.olderL0 == [];
    NotBeyondMeansAbsent(job, k, s);
  }

  // ---------------------------------------------------------------- the snapshot list

  /** A snapshot in the list, oldest first: its number, and whether transactions need it as a boundary. */
  datatype Snapshot = Snapshot(number: nat, boundary: bool)

  function NumbersOf(list: seq<Snapshot>): (numbers: seq<nat>)
    ensures |numbers| == |list| && forall i | 0 <= i < |list| :: numbers[i] == list[i].number
  {
    seq(|list|, i requires 0 <= i < |list| => list[i].number)
  }

  /** The oldest write-conflict boundary, or the maximum. */
  function FirstBoundary(list: seq<Snapshot>): nat {
    if list == [] then MAX_SEQUENCE else if list[0].boundary then list[0].number else FirstBoundary(list[1..])
  }

  method GetAll(list: seq<Snapshot>) returns (numbers: seq<nat>, oldestBoundary: nat)
    requires BelowMax(NumbersOf(list))
    ensures numbers == NumbersOf(list) && oldestBoundary == FirstBoundary(list)
  {
    numbers, oldestBoundary := [], MAX_SEQUENCE;
    for i := 0 to |list|
      invariant |numbers| == i && forall j | 0 <= j < i :: numbers[j] == list[j].number
      invariant if oldestBoundary == MAX_SEQUENCE then FirstBoundary(list) == FirstBoundary(list[i..])
                  else oldestBoundary == FirstBoundary(list)
    {
      assert list[i..][1..] == list[i + 1..] && NumbersOf(list)[i] < MAX_SEQUENCE;
      numbers := numbers + [list[i].number];
      if oldestBoundary == MAX_SEQUENCE && list[i].boundary {
        oldestBoundary := list[i].number;
      }
    }
  }

  lemma {:induction false} BoundaryIsNotOlder(list: seq<Snapshot>)
    requires Ascending(NumbersOf(list)) && BelowMax(NumbersOf(list))
    ensures Earliest(NumbersOf(list)) <= FirstBoundary(list)
  {
    var numbers := NumbersOf(list);
    if list != [] && !list[0].boundary {
      var rest := list[1..];
      assert NumbersOf(rest) == numbers[1..];
      BoundaryIsNotOlder(rest);
      if rest != [] {
        assert numbers[0] <= numbers[1];
      }
    }
  }

  // ---------------------------------------------------------------- the bottommost compaction as a whole

  /** Every record of the input comes from an input file, within the range of that file. */
  ghost predicate FromFiles(inputs: seq<InputFiles>, input: seq<Record>) {
    forall n | 0 <= n < |input| :: exists i, j | 0 <= i < |inputs| && 0 <= j < |inputs[i].files| ::
      inputs[i].files[j].file.smallest <= input[n].key <= inputs[i].files[j].file.largest
  }

  /** The job as it is set up zeroes sequence numbers safely: the output is strictly sorted, only Puts lose
      their number, each the oldest version of its key anywhere. */
  lemma BottommostZeroingIsSafe(job: Job, inputs: seq<InputFiles>, list: seq<Snapshot>, lo: Key, hi: Key,
                                input: seq<Record>)
    requires SetUp(job, inputs, list, lo, hi) && InputOk(input) && FromFiles(inputs, input) && NoClash(job, input)
    ensures Sorted(Compacted(job, input))
    ensures forall r | r in Emit(job, input, Start) && Zeroes(job, r) ::
              r.kind == Put && !KeyInRuns(BelowRuns(job), r.key)
  {
    hide Emit, LeavesOlder, BottommostSpec;
    if job.bottommost {
      forall i | 0 <= i < |input|
        ensures NotBeyond(job, input[i].key) && !KeyInRuns(BelowRuns(job), input[i].key)
      {
        var m, j :| 0 <= m < |inputs| && 0 <= j < |inputs[m].files| &&
          inputs[m].files[j].file.smallest <= input[i].key <= inputs[m].files[j].file.largest;
        assert Within(inputs[m].files, lo, hi);
        BottommostKeysAreGone(job, inputs, list, lo, hi, input[i].key, 0);
      }
      BoundaryIsNotOlder(list);
      EmitKeysFromInput(job, input, Start);
    }
    ZeroedOutputSorted(job, input);
  }
}
