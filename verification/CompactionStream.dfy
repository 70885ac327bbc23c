/** What a compaction emits for a sorted input (CompactionIterator::NextFromInput), as a function of
    the remaining input and the iterator's per-key state, and the proof that it changes no read. */
module CompactionStream {
  import opened Common
  import opened LevelFiles
  import opened Records

  /** A table file with its contents. */
  datatype Table = Table(file: File, records: seq<Record>)

  /** One compaction (or flush, when `attached` is false): the fields the stream consults. */
  datatype Job = Job(
    snapshots: seq<nat>,
    writeConflict: nat,        // earliest_write_conflict_snapshot_
    attached: bool,            // compaction_ != nullptr
    universal: bool,           // compaction style
    bottommost: bool,
    ingestBehind: bool,
    largestKey: Key,           // GetLargestUserKey()
    outputLevel: nat,
    levels: seq<seq<Table>>,
    olderL0: Runs)             // L0 files older than the inputs that this job leaves in place

  function FilesOf(tables: seq<Table>): (files: seq<File>)
    ensures |files| == |tables| && forall i | 0 <= i < |tables| :: files[i] == tables[i].file
  {
    seq(|tables|, i requires 0 <= i < |tables| => tables[i].file)
  }

  /** The keys of a table lie within the bounds of its file. */
  ghost predicate Contained(table: Table) {
    forall i | 0 <= i < |table.records| :: table.file.smallest <= table.records[i].key <= table.file.largest
  }

  /** A level from 1 down, with its contents. */
  ghost predicate TablesOk(tables: seq<Table>) {
    LevelOk(FilesOf(tables)) && forall i | 0 <= i < |tables| :: Contained(tables[i])
  }

  ghost predicate InLevel(tables: seq<Table>, k: Key) {
    exists i | 0 <= i < |tables| :: tables[i].file.smallest <= k <= tables[i].file.largest
  }

  /** A fresh scan: no file below the output level covers the key. */
  ghost predicate NotBeyond(job: Job, k: Key) {
    if job.universal then job.bottommost
    else forall l | job.outputLevel < l < |job.levels| :: !InLevel(job.levels[l], k)
  }

  ghost predicate SnapshotsOk(job: Job) {
    && Ascending(job.snapshots)
    && BelowMax(job.snapshots)
  }

  ghost predicate JobOk(job: Job) {
    && SnapshotsOk(job)
    && (forall l | 0 < l < |job.levels| :: TablesOk(job.levels[l]))
  }

  /** The stream takes 0 for "no snapshot" and for "no version of this key seen yet". A Put or Delete with
      number 0 (of an ingested file) clashes with a listed snapshot 0 (taken before the first write). */
  predicate ZeroClash(job: Job, r: Record) {
    r.seqno == 0 && r.kind != SingleDelete && 0 in job.snapshots
  }

  ghost predicate NoClashOf(job: Job, input: seq<Record>, k: Key) {
    forall i | 0 <= i < |input| && input[i].key == k :: !ZeroClash(job, input[i])
  }

  /** Snapshot 0 is not listed, or all numbers are positive. */
  ghost predicate NoClash(job: Job, input: seq<Record>) {
    forall i | 0 <= i < |input| :: !ZeroClash(job, input[i])
  }

  /** The iterator's state between two input records. */
  datatype State = State(
    hasKey: bool,              // has_current_user_key_
    key: Key,                  // current_user_key_
    outputted: bool,           // has_outputted_key_
    snap: nat,                 // current_user_key_snapshot_
    clear: bool,               // clear_and_output_next_key_
    started: bool)             // SeekToFirst() has returned

  const Start := State(false, 0, false, 0, false, false)

  /** Next() marks the key as outputted once a record is out; SeekToFirst() does not. */
  function Out(st: State): State {
    st.(outputted := st.outputted || st.started, started := true)
  }

  datatype Step = Step(emit: Option<Record>, consumed: nat, next: State)

  ghost predicate Droppable(job: Job, r: Record) {
    job.attached && r.seqno <= Earliest(job.snapshots) && NotBeyond(job, r.key)
  }

  /** A SingleDelete peeks at the next record: it annihilates with an older version of the same
      stripe, announces that the version is kept without its value, or comes out alone. */
  ghost function SingleDeleteStep(job: Job, input: seq<Record>, here: State, prev: nat): (step: Step)
    requires input != []
    ensures 1 <= step.consumed <= |input|
  {
    var r := input[0];
    if |input| > 1 && input[1].key == r.key then
      if prev == 0 || input[1].seqno > prev then
        if input[1].kind == SingleDelete then
          Step(None, 1, here)
        else if r.seqno <= job.writeConflict || here.outputted then
          Step(None, 2, here)
        else
          Step(Some(r), 1, Out(here.(clear := true)))
      else
        Step(Some(r), 1, Out(here))
    else if Droppable(job, r) then
      Step(None, 1, here.(hasKey := false))
    else
      Step(Some(r), 1, Out(here.(hasKey := false)))
  }

  /** A Put or Delete: hidden in its stripe, an obsolete tombstone, or emitted. */
  ghost function VersionStep(job: Job, r: Record, here: State, last: nat): (step: Step)
    ensures step.consumed == 1
  {
    if last == here.snap then
      Step(None, 1, here)
    else if r.kind == Delete && Droppable(job, r) then
      Step(None, 1, here)
    else
      Step(Some(r), 1, Out(here))
  }

  /** The state once the record at hand is the current one. */
  function Enter(job: Job, r: Record, st: State): State {
    var first := !st.hasKey || r.key != st.key;
    st.(hasKey := true, key := r.key, snap := Stripe(job.snapshots, r.seqno), outputted := !first && st.outputted)
  }

  /** current_user_key_snapshot_ before the record at hand: 0 if its key is new. */
  function LastSnap(r: Record, st: State): nat {
    if !st.hasKey || r.key != st.key then 0 else st.snap
  }

  /** One pass through the loop of NextFromInput. */
  ghost function StepOf(job: Job, input: seq<Record>, st: State): (step: Step)
    requires input != []
    ensures 1 <= step.consumed <= |input|
  {
    var r := input[0];
    var here := Enter(job, r, st);
    if st.clear then
      Step(Some(r.(value := "")), 1, Out(here.(clear := false)))
    else if r.kind == SingleDelete then
      SingleDeleteStep(job, input, here, Previous(job.snapshots, r.seqno, 0))
    else
      VersionStep(job, r, here, LastSnap(r, st))
  }

  function Opt<T>(o: Option<T>): seq<T> {
    if o.Some? then [o.value] else []
  }

  /** Everything the iterator still emits, before sequence zeroing. */
  ghost function Emit(job: Job, input: seq<Record>, st: State): seq<Record>
    decreases |input|
  {
    if input == [] then []
    else
      var step := StepOf(job, input, st);
      Opt(step.emit) + Emit(job, input[step.consumed..], step.next)
  }

  /** PrepareOutput(): at the bottommost level old records lose their sequence number. */
  predicate Zeroes(job: Job, r: Record) {
    && job.attached && !job.ingestBehind && job.bottommost
    && r.seqno <= Earliest(job.snapshots) && r.key != job.largestKey
  }

  function Prepare(job: Job, r: Record): Record {
    if Zeroes(job, r) then r.(seqno := 0) else r
  }

  function PrepareAll(job: Job, rs: seq<Record>): (out: seq<Record>)
    ensures |out| == |rs|
    ensures forall i | 0 <= i < |rs| :: out[i] == Prepare(job, rs[i])
  {
    seq(|rs|, i requires 0 <= i < |rs| => Prepare(job, rs[i]))
  }

  /** The records a whole run writes. */
  ghost function Compacted(job: Job, input: seq<Record>): seq<Record> {
    PrepareAll(job, Emit(job, input, Start))
  }

  // ---------------------------------------------------------------- history conditions

  ghost predicate NoSingleDelete(input: seq<Record>, k: Key) {
    forall i | 0 <= i < |input| && input[i].key == k :: input[i].kind != SingleDelete
  }

  /** Put and SingleDelete strictly alternate in the versions of `k`. */
  ghost predicate Alternates(input: seq<Record>, k: Key) {
    && (forall i | 0 <= i < |input| && input[i].key == k :: input[i].kind != Delete)
    && (forall i, j | 0 <= i < j < |input| && j == i + 1 && input[i].key == k && input[j].key == k ::
          input[i].kind != input[j].kind)
  }

  /** The oldest version of `k` in the input is a Put that `s` sees. */
  ghost predicate EndsInPut(input: seq<Record>, k: Key, s: nat) {
    exists i | 0 <= i < |input| ::
      Visible(input[i], k, s) && input[i].kind == Put && (i + 1 == |input| || input[i + 1].key != k)
  }

  /** What the reader's key must look like for the stream to be faithful: never single-deleted, or
      strictly alternating, in which case the older data continues the alternation: below an oldest
      Put that `s` sees comes a SingleDelete or nothing, so the older data answers "not found". */
  ghost predicate KeyHistoryOk(input: seq<Record>, k: Key, s: nat, below: Option<string>) {
    NoSingleDelete(input, k) || (Alternates(input, k) && (EndsInPut(input, k, s) ==> below == None))
  }

  /** The state fits the input that follows it. */
  ghost predicate StateFits(job: Job, input: seq<Record>, st: State) {
    && (st.hasKey && input != [] ==> st.key <= input[0].key)
    && (st.hasKey && input != [] && st.key == input[0].key ==>
          Stripe(job.snapshots, input[0].seqno) <= st.snap)
    && (st.clear ==>
          && input != [] && st.hasKey && st.key == input[0].key && input[0].kind != SingleDelete && st.snap > 0
          && (Stripe(job.snapshots, input[0].seqno) == st.snap || ZeroClash(job, input[0])))
  }

  ghost predicate PlainInput(input: seq<Record>) {
    forall i | 0 <= i < |input| :: input[i].kind != SingleDelete
  }

  ghost predicate InputOk(input: seq<Record>) {
    Sorted(input) && InRange(input)
  }
}
