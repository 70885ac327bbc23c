/** When exactly the stream is faithful: single-delete histories, snapshot zero, and jobs that write
    to L0 while older L0 files stay behind. */
module CompactionConditions {
  import opened Common
  import opened Records
  import opened CompactionStream
  import opened CompactionReads
  import opened CompactionTheorems

  // ---------------------------------------------------------------- alternating histories

  /** The versions of `k` in one run, newest first. */
  function Versions(rs: seq<Record>, k: Key): seq<Record> {
    if rs == [] then [] else (if rs[0].key == k then [rs[0]] else []) + Versions(rs[1..], k)
  }

  function RunVersions(runs: Runs, k: Key): seq<Record> {
    if runs == [] then [] else Versions(runs[0], k) + RunVersions(runs[1..], k)
  }

  /** The history of `k` from the output on: the input, then what is read below it. */
  function History(job: Job, input: seq<Record>, k: Key): seq<Record> {
    Versions(input, k) + RunVersions(BelowRuns(job), k)
  }

  /** Put and SingleDelete strictly alternate, newest first. */
  ghost predicate AlternatingHistory(vs: seq<Record>) {
    && (forall i | 0 <= i < |vs| :: vs[i].kind != Delete)
    && (forall i, j | 0 <= i < j < |vs| :: vs[i].seqno > vs[j].seqno)
    && (forall i, j | 0 <= i < j < |vs| && j == i + 1 :: vs[i].kind != vs[j].kind)
  }

  lemma AlternatingPart(a: seq<Record>, b: seq<Record>)
    requires AlternatingHistory(a + b)
    ensures AlternatingHistory(a) && AlternatingHistory(b)
    ensures a != [] && b != [] ==> a[|a| - 1].kind != b[0].kind && a[|a| - 1].seqno > b[0].seqno
  {
    var c := a + b;
    assert forall i | 0 <= i < |a| :: a[i] == c[i];
    assert forall i | 0 <= i < |b| :: b[i] == c[i + |a|];
    forall i, j | 0 <= i < j < |b| && j == i + 1
      ensures b[i].kind != b[j].kind
    {
      assert c[i + |a|].kind != c[j + |a|].kind;
    }
    if a != [] && b != [] {
      assert c[|a| - 1].kind != c[|a|].kind;
    }
  }

  lemma AlternatingTail(input: seq<Record>, k: Key)
    requires input != [] && AlternatingHistory(Versions(input, k))
    ensures AlternatingHistory(Versions(input[1..], k))
    ensures input[0].key == k ==> input[0].kind != Delete
    ensures |input| > 1 && input[0].key == k && input[1].key == k ==> input[0].kind != input[1].kind
  {
    var head, rest := if input[0].key == k then [input[0]] else [], Versions(input[1..], k);
    assert Versions(input, k) == head + rest && (|input| > 1 && input[1].key == k ==> rest[0] == input[1]);
    hide Versions;
    AlternatingPart(head, rest);
  }

  /** In a sorted input the versions of a key are neighbours. */
  lemma {:induction false} VersionsNeighbour(input: seq<Record>, k: Key)
    requires AlternatingHistory(Versions(input, k))
    ensures Alternates(input, k)
  {
    if input != [] {
      var rest := input[1..];
      AlternatingTail(input, k);
      VersionsNeighbour(rest, k);
      assert forall i | 1 <= i < |input| :: input[i] == rest[i - 1];
    }
  }

  lemma {:induction false} OldestVersion(input: seq<Record>, k: Key, i: nat)
    requires Sorted(input) && i < |input| && input[i].key == k && (i + 1 == |input| || input[i + 1].key != k)
    ensures var vs := Versions(input, k); vs != [] && vs[|vs| - 1] == input[i]
  {
    var rest := input[1..];
    if i > 0 {
      OldestVersion(rest, k, i - 1);
    } else if rest != [] {
      assert Before(input[0], rest[0]);
      NoVersions(rest, k);
    }
  }

  lemma {:induction false} NoVersions(rs: seq<Record>, k: Key)
    requires Sorted(rs) && (rs != [] ==> k < rs[0].key)
    ensures Versions(rs, k) == []
  {
    if rs != [] {
      if |rs| > 1 {
        assert Before(rs[0], rs[1]);
      }
      NoVersions(rs[1..], k);
    }
  }

  /** A reader that sees the newest version stops at it. */
  lemma {:induction false} LookupNewest(rs: seq<Record>, k: Key, s: nat)
    ensures Versions(rs, k) == [] ==> Lookup(rs, k, s) == None
    ensures Versions(rs, k) != [] && Versions(rs, k)[0].seqno <= s ==> Lookup(rs, k, s) == Some(Versions(rs, k)[0])
  {
    if rs != [] {
      LookupNewest(rs[1..], k, s);
    }
  }

  lemma {:induction false} ReadRunsNewest(runs: Runs, k: Key, s: nat)
    ensures RunVersions(runs, k) == [] ==> ReadRuns(runs, k, s) == None
    ensures RunVersions(runs, k) != [] && RunVersions(runs, k)[0].seqno <= s ==>
              ReadRuns(runs, k, s) == Answer(RunVersions(runs, k)[0])
  {
    if runs != [] {
      LookupNewest(runs[0], k, s);
      ReadRunsNewest(runs[1..], k, s);
    }
  }

  /** An alternating history is what the stream asks of a single-deleted key. */
  lemma AlternatingIsOk(job: Job, input: seq<Record>, k: Key, s: nat)
    requires Sorted(input) && AlternatingHistory(History(job, input, k))
    ensures Alternates(input, k) && (EndsInPut(input, k, s) ==> ReadBelow(job, k, s) == None)
  {
    hide Alternates, AlternatingHistory, Versions, RunVersions, ReadRuns;
    AlternatingPart(Versions(input, k), RunVersions(BelowRuns(job), k));
    VersionsNeighbour(input, k);
    if EndsInPut(input, k, s) {
      var i :| 0 <= i < |input| && Visible(input[i], k, s) && input[i].kind == Put &&
          (i + 1 == |input| || input[i + 1].key != k);
      OldestVersion(input, k, i);
    }
    ReadRunsNewest(BelowRuns(job), k, s);
  }

  /** Keys used with Put and SingleDelete only, strictly in turn, are read the same after compaction at
      every listed snapshot and at the tip. */
  lemma AlternatingKeysPreserved(job: Job, input: seq<Record>, k: Key, s: nat)
    requires JobOk(job) && InputOk(input) && Readable(job.snapshots, s)
    requires AlternatingHistory(History(job, input, k)) && NoClashOf(job, input, k)
    requires DropOk(job, input, k, ReadBelow(job, k, s))
    ensures Preserved(job, input, k, s)
  {
    hide JobOk, DropOk, Preserved, Alternates, AlternatingHistory, History;
    AlternatingIsOk(job, input, k, s);
    CompactionPreservesReads(job, input, k, s);
  }

  // ---------------------------------------------------------------- snapshot zero

  /** A compaction of an ingested file, whose records have number 0, while a snapshot taken before the first
      write is listed: the stream takes the first version of the key for one it has seen, and loses it for
      every reader. */
  lemma SnapshotZeroLosesIngestedKey()
    ensures var job := Job([0], MAX_SEQUENCE, true, false, false, false, 9, 1, [[], [], []], []);
            var input := [Record(3, 0, Put, "v")];
            && JobOk(job) && InputOk(input) && Compacted(job, input) == []
            && !Preserved(job, input, 3, 0) && !Preserved(job, input, 3, MAX_SEQUENCE)
  {
    var job := Job([0], MAX_SEQUENCE, true, false, false, false, 9, 1, [[], [], []], []);
    var input := [Record(3, 0, Put, "v")];
    assert JobOk(job) && InputOk(input);
    assert Emit(job, input, Start) == [] by {
      assert StepOf(job, input, Start).emit == None;
      assert input[1..] == [];
    }
    hide Emit, JobOk, InputOk;
    NothingBelow(job, 0);
    NothingBelow(job, MAX_SEQUENCE);
  }

  lemma NothingBelow(job: Job, s: nat)
    requires job.outputLevel == 1 && job.levels == [[], [], []]
    ensures ReadBelow(job, 3, s) == None
  {
    assert DeepRuns(job.levels, 3) == [] && Flatten([]) == [];
    assert BelowRuns(job) == [[]];
    ReadRunsAbsent([[]], 3, s);
  }

  /** Where tombstones are dropped rightly, a Put/Delete input keeps all reads if and only if snapshot 0 is
      not listed, or no newest version of a key has number 0 and an answer other than the older data. */
  lemma SnapshotZeroIff(job: Job, input: seq<Record>)
    requires JobOk(job) && InputOk(input) && PlainInput(input)
    requires forall k, s | Readable(job.snapshots, s) :: DropOk(job, input, k, ReadBelow(job, k, s))
    ensures (forall k, s | Readable(job.snapshots, s) :: Preserved(job, input, k, s)) <==>
            (0 !in job.snapshots ||
             forall i, s | 0 <= i < |input| && input[i].seqno == 0 && Newest(input, input[i]) &&
                 Readable(job.snapshots, s) ::
               Answer(input[i]) == ReadBelow(job, input[i].key, s))
  {
    hide JobOk, DropOk, Preserved, ReadBelow, Lost, Lookup;
    forall k, s | Readable(job.snapshots, s)
      ensures Preserved(job, input, k, s) <==>
              (0 in job.snapshots ==>
                 forall i | 0 <= i < |input| && input[i].key == k && input[i].seqno == 0 && Newest(input, input[i]) ::
                   Answer(input[i]) == ReadBelow(job, k, s))
    {
      ZeroOf(job, input, k, s);
    }
  }

  lemma ZeroOf(job: Job, input: seq<Record>, k: Key, s: nat)
    requires JobOk(job) && InputOk(input) && PlainInput(input) && Readable(job.snapshots, s)
    requires DropOk(job, input, k, ReadBelow(job, k, s))
    ensures Preserved(job, input, k, s) <==>
            (0 in job.snapshots ==>
               forall i | 0 <= i < |input| && input[i].key == k && input[i].seqno == 0 && Newest(input, input[i]) ::
                 Answer(input[i]) == ReadBelow(job, k, s))
  {
    PutDeleteReadsIff(job, input, k, s);
    LookupIsNewest(input, k, s);
    hide Preserved, ReadBelow, Droppable;
    forall i | 0 <= i < |input| && input[i].key == k && input[i].seqno == 0 && Newest(input, input[i])
      ensures Lookup(input, k, s) == Some(input[i])
    {
      assert Visible(input[i], k, s);
      SameVersion(input, i, Lookup(input, k, s).value);
    }
    if Lookup(input, k, s).Some? {
      var n :| 0 <= n < |input| && input[n] == Lookup(input, k, s).value;
      assert input[n].kind != Put && Droppable(job, input[n]) ==> ReadBelow(job, k, s) == None;
    }
  }

  /** A sorted run has one record per key and number. */
  lemma SameVersion(input: seq<Record>, i: nat, r: Record)
    requires Sorted(input) && i < |input| && r in input && r.key == input[i].key && r.seqno == input[i].seqno
    ensures r == input[i]
  {
    var n :| 0 <= n < |input| && input[n] == r;
    InOrder(input, n, i);
  }

  lemma InOrder(rs: seq<Record>, i: nat, j: nat)
    requires Sorted(rs) && i < |rs| && j < |rs|
    ensures (i < j ==> Before(rs[i], rs[j])) && (j < i ==> Before(rs[j], rs[i]))
  {
  }

  /** The Put at i, the oldest version of its key, is lost: the first version of its key, or a SingleDelete
      precedes it that no positive snapshot separates from it and the reader is snapshot 0. */
  ghost predicate PutClashes(job: Job, input: seq<Record>, i: nat, s: nat)
    requires i < |input|
  {
    || i == 0 || input[i - 1].key != input[i].key
    || (s == 0 && input[i - 1].kind == SingleDelete && Previous(job.snapshots, input[i - 1].seqno, 0) == 0)
  }

  /** The same for a key that alternates Put and SingleDelete, with an oldest Put of number 0 that has a value:
      readers of it notice exactly in these two cases. */
  lemma AlternatingZeroIff(job: Job, input: seq<Record>, k: Key, s: nat, i: nat)
    requires JobOk(job) && InputOk(input) && Readable(job.snapshots, s) && 0 in job.snapshots
    requires AlternatingHistory(History(job, input, k)) && DropOk(job, input, k, ReadBelow(job, k, s))
    requires i < |input| && input[i].key == k && input[i].seqno == 0 && input[i].kind == Put && input[i].value != ""
    ensures Preserved(job, input, k, s) <==> !PutClashes(job, input, i, s)
  {
    assert SnapshotsOk(job);
    hide JobOk, DropOk, AlternatingHistory, History, ReadBelow, BelowRuns;
    AlternatingIsOk(job, input, k, s);
    ZeroIsOldest(input, i);
    assert EndsInPut(input, k, s) by { assert Visible(input[i], k, s); }
    PrepareKeepsReads(job, Emit(job, input, Start), k, s, ReadBelow(job, k, s));
    if !PutClashes(job, input, i, s) {
      ApartUnlessClash(job, input, k, s, i);
      EmitPreservesReads(job, input, Start, k, s, ReadBelow(job, k, s));
    } else if i == 0 || input[i - 1].key != k {
      OnlyVersion(input, i);
      hide Emit, PrepareAll;
      PutDeleteReadsIff(job, input, k, s);
      FoundAt(input, i, s);
    } else {
      FoundAt(input, i, s);
      ClashedPairReads(job, input, Start, i);
    }
  }

  lemma ZeroIsOldest(input: seq<Record>, i: nat)
    requires Sorted(input) && i < |input| && input[i].seqno == 0
    ensures i + 1 == |input| || input[i].key < input[i + 1].key
    ensures forall j | 0 <= j < |input| && input[j].key == input[i].key && input[j].seqno == 0 :: j == i
  {
    assert i + 1 < |input| ==> Before(input[i], input[i + 1]);
    forall j | 0 <= j < |input| && input[j].key == input[i].key && input[j].seqno == 0
      ensures j == i
    {
      InOrder(input, i, j);
    }
  }

  lemma ApartUnlessClash(job: Job, input: seq<Record>, k: Key, s: nat, i: nat)
    requires Sorted(input) && i < |input| && input[i].key == k && input[i].seqno == 0 && !PutClashes(job, input, i, s)
    ensures ClashApart(job, input, Start, k, s)
  {
    ZeroIsOldest(input, i);
  }

  lemma OnlyVersion(input: seq<Record>, i: nat)
    requires Sorted(input) && i < |input| && input[i].seqno == 0 && input[i].kind == Put
    requires (i == 0 || input[i - 1].key != input[i].key)
    ensures NoSingleDelete(input, input[i].key) && Newest(input, input[i])
  {
    forall j | 0 <= j < |input| && input[j].key == input[i].key
      ensures j == i
    {
      InOrder(input, i, j);
      if i > 0 {
        InOrder(input, i - 1, i);
        InOrder(input, i - 1, j);
      }
    }
  }

  /** A record with number 0 is what its oldest readers stop at. */
  lemma FoundAt(input: seq<Record>, i: nat, s: nat)
    requires Sorted(input) && i < |input| && input[i].seqno == 0
    requires (s == 0 || i == 0 || input[i - 1].key != input[i].key)
    ensures Lookup(input, input[i].key, s) == Some(input[i])
  {
    var k := input[i].key;
    LookupIsNewest(input, k, s);
    assert Visible(input[i], k, s);
    var r := Lookup(input, k, s).value;
    var n :| 0 <= n < |input| && input[n] == r;
    InOrder(input, i, n);
    if i > 0 {
      InOrder(input, i - 1, i);
      InOrder(input, i - 1, n);
    }
    SameVersion(input, i, r);
  }

  lemma PairStep(job: Job, input: seq<Record>, st: State, i: nat)
    requires InputOk(input) && StateFits(job, input, st)
    requires 0 < i < |input| && input[i].seqno == 0 && input[i].kind == Put && input[i - 1].key == input[i].key
    requires input[i - 1].kind == SingleDelete && Previous(job.snapshots, input[i - 1].seqno, 0) == 0
    ensures var step := StepOf(job, input, st);
            && (input[0].key == input[i].key ==> input[0].seqno > 0)
            && (i == 1 && step.consumed == 1 ==> step.next.clear)
  {
    assert Before(input[i - 1], input[i]) && (i > 1 ==> Before(input[0], input[i - 1]));
  }

  /** The pair vanishes, or the Put comes out without its value. */
  lemma {:induction false} ClashedPairReads(job: Job, input: seq<Record>, st: State, i: nat)
    requires JobOk(job) && InputOk(input) && StateFits(job, input, st) && 0 in job.snapshots
    requires 0 < i < |input| && input[i].seqno == 0 && input[i].kind == Put && input[i - 1].key == input[i].key
    requires input[i - 1].kind == SingleDelete && Previous(job.snapshots, input[i - 1].seqno, 0) == 0
    ensures ReadOver(Emit(job, input, st), input[i].key, 0, None) in {None, Some("")}
    decreases |input|
  {
    var step := StepOf(job, input, st);
    var rest := input[step.consumed..];
    var k := input[i].key;
    assert forall j | 0 <= j < |rest| :: rest[j] == input[j + step.consumed];
    assert Emit(job, input, st) == Opt(step.emit) + Emit(job, rest, step.next);
    hide Emit;
    PairStep(job, input, st, i);
    StepKey(job, input, st);
    StepKeepsFit(job, input, st);
    hide StepOf, StateFits, JobOk, Sorted, Stripe, Previous;
    ReadCons(step.emit, Emit(job, rest, step.next), k, 0, None);
    if step.consumed < i {
      ClashedPairReads(job, rest, step.next, i - step.consumed);
    } else if step.consumed == i + 1 {
      ZeroIsOldest(input, i);
      EmitSkips(job, rest, step.next, k, 0);
    } else {
      ClearedReads(job, rest, step.next, k);
    }
  }

  lemma ClearedReads(job: Job, input: seq<Record>, st: State, k: Key)
    requires input != [] && input[0].key == k && input[0].seqno == 0 && input[0].kind == Put && st.clear
    ensures ReadOver(Emit(job, input, st), k, 0, None) == Some("")
  {
    ReadCons(StepOf(job, input, st).emit, Emit(job, input[1..], StepOf(job, input, st).next), k, 0, None);
  }

  // ---------------------------------------------------------------- tombstones and older L0 files

  /** The input is newer than the older data, key by key. */
  ghost predicate Newer(job: Job, input: seq<Record>) {
    forall i, j | 0 <= i < |input| && 0 <= j < |RunVersions(BelowRuns(job), input[i].key)| ::
      RunVersions(BelowRuns(job), input[i].key)[j].seqno < input[i].seqno
  }

  /** A key whose tombstone this job would drop although an older Put of it stays behind: no deeper
      level covers the key, all its older versions are below the earliest snapshot, and the newest
      of them is a Put. */
  ghost predicate Resurrects(job: Job, k: Key) {
    var older := RunVersions(BelowRuns(job), k);
    NotBeyond(job, k) && older != [] && older[0].kind == Put &&
    forall i | 0 <= i < |older| :: older[i].seqno < Earliest(job.snapshots)
  }

  /** Put/Delete inputs keep all reads under a leveled job exactly when no key resurrects. */
  lemma DroppedTombstonesSafeIff(job: Job)
    requires JobOk(job) && job.attached && !job.universal
    ensures (forall k :: !Resurrects(job, k)) <==>
            forall input, k, s |
              && InputOk(input) && Newer(job, input) && Readable(job.snapshots, s)
              && NoSingleDelete(input, k) && NoClashOf(job, input, k) ::
              Preserved(job, input, k, s)
  {
    forall k | Resurrects(job, k)
      ensures exists input, s :: InputOk(input) && Newer(job, input) && Readable(job.snapshots, s)
                              && NoSingleDelete(input, k) && NoClashOf(job, input, k) && !Preserved(job, input, k, s)
    {
      var q := Earliest(job.snapshots);
      var input := [Record(k, q, Delete, "")];
      assert StepOf(job, input, Start).emit == None;
      assert input[1..] == [];
      assert Emit(job, input, Start) == [];
      ReadRunsNewest(BelowRuns(job), k, q);
      assert InputOk(input) && Newer(job, input) && Readable(job.snapshots, q) && NoSingleDelete(input, k);
      assert NoClashOf(job, input, k);
      assert !Preserved(job, input, k, q);
    }
    if forall k :: !Resurrects(job, k) {
      forall input, k, s |
        && InputOk(input) && Newer(job, input) && Readable(job.snapshots, s)
        && NoSingleDelete(input, k) && NoClashOf(job, input, k)
        ensures Preserved(job, input, k, s)
      {
        DropOkUnlessResurrects(job, input, k, s);
        CompactionPreservesReads(job, input, k, s);
      }
    }
  }

  lemma DropOkUnlessResurrects(job: Job, input: seq<Record>, k: Key, s: nat)
    requires JobOk(job) && Newer(job, input) && Readable(job.snapshots, s) && !Resurrects(job, k)
    ensures DropOk(job, input, k, ReadBelow(job, k, s))
  {
    var older := RunVersions(BelowRuns(job), k);
    EarliestIsLeast(job.snapshots, s);
    if i :| 0 <= i < |input| && input[i].key == k && input[i].kind != Put && Droppable(job, input[i]) {
      assert forall j | 0 <= j < |older| :: older[j].seqno < input[i].seqno;
      ReadRunsNewest(BelowRuns(job), k, s);
    }
  }

  /** A leveled job that writes below level 0, or has the key in none of the older level-0 files, does not
      resurrect it. */
  lemma NoOlderL0NoResurrection(job: Job, k: Key)
    requires JobOk(job) && !job.universal && NoOlderL0(job, k)
    ensures !Resurrects(job, k)
  {
    if Resurrects(job, k) {
      NotBeyondMeansAbsent(job, k, 0);
      RunVersionsAbsent(BelowRuns(job), k);
    }
  }

  /** So every Put/Delete key reads the same at every listed snapshot and at the tip, whatever the
      snapshots and the deeper levels are. */
  lemma PutDeleteReadsPreserved(job: Job, input: seq<Record>, k: Key, s: nat)
    requires JobOk(job) && InputOk(input) && Readable(job.snapshots, s)
    requires NotBeyondIsTrue(job, k) && NoOlderL0(job, k) && NoSingleDelete(input, k) && NoClashOf(job, input, k)
    ensures Preserved(job, input, k, s)
  {
    DropOkWithoutOlderL0(job, input, k, s);
    CompactionPreservesReads(job, input, k, s);
  }

  /** And so does every key whose history alternates Put and SingleDelete. */
  lemma SingleDeleteReadsPreserved(job: Job, input: seq<Record>, k: Key, s: nat)
    requires JobOk(job) && InputOk(input) && Readable(job.snapshots, s)
    requires NotBeyondIsTrue(job, k) && NoOlderL0(job, k) && NoClashOf(job, input, k)
    requires AlternatingHistory(History(job, input, k))
    ensures Preserved(job, input, k, s)
  {
    DropOkWithoutOlderL0(job, input, k, s);
    AlternatingKeysPreserved(job, input, k, s);
  }

  lemma {:induction false} RunVersionsAbsent(runs: Runs, k: Key)
    requires !KeyInRuns(runs, k)
    ensures RunVersions(runs, k) == []
  {
    if runs != [] {
      assert forall i | 1 <= i < |runs| :: runs[i] == runs[1..][i - 1];
      VersionsAbsent(runs[0], k);
      RunVersionsAbsent(runs[1..], k);
    }
  }

  lemma {:induction false} VersionsAbsent(rs: seq<Record>, k: Key)
    requires forall i | 0 <= i < |rs| :: rs[i].key != k
    ensures Versions(rs, k) == []
  {
    if rs != [] {
      VersionsAbsent(rs[1..], k);
    }
  }

  /** An intra-L0 compaction (output level 0) of the newest L0 file, a tombstone, above an older L0
      file with the Put it deletes: the tombstone is dropped and the deleted value is back. */
  lemma IntraL0ResurrectsDeletedKey()
    ensures var job := Job([], MAX_SEQUENCE, true, false, false, false, 9, 0, [[]], [[Record(5, 1, Put, "old")]]);
            var input := [Record(5, 2, Delete, "")];
            && JobOk(job) && InputOk(input) && Newer(job, input) && Resurrects(job, 5)
            && ReadOver(input, 5, MAX_SEQUENCE, ReadBelow(job, 5, MAX_SEQUENCE)) == None
            && ReadOver(Compacted(job, input), 5, MAX_SEQUENCE, ReadBelow(job, 5, MAX_SEQUENCE)) == Some("old")
  {
    var older := [Record(5, 1, Put, "old")];
    var job := Job([], MAX_SEQUENCE, true, false, false, false, 9, 0, [[]], [older]);
    var input := [Record(5, 2, Delete, "")];
    assert BelowRuns(job) == [older];
    var runs: Runs := [older];
    assert older[1..] == [] && runs[1..] == [] && input[1..] == [];
    assert Versions(older, 5) == older;
    assert RunVersions(runs, 5) == older;
    assert ReadRuns(runs, 5, MAX_SEQUENCE) == Some("old");
    assert StepOf(job, input, Start).emit == None;
    assert Emit(job, input, Start) == [];
  }
}
