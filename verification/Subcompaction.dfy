/** Splitting one compaction into key ranges (CompactionJob::GenSubcompactionBoundaries, Prepare and
    the range-bounded loop of ProcessKeyValueCompaction). */
module Subcompaction {
  import opened Common
  import opened Records
  import opened CompactionStream
  import opened CompactionReads
  import opened CompactionTheorems
  import opened CompactionIterator

  // ---------------------------------------------------------------- one range

  predicate AtLeast(k: Key, start: Option<Key>) {
    start.Some? ==> start.value <= k
  }

  predicate Under(k: Key, end: Option<Key>) {
    end.Some? ==> k < end.value
  }

  /** Seek(): the input from its first record whose user key is not before `start`. */
  function From(input: seq<Record>, start: Option<Key>): seq<Record> {
    if input == [] || AtLeast(input[0].key, start) then input else From(input[1..], start)
  }

  /** What is emitted before the first record at or past `end`. */
  function TakeUnder(out: seq<Record>, end: Option<Key>): seq<Record> {
    if out == [] || !Under(out[0].key, end) then [] else [out[0]] + TakeUnder(out[1..], end)
  }

  /** The input records of a range. */
  function Slice(input: seq<Record>, start: Option<Key>, end: Option<Key>): seq<Record> {
    TakeUnder(From(input, start), end)
  }

  /** One subcompaction: an iterator over the input from `start`, stopped at `end`. */
  method ProcessKeyValueCompaction(job: Job, input: seq<Record>, start: Option<Key>, end: Option<Key>)
    returns (out: seq<Record>)
    requires JobOk(job) && InputOk(input)
    ensures out == TakeUnder(Compacted(job, From(input, start)), end)
  {
    hide JobOk, InputOk, StateFits, CursorOk, Emit, PrepareAll, From, TakeUnder;
    var rest := From(input, start);
    FromOk(input, start);
    var iter := new Iterator(job, rest);
    iter.SeekToFirst();
    out := [];
    ghost var todo := iter.Remaining();
    while iter.valid
      invariant fresh(iter) && fresh(iter.levelPtrs) && iter.Valid() && iter.started && todo == iter.Remaining()
      invariant out + TakeUnder(todo, end) == TakeUnder(Compacted(job, rest), end)
      decreases |todo|
    {
      assert todo[0] == iter.current;
      TakeUnderFirst(out, todo, end);
      if end.Some? && iter.current.key >= end.value {
        break;
      }
      out := out + [iter.current];
      iter.Next();
      todo := todo[1..];
    }
    TakeUnderFirst(out, todo, end);
  }

  lemma TakeUnderFirst(out: seq<Record>, todo: seq<Record>, end: Option<Key>)
    ensures todo == [] || !Under(todo[0].key, end) ==> TakeUnder(todo, end) == []
    ensures todo != [] && Under(todo[0].key, end) ==>
              out + [todo[0]] + TakeUnder(todo[1..], end) == out + TakeUnder(todo, end)
  {
  }

  lemma {:induction false} FromOk(input: seq<Record>, start: Option<Key>)
    requires InputOk(input)
    ensures InputOk(From(input, start))
  {
    if input != [] && !AtLeast(input[0].key, start) {
      SuffixOk(input, 1);
      FromOk(input[1..], start);
    }
  }

  lemma SuffixOk(input: seq<Record>, n: nat)
    requires InputOk(input) && n <= |input|
    ensures InputOk(input[n..])
  {
    assert forall i | 0 <= i < |input[n..]| :: input[n..][i] == input[i + n];
  }

  // ---------------------------------------------------------------- cutting the stream between keys

  ghost predicate KeysApart(a: seq<Record>, b: seq<Record>) {
    forall i, j | 0 <= i < |a| && 0 <= j < |b| :: a[i].key < b[j].key
  }

  /** The iterator's state after consuming `a` when more input of another key follows. */
  ghost function StateAfter(job: Job, a: seq<Record>, st: State): State
    decreases |a|
  {
    if a == [] then st else var step := StepOf(job, a, st); StateAfter(job, a[step.consumed..], step.next)
  }

  lemma StepIgnoresOtherKeys(job: Job, a: seq<Record>, b: seq<Record>, st: State)
    requires a != [] && KeysApart(a, b)
    ensures StepOf(job, a + b, st) == StepOf(job, a, st)
  {
    if |a| > 1 {
      assert (a + b)[1] == a[1];
    } else if b != [] {
      assert (a + b)[1] == b[0];
    }
  }

  /** Between two user keys the stream can be cut. */
  lemma {:induction false} EmitSplits(job: Job, a: seq<Record>, b: seq<Record>, st: State)
    requires KeysApart(a, b)
    ensures Emit(job, a + b, st) == Emit(job, a, st) + Emit(job, b, StateAfter(job, a, st))
    decreases |a|
  {
    if a == [] {
      assert a + b == b;
    } else {
      var step := StepOf(job, a, st);
      StepIgnoresOtherKeys(job, a, b, st);
      hide StepOf;
      var rest := a[step.consumed..];
      assert (a + b)[step.consumed..] == rest + b;
      assert KeysApart(rest, b);
      hide KeysApart;
      EmitSplits(job, rest, b, step.next);
    }
  }

  // ---------------------------------------------------------------- ranges and slices

  lemma {:induction false} TakeUnderSplits(out: seq<Record>, end: Option<Key>)
    requires Sorted(out)
    ensures var n := |TakeUnder(out, end)|;
            && n <= |out| && TakeUnder(out, end) == out[..n]
            && (forall i | 0 <= i < n :: Under(out[i].key, end))
            && (forall i | n <= i < |out| :: !Under(out[i].key, end))
  {
    if out != [] {
      var rest := out[1..];
      assert forall i | 0 <= i < |rest| :: rest[i] == out[i + 1];
      TakeUnderSplits(rest, end);
      if !Under(out[0].key, end) {
        forall i | 0 < i < |out| ensures !Under(out[i].key, end) {
          assert Before(out[0], out[i]);
        }
      } else {
        forall i | 1 <= i < |out| ensures Under(out[i].key, end) <==> i - 1 < |TakeUnder(rest, end)| {
          assert out[i] == rest[i - 1];
        }
      }
    }
  }

  /** Cutting a longer run at `end` leaves the part before it. */
  lemma {:induction false} TakeUnderOfConcat(a: seq<Record>, b: seq<Record>, end: Option<Key>)
    requires forall i | 0 <= i < |a| :: Under(a[i].key, end)
    requires b != [] ==> !Under(b[0].key, end)
    ensures TakeUnder(a + b, end) == a
    decreases |a|
  {
    if a == [] {
      assert a + b == b;
    } else {
      assert (a + b)[1..] == a[1..] + b;
      assert forall i | 0 <= i < |a[1..]| :: a[1..][i] == a[i + 1];
      TakeUnderOfConcat(a[1..], b, end);
    }
  }

  /** The input from `start` falls apart into the slice of the range and what lies past `end`. */
  lemma SliceApart(input: seq<Record>, start: Option<Key>, end: Option<Key>) returns (tail: seq<Record>)
    requires InputOk(input)
    ensures var a := Slice(input, start, end);
            && From(input, start) == a + tail && InputOk(a) && InputOk(tail) && KeysApart(a, tail)
            && (forall i | 0 <= i < |a| :: Under(a[i].key, end))
            && (forall i | 0 <= i < |tail| :: !Under(tail[i].key, end))
  {
    hide Sorted, InRange, From, TakeUnder;
    var rest := From(input, start);
    FromOk(input, start);
    TakeUnderSplits(rest, end);
    var n := |Slice(input, start, end)|;
    tail := rest[n..];
    PrefixOk(rest, n);
    SuffixOk(rest, n);
  }

  lemma EmitUnder(job: Job, input: seq<Record>, st: State, end: Option<Key>)
    ensures (forall i | 0 <= i < |input| :: Under(input[i].key, end)) ==>
              forall i | 0 <= i < |Emit(job, input, st)| :: Under(Emit(job, input, st)[i].key, end)
    ensures (forall i | 0 <= i < |input| :: !Under(input[i].key, end)) ==>
              forall i | 0 <= i < |Emit(job, input, st)| :: !Under(Emit(job, input, st)[i].key, end)
  {
    hide Emit;
    EmitKeysFromInput(job, input, st);
    var out := Emit(job, input, st);
    forall i | 0 <= i < |out|
      ensures exists j | 0 <= j < |input| :: input[j].key == out[i].key
    {
      assert out[i] in out;
    }
  }

  /** A subcompaction writes exactly what a compaction of its slice of the input writes. */
  lemma RangeIsCompactedSlice(job: Job, input: seq<Record>, start: Option<Key>, end: Option<Key>)
    requires InputOk(input)
    ensures TakeUnder(Compacted(job, From(input, start)), end) == Compacted(job, Slice(input, start, end))
  {
    hide InputOk, KeysApart, Emit, Slice, From, StateAfter;
    var a := Slice(input, start, end);
    var b := SliceApart(input, start, end);
    EmitSplits(job, a, b, Start);
    var out, tail := Emit(job, a, Start), Emit(job, b, StateAfter(job, a, Start));
    EmitUnder(job, a, Start, end);
    EmitUnder(job, b, StateAfter(job, a, Start), end);
    assert PrepareAll(job, out + tail) == PrepareAll(job, out) + PrepareAll(job, tail);
    TakeUnderOfConcat(PrepareAll(job, out), PrepareAll(job, tail), end);
  }

  lemma PrefixOk(input: seq<Record>, n: nat)
    requires InputOk(input) && n <= |input|
    ensures InputOk(input[..n])
  {
  }

  // ---------------------------------------------------------------- all ranges

  ghost predicate Increasing(b: seq<Key>) {
    forall i, j | 0 <= i < j < |b| :: b[i] < b[j]
  }

  ghost predicate StartsBefore(start: Option<Key>, b: seq<Key>) {
    Increasing(b) && (start.Some? && b != [] ==> start.value < b[0])
  }

  /** The outputs of all subcompactions from `start` on, in order; ranges are cut at the boundaries. */
  ghost function AllRanges(job: Job, input: seq<Record>, start: Option<Key>, b: seq<Key>): seq<Record>
    decreases |b|
  {
    if b == [] then TakeUnder(Compacted(job, From(input, start)), None)
    else TakeUnder(Compacted(job, From(input, start)), Some(b[0])) + AllRanges(job, input, Some(b[0]), b[1..])
  }

  lemma {:induction false} TakeAll(out: seq<Record>)
    ensures TakeUnder(out, None) == out
  {
    if out != [] {
      TakeAll(out[1..]);
    }
  }

  lemma {:induction false} UnderThenFrom(input: seq<Record>, b: Key)
    ensures input == TakeUnder(input, Some(b)) + From(input, Some(b))
  {
    if input != [] && input[0].key < b {
      UnderThenFrom(input[1..], b);
      assert input == [input[0]] + input[1..];
    }
  }

  lemma {:induction false} FromFrom(input: seq<Record>, start: Option<Key>, b: Key)
    requires start.Some? ==> start.value < b
    ensures From(From(input, start), Some(b)) == From(input, Some(b))
  {
    if input != [] && !AtLeast(input[0].key, start) {
      FromFrom(input[1..], start, b);
    }
  }

  /** Every record, with all versions of its key, is in exactly one of two neighbouring ranges. */
  lemma FromSplits(input: seq<Record>, start: Option<Key>, b: Key)
    requires InputOk(input) && (start.Some? ==> start.value < b)
    ensures From(input, start) == Slice(input, start, Some(b)) + From(input, Some(b))
  {
    hide From, TakeUnder, Sorted, InRange;
    FromOk(input, start);
    UnderThenFrom(From(input, start), b);
    FromFrom(input, start, b);
  }

  // ---------------------------------------------------------------- reads across all ranges

  lemma {:induction false} LookupConcat(a: seq<Record>, b: seq<Record>, k: Key, s: nat)
    ensures Lookup(a + b, k, s) == if Lookup(a, k, s).Some? then Lookup(a, k, s) else Lookup(b, k, s)
  {
    if a == [] {
      assert a + b == b;
    } else {
      assert (a + b)[1..] == a[1..] + b;
      LookupConcat(a[1..], b, k, s);
    }
  }

  ghost predicate AllAtLeast(rs: seq<Record>, b: Key) {
    forall i | 0 <= i < |rs| :: b <= rs[i].key
  }

  lemma {:induction false} FromAtLeast(input: seq<Record>, b: Key)
    requires Sorted(input)
    ensures AllAtLeast(From(input, Some(b)), b)
  {
    if input != [] {
      if AtLeast(input[0].key, Some(b)) {
        forall i | 0 < i < |input| ensures b <= input[i].key {
          assert Before(input[0], input[i]);
        }
      } else {
        SuffixSorted(input);
        FromAtLeast(input[1..], b);
      }
    }
  }

  lemma SuffixSorted(input: seq<Record>)
    requires Sorted(input) && input != []
    ensures Sorted(input[1..]) && (|input| > 1 ==> input[0].key <= input[1].key)
  {
    assert |input| > 1 ==> Before(input[0], input[1]);
    assert forall i | 0 <= i < |input[1..]| :: input[1..][i] == input[i + 1];
  }

  lemma {:induction false} AllRangesAtLeast(job: Job, input: seq<Record>, start: Key, b: seq<Key>)
    requires InputOk(input) && StartsBefore(Some(start), b)
    ensures AllAtLeast(AllRanges(job, input, Some(start), b), start)
    decreases |b|
  {
    hide Emit, From;
    var rest := From(input, Some(start));
    FromAtLeast(input, start);
    CompactedAtLeast(job, rest, start);
    if b == [] {
      TakeAll(Compacted(job, rest));
    } else {
      TakeUnderAtLeast(Compacted(job, rest), Some(b[0]), start);
      assert forall i | 0 <= i < |b[1..]| :: b[1..][i] == b[i + 1];
      AllRangesAtLeast(job, input, b[0], b[1..]);
    }
  }

  lemma {:induction false} TakeUnderAtLeast(out: seq<Record>, end: Option<Key>, start: Key)
    requires AllAtLeast(out, start)
    ensures AllAtLeast(TakeUnder(out, end), start)
  {
    if out != [] {
      assert forall i | 0 <= i < |out[1..]| :: out[1..][i] == out[i + 1];
      TakeUnderAtLeast(out[1..], end, start);
    }
  }

  lemma CompactedAtLeast(job: Job, input: seq<Record>, b: Key)
    requires AllAtLeast(input, b)
    ensures AllAtLeast(Compacted(job, input), b)
  {
    hide Emit;
    EmitKeysFromInput(job, input, Start);
    var out := Emit(job, input, Start);
    forall i | 0 <= i < |out|
      ensures b <= out[i].key
    {
      assert out[i] in out;
    }
  }

  lemma HistoryPrefix(a: seq<Record>, tail: seq<Record>, k: Key, s: nat, below: Option<string>)
    requires KeyHistoryOk(a + tail, k, s, below) && forall i | 0 <= i < |tail| :: tail[i].key != k
    ensures KeyHistoryOk(a, k, s, below)
  {
    var all := a + tail;
    assert forall i | 0 <= i < |a| :: a[i] == all[i];
    if EndsInPut(a, k, s) {
      var i :| 0 <= i < |a| && Visible(a[i], k, s) && a[i].kind == Put && (i + 1 == |a| || a[i + 1].key != k);
      assert Visible(all[i], k, s) && (i + 1 == |all| || all[i + 1].key != k);
    }
    if Alternates(all, k) {
      assert Alternates(a, k) by {
        forall i, j | 0 <= i < j < |a| && j == i + 1 && a[i].key == k && a[j].key == k
          ensures a[i].kind != a[j].kind
        {
          assert all[i].kind != all[j].kind;
        }
      }
    }
  }

  lemma {:induction false} FromNoClash(job: Job, input: seq<Record>, start: Option<Key>, k: Key)
    requires NoClashOf(job, input, k)
    ensures NoClashOf(job, From(input, start), k)
  {
    if input != [] && !AtLeast(input[0].key, start) {
      assert forall i | 0 <= i < |input[1..]| :: input[1..][i] == input[i + 1];
      FromNoClash(job, input[1..], start, k);
    }
  }

  /** Single-deletes included: however the job is split, the concatenated outputs answer every
      listed snapshot and the tip as the input does. (The outputs themselves may differ from the
      unsplit one: the first key of each range annihilates less.) */
  lemma {:induction false} SubcompactionsPreserveReads(job: Job, input: seq<Record>, start: Option<Key>, b: seq<Key>,
                                                       k: Key, s: nat)
    requires JobOk(job) && InputOk(input) && Readable(job.snapshots, s) && StartsBefore(start, b)
    requires AtLeast(k, start)
    requires KeyHistoryOk(From(input, start), k, s, ReadBelow(job, k, s)) && NoClashOf(job, input, k)
    requires DropOk(job, From(input, start), k, ReadBelow(job, k, s))
    ensures ReadOver(AllRanges(job, input, start, b), k, s, ReadBelow(job, k, s)) ==
            ReadOver(From(input, start), k, s, ReadBelow(job, k, s))
    decreases |b|
  {
    hide JobOk, InputOk, Emit, From, DropOk, KeyHistoryOk, NoClashOf;
    FromNoClash(job, input, start, k);
    var below, rest := ReadBelow(job, k, s), From(input, start);
    FromOk(input, start);
    if b == [] {
      TakeAll(Compacted(job, rest));
      CompactionPreservesReads(job, rest, k, s);
    } else {
      CutReads(job, input, start, b[0], k, s);
      var a, tail := Slice(input, start, Some(b[0])), From(input, Some(b[0]));
      var more := AllRanges(job, input, Some(b[0]), b[1..]);
      LookupConcat(a, tail, k, s);
      LookupConcat(Compacted(job, a), more, k, s);
      RangeIsCompactedSlice(job, input, start, Some(b[0]));
      assert forall i | 0 <= i < |b[1..]| :: b[1..][i] == b[i + 1];
      if k < b[0] {
        AllRangesAtLeast(job, input, b[0], b[1..]);
        LookupAbsent(more, k, s);
      } else {
        SubcompactionsPreserveReads(job, input, Some(b[0]), b[1..], k, s);
      }
    }
  }

  /** The two sides of one cut, as a reader of `k` sees them. */
  lemma CutReads(job: Job, input: seq<Record>, start: Option<Key>, b: Key, k: Key, s: nat)
    requires JobOk(job) && InputOk(input) && Readable(job.snapshots, s)
    requires (start.Some? ==> start.value < b) && AtLeast(k, start)
    requires KeyHistoryOk(From(input, start), k, s, ReadBelow(job, k, s)) && NoClashOf(job, input, k)
    requires DropOk(job, From(input, start), k, ReadBelow(job, k, s))
    ensures var a, tail := Slice(input, start, Some(b)), From(input, Some(b)); var below := ReadBelow(job, k, s);
            && From(input, start) == a + tail
            && (k < b ==> (
                  && Lookup(tail, k, s) == None
                  && ReadOver(Compacted(job, a), k, s, below) == ReadOver(a, k, s, below)))
            && (k >= b ==> (
                  && Lookup(a, k, s) == None && Lookup(Compacted(job, a), k, s) == None
                  && KeyHistoryOk(tail, k, s, below) && DropOk(job, tail, k, below)))
  {
    hide JobOk, Emit, From, DropOk, KeyHistoryOk, Sorted, InRange;
    FromNoClash(job, input, start, k);
    var a, tail, below := Slice(input, start, Some(b)), From(input, Some(b)), ReadBelow(job, k, s);
    var tail' := SliceApart(input, start, Some(b));
    FromSplits(input, start, b);
    assert (a + tail)[|a|..] == tail && (a + tail')[|a|..] == tail';
    if k < b {
      LookupAbsent(tail, k, s);
      HistoryPrefix(a, tail, k, s, below);
      DropOkPrefix(job, a, tail, k, below);
      assert forall i | 0 <= i < |a| :: a[i] == (a + tail)[i];
      CompactionPreservesReads(job, a, k, s);
    } else {
      LookupAbsent(a, k, s);
      EmitUnder(job, a, Start, Some(b));
      LookupAbsent(Compacted(job, a), k, s);
      HistorySuffix(a + tail, |a|, k, s, below);
      DropOkSuffix(job, a + tail, |a|, k, below);
    }
  }

  lemma DropOkPrefix(job: Job, a: seq<Record>, tail: seq<Record>, k: Key, below: Option<string>)
    requires DropOk(job, a + tail, k, below)
    ensures DropOk(job, a, k, below)
  {
    assert forall i | 0 <= i < |a| :: a[i] == (a + tail)[i];
  }
}
