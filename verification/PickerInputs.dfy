/** How a compaction's inputs are completed: SetupOtherInputs() adds the files of the output level and may
    then grow the start level, by either of two ways, without needing more output-level files. */
module PickerInputs {
  import opened Common
  import opened LevelFiles

  function Smallest(fs: seq<File>): Key
    requires fs != []
  {
    if |fs| == 1 then fs[0].smallest else Min(Smallest(fs[..|fs| - 1]), fs[|fs| - 1].smallest)
  }

  function Largest(fs: seq<File>): Key
    requires fs != []
  {
    if |fs| == 1 then fs[0].largest else Max(Largest(fs[..|fs| - 1]), fs[|fs| - 1].largest)
  }

  lemma {:induction false} HullCovers(fs: seq<File>, f: File)
    requires f in fs
    ensures Smallest(fs) <= f.smallest && f.largest <= Largest(fs)
  {
    var n := |fs| - 1;
    if n > 0 && f in fs[..n] {
      HullCovers(fs[..n], f);
    } else {
      assert f == fs[n];
    }
  }

  /** A larger set of files has a wider hull. */
  lemma {:induction false} HullGrows(fs: seq<File>, gs: seq<File>)
    requires fs != [] && gs != [] && forall f | f in fs :: f in gs
    ensures Smallest(gs) <= Smallest(fs) && Largest(fs) <= Largest(gs)
  {
    var n := |fs| - 1;
    assert fs[n] in fs;
    HullCovers(gs, fs[n]);
    if n > 0 {
      assert forall f | f in fs[..n] :: f in fs;
      HullGrows(fs[..n], gs);
    }
  }

  lemma {:induction false} HullConcat(fs: seq<File>, gs: seq<File>)
    requires fs != []
    ensures gs != [] ==>
              Smallest(fs + gs) == Min(Smallest(fs), Smallest(gs)) && Largest(fs + gs) == Max(Largest(fs), Largest(gs))
    ensures gs == [] ==> Smallest(fs + gs) == Smallest(fs) && Largest(fs + gs) == Largest(fs)
    decreases |gs|
  {
    if gs == [] {
      assert fs + gs == fs;
    } else {
      var n := |gs| - 1;
      assert (fs + gs)[..|fs + gs| - 1] == fs + gs[..n];
      HullConcat(fs, gs[..n]);
    }
  }

  lemma {:induction false} HullOrdered(fs: seq<File>)
    requires fs != [] && FilesOk(fs)
    ensures Smallest(fs) <= Largest(fs)
  {
    if |fs| > 1 {
      HullOrdered(fs[..|fs| - 1]);
    }
  }

  /** On a sorted run the hull is given by its ends. */
  lemma {:induction false} SortedHull(files: seq<File>, i: nat, j: nat)
    requires LevelOk(files) && i < j <= |files|
    ensures Smallest(files[i..j]) == files[i].smallest && Largest(files[i..j]) == files[j - 1].largest
  {
    var run := files[i..j];
    if i + 1 < j {
      SortedHull(files, i, j - 1);
      assert run[..|run| - 1] == files[i..j - 1];
      assert files[i].largest <= files[j - 1].smallest;
      assert files[j - 2].largest <= files[j - 1].smallest;
    }
  }

  /** GetRange() of one level: first and last file of a sorted level, all files of level 0. */
  method GetRange(level: nat, inputs: seq<File>) returns (lo: Key, hi: Key)
    requires inputs != [] && (level > 0 ==> LevelOk(inputs))
    ensures lo == Smallest(inputs) && hi == Largest(inputs)
  {
    if level > 0 {
      SortedHull(inputs, 0, |inputs|);
      assert inputs[0..|inputs|] == inputs;
      return inputs[0].smallest, inputs[|inputs| - 1].largest;
    }
    lo, hi := inputs[0].smallest, inputs[0].largest;
    var i := 1;
    while i < |inputs|
      invariant 1 <= i <= |inputs| && lo == Smallest(inputs[..i]) && hi == Largest(inputs[..i])
    {
      assert inputs[..i + 1][..i] == inputs[..i];
      if inputs[i].smallest < lo {
        lo := inputs[i].smallest;
      }
      if inputs[i].largest > hi {
        hi := inputs[i].largest;
      }
      i := i + 1;
    }
    assert inputs[..i] == inputs;
  }

  function TotalSize(fs: seq<File>): nat {
    if fs == [] then 0 else TotalSize(fs[..|fs| - 1]) + fs[|fs| - 1].size
  }

  /** TotalCompensatedFileSize(). */
  method TotalCompensatedFileSize(fs: seq<File>) returns (sum: nat)
    ensures sum == TotalSize(fs)
  {
    sum := 0;
    var i := 0;
    while i < |fs|
      invariant 0 <= i <= |fs| && sum == TotalSize(fs[..i])
    {
      assert fs[..i + 1][..i] == fs[..i];
      sum := sum + fs[i].size;
      i := i + 1;
    }
    assert fs[..i] == fs;
  }

  // ---------------------------------------------------------------- completeness of the output level

  /** Every output-level file with a key in [lo, hi] is among the outputs. */
  ghost predicate Complete(outFiles: seq<File>, outputs: seq<File>, lo: Key, hi: Key) {
    forall f | f in outFiles && Overlaps(f, lo, hi) :: f in outputs
  }

  lemma CompleteNarrower(outFiles: seq<File>, outputs: seq<File>, lo: Key, hi: Key, lo': Key, hi': Key)
    requires Complete(outFiles, outputs, lo, hi) && lo <= lo' && hi' <= hi
    ensures Complete(outFiles, outputs, lo', hi')
  {
  }

  /** A clean cut around the overlapping files is complete. */
  lemma CutIsComplete(outFiles: seq<File>, lo: Key, hi: Key, p: nat, q: nat, a: nat, b: nat)
    requires ExactRange(outFiles, lo, hi, p, q) && a <= p && q <= b <= |outFiles|
    ensures Complete(outFiles, outFiles[a..b], lo, hi)
  {
    forall f | f in outFiles && Overlaps(f, lo, hi)
      ensures f in outFiles[a..b]
    {
      var k :| 0 <= k < |outFiles| && outFiles[k] == f;
      assert outFiles[a..b][k - a] == f;
    }
  }

  /** Growing the start level over the whole range: if the output level needs no more files than before,
      it needs the same files. */
  lemma SameCut(outFiles: seq<File>, lo: Key, hi: Key, p: nat, q: nat, a: nat, b: nat, lo': Key, hi': Key, p': nat,
                q': nat, c: nat, d: nat)
    requires ExactRange(outFiles, lo, hi, p, q) && p < q && CleanCut(outFiles, a, b)
    requires InEveryCleanCut(outFiles, p, q, a, b)
    requires lo' <= lo && hi <= hi' && ExactRange(outFiles, lo', hi', p', q') && CleanCut(outFiles, c, d) && c <= p'
    requires q' <= d
    requires d - c == b - a
    ensures c == a && d == b
  {
    assert Overlaps(outFiles[p], lo, hi) && Overlaps(outFiles[q - 1], lo, hi);
    assert Overlaps(outFiles[p], lo', hi') && Overlaps(outFiles[q - 1], lo', hi');
  }

  /** Growing the start level within the hull of both levels: whatever meets the hull is already there. */
  lemma HullIsComplete(outFiles: seq<File>, lo: Key, hi: Key, p: nat, q: nat, a: nat, b: nat)
    requires LevelOk(outFiles) && lo <= hi && ExactRange(outFiles, lo, hi, p, q) && p < q && CleanCut(outFiles, a, b)
    requires a <= p && q <= b
    ensures Complete(outFiles, outFiles[a..b], Min(lo, outFiles[a].smallest), Max(hi, outFiles[b - 1].largest))
  {
    assert Overlaps(outFiles[p], lo, hi) && Overlaps(outFiles[q - 1], lo, hi);
    var lo', hi' := Min(lo, outFiles[a].smallest), Max(hi, outFiles[b - 1].largest);
    assert ExactRange(outFiles, lo', hi', a, b) by {
      forall k | 0 <= k < |outFiles|
        ensures a <= k < b <==> Overlaps(outFiles[k], lo', hi')
      {
        HullMember(outFiles, lo, hi, p, q, a, b, k);
      }
    }
    CutIsComplete(outFiles, lo', hi', a, b, a, b);
  }

  lemma HullMember(outFiles: seq<File>, lo: Key, hi: Key, p: nat, q: nat, a: nat, b: nat, k: nat)
    requires LevelOk(outFiles) && lo <= hi && ExactRange(outFiles, lo, hi, p, q) && p < q && CleanCut(outFiles, a, b)
    requires a <= p && q <= b
    requires k < |outFiles|
    ensures a <= k < b <==> Overlaps(outFiles[k], Min(lo, outFiles[a].smallest), Max(hi, outFiles[b - 1].largest))
  {
    assert Overlaps(outFiles[p], lo, hi) && Overlaps(outFiles[q - 1], lo, hi);
    if k < a {
      assert !Overlaps(outFiles[k], lo, hi);
      assert outFiles[k].largest <= outFiles[a - 1].largest;
    } else if k >= b {
      assert !Overlaps(outFiles[k], lo, hi);
      assert outFiles[b].smallest <= outFiles[k].smallest;
    } else {
      WiderOverlaps(outFiles, k, k + 1, a, b);
    }
  }

  /** All overlapping files lie within [a, b). */
  ghost predicate OverlapWithin(files: seq<File>, lo: Key, hi: Key, a: nat, b: nat) {
    forall k | 0 <= k < |files| && Overlaps(files[k], lo, hi) :: a <= k < b
  }

  /** The files of the output level that overlap fs, if any, are within an idle clean cut. */
  ghost predicate OutputsFree(outFiles: seq<File>, busy: set<nat>, fs: seq<File>)
    requires fs != []
  {
    || OverlapWithin(outFiles, Smallest(fs), Largest(fs), 0, 0)
    || exists a: nat, b: nat | CleanCut(outFiles, a, b) ::
         OverlapWithin(outFiles, Smallest(fs), Largest(fs), a, b) && !AnyBusy(outFiles[a..b], busy)
  }

  lemma OutputsBusy(outFiles: seq<File>, busy: set<nat>, fs: seq<File>, gs: seq<File>, p: nat, q: nat, a: nat, b: nat)
    requires fs != [] && gs != [] && Smallest(gs) <= Smallest(fs) && Largest(fs) <= Largest(gs)
    requires ExactRange(outFiles, Smallest(fs), Largest(fs), p, q) && p < q
    requires a <= b <= |outFiles| && InEveryCleanCut(outFiles, p, q, a, b) && AnyBusy(outFiles[a..b], busy)
    ensures !OutputsFree(outFiles, busy, gs)
  {
    hide Smallest, Largest;
    assert Overlaps(outFiles[p], Smallest(fs), Largest(fs)) && Overlaps(outFiles[q - 1], Smallest(fs), Largest(fs));
    assert Overlaps(outFiles[p], Smallest(gs), Largest(gs)) && Overlaps(outFiles[q - 1], Smallest(gs), Largest(gs));
    forall c: nat, d: nat | CleanCut(outFiles, c, d) && OverlapWithin(outFiles, Smallest(gs), Largest(gs), c, d)
      ensures AnyBusy(outFiles[c..d], busy)
    {
      RunMembers(outFiles, a, b, c, d);
    }
  }

  lemma ExactIsWithin(outFiles: seq<File>, lo: Key, hi: Key, p: nat, q: nat, a: nat, b: nat)
    requires ExactRange(outFiles, lo, hi, p, q) && (p == q || (a <= p && q <= b))
    ensures OverlapWithin(outFiles, lo, hi, if p == q then 0 else a, if p == q then 0 else b)
  {
  }

  // ---------------------------------------------------------------- the start level

  /** A nonempty choice of files of a level; from level 1 down it is a clean cut. */
  ghost predicate Chosen(level: nat, files: seq<File>, inputs: seq<File>, i: nat, j: nat) {
    && inputs != [] && (forall f | f in inputs :: f in files)
    && (level > 0 ==> CleanCut(files, i, j) && inputs == files[i..j])
  }

  /** No file left out has a key in the range of the chosen ones. */
  ghost predicate Whole(files: seq<File>, inputs: seq<File>) {
    inputs != [] && Complete(files, inputs, Smallest(inputs), Largest(inputs))
  }

  /** No file left out shares a user key range with one that is taken. */
  ghost predicate Sealed(files: seq<File>, taken: seq<File>) {
    forall f, g | f in files && f in taken && g in files && g !in taken :: !Share(f, g)
  }

  /** What a compaction between two levels takes is apart from what it leaves: either level is sealed, and no file
      left in the output level has a key in the range of the files taken from the start level. */
  ghost predicate Separate(files: seq<File>, outFiles: seq<File>, taken: seq<File>, chosen: seq<File>) {
    && Sealed(files, taken) && Sealed(outFiles, taken)
    && chosen != [] && (forall f | f in files && f in taken :: f in chosen)
    && Complete(outFiles, taken, Smallest(chosen), Largest(chosen))
  }

  lemma {:induction false} HullWithin(fs: seq<File>, b: Bounds)
    requires fs != [] && forall f | f in fs :: Covered(f, b)
    ensures (b.lo.Some? ==> b.lo.value <= Smallest(fs)) && (b.hi.Some? ==> Largest(fs) <= b.hi.value)
  {
    var n := |fs| - 1;
    assert fs[n] in fs;
    if n > 0 {
      assert forall f | f in fs[..n] :: f in fs;
      HullWithin(fs[..n], b);
    }
  }

  /** The search of level 0 leaves out nothing that shares a key with what it found. */
  lemma HitsAreWhole(files: seq<File>, b: Bounds)
    requires Closed(files, b) && Hits(files, b) != []
    ensures Whole(files, Hits(files, b))
  {
    var hits := Hits(files, b);
    forall f: File
      ensures f in hits <==> f in files && Hit(f, b)
    {
      HitsMembers(files, b, f);
    }
    hide Hits;
    HullWithin(hits, b);
  }

  lemma RunMembers(files: seq<File>, i: nat, j: nat, a: nat, b: nat)
    requires a <= i <= j <= b <= |files|
    ensures forall f | f in files[i..j] :: f in files[a..b] && f in files
  {
    forall f | f in files[i..j]
      ensures f in files[a..b] && f in files
    {
      var k :| 0 <= k < j - i && files[i..j][k] == f;
      assert files[a..b][i - a + k] == f && files[i + k] == f;
    }
  }

  lemma ChosenOk(level: nat, files: seq<File>, inputs: seq<File>, i: nat, j: nat)
    requires FilesOk(files) && (level > 0 ==> LevelOk(files)) && Chosen(level, files, inputs, i, j)
    ensures FilesOk(inputs) && (level > 0 ==> LevelOk(inputs)) && Smallest(inputs) <= Largest(inputs)
  {
    assert forall k | 0 <= k < |inputs| :: inputs[k] in inputs;
    HullOrdered(inputs);
  }

  /** GetOverlappingInputs() on the start level. */
  method GetStartInputs(level: nat, files: seq<File>, lo: Key, hi: Key)
    returns (inputs: seq<File>, ghost i: nat, ghost j: nat)
    requires FilesOk(files) && (level > 0 ==> LevelOk(files)) && lo <= hi
    ensures forall f | f in files && Overlaps(f, lo, hi) :: f in inputs
    ensures forall f | f in inputs :: f in files
    ensures level > 0 ==> ExactRange(files, lo, hi, i, j) && inputs == files[i..j]
    ensures level == 0 && inputs != [] ==> Whole(files, inputs)
  {
    i, j := 0, 0;
    if level == 0 {
      var bounds;
      inputs, bounds := GetOverlappingLevel0(files, Bounds(Some(lo), Some(hi)));
      forall f: File
        ensures f in inputs <==> f in files && Hit(f, bounds)
      {
        HitsMembers(files, bounds, f);
      }
      if inputs != [] {
        HitsAreWhole(files, bounds);
      }
    } else {
      var index;
      inputs, index, i, j := GetOverlapping(files, lo, hi, None);
      CutIsComplete(files, lo, hi, i, j, i, j);
      RunMembers(files, i, j, 0, |files|);
    }
  }

  /** The first way to grow: everything of the start level that meets the range of both levels, if the
      output level then needs no more files than it has. */
  method TryOverlapping(level: nat, files: seq<File>, outFiles: seq<File>, busy: set<nat>, inputs: seq<File>,
                        outputs: seq<File>, all: (Key, Key), limit: nat, parent: Option<nat>, ghost i: nat,
                        ghost j: nat, ghost p: nat, ghost q: nat, ghost a: nat, ghost b: nat)
    returns (grown: bool, expanded: seq<File>, ghost i': nat, ghost j': nat)
    requires FilesOk(files) && (level > 0 ==> LevelOk(files)) && LevelOk(outFiles) && Chosen(level, files, inputs, i, j)
    requires Smallest(inputs) <= Largest(inputs) && ExactRange(outFiles, Smallest(inputs), Largest(inputs), p, q)
    requires p < q
    requires CleanCut(outFiles, a, b) && InEveryCleanCut(outFiles, p, q, a, b) && outputs == outFiles[a..b]
    requires all.0 <= Smallest(inputs) && Largest(inputs) <= all.1
    requires parent.Some? ==>
               parent.value < |outFiles| && Overlaps(outFiles[parent.value], Smallest(inputs), Largest(inputs))
    ensures grown ==> Chosen(level, files, expanded, i', j') && (forall f | f in inputs :: f in expanded)
    ensures grown ==> Complete(outFiles, outputs, Smallest(expanded), Largest(expanded)) && !AnyBusy(expanded, busy)
    ensures grown && level == 0 ==> Whole(files, expanded)
  {
    hide LevelOk, ExactRange, InEveryCleanCut, AnyBusy, Smallest, Largest, Whole;
    grown := false;
    expanded, i', j' := GetStartInputs(level, files, all.0, all.1);
    InputsOverlap(files, inputs, all.0, all.1);
    assert expanded != [] by { assert inputs[0] in inputs; }
    var size := TotalCompensatedFileSize(expanded);
    if level > 0 {
      NonemptyRun(files, expanded, i', j');
      ghost var l, r := i', j';
      var ok;
      ok, expanded, i', j' := ExpandInputsToCleanCut(files, busy, expanded, i', j');
      RunMembers(files, l, r, i', j');
      RunMembers(files, i', j', 0, |files|);
      if !ok {
        return;
      }
    }
    ChosenOk(level, files, expanded, i', j');
    var outSize := TotalCompensatedFileSize(outputs);
    var inUse := AreFilesInCompaction(expanded, busy);
    if |expanded| > |inputs| && outSize + size < limit && !inUse {
      HullGrows(inputs, expanded);
      var lo, hi := GetRange(level, expanded);
      WiderHint(outFiles, parent, Smallest(inputs), Largest(inputs), lo, hi);
      var outs, index, p', q' := GetOverlapping(outFiles, lo, hi, parent);
      NonemptyOuts(outFiles, Smallest(inputs), Largest(inputs), p, q, lo, hi, p', q');
      var outsInUse := AreFilesInCompaction(outs, busy);
      if !outsInUse {
        var ok, cut, c, d := ExpandInputsToCleanCut(outFiles, busy, outs, p', q');
        if ok && |cut| == |outputs| {
          SameCut(outFiles, Smallest(inputs), Largest(inputs), p, q, a, b, lo, hi, p', q', c, d);
          CutIsComplete(outFiles, lo, hi, p', q', a, b);
          grown := true;
        }
      }
    }
  }

  lemma InputsOverlap(files: seq<File>, inputs: seq<File>, lo: Key, hi: Key)
    requires FilesOk(files) && inputs != [] && (forall f | f in inputs :: f in files) && lo <= Smallest(inputs)
    requires Largest(inputs) <= hi
    ensures forall f | f in inputs :: f in files && Overlaps(f, lo, hi)
  {
    forall f | f in inputs
      ensures Overlaps(f, lo, hi)
    {
      HullCovers(inputs, f);
      var k :| 0 <= k < |files| && files[k] == f;
    }
  }

  lemma NonemptyRun(files: seq<File>, run: seq<File>, i: nat, j: nat)
    requires i <= j <= |files| && run == files[i..j] && run != []
    ensures i < j
  {
  }

  lemma WiderHint(outFiles: seq<File>, hint: Option<nat>, lo: Key, hi: Key, lo': Key, hi': Key)
    requires lo' <= lo && hi <= hi'
    requires (hint.Some? ==> hint.value < |outFiles| && Overlaps(outFiles[hint.value], lo, hi))
    ensures hint.Some? ==> Overlaps(outFiles[hint.value], lo', hi')
  {
  }

  lemma NonemptyOuts(outFiles: seq<File>, lo: Key, hi: Key, p: nat, q: nat, lo': Key, hi': Key, p': nat, q': nat)
    requires ExactRange(outFiles, lo, hi, p, q) && p < q && lo' <= lo && hi <= hi'
    requires ExactRange(outFiles, lo', hi', p', q')
    ensures p' < q'
  {
    assert Overlaps(outFiles[p], lo, hi) && Overlaps(outFiles[p], lo', hi');
  }

  /** The second way to grow, from level 1 down: the largest clean run of start-level files within the
      hull of both levels. */
  method TryWithin(level: nat, files: seq<File>, outFiles: seq<File>, busy: set<nat>, inputs: seq<File>,
                   outputs: seq<File>, all: (Key, Key), limit: nat, base: Option<nat>, ghost i: nat, ghost j: nat)
    returns (grown: bool, expanded: seq<File>, ghost i': nat, ghost j': nat)
    requires FilesOk(files) && (level > 0 ==> LevelOk(files)) && Chosen(level, files, inputs, i, j)
    requires all.0 <= Smallest(inputs) <= Largest(inputs) <= all.1 && Complete(outFiles, outputs, all.0, all.1)
    requires level > 0 && base.Some? ==> i <= base.value < j
    ensures grown ==> Chosen(level, files, expanded, i', j') && (forall f | f in inputs :: f in expanded)
    ensures grown ==> Complete(outFiles, outputs, Smallest(expanded), Largest(expanded)) && !AnyBusy(expanded, busy)
    ensures grown ==> level > 0 && TotalSize(outputs) + TotalSize(expanded) < limit
    ensures level > 0 ==> expanded != [] && forall f | f in inputs :: f in expanded
  {
    hide LevelOk, AnyBusy, Smallest, Largest, Complete, TotalSize;
    grown, expanded, i', j' := false, [], 0, 0;
    if level == 0 {
      return;
    }
    SortedHull(files, i, j);
    InsideHull(files, i, j, all.0, all.1);
    expanded, i', j' := GetCleanWithin(files, all.0, all.1, base);
    assert CleanCut(files, i, j) && AllInside(files, i, j, all.0, all.1);
    RunMembers(files, i, j, i', j');
    var size := TotalCompensatedFileSize(expanded);
    var outSize := TotalCompensatedFileSize(outputs);
    var inUse := AreFilesInCompaction(expanded, busy);
    if |expanded| > |inputs| && outSize + size < limit && !inUse {
      RunMembers(files, i', j', 0, |files|);
      SortedHull(files, i', j');
      assert Inside(files[i'], all.0, all.1) && Inside(files[j' - 1], all.0, all.1);
      CompleteNarrower(outFiles, outputs, all.0, all.1, Smallest(expanded), Largest(expanded));
      grown := true;
    }
  }

  lemma InsideHull(files: seq<File>, i: nat, j: nat, lo: Key, hi: Key)
    requires LevelOk(files) && i < j <= |files| && lo <= files[i].smallest && files[j - 1].largest <= hi
    ensures AllInside(files, i, j, lo, hi)
  {
    forall k | i <= k < j
      ensures Inside(files[k], lo, hi)
    {
      WiderOverlaps(files, k, k + 1, i, j);
    }
  }

  /** SetupOtherInputs(). If it succeeds, every output-level file that shares a user key range with the
      chosen start-level files is among the outputs, and the outputs are a clean cut; by either way of
      growing the choice keeps what it had, and of level 0 it leaves out nothing that shares a key with
      it. It succeeds if and only if the output-level files that share keys with the inputs, if there are
      any, are within an idle clean cut. */
  method SetupOtherInputs(level: nat, files: seq<File>, outFiles: seq<File>, busy: set<nat>, inputs: seq<File>,
                          limit: nat, base: Option<nat>, ghost i: nat, ghost j: nat)
    returns (ok: bool, chosen: seq<File>, outputs: seq<File>, ghost i': nat, ghost j': nat, ghost a: nat, ghost b: nat)
    requires FilesOk(files) && (level > 0 ==> LevelOk(files)) && LevelOk(outFiles) && Chosen(level, files, inputs, i, j)
    requires level > 0 && base.Some? ==> i <= base.value < j
    requires level == 0 ==> Whole(files, inputs)
    ensures ok ==> Chosen(level, files, chosen, i', j') && (forall f | f in inputs :: f in chosen)
    ensures ok && level == 0 ==> Whole(files, chosen)
    ensures ok ==> Complete(outFiles, outputs, Smallest(chosen), Largest(chosen))
    ensures ok ==> outputs == [] || (CleanCut(outFiles, a, b) && outputs == outFiles[a..b])
    ensures ok ==> !AnyBusy(outputs, busy) && (chosen == inputs || !AnyBusy(chosen, busy))
    ensures ok <==> OutputsFree(outFiles, busy, inputs)
  {
    hide LevelOk, ExactRange, InEveryCleanCut, AnyBusy, Smallest, Largest, Whole, OutputsFree;
    chosen, i', j' := inputs, i, j;
    a, b := 0, 0;
    ChosenOk(level, files, inputs, i, j);
    var lo, hi := GetRange(level, inputs);
    var parent;
    ghost var p, q;
    outputs, parent, p, q := GetOverlapping(outFiles, lo, hi, None);
    CutIsComplete(outFiles, lo, hi, p, q, p, q);
    RunMembers(outFiles, p, q, 0, |outFiles|);
    var inUse := AreFilesInCompaction(outputs, busy);
    if inUse {
      EveryCleanCut(outFiles, p, q);
      BusyRun(outFiles, p, q, busy);
      OutputsBusy(outFiles, busy, inputs, inputs, p, q, p, q);
      return false, chosen, outputs, i', j', a, b;
    }
    if outputs == [] {
      FreeWithout(outFiles, busy, inputs, p, q);
      return true, chosen, outputs, i', j', a, b;
    }
    NonemptyRun(outFiles, outputs, p, q);
    ok, outputs, a, b := ExpandInputsToCleanCut(outFiles, busy, outputs, p, q);
    RunMembers(outFiles, a, b, 0, |outFiles|);
    if !ok {
      OutputsBusy(outFiles, busy, inputs, inputs, p, q, a, b);
      return;
    }
    FreeWithin(outFiles, busy, inputs, p, q, a, b);
    CutIsComplete(outFiles, lo, hi, p, q, a, b);
    RunOk(outFiles, a, b);
    var outLo, outHi := GetRange(1, outputs);
    SortedHull(outFiles, a, b);
    HullIsComplete(outFiles, lo, hi, p, q, a, b);
    var all := (Min(lo, outLo), Max(hi, outHi));
    var grown, expanded, l, r :=
      TryOverlapping(level, files, outFiles, busy, inputs, outputs, all, limit, parent, i, j, p, q, a, b);
    if !grown {
      grown, expanded, l, r := TryWithin(level, files, outFiles, busy, inputs, outputs, all, limit, base, i, j);
    }
    if grown {
      chosen, i', j' := expanded, l, r;
    }
  }

  lemma BusyRun(files: seq<File>, i: nat, j: nat, busy: set<nat>)
    requires i <= j <= |files| && AnyBusy(files[i..j], busy)
    ensures i < j
  {
  }

  lemma FreeWithout(outFiles: seq<File>, busy: set<nat>, inputs: seq<File>, p: nat, q: nat)
    requires inputs != [] && ExactRange(outFiles, Smallest(inputs), Largest(inputs), p, q) && outFiles[p..q] == []
    ensures OutputsFree(outFiles, busy, inputs)
  {
    ExactIsWithin(outFiles, Smallest(inputs), Largest(inputs), p, q, 0, 0);
  }

  lemma FreeWithin(outFiles: seq<File>, busy: set<nat>, inputs: seq<File>, p: nat, q: nat, a: nat, b: nat)
    requires inputs != [] && ExactRange(outFiles, Smallest(inputs), Largest(inputs), p, q) && p < q && a <= p && q <= b
    requires CleanCut(outFiles, a, b) && !AnyBusy(outFiles[a..b], busy)
    ensures OutputsFree(outFiles, busy, inputs)
  {
    ExactIsWithin(outFiles, Smallest(inputs), Largest(inputs), p, q, a, b);
  }

  lemma RunOk(files: seq<File>, i: nat, j: nat)
    requires LevelOk(files) && i < j <= |files|
    ensures LevelOk(files[i..j])
  {
  }
}
