/** Which compactions may run side by side. Every way of starting one (the leveled picker, a manual range,
    a manual choice of files) and every release keep running compactions from sharing an input file or
    writing overlapping key ranges to the same level. */
module RunningCompactions {
  import opened Common
  import opened LevelFiles
  import opened PickerInputs

  /** A running compaction: its levels, its input files and the user keys they span. */
  datatype Compaction = Compaction(id: nat, startLevel: nat, outputLevel: nat, inputs: seq<File>, lo: Key, hi: Key)

  function Numbers(inputs: seq<File>): set<nat> {
    set f | f in inputs :: f.number
  }

  predicate RangesMeet(c: Compaction, lo: Key, hi: Key) {
    lo <= c.hi && hi >= c.lo
  }

  /** Two compactions that may run at the same time. */
  predicate Compatible(c: Compaction, d: Compaction) {
    && Numbers(c.inputs) !! Numbers(d.inputs)
    && (c.outputLevel == d.outputLevel && c.outputLevel > 0 ==> !RangesMeet(c, d.lo, d.hi))
    && !(c.startLevel == 0 && d.startLevel == 0 && c.outputLevel > 0 && d.outputLevel > 0)
  }

  ghost predicate AllCompatible(running: set<Compaction>) {
    forall c, d | c in running && d in running && c != d :: Compatible(c, d)
  }

  /** being_compacted is set exactly for the inputs of running compactions. */
  ghost predicate MarkedExactly(running: set<Compaction>, busy: set<nat>) {
    && (forall c | c in running :: Numbers(c.inputs) <= busy)
    && (forall n | n in busy :: exists c | c in running :: n in Numbers(c.inputs))
  }

  /** A busy file of level 0 belongs to a compaction that starts there. */
  ghost predicate Level0Owned(level0: seq<File>, running: set<Compaction>, busy: set<nat>) {
    forall f | f in level0 && f.number in busy :: exists c | c in running && c.startLevel == 0 ::
        f.number in Numbers(c.inputs)
  }

  /** The keys of a compaction's range are those of its input files. */
  ghost predicate Spans(c: Compaction) {
    c.inputs != [] && forall f | f in c.inputs :: Inside(f, c.lo, c.hi)
  }

  lemma BusyMeansShared(inputs: seq<File>, busy: set<nat>)
    ensures AnyBusy(inputs, busy) <==> Numbers(inputs) * busy != {}
  {
    if AnyBusy(inputs, busy) {
      var f :| f in inputs && f.number in busy;
      assert f.number in Numbers(inputs) * busy;
    }
    if Numbers(inputs) * busy != {} {
      var n :| n in Numbers(inputs) * busy;
      var f :| f in inputs && f.number == n;
    }
  }

  // ---------------------------------------------------------------- what can be compacted now

  /** files[i..j] is an idle choice of inputs with the file at index: that file alone on level 0, a clean
      cut around it elsewhere. */
  ghost predicate StartFree(start: nat, files: seq<File>, busy: set<nat>, index: nat, i: nat, j: nat) {
    && i <= index < j <= |files| && !AnyBusy(files[i..j], busy)
    && (if start == 0 then i == index && j == index + 1 else CleanCut(files, i, j))
  }

  /** No running compaction writes to the output level between the keys of fs. */
  ghost predicate RangeFree(running: set<Compaction>, out: nat, fs: seq<File>)
    requires fs != []
  {
    forall c | c in running && c.outputLevel == out :: !RangesMeet(c, Smallest(fs), Largest(fs))
  }

  /** No choice of inputs with this file can be compacted now. */
  ghost predicate Blocked(start: nat, files: seq<File>, outFiles: seq<File>, busy: set<nat>, running: set<Compaction>,
                          out: nat, index: nat) {
    forall i: nat, j: nat | StartFree(start, files, busy, index, i, j) ::
        !(RangeFree(running, out, files[i..j]) && OutputsFree(outFiles, busy, files[i..j]))
  }

  /** files[l..r] is within every choice of inputs with the file. */
  ghost predicate Least(start: nat, files: seq<File>, index: nat, l: nat, r: nat) {
    && l <= index < r <= |files|
    && (if start == 0 then l == index && r == index + 1 else InEveryCleanCut(files, index, index + 1, l, r))
  }

  lemma FileIsTaken(start: nat, files: seq<File>, busy: set<nat>, index: nat, i: nat, j: nat)
    requires StartFree(start, files, busy, index, i, j)
    ensures i <= index < j <= |files| && files[index] in files[i..j]
  {
    assert files[i..j][index - i] == files[index];
  }

  lemma LeastIsWithin(start: nat, files: seq<File>, busy: set<nat>, index: nat, l: nat, r: nat, i: nat, j: nat)
    requires Least(start, files, index, l, r) && StartFree(start, files, busy, index, i, j)
    ensures i <= l && r <= j && !AnyBusy(files[l..r], busy)
    ensures Smallest(files[i..j]) <= Smallest(files[l..r]) && Largest(files[l..r]) <= Largest(files[i..j])
  {
    RunMembers(files, l, r, i, j);
    HullGrows(files[l..r], files[i..j]);
  }

  lemma BlockedByBusy(start: nat, files: seq<File>, outFiles: seq<File>, busy: set<nat>, running: set<Compaction>,
                      out: nat, index: nat, l: nat, r: nat)
    requires Least(start, files, index, l, r) && AnyBusy(files[l..r], busy)
    ensures Blocked(start, files, outFiles, busy, running, out, index)
  {
    hide Least, StartFree, RangeFree, OutputsFree, AnyBusy, Smallest, Largest;
    forall i: nat, j: nat | StartFree(start, files, busy, index, i, j)
      ensures false
    {
      LeastIsWithin(start, files, busy, index, l, r, i, j);
    }
  }

  /** A file that is itself busy. */
  lemma BusyAlone(start: nat, files: seq<File>, outFiles: seq<File>, busy: set<nat>, running: set<Compaction>, out: nat,
                  index: nat)
    requires index < |files| && files[index].number in busy
    ensures Blocked(start, files, outFiles, busy, running, out, index)
  {
    EveryCleanCut(files, index, index + 1);
    assert files[index..index + 1] == [files[index]];
    BlockedByBusy(start, files, outFiles, busy, running, out, index, index, index + 1);
  }

  lemma BlockedByRange(start: nat, files: seq<File>, outFiles: seq<File>, busy: set<nat>, running: set<Compaction>,
                       out: nat, index: nat, l: nat, r: nat)
    requires Least(start, files, index, l, r) && !RangeFree(running, out, files[l..r])
    ensures Blocked(start, files, outFiles, busy, running, out, index)
  {
    hide OutputsFree, AnyBusy, Smallest, Largest, CleanCut, InEveryCleanCut;
    forall i: nat, j: nat | StartFree(start, files, busy, index, i, j)
      ensures !RangeFree(running, out, files[i..j])
    {
      LeastIsWithin(start, files, busy, index, l, r, i, j);
    }
  }

  /** The least clean cut [a, b) around the overlapping files [p, q) is busy. */
  lemma BlockedByOutputs(start: nat, files: seq<File>, outFiles: seq<File>, busy: set<nat>, running: set<Compaction>,
                         out: nat, index: nat, l: nat, r: nat, p: nat, q: nat, a: nat, b: nat)
    requires Least(start, files, index, l, r) && ExactRange(outFiles, Smallest(files[l..r]), Largest(files[l..r]), p, q)
    requires p < q
    requires a <= b <= |outFiles| && InEveryCleanCut(outFiles, p, q, a, b) && AnyBusy(outFiles[a..b], busy)
    ensures Blocked(start, files, outFiles, busy, running, out, index)
  {
    hide RangeFree, AnyBusy, Smallest, Largest;
    forall i: nat, j: nat | StartFree(start, files, busy, index, i, j)
      ensures !OutputsFree(outFiles, busy, files[i..j])
    {
      LeastIsWithin(start, files, busy, index, l, r, i, j);
      OutputsBusy(outFiles, busy, files[l..r], files[i..j], p, q, a, b);
    }
  }

  class CompactionPicker {
    var levels: seq<seq<File>>
    var busy: set<nat>
    var running: set<Compaction>
    var level0Running: set<Compaction>
    var nextId: nat

    ghost predicate Valid()
      reads this
    {
      && LevelsOk(levels) && levels != [] && AllCompatible(running) && MarkedExactly(running, busy)
      && Level0Owned(levels[0], running, busy)
      && level0Running == (set c | c in running && c.startLevel == 0)
      && (forall c | c in running :: c.id < nextId && Spans(c))
    }

    constructor (levels_: seq<seq<File>>)
      requires LevelsOk(levels_) && levels_ != []
      ensures Valid() && levels == levels_ && running == {}
    {
      levels, busy, running, level0Running, nextId := levels_, {}, {}, {}, 0;
    }

    /** Two running compactions share no file; with the same output level above 0 they share no key. */
    lemma RunningAreApart(c: Compaction, d: Compaction, f: File, g: File)
      requires Valid() && c in running && d in running && c != d && f in c.inputs && g in d.inputs
      ensures f.number != g.number
      ensures c.outputLevel == d.outputLevel > 0 ==> f.largest < g.smallest || g.largest < f.smallest
    {
      assert Compatible(c, d);
      assert f.number in Numbers(c.inputs) && g.number in Numbers(d.inputs);
      assert Inside(f, c.lo, c.hi) && Inside(g, d.lo, d.hi);
    }

    /** RangeOverlapWithCompaction(). */
    method RangeOverlapWithCompaction(lo: Key, hi: Key, level: nat) returns (r: bool)
      ensures r <==> exists c | c in running :: c.outputLevel == level && RangesMeet(c, lo, hi)
    {
      var todo := running;
      while todo != {}
        invariant todo <= running && forall c | c in running && c !in todo ::
                    !(c.outputLevel == level && RangesMeet(c, lo, hi))
        decreases todo
      {
        var c :| c in todo;
        if c.outputLevel == level && RangesMeet(c, lo, hi) {
          return true;
        }
        todo := todo - {c};
      }
      r := false;
    }

    /** RegisterCompaction(), and the marking of its files. The asserts of both hold. */
    method Register(startLevel: nat, outputLevel: nat, inputs: seq<File>, lo: Key, hi: Key) returns (c: Compaction)
      requires Valid() && inputs != [] && !AnyBusy(inputs, busy) && forall f | f in inputs :: Inside(f, lo, hi)
      requires outputLevel > 0 ==> forall d | d in running && d.outputLevel == outputLevel :: !RangesMeet(d, lo, hi)
      requires startLevel == 0 && outputLevel > 0 ==> level0Running == {}
      requires startLevel > 0 ==> forall f | f in levels[0] :: f.number !in Numbers(inputs)
      modifies this`busy, this`running, this`level0Running, this`nextId
      ensures Valid() && c !in old(running) && running == old(running) + {c} && busy == old(busy) + Numbers(inputs)
      ensures c.startLevel == startLevel && c.outputLevel == outputLevel && c.inputs == inputs && c.lo == lo
      ensures c.hi == hi
    {
      c := Compaction(nextId, startLevel, outputLevel, inputs, lo, hi);
      BusyMeansShared(inputs, busy);
      forall d | d in running
        ensures Compatible(c, d) && Compatible(d, c)
      {
        assert Numbers(d.inputs) <= busy;
        assert d.startLevel == 0 ==> d in level0Running;
      }
      MarkMore(running, busy, c);
      OwnMore(levels[0], running, busy, c);
      hide MarkedExactly, Level0Owned, Compatible;
      busy := busy + Numbers(inputs);
      running := running + {c};
      if startLevel == 0 {
        level0Running := level0Running + {c};
      }
      nextId := nextId + 1;
    }

    /** UnregisterCompaction(), and the unmarking of its files. */
    method Release(c: Compaction)
      requires Valid() && c in running
      modifies this`busy, this`running, this`level0Running
      ensures Valid() && running == old(running) - {c} && busy == old(busy) - Numbers(c.inputs)
      ensures Numbers(c.inputs) <= old(busy)
    {
      MarkLess(running, busy, c);
      OwnLess(levels[0], running, busy, c);
      hide MarkedExactly, Level0Owned, Compatible;
      running := running - {c};
      busy := busy - Numbers(c.inputs);
      level0Running := level0Running - {c};
    }

    /** A version edit: files come and go, but no file that is busy elsewhere enters level 0. */
    method Install(levels_: seq<seq<File>>)
      requires Valid() && LevelsOk(levels_) && levels_ != []
      requires forall f | f in levels_[0] && f.number in busy :: f in levels[0]
      modifies this`levels
      ensures Valid() && levels == levels_
    {
      levels := levels_;
    }

    /** FilesRangeOverlapWithCompaction() for the inputs of one or two levels. */
    method FilesRangeOverlap(level: nat, inputs: seq<File>, outputs: seq<File>, outputLevel: nat)
      returns (r: bool, lo: Key, hi: Key)
      requires inputs != [] && (level > 0 ==> LevelOk(inputs)) && LevelOk(outputs)
      ensures forall f | f in inputs + outputs :: Inside(f, lo, hi)
      ensures lo == Smallest(inputs + outputs) && hi == Largest(inputs + outputs)
      ensures r <==> exists c | c in running :: c.outputLevel == outputLevel && RangesMeet(c, lo, hi)
    {
      lo, hi := GetRange(level, inputs);
      if outputs != [] {
        var outLo, outHi := GetRange(1, outputs);
        lo, hi := Min(lo, outLo), Max(hi, outHi);
      }
      HullConcat(inputs, outputs);
      forall f | f in inputs + outputs
        ensures Inside(f, lo, hi)
      {
        if f in inputs {
          HullCovers(inputs, f);
        } else {
          HullCovers(outputs, f);
        }
      }
      r := RangeOverlapWithCompaction(lo, hi, outputLevel);
    }

    lemma Level0Idle()
      requires Valid() && level0Running == {}
      ensures forall f | f in levels[0] :: f.number !in busy
    {
      assert forall c | c in running && c.startLevel == 0 :: c in level0Running;
    }

    /** ExpandInputsToCleanCut(): level 0 needs none. */
    method ExpandStart(level: nat, index: nat) returns (ok: bool, inputs: seq<File>, ghost i: nat, ghost j: nat)
      requires LevelsOk(levels) && level < |levels| && index < |levels[level]| && levels[level][index].number !in busy
      ensures Least(level, levels[level], index, i, j) && inputs == levels[level][i..j]
      ensures (ok <==> !AnyBusy(inputs, busy))
      ensures ok ==> Chosen(level, levels[level], inputs, i, j) && StartFree(level, levels[level], busy, index, i, j)
    {
      hide LevelsOk;
      LevelAt(level);
      var files := levels[level];
      inputs, i, j := [files[index]], index, index + 1;
      ok := true;
      if level > 0 {
        ok, inputs, i, j := ExpandInputsToCleanCut(files, busy, inputs, index, index + 1);
        RunMembers(files, i, j, 0, |files|);
      }
      assert inputs == files[i..j];
    }

    /** PickFileToCompact(): the first file, in order of priority, that can be compacted now. The next
        search starts with it. */
    method PickFileToCompact(start: nat, out: nat, order: seq<nat>)
      returns (inputs: seq<File>, base: Option<nat>, next: nat, ghost i: nat, ghost j: nat)
      requires Valid() && start < out < |levels| && forall n | n in order :: n < |levels[start]|
      ensures start == 0 && level0Running != {} ==> inputs == []
      ensures inputs == [] ==> base == None && next == if start == 0 && level0Running != {} then 0 else |order|
      ensures inputs != [] ==> next < |order| && base == Some(order[next])
      ensures inputs != [] ==> Chosen(start, levels[start], inputs, i, j) && !AnyBusy(inputs, busy)
      ensures inputs != [] ==> StartFree(start, levels[start], busy, order[next], i, j) && inputs == levels[start][i..j]
      ensures inputs != [] ==> RangeFree(running, out, inputs) && OutputsFree(levels[out], busy, inputs)
      ensures forall m | 0 <= m < next :: Blocked(start, levels[start], levels[out], busy, running, out, order[m])
    {
      hide AllCompatible, MarkedExactly, Level0Owned, AnyBusy, LevelsOk, Blocked, StartFree, OutputsFree, Least;
      inputs, base, next, i, j := [], None, 0, 0, 0;
      if start == 0 && level0Running != {} {
        return;
      }
      while next < |order|
        invariant 0 <= next <= |order| && inputs == [] && base == None
        invariant forall m | 0 <= m < next :: Blocked(start, levels[start], levels[out], busy, running, out, order[m])
      {
        assert order[next] in order;
        var ok;
        ok, inputs, i, j := TryFile(start, out, order[next]);
        if ok {
          base := Some(order[next]);
          return;
        }
        inputs, next := [], next + 1;
      }
    }

    /** One turn of that search. */
    method TryFile(start: nat, out: nat, index: nat) returns (ok: bool, inputs: seq<File>, ghost i: nat, ghost j: nat)
      requires LevelsOk(levels) && start < out < |levels| && index < |levels[start]|
      ensures !ok ==> Blocked(start, levels[start], levels[out], busy, running, out, index)
      ensures ok ==> Chosen(start, levels[start], inputs, i, j) && !AnyBusy(inputs, busy)
      ensures ok ==>
                StartFree(start, levels[start], busy, index, i, j) && Least(start, levels[start], index, i, j) &&
                    inputs == levels[start][i..j]
      ensures ok ==> RangeFree(running, out, inputs) && OutputsFree(levels[out], busy, inputs)
    {
      hide AnyBusy, LevelsOk, Blocked, StartFree, Least, Smallest, Largest, ExactRange, InEveryCleanCut;
      LevelAt(start);
      LevelAt(out);
      var files, outFiles := levels[start], levels[out];
      ok, inputs, i, j := false, [], 0, 0;
      if files[index].number in busy {
        BusyAlone(start, files, outFiles, busy, running, out, index);
        return;
      }
      ok, inputs, i, j := ExpandStart(start, index);
      if !ok {
        BlockedByBusy(start, files, outFiles, busy, running, out, index, i, j);
        return;
      }
      ChosenOk(start, files, inputs, i, j);
      var clash, lo, hi := FilesRangeOverlap(start, inputs, [], out);
      assert inputs + [] == inputs;
      if clash {
        BlockedByRange(start, files, outFiles, busy, running, out, index, i, j);
        ok := false;
        return;
      }
      lo, hi := GetRange(start, inputs);
      var outs, hint, p, q := GetOverlapping(outFiles, lo, hi, None);
      ghost var a, b := p, q;
      if outs != [] {
        NonemptyRun(outFiles, outs, p, q);
        var cut;
        ok, cut, a, b := ExpandInputsToCleanCut(outFiles, busy, outs, p, q);
        if !ok {
          BlockedByOutputs(start, files, outFiles, busy, running, out, index, i, j, p, q, a, b);
          return;
        }
        assert CleanCut(outFiles, a, b);
      }
      ExactIsWithin(outFiles, lo, hi, p, q, a, b);
    }

    lemma LevelAt(l: nat)
      requires LevelsOk(levels) && l < |levels|
      ensures FilesOk(levels[l]) && (l > 0 ==> LevelOk(levels[l]))
    {
    }

    /** PickFilesMarkedForCompaction(): one marked file, which is not busy. */
    method PickMarkedFile(start: nat, index: nat) returns (inputs: seq<File>, ghost i: nat, ghost j: nat)
      requires Valid() && start < |levels| && index < |levels[start]| && levels[start][index].number !in busy
      ensures inputs != [] ==> Chosen(start, levels[start], inputs, i, j) && !AnyBusy(inputs, busy)
      ensures inputs != [] ==> StartFree(start, levels[start], busy, index, i, j) && inputs == levels[start][i..j]
      ensures inputs != [] && start == 0 ==> level0Running == {}
      ensures inputs == [] <==>
                (start == 0 && level0Running != {}) || forall l: nat, r: nat ::
                    !StartFree(start, levels[start], busy, index, l, r)
    {
      inputs, i, j := [], 0, 0;
      if start == 0 && level0Running != {} {
        return;
      }
      var ok, expanded, l, r := ExpandStart(start, index);
      if ok {
        inputs, i, j := expanded, l, r;
      } else {
        forall l': nat, r': nat
          ensures !StartFree(start, levels[start], busy, index, l', r')
        {
          if StartFree(start, levels[start], busy, index, l', r') {
            LeastIsWithin(start, levels[start], busy, index, l, r, l', r');
          }
        }
      }
    }

    /** SetupOtherL0FilesIfNeeded(): of level 0, everything that overlaps what was picked. */
    method SetupOtherL0Files(inputs: seq<File>, out: nat) returns (ok: bool, chosen: seq<File>)
      requires Valid() && 0 < out < |levels| && Chosen(0, levels[0], inputs, 0, 0) && level0Running == {}
      ensures Chosen(0, levels[0], chosen, 0, 0) && !AnyBusy(chosen, busy) && (forall f | f in inputs :: f in chosen)
      ensures Whole(levels[0], chosen)
      ensures ok <==> forall f | f in levels[out] && Overlaps(f, Smallest(chosen), Largest(chosen)) :: f.number !in busy
    {
      hide AllCompatible, MarkedExactly;
      Level0Idle();
      hide Level0Owned, LevelsOk;
      LevelAt(0);
      LevelAt(out);
      ChosenOk(0, levels[0], inputs, 0, 0);
      var lo, hi := GetRange(0, inputs);
      ghost var i, j;
      chosen, i, j := GetStartInputs(0, levels[0], lo, hi);
      InputsOverlap(levels[0], inputs, lo, hi);
      assert chosen != [] by { assert inputs[0] in inputs; }
      ChosenOk(0, levels[0], chosen, 0, 0);
      lo, hi := GetRange(0, chosen);
      var outs, hint, p, q := GetOverlapping(levels[out], lo, hi, None);
      CutIsComplete(levels[out], lo, hi, p, q, p, q);
      OverlapMembers(levels[out], lo, hi, p, q);
      var inUse := AreFilesInCompaction(outs, busy);
      ok := !inUse;
    }

    /** SetupOtherInputsIfNeeded() and GetCompaction(), for an output level above 0. `decline` stands for
        the delay by estimated reclaim ratio. */
    method FinishPick(start: nat, out: nat, inputs: seq<File>, base: Option<nat>, limit: nat, decline: bool,
                      ghost i: nat, ghost j: nat)
      returns (r: Option<Compaction>, ghost chosen: seq<File>)
      requires Valid() && start < out < |levels| && Chosen(start, levels[start], inputs, i, j) && !AnyBusy(inputs, busy)
      requires (start > 0 && base.Some? ==> i <= base.value < j)
      requires (start == 0 ==> level0Running == {} && Whole(levels[0], inputs))
      modifies this`busy, this`running, this`level0Running, this`nextId
      ensures Valid() && (r.None? ==> running == old(running) && busy == old(busy))
      ensures r.Some? ==>
                r.value !in old(running) && running == old(running) + {r.value} && r.value.startLevel == start &&
                    r.value.outputLevel == out
      ensures r.Some? ==>
                chosen != [] && (forall f | f in inputs :: f in chosen) &&
                    (forall f | f in chosen :: f in levels[start] && f in r.value.inputs)
      ensures r.Some? ==>
                Separate(levels[start], levels[out], r.value.inputs, chosen) &&
                    (start == 0 ==> Whole(levels[0], chosen))
    {
      hide AllCompatible, MarkedExactly, Level0Owned, AnyBusy, LevelsOk, LevelOk, Smallest, Largest, Complete,
             Compatible, Whole, Separate;
      r, chosen := None, inputs;
      LevelAt(start);
      LevelAt(out);
      var ok, ins, outs, i', j', a, b :=
        SetupOtherInputs(start, levels[start], levels[out], busy, inputs, limit, base, i, j);
      if !ok {
        return;
      }
      chosen := ins;
      ChosenOk(start, levels[start], ins, i', j');
      OutputsOk(levels[out], outs, a, b);
      var clash, lo, hi := FilesRangeOverlap(start, ins, outs, out);
      if clash || (start == 0 && decline) {
        return;
      }
      NoneBusy(ins, outs, busy);
      NotInLevel0(levels, start, out, ins, outs);
      PickIsSeparate(levels, start, out, ins, i', j', outs, a, b);
      var c := Register(start, out, ins + outs, lo, hi);
      r := Some(c);
    }

    /** PickCompaction(): one level by priority, or a file marked for compaction. No file left out of the
        two levels shares a key with what it takes. */
    method PickCompaction(start: nat, out: nat, order: seq<nat>, marked: Option<nat>, limit: nat, decline: bool)
      returns (r: Option<Compaction>, next: nat, ghost chosen: seq<File>)
      requires Valid() && start < out < |levels| && forall n | n in order :: n < |levels[start]|
      requires marked.Some? ==> marked.value < |levels[start]| && levels[start][marked.value].number !in busy
      modifies this`busy, this`running, this`level0Running, this`nextId
      ensures Valid() && (r.None? ==> running == old(running) && busy == old(busy))
      ensures r.Some? ==>
                r.value !in old(running) && running == old(running) + {r.value} && r.value.startLevel == start &&
                    r.value.outputLevel == out
      ensures r.Some? ==> chosen != [] && forall f | f in chosen :: f in levels[start] && f in r.value.inputs
      ensures r.Some? ==>
                Separate(levels[start], levels[out], r.value.inputs, chosen) &&
                    (start == 0 ==> Whole(levels[0], chosen))
      ensures r.Some? && marked.Some? ==> levels[start][marked.value] in chosen
      ensures r.Some? && marked.None? ==>
                next < |order| && order[next] < |levels[start]| && levels[start][order[next]] in chosen
      ensures marked.None? ==>
                next <= |order| && forall m | 0 <= m < next ::
                    Blocked(start, levels[start], levels[out], old(busy), old(running), out, order[m])
    {
      hide AllCompatible, MarkedExactly, Level0Owned, AnyBusy, LevelsOk, Compatible, Blocked, StartFree, Complete,
             Whole, Smallest, Largest, Separate;
      r, next, chosen := None, 0, [];
      var inputs, base;
      ghost var i, j;
      if marked.Some? {
        base := None;
        inputs, i, j := PickMarkedFile(start, marked.value);
      } else {
        inputs, base, next, i, j := PickFileToCompact(start, out, order);
      }
      if inputs == [] {
        return;
      }
      FileIsTaken(start, levels[start], busy, if marked.Some? then marked.value else order[next], i, j);
      if start == 0 {
        var ok;
        ok, inputs := SetupOtherL0Files(inputs, out);
        if !ok {
          return;
        }
      }
      r, chosen := FinishPick(start, out, inputs, base, limit, decline, i, j);
    }

    /** PickIntraL0Compaction(): the newest files of level 0 go back to level 0. */
    method PickIntraL0Compaction(trigger: nat, max: nat) returns (r: Option<Compaction>, ghost run: nat)
      requires Valid()
      modifies this`busy, this`running, this`level0Running, this`nextId
      ensures Valid() && (r.None? ==> running == old(running) && busy == old(busy))
      ensures r.Some? ==>
                r.value !in old(running) && running == old(running) + {r.value} &&
                    r.value.startLevel == 0 == r.value.outputLevel
      ensures run > 0 <==> |levels[0]| >= trigger + 2 && levels[0][0].number !in old(busy)
      ensures run > 0 ==> IntraRun(levels[0], old(busy), run)
      ensures r.Some? <==> run >= MIN_FILES_FOR_INTRA_L0 && run <= |levels[0]| && LastCost(levels[0], run) < max
      ensures r.Some? ==> r.value.inputs == levels[0][..run]
    {
      hide AllCompatible, MarkedExactly, Level0Owned, LevelsOk, Compatible, AnyBusy, CostOf, LastCost;
      r, run := None, 0;
      var files := levels[0];
      if |files| < trigger + 2 || files[0].number in busy {
        return;
      }
      var n;
      n, run := FindIntraL0Compaction(files, busy, MIN_FILES_FOR_INTRA_L0, max);
      if n == 0 {
        return;
      }
      var inputs := files[..n];
      PrefixIdle(files, n, busy);
      LevelAt(0);
      var clash, lo, hi := FilesRangeOverlap(0, inputs, [], 0);
      assert inputs + [] == inputs;
      var c := Register(0, 0, inputs, lo, hi);
      r := Some(c);
    }

    /** CompactFiles(): a manual choice of files that are not busy. */
    method CompactFiles(start: nat, out: nat, inputs: seq<File>) returns (r: Option<Compaction>)
      requires Valid() && inputs != [] && !AnyBusy(inputs, busy)
      requires start > 0 ==> forall f | f in levels[0] :: f.number !in Numbers(inputs)
      modifies this`busy, this`running, this`level0Running, this`nextId
      ensures Valid() && (r.None? ==> running == old(running) && busy == old(busy))
      ensures r.None? <==> (start == 0 && old(level0Running) != {})
                           || exists c | c in old(running) ::
                                c.outputLevel == out && RangesMeet(c, Smallest(inputs), Largest(inputs))
      ensures r.Some? ==>
                r.value !in old(running) && running == old(running) + {r.value} && r.value.inputs == inputs &&
                    r.value.outputLevel == out
    {
      hide AllCompatible, MarkedExactly, Level0Owned, LevelsOk, Compatible, AnyBusy;
      r := None;
      if start == 0 && level0Running != {} {
        return;
      }
      var clash, lo, hi := FilesRangeOverlap(0, inputs, [], out);
      assert inputs + [] == inputs;
      if clash {
        return;
      }
      var c := Register(start, out, inputs, lo, hi);
      r := Some(c);
    }

    /** The files of the input level in a manual range; from level 1 down only so many of them, from the
        first, as reach the limit. The rest starts at `end`. */
    method ManualInputs(level: nat, b: Bounds, limit: nat)
      returns (inputs: seq<File>, end: Option<Key>, ghost i: nat, ghost j: nat)
      requires LevelsOk(levels) && level < |levels|
      ensures forall f | f in inputs :: f in levels[level]
      ensures forall f | f in levels[level] && Hit(f, b) :: f in inputs || (end.Some? && f.smallest >= end.value)
      ensures level == 0 ==> end == None && (inputs != [] ==> Whole(levels[0], inputs))
      ensures level > 0 ==>
                i <= j <= |levels[level]| && inputs == levels[level][i..j] && FirstHits(levels[level], b, i, j, end)
      ensures level > 0 ==> WithinLimit(inputs, limit) && (end.Some? ==> TotalSize(inputs) >= limit)
    {
      hide LevelsOk, Whole, TotalSize, FirstHits, WithinLimit;
      LevelAt(level);
      i, j, end := 0, 0, None;
      if level == 0 {
        var final;
        inputs, final := GetOverlappingLevel0(levels[0], b);
        forall f: File
          ensures f in inputs <==> f in levels[0] && Hit(f, final)
        {
          HitsMembers(levels[0], final, f);
        }
        if inputs != [] {
          HitsAreWhole(levels[0], final);
        }
      } else {
        inputs, i, j := ScanSorted(levels[level], b);
        inputs, end, j := CutAtLimit(levels[level], inputs, b, limit, i, j);
        HitsAreTaken(levels[level], b, i, j, end);
        RunMembers(levels[level], i, j, 0, |levels[level]|);
      }
    }

    /** CompactRange(), up to the clean cut on the input level. It is in conflict with a running compaction if
        level 0 is taken, or if no clean cut around the wanted files is idle. */
    method RangeInputs(level: nat, b: Bounds, limit: nat)
      returns (inputs: seq<File>, conflict: bool, end: Option<Key>, ghost wanted: seq<File>, ghost i: nat, ghost j: nat,
               ghost w: (nat, nat))
      requires Valid() && level < |levels|
      ensures forall f | f in levels[level] && Hit(f, b) :: f in wanted || (end.Some? && f.smallest >= end.value)
      ensures level > 0 ==> w.0 <= w.1 <= |levels[level]| && wanted == levels[level][w.0..w.1]
      ensures conflict <==>
                wanted != [] && if level == 0 then level0Running != {} else NoFreeCut(levels[level], busy, w.0, w.1)
      ensures inputs == [] <==> wanted == []
      ensures inputs != [] && !conflict ==>
                Chosen(level, levels[level], inputs, i, j) && !AnyBusy(inputs, busy) && forall f | f in wanted ::
                    f in inputs
      ensures inputs != [] && !conflict && level == 0 ==> inputs == wanted && Whole(levels[0], inputs)
      ensures inputs != [] && !conflict && level > 0 ==> InEveryCleanCut(levels[level], w.0, w.1, i, j)
    {
      hide AllCompatible, MarkedExactly, LevelsOk, AnyBusy, Whole, FirstHits, WithinLimit, InEveryCleanCut, NoFreeCut;
      LevelAt(level);
      inputs, end, i, j := ManualInputs(level, b, limit);
      wanted, conflict, w := inputs, false, (i, j);
      if inputs == [] {
        return;
      }
      if level == 0 {
        conflict := level0Running != {};
        if !conflict {
          Level0Idle();
          IdleFiles(levels[0], inputs, busy);
        }
      } else {
        var ok;
        ok, inputs, i, j := ExpandInputsToCleanCut(levels[level], busy, inputs, i, j);
        RunMembers(levels[level], i, j, 0, |levels[level]|);
        RunMembers(levels[level], w.0, w.1, i, j);
        conflict := !ok;
        FreeCutIff(levels[level], busy, w.0, w.1, i, j);
      }
    }

    /** CompactRange(): a manual compaction of a key range. It takes everything in the range up to `end`; no file
        left out of the two levels shares a key with what it takes. A conflict is reported if and only if the
        inputs, the outputs they need, or the range of both are taken by running compactions. */
    method CompactRange(level: nat, out: nat, b: Bounds, limit: nat)
      returns (r: Option<Compaction>, conflict: bool, end: Option<Key>, ghost wanted: seq<File>, ghost w: (nat, nat),
               ghost cut: seq<File>, ghost chosen: seq<File>, ghost outs: seq<File>)
      requires Valid() && level <= out < |levels| && (level == 0 ==> out > 0)
      modifies this`busy, this`running, this`level0Running, this`nextId
      ensures Valid() && (r.None? ==> running == old(running) && busy == old(busy))
      ensures r.Some? ==> r.value !in old(running) && running == old(running) + {r.value}
      ensures r.Some? ==> r.value.startLevel == level && r.value.outputLevel == out && r.value.inputs == chosen + outs
      ensures forall f | f in levels[level] && Hit(f, b) :: f in wanted || (end.Some? && f.smallest >= end.value)
      ensures r.None? <==> wanted == [] || conflict
      ensures level > 0 ==> w.0 <= w.1 <= |levels[level]| && wanted == levels[level][w.0..w.1]
      ensures wanted != [] ==> cut != [] && chosen != []
      ensures conflict <==>
              && wanted != []
              && (|| (if level == 0 then old(level0Running) != {} else NoFreeCut(levels[level], old(busy), w.0, w.1))
                  || (level < out && !OutputsFree(levels[out], old(busy), cut))
                  || !RangeFree(old(running), out, chosen + outs))
      ensures r.Some? ==> chosen != [] && (forall f | f in wanted :: f in cut) && (forall f | f in cut :: f in chosen)
      ensures r.Some? ==> forall f | f in chosen :: f in levels[level]
      ensures r.Some? && level < out ==> Separate(levels[level], levels[out], r.value.inputs, chosen)
      ensures r.Some? && level == 0 ==> Whole(levels[0], chosen)
    {
      hide AllCompatible, MarkedExactly, Level0Owned, LevelsOk, Compatible, AnyBusy, LevelOk, Smallest, Largest,
             Complete, Whole, Hit, Separate, NoFreeCut, OutputsFree, InEveryCleanCut;
      r := None;
      LevelAt(level);
      LevelAt(out);
      var inputs;
      ghost var i, j;
      inputs, conflict, end, wanted, i, j, w := RangeInputs(level, b, limit);
      cut, chosen, outs := inputs, inputs, [];
      if inputs == [] || conflict {
        return;
      }
      var outputs: seq<File> := [];
      if level != out {
        var ok;
        ghost var p, q;
        ok, inputs, outputs, i, j, p, q :=
          SetupOtherInputs(level, levels[level], levels[out], busy, inputs, limit, None, i, j);
        if !ok {
          conflict := true;
          return;
        }
        OutputsOk(levels[out], outputs, p, q);
        PickIsSeparate(levels, level, out, inputs, i, j, outputs, p, q);
      } else {
        OutputsOk(levels[out], outputs, 0, 0);
        NoneBusyHere(busy);
      }
      ChosenOk(level, levels[level], inputs, i, j);
      chosen, outs := inputs, outputs;
      var inUse := AreFilesInCompaction(inputs, busy);
      var outsInUse := AreFilesInCompaction(outputs, busy);
      assert !inUse && !outsInUse;
      var clash, lo, hi := FilesRangeOverlap(level, inputs, outputs, out);
      if clash {
        conflict := true;
        return;
      }
      NoneBusy(inputs, outputs, busy);
      NotInLevel0(levels, level, out, inputs, outputs);
      var c := Register(level, out, inputs + outputs, lo, hi);
      r := Some(c);
    }
  }

  /** Every clean cut around files[i..j] holds a busy file. */
  ghost predicate NoFreeCut(files: seq<File>, busy: set<nat>, i: nat, j: nat) {
    forall l: nat, r: nat | CleanCut(files, l, r) && l <= i && j <= r :: AnyBusy(files[l..r], busy)
  }

  lemma FreeCutIff(files: seq<File>, busy: set<nat>, i: nat, j: nat, i': nat, j': nat)
    requires i < j <= |files| && CleanCut(files, i', j') && i' <= i && j <= j' && InEveryCleanCut(files, i, j, i', j')
    ensures AnyBusy(files[i'..j'], busy) <==> NoFreeCut(files, busy, i, j)
  {
    if AnyBusy(files[i'..j'], busy) {
      forall l: nat, r: nat | CleanCut(files, l, r) && l <= i && j <= r
        ensures AnyBusy(files[l..r], busy)
      {
        RunMembers(files, i', j', l, r);
      }
    }
  }

  lemma IdleFiles(files: seq<File>, inputs: seq<File>, busy: set<nat>)
    requires (forall f | f in files :: f.number !in busy) && forall f | f in inputs :: f in files
    ensures !AnyBusy(inputs, busy)
  {
  }

  lemma NoneBusyHere(busy: set<nat>)
    ensures !AnyBusy([], busy)
  {
  }

  /** The limit on a manual compaction: the first files of a run whose size reaches it. */
  method CutAtLimit(files: seq<File>, hits: seq<File>, b: Bounds, limit: nat, ghost i: nat, ghost j: nat)
    returns (inputs: seq<File>, end: Option<Key>, ghost j': nat)
    requires i <= j <= |files| && hits == files[i..j] && forall k | 0 <= k < |files| :: i <= k < j <==> Hit(files[k], b)
    ensures i <= j' <= |files| && inputs == files[i..j'] && FirstHits(files, b, i, j', end)
    ensures (hits != [] ==> inputs != [])
    ensures WithinLimit(inputs, limit) && (end.Some? ==> TotalSize(inputs) >= limit)
  {
    hide TotalSize, Hit;
    inputs, end, j' := hits, None, j;
    var n, total := 0, 0;
    SizeOfNone(hits);
    while n + 1 < |hits|
      invariant 0 <= n <= |hits| && total == TotalSize(hits[..n]) && forall k | 0 < k <= n ::
                  TotalSize(hits[..k]) < limit
    {
      SizeOfMore(hits, n);
      total := total + hits[n].size;
      if total >= limit {
        inputs, end, j' := hits[..n + 1], Some(hits[n + 1].smallest), i + n + 1;
        assert forall k | 0 < k <= n :: inputs[..k] == hits[..k];
        assert hits[n + 1] == files[j'] && inputs == files[i..j'];
        return;
      }
      n := n + 1;
    }
  }

  lemma SizeOfNone(fs: seq<File>)
    ensures TotalSize(fs[..0]) == 0
  {
  }

  lemma SizeOfMore(fs: seq<File>, n: nat)
    requires n < |fs|
    ensures TotalSize(fs[..n + 1]) == TotalSize(fs[..n]) + fs[n].size
  {
    assert fs[..n + 1][..n] == fs[..n];
  }

  /** files[i..j] are the files in the range, or the first of them if the others start at `end`. */
  ghost predicate FirstHits(files: seq<File>, b: Bounds, i: nat, j: nat, end: Option<Key>)
    requires i <= j <= |files|
  {
    && (forall k | i <= k < j :: Hit(files[k], b)) && (forall k | 0 <= k < i :: !Hit(files[k], b))
    && (end.None? ==> forall k | j <= k < |files| :: !Hit(files[k], b))
    && (end.Some? ==> i < j < |files| && Hit(files[j], b) && end.value == files[j].smallest)
  }

  lemma HitsAreTaken(files: seq<File>, b: Bounds, i: nat, j: nat, end: Option<Key>)
    requires LevelOk(files) && i <= j <= |files| && FirstHits(files, b, i, j, end)
    ensures forall f | f in files && Hit(f, b) :: f in files[i..j] || (end.Some? && f.smallest >= end.value)
  {
    forall f | f in files && Hit(f, b)
      ensures f in files[i..j] || (end.Some? && f.smallest >= end.value)
    {
      var k :| 0 <= k < |files| && files[k] == f;
      if k < j {
        assert files[i..j][k - i] == f;
      } else if k > j {
        assert files[j].smallest <= files[j].largest <= files[k].smallest;
      }
    }
  }

  /** Without its last file the choice stays below the limit. */
  ghost predicate WithinLimit(inputs: seq<File>, limit: nat) {
    forall k | 0 < k < |inputs| :: TotalSize(inputs[..k]) < limit
  }

  lemma OverlapMembers(files: seq<File>, lo: Key, hi: Key, p: nat, q: nat)
    requires ExactRange(files, lo, hi, p, q)
    ensures forall f | f in files[p..q] :: f in files && Overlaps(f, lo, hi)
  {
    forall f | f in files[p..q]
      ensures f in files && Overlaps(f, lo, hi)
    {
      var k :| 0 <= k < q - p && files[p..q][k] == f;
      assert files[p + k] == f;
    }
  }

  /** kMinFilesForIntraL0Compaction */
  const MIN_FILES_FOR_INTRA_L0 := 4

  /** Bytes compacted per file that the compaction of the first n files removes. */
  function CostOf(files: seq<File>, n: nat): nat
    requires 2 <= n <= |files|
  {
    TotalSize(files[..n]) / (n - 1)
  }

  /** The newest `run` files of level 0 are idle, adding each of them did not raise the cost per removed
      file, and the run ends only at a busy file, at a rise of the cost or with the level. */
  ghost predicate IntraRun(files: seq<File>, busy: set<nat>, run: nat) {
    && 1 <= run <= |files| && (forall k | 0 <= k < run :: files[k].number !in busy)
    && (forall k | 3 <= k <= run :: CostOf(files, k) <= CostOf(files, k - 1))
    && (run < |files| ==> files[run].number in busy || (run >= 2 && CostOf(files, run + 1) > CostOf(files, run)))
  }

  /** The cost compared with the limit: that of the run with the file that ended it. */
  function LastCost(files: seq<File>, run: nat): nat
    requires run <= |files|
  {
    if |files| < 2 || run == 0 then 0 else CostOf(files, if run < |files| then run + 1 else run)
  }

  /** FindIntraL0Compaction(): how many of the newest files of level 0 to compact into one, or 0. */
  method FindIntraL0Compaction(files: seq<File>, busy: set<nat>, min: nat, max: nat) returns (n: nat, ghost run: nat)
    requires files != [] && files[0].number !in busy
    ensures n > 0 ==> n >= min && IntraRun(files, busy, n)
    ensures IntraRun(files, busy, run) && n == if run >= min && LastCost(files, run) < max then run else 0
  {
    var bytes := files[0].size;
    var cost, newCost := 0, 0;
    n := 1;
    assert files[..1][..0] == [];
    while n < |files|
      invariant 1 <= n <= |files| && bytes == TotalSize(files[..n])
      invariant forall k | 0 <= k < n :: files[k].number !in busy
      invariant forall k | 3 <= k <= n :: CostOf(files, k) <= CostOf(files, k - 1)
      invariant newCost == cost == if n >= 2 then CostOf(files, n) else 0
      decreases |files| - n
    {
      SizeOfMore(files, n);
      bytes := bytes + files[n].size;
      newCost := bytes / n;
      if files[n].number in busy || (n >= 2 && newCost > cost) {
        break;
      }
      cost := newCost;
      n := n + 1;
    }
    run := n;
    if !(n >= min && newCost < max) {
      n := 0;
    }
  }

  lemma PrefixIdle(files: seq<File>, n: nat, busy: set<nat>)
    requires n <= |files| && forall k | 0 <= k < n :: files[k].number !in busy
    ensures !AnyBusy(files[..n], busy)
  {
  }

  lemma OutputsOk(outFiles: seq<File>, outputs: seq<File>, a: nat, b: nat)
    requires LevelOk(outFiles) && (outputs == [] || (CleanCut(outFiles, a, b) && outputs == outFiles[a..b]))
    ensures LevelOk(outputs) && forall f | f in outputs :: f in outFiles
  {
  }

  lemma NoneBusy(fs: seq<File>, gs: seq<File>, busy: set<nat>)
    requires !AnyBusy(fs, busy) && !AnyBusy(gs, busy)
    ensures !AnyBusy(fs + gs, busy)
  {
  }

  /** What the picker takes is apart from what it leaves. */
  lemma PickIsSeparate(levels: seq<seq<File>>, start: nat, out: nat, ins: seq<File>, i: nat, j: nat, outs: seq<File>,
                       a: nat, b: nat)
    requires LevelsOk(levels) && start < out < |levels| && Chosen(start, levels[start], ins, i, j)
    requires start == 0 ==> Whole(levels[0], ins)
    requires outs == [] || (CleanCut(levels[out], a, b) && outs == levels[out][a..b])
    requires Complete(levels[out], outs, Smallest(ins), Largest(ins))
    ensures Separate(levels[start], levels[out], ins + outs, ins)
  {
    OtherLevel(levels, start, out);
    forall f, g | f in levels[start] && f in ins + outs && g in levels[start] && g !in ins + outs
      ensures !Share(f, g)
    {
      assert f in ins;
      if start == 0 {
        HullCovers(ins, f);
      } else {
        CutSealed(levels[start], ins, i, j, f, g);
      }
    }
    forall f, g | f in levels[out] && f in ins + outs && g in levels[out] && g !in ins + outs
      ensures !Share(f, g)
    {
      assert f in outs;
      CutSealed(levels[out], outs, a, b, f, g);
    }
  }

  lemma IndexOf(files: seq<File>, f: File) returns (n: nat)
    requires f in files
    ensures n < |files| && files[n] == f
  {
    n :| n < |files| && files[n] == f;
  }

  lemma InCut(files: seq<File>, i: nat, j: nat, n: nat)
    requires i <= j <= |files| && n < |files|
    ensures i <= n < j ==> files[n] in files[i..j]
  {
    if i <= n < j {
      assert files[i..j][n - i] == files[n];
    }
  }

  lemma CutSealed(files: seq<File>, inputs: seq<File>, i: nat, j: nat, f: File, g: File)
    requires LevelOk(files) && CleanCut(files, i, j) && inputs == files[i..j]
    requires f in inputs && g in files && g !in inputs
    ensures !Share(f, g)
  {
    assert i < j <= |files|;
    hide LevelOk, CleanCut, Share;
    var x := IndexOf(inputs, f);
    var y := IndexOf(files, g);
    InCut(files, i, j, y);
    CleanCutSharesNothing(files, i, j, i + x, y);
  }

  lemma OtherLevel(levels: seq<seq<File>>, l: nat, m: nat)
    requires LevelsOk(levels) && l < |levels| && m < |levels| && l != m
    ensures forall f | f in levels[l] :: f !in levels[m]
  {
    forall f | f in levels[l]
      ensures f !in levels[m]
    {
      var x :| 0 <= x < |levels[l]| && levels[l][x] == f;
    }
  }

  /** Files of deeper levels are no files of level 0. */
  lemma NotInLevel0(levels: seq<seq<File>>, start: nat, out: nat, ins: seq<File>, outs: seq<File>)
    requires LevelsOk(levels) && start < |levels| && 0 < out < |levels|
    requires (forall f | f in ins :: f in levels[start]) && forall f | f in outs :: f in levels[out]
    ensures start > 0 ==> forall f | f in levels[0] :: f.number !in Numbers(ins + outs)
  {
    forall f | f in levels[0]
      ensures start > 0 ==> f.number !in Numbers(ins + outs)
    {
      if start > 0 {
        var k :| 0 <= k < |levels[0]| && levels[0][k] == f;
        forall g | g in ins + outs
          ensures g.number != f.number
        {
          var l := if g in ins then start else out;
          var n :| 0 <= n < |levels[l]| && levels[l][n] == g;
          assert levels[0][k].number != levels[l][n].number;
        }
      }
    }
  }

  lemma MarkMore(running: set<Compaction>, busy: set<nat>, c: Compaction)
    requires MarkedExactly(running, busy)
    ensures MarkedExactly(running + {c}, busy + Numbers(c.inputs))
  {
    forall n | n in busy + Numbers(c.inputs)
      ensures exists d | d in running + {c} :: n in Numbers(d.inputs)
    {
      if n in Numbers(c.inputs) {
        assert c in running + {c};
      } else {
        var d :| d in running && n in Numbers(d.inputs);
        assert d in running + {c};
      }
    }
  }

  lemma MarkLess(running: set<Compaction>, busy: set<nat>, c: Compaction)
    requires MarkedExactly(running, busy) && AllCompatible(running) && c in running
    ensures MarkedExactly(running - {c}, busy - Numbers(c.inputs))
  {
    forall d | d in running - {c}
      ensures Numbers(d.inputs) <= busy - Numbers(c.inputs)
    {
      assert Compatible(c, d);
    }
    forall n | n in busy - Numbers(c.inputs)
      ensures exists d | d in running - {c} :: n in Numbers(d.inputs)
    {
      var d :| d in running && n in Numbers(d.inputs);
      assert d in running - {c};
    }
  }

  lemma OwnMore(level0: seq<File>, running: set<Compaction>, busy: set<nat>, c: Compaction)
    requires Level0Owned(level0, running, busy)
    requires c.startLevel > 0 ==> forall f | f in level0 :: f.number !in Numbers(c.inputs)
    ensures Level0Owned(level0, running + {c}, busy + Numbers(c.inputs))
  {
    forall f | f in level0 && f.number in busy + Numbers(c.inputs)
      ensures exists d | d in running + {c} && d.startLevel == 0 :: f.number in Numbers(d.inputs)
    {
      if f.number in Numbers(c.inputs) {
        assert c in running + {c} && c.startLevel == 0;
      } else {
        var d :| d in running && d.startLevel == 0 && f.number in Numbers(d.inputs);
        assert d in running + {c};
      }
    }
  }

  lemma OwnLess(level0: seq<File>, running: set<Compaction>, busy: set<nat>, c: Compaction)
    requires Level0Owned(level0, running, busy)
    ensures Level0Owned(level0, running - {c}, busy - Numbers(c.inputs))
  {
    forall f | f in level0 && f.number in busy - Numbers(c.inputs)
      ensures exists d | d in running - {c} && d.startLevel == 0 :: f.number in Numbers(d.inputs)
    {
      var d :| d in running && d.startLevel == 0 && f.number in Numbers(d.inputs);
      assert d in running - {c};
    }
  }
}
