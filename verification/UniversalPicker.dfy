/** The universal compaction picker: sorted runs, newest first, and the choice of a block of neighbouring
    runs to merge. */
module UniversalPicker {
  import opened Common

  /** A file as this picker sees it: its sizes, and whether a compaction has it. */
  datatype SizedFile = SizedFile(number: nat, size: nat, compensated: nat, busy: bool)

  /** A sorted run: one file of level 0, or all files of a deeper level. */
  datatype Run = Run(level: nat, files: seq<SizedFile>, size: nat, compensated: nat, busy: bool)

  function TotalSize(files: seq<SizedFile>): nat {
    if files == [] then 0 else TotalSize(files[..|files| - 1]) + files[|files| - 1].size
  }

  function TotalCompensated(files: seq<SizedFile>): nat {
    if files == [] then 0 else TotalCompensated(files[..|files| - 1]) + files[|files| - 1].compensated
  }

  /** Newer runs come first: level 0 by age, then the deeper levels, one run each. */
  ghost predicate Ordered(runs: seq<Run>) {
    forall i, j | 0 <= i < j < |runs| ::
        runs[i].level <= runs[j].level && (runs[j].level > 0 ==> runs[i].level < runs[j].level)
  }

  /** A run is its level's files, and their sizes. */
  ghost predicate RunOk(levels: seq<seq<SizedFile>>, run: Run) {
    && run.level < |levels| && run.size == TotalSize(run.files) && run.compensated == TotalCompensated(run.files)
    && (if run.level == 0 then |run.files| == 1 && run.files[0] in levels[0] else run.files == levels[run.level])
  }

  /** Without trivial moves a deeper level is compacted as a whole, so its files have the same flag. */
  predicate Uniform(levels: seq<seq<SizedFile>>) {
    forall l, i, j | 1 <= l < |levels| && 0 <= i < |levels[l]| && 0 <= j < |levels[l]| ::
        levels[l][i].busy == levels[l][j].busy
  }

  /** A run is marked exactly if one of its files is under compaction. */
  ghost predicate MarkedOk(run: Run) {
    run.busy <==> exists f | f in run.files :: f.busy
  }

  lemma SingleTotals(f: SizedFile)
    ensures TotalSize([f]) == f.size && TotalCompensated([f]) == f.compensated
  {
    assert [f][..0] == [];
  }

  /** One deeper level of CalculateSortedRuns(). */
  method LevelRun(files: seq<SizedFile>, level: nat, allowTrivialMove: bool) returns (run: Run)
    requires level > 0
    requires (allowTrivialMove || forall i, j | 0 <= i < |files| && 0 <= j < |files| :: files[i].busy == files[j].busy)
    ensures run.level == level && run.files == files && run.size == TotalSize(files)
    ensures run.compensated == TotalCompensated(files)
    ensures run.busy <==> exists f | f in files :: f.busy
  {
    var size, compensated, busy, first := 0, 0, false, true;
    var n := 0;
    while n < |files|
      invariant 0 <= n <= |files| && size == TotalSize(files[..n]) && compensated == TotalCompensated(files[..n])
      invariant first <==> n == 0
      invariant busy <==> exists k | 0 <= k < n :: files[k].busy
    {
      var f := files[n];
      assert files[..n + 1][..n] == files[..n];
      compensated := compensated + f.compensated;
      size := size + f.size;
      if allowTrivialMove {
        if f.busy {
          busy := f.busy;
        }
      } else {
        assert first || f.busy == busy;
      }
      if first {
        busy, first := f.busy, false;
      }
      n := n + 1;
    }
    assert files[..n] == files;
    run := Run(level, files, size, compensated, busy);
  }

  /** CalculateSortedRuns(): ordered by age and level; levels without bytes make no run. */
  method CalculateSortedRuns(levels: seq<seq<SizedFile>>, allowTrivialMove: bool) returns (runs: seq<Run>)
    requires levels != [] && (allowTrivialMove || Uniform(levels))
    ensures Ordered(runs) && forall run | run in runs :: RunOk(levels, run) && MarkedOk(run)
    ensures |runs| >= |levels[0]| && forall i | 0 <= i < |levels[0]| ::
              runs[i].level == 0 && runs[i].files == [levels[0][i]]
    ensures forall i | |levels[0]| <= i < |runs| :: runs[i].level > 0 && runs[i].compensated > 0
    ensures forall l | 1 <= l < |levels| && TotalCompensated(levels[l]) > 0 ::
              exists i | 0 <= i < |runs| :: runs[i].level == l
  {
    hide TotalSize, TotalCompensated, MarkedOk, RunOk, Uniform;
    runs := Level0Runs(levels);
    var level := 1;
    while level < |levels|
      invariant 1 <= level <= |levels| && |runs| >= |levels[0]|
      invariant forall i | 0 <= i < |levels[0]| :: runs[i].level == 0 && runs[i].files == [levels[0][i]]
      invariant Ordered(runs) && forall i | 0 <= i < |runs| :: runs[i].level < level
      invariant forall i | |levels[0]| <= i < |runs| :: runs[i].level > 0 && runs[i].compensated > 0
      invariant forall run | run in runs :: RunOk(levels, run) && MarkedOk(run)
      invariant forall l | 1 <= l < level && TotalCompensated(levels[l]) > 0 ::
                  exists i | 0 <= i < |runs| :: runs[i].level == l
    {
      UniformLevel(levels, level, allowTrivialMove);
      var run := LevelRun(levels[level], level, allowTrivialMove);
      DeepRun(levels, run);
      if run.compensated > 0 {
        ghost var before := runs;
        runs := runs + [run];
        LevelAdded(levels, before, runs, level);
      }
      level := level + 1;
    }
  }

  lemma UniformLevel(levels: seq<seq<SizedFile>>, level: nat, allowTrivialMove: bool)
    requires (allowTrivialMove || Uniform(levels)) && 1 <= level < |levels|
    ensures allowTrivialMove || forall i, j | 0 <= i < |levels[level]| && 0 <= j < |levels[level]| ::
              levels[level][i].busy == levels[level][j].busy
  {
  }

  lemma DeepRun(levels: seq<seq<SizedFile>>, run: Run)
    requires 0 < run.level < |levels| && run.files == levels[run.level] && run.size == TotalSize(run.files)
    requires run.compensated == TotalCompensated(run.files)
    requires run.busy <==> exists f | f in run.files :: f.busy
    ensures RunOk(levels, run) && MarkedOk(run)
  {
  }

  /** Every file of level 0 is a run of its own. */
  method Level0Runs(levels: seq<seq<SizedFile>>) returns (runs: seq<Run>)
    requires levels != []
    ensures |runs| == |levels[0]| && forall i | 0 <= i < |levels[0]| ::
              runs[i].level == 0 && runs[i].files == [levels[0][i]]
    ensures forall run | run in runs :: RunOk(levels, run) && MarkedOk(run)
  {
    runs := [];
    var n := 0;
    while n < |levels[0]|
      invariant 0 <= n == |runs| <= |levels[0]| && forall i | 0 <= i < n ::
                  runs[i].level == 0 && runs[i].files == [levels[0][i]]
      invariant forall run | run in runs :: RunOk(levels, run) && MarkedOk(run)
    {
      var f := levels[0][n];
      SingleTotals(f);
      runs := runs + [Run(0, [f], f.size, f.compensated, f.busy)];
      n := n + 1;
    }
  }

  lemma LevelAdded(levels: seq<seq<SizedFile>>, before: seq<Run>, runs: seq<Run>, level: nat)
    requires level < |levels| && |runs| == |before| + 1 && runs[..|before|] == before && runs[|before|].level == level
    requires forall l | 1 <= l < level && TotalCompensated(levels[l]) > 0 ::
               exists i | 0 <= i < |before| :: before[i].level == l
    ensures forall l | 1 <= l <= level && TotalCompensated(levels[l]) > 0 ::
              exists i | 0 <= i < |runs| :: runs[i].level == l
  {
    forall l | 1 <= l <= level && TotalCompensated(levels[l]) > 0
      ensures exists i | 0 <= i < |runs| :: runs[i].level == l
    {
      if l == level {
        assert runs[|before|].level == l;
      } else {
        var i :| 0 <= i < |before| && before[i].level == l;
        assert runs[i].level == l;
      }
    }
  }

  // ---------------------------------------------------------------- how far a block reaches

  datatype Rule = Rule(ratio: nat, similar: bool, maxFiles: nat)

  /** b is larger than a by more than the ratio. */
  predicate Outgrown(rule: Rule, a: nat, b: nat) {
    a * (100 + rule.ratio) < 100 * b
  }

  /** The next run still belongs: it is idle, and its size is within the ratio of what was picked (and,
      with the similar-size rule, the other way round). */
  predicate Fits(rule: Rule, candidate: nat, next: Run) {
    && !next.busy && !Outgrown(rule, candidate, next.size)
    && (rule.similar ==> !Outgrown(rule, next.size, candidate))
  }

  function Grown(rule: Rule, candidate: nat, next: Run): nat {
    if rule.similar then next.compensated else candidate + next.compensated
  }

  /** How many runs are picked in the end, when `count` of them, up to run i, are. */
  function Reach(runs: seq<Run>, rule: Rule, i: nat, count: nat, candidate: nat): (n: nat)
    requires i <= |runs|
    ensures count <= n <= count + |runs| - i && (n > count ==> n <= rule.maxFiles)
    decreases |runs| - i
  {
    if count < rule.maxFiles && i < |runs| && Fits(rule, candidate, runs[i])
    then Reach(runs, rule, i + 1, count + 1, Grown(rule, candidate, runs[i]))
    else count
  }

  /** The width of the block that starts at run s. */
  function Width(runs: seq<Run>, rule: Rule, s: nat): nat
    requires s < |runs|
  {
    if runs[s].busy then 0 else Reach(runs, rule, s + 1, 1, runs[s].compensated)
  }

  function CompensatedSum(runs: seq<Run>): nat {
    if runs == [] then 0 else CompensatedSum(runs[..|runs| - 1]) + runs[|runs| - 1].compensated
  }

  /** What run k is compared with, in a block from s on: the runs of the block before it, or with the similar-size
      rule the last of them. */
  function Candidate(runs: seq<Run>, rule: Rule, s: nat, k: nat): nat
    requires s < k <= |runs|
  {
    if rule.similar then runs[k - 1].compensated else CompensatedSum(runs[s..k])
  }

  /** The block from s on: every run after the first fits those before it, and the block ends only with the last
      run, at the width limit, or before a run that is busy or does not fit. */
  ghost predicate IsBlock(runs: seq<Run>, rule: Rule, s: nat, w: nat) {
    && 1 <= w && s + w <= |runs| && !runs[s].busy && (w > 1 ==> w <= rule.maxFiles)
    && (forall k | s < k < s + w :: Fits(rule, Candidate(runs, rule, s, k), runs[k]))
    && (s + w == |runs| || w >= rule.maxFiles || !Fits(rule, Candidate(runs, rule, s, s + w), runs[s + w]))
  }

  lemma CandidateGrows(runs: seq<Run>, rule: Rule, s: nat, k: nat)
    requires s < k < |runs|
    ensures Candidate(runs, rule, s, k + 1) == Grown(rule, Candidate(runs, rule, s, k), runs[k])
  {
    assert runs[s..k + 1][..k - s] == runs[s..k];
  }

  lemma CandidateStarts(runs: seq<Run>, rule: Rule, s: nat)
    requires s < |runs|
    ensures Candidate(runs, rule, s, s + 1) == runs[s].compensated
  {
    var one := runs[s..s + 1];
    assert one == [runs[s]] && one[..0] == [];
    assert CompensatedSum(one) == CompensatedSum(one[..0]) + one[0].compensated;
  }

  /** The reach from a run on, as long as every run before it fits, completes a block. */
  lemma {:induction false} ReachIsBlock(runs: seq<Run>, rule: Rule, s: nat, i: nat)
    requires s < i <= |runs| && !runs[s].busy && (i > s + 1 ==> i - s <= rule.maxFiles)
    requires forall k | s < k < i :: Fits(rule, Candidate(runs, rule, s, k), runs[k])
    ensures IsBlock(runs, rule, s, Reach(runs, rule, i, i - s, Candidate(runs, rule, s, i)))
    decreases |runs| - i
  {
    hide Fits, Candidate;
    if i - s < rule.maxFiles && i < |runs| && Fits(rule, Candidate(runs, rule, s, i), runs[i]) {
      CandidateGrows(runs, rule, s, i);
      ReachIsBlock(runs, rule, s, i + 1);
    }
  }

  /** The width of an idle run's block is the one width that makes a block. */
  lemma WidthIsBlock(runs: seq<Run>, rule: Rule, s: nat, w: nat)
    requires s < |runs| && !runs[s].busy
    ensures w == Width(runs, rule, s) <==> IsBlock(runs, rule, s, w)
  {
    CandidateStarts(runs, rule, s);
    ReachIsBlock(runs, rule, s, s + 1);
    hide Fits, Candidate, Reach;
    if IsBlock(runs, rule, s, w) {
      OneBlock(runs, rule, s, w, Width(runs, rule, s));
    }
  }

  lemma OneBlock(runs: seq<Run>, rule: Rule, s: nat, v: nat, w: nat)
    requires IsBlock(runs, rule, s, v) && IsBlock(runs, rule, s, w)
    ensures v == w
  {
    hide Fits, Candidate;
  }

  lemma {:induction false} ReachIsIdle(runs: seq<Run>, rule: Rule, i: nat, count: nat, candidate: nat, k: nat)
    requires i <= |runs| && i <= k && k - i < Reach(runs, rule, i, count, candidate) - count
    ensures k < |runs| && !runs[k].busy
    decreases |runs| - i
  {
    if i < k {
      ReachIsIdle(runs, rule, i + 1, count + 1, Grown(rule, candidate, runs[i]), k);
    }
  }

  /** A block is made of neighbouring idle runs and is no wider than allowed. */
  lemma BlockIsIdle(runs: seq<Run>, rule: Rule, s: nat)
    requires s < |runs| && Width(runs, rule, s) > 0
    ensures s + Width(runs, rule, s) <= |runs| && forall k | s <= k < s + Width(runs, rule, s) :: !runs[k].busy
    ensures Width(runs, rule, s) > 1 ==> Width(runs, rule, s) <= rule.maxFiles
  {
    forall k | s < k < s + Width(runs, rule, s)
      ensures !runs[k].busy
    {
      ReachIsIdle(runs, rule, s + 1, 1, runs[s].compensated, k);
    }
  }

  // ---------------------------------------------------------------- the pick

  datatype Pick = Pick(start: nat, count: nat, level: nat)

  /** Where the merged run goes: to the last level, to level 0, or just above the next older run. */
  function OutputLevel(runs: seq<Run>, after: nat, numLevels: nat): nat
    requires after <= |runs| && numLevels > 0
  {
    if after == |runs| then numLevels - 1 else if runs[after].level == 0 then 0 else runs[after].level - 1
  }

  /** The runs once the picked block is merged into one. */
  function Merged(runs: seq<Run>, p: Pick, merged: Run): seq<Run>
    requires p.start + p.count <= |runs|
  {
    runs[..p.start] + [merged] + runs[p.start + p.count..]
  }

  lemma ReachStep(runs: seq<Run>, rule: Rule, i: nat, count: nat, candidate: nat)
    requires count < rule.maxFiles && i < |runs|
    ensures Fits(rule, candidate, runs[i]) ==>
              Reach(runs, rule, i, count, candidate) ==
              Reach(runs, rule, i + 1, count + 1, Grown(rule, candidate, runs[i]))
  {
  }

  lemma ReachEnds(runs: seq<Run>, rule: Rule, i: nat, count: nat, candidate: nat)
    requires i <= |runs| && !(count < rule.maxFiles && i < |runs| && Fits(rule, candidate, runs[i]))
    ensures Reach(runs, rule, i, count, candidate) == count
  {
  }

  /** The inner loop: how many runs the block from s on takes in. */
  method MeasureBlock(runs: seq<Run>, rule: Rule, s: nat) returns (count: nat)
    requires s < |runs| && !runs[s].busy
    ensures count == Width(runs, rule, s) && IsBlock(runs, rule, s, count)
  {
    WidthIsBlock(runs, rule, s, Width(runs, rule, s));
    assert Width(runs, rule, s) == Reach(runs, rule, s + 1, 1, runs[s].compensated);
    hide IsBlock, Width, Reach, Outgrown;
    count := 1;
    var candidate: nat := runs[s].compensated;
    var i := s + 1;
    while count < rule.maxFiles && i < |runs|
      invariant i <= |runs| && i == s + count
      invariant Reach(runs, rule, i, count, candidate) == Width(runs, rule, s)
    {
      var next := runs[i];
      ReachStep(runs, rule, i, count, candidate);
      if next.busy || Outgrown(rule, candidate, next.size) {
        break;
      }
      if rule.similar {
        if Outgrown(rule, next.size, candidate) {
          break;
        }
        candidate := next.compensated;
      } else {
        candidate := candidate + next.compensated;
      }
      count, i := count + 1, i + 1;
    }
    ReachEnds(runs, rule, i, count, candidate);
  }

  /** PickCompactionToReduceSortedRuns(), without ingest-behind: the newest block that is wide enough. */
  method PickSortedRuns(runs: seq<Run>, ratio: nat, similar: bool, minWidth: nat, maxWidth: nat, maxFiles: nat,
                        numLevels: nat) returns (r: Option<Pick>)
    requires Ordered(runs) && numLevels > 0 && forall run | run in runs :: run.level < numLevels
    ensures var rule := Rule(ratio, similar, Min(maxWidth, maxFiles));
            && (r.Some? ==>
                  && r.value.start + r.value.count <= |runs| && r.value.start < |runs|
                  && r.value.count == Width(runs, rule, r.value.start) >= Max(minWidth, 2)
                  && (forall s | 0 <= s < r.value.start :: Width(runs, rule, s) < Max(minWidth, 2))
                  && r.value.level == OutputLevel(runs, r.value.start + r.value.count, numLevels))
            && (r.None? ==> forall s | 0 <= s < |runs| :: Width(runs, rule, s) < Max(minWidth, 2))
  {
    hide Reach, OutputLevel;
    var least, most := Max(minWidth, 2), Min(maxWidth, maxFiles);
    ghost var rule := Rule(ratio, similar, most);
    var loop_ := 0;
    while loop_ < |runs|
      invariant 0 <= loop_ <= |runs| && forall s | 0 <= s < loop_ :: Width(runs, rule, s) < least
    {
      while loop_ < |runs| && runs[loop_].busy
        invariant 0 <= loop_ <= |runs| && forall s | 0 <= s < loop_ :: Width(runs, rule, s) < least
      {
        loop_ := loop_ + 1;
      }
      if loop_ == |runs| {
        break;
      }
      var count := MeasureBlock(runs, Rule(ratio, similar, most), loop_);
      if count >= least {
        var after := loop_ + count;
        r := Some(Pick(loop_, count, OutputLevel(runs, after, numLevels)));
        return;
      }
      loop_ := loop_ + 1;
    }
    r := None;
  }

  /** The output level is at least every picked level, newer runs stay shallower (or in level 0), older
      ones stay deeper (or in level 0 if the output goes there). */
  lemma LevelsAround(runs: seq<Run>, p: Pick, numLevels: nat, k: nat)
    requires Ordered(runs) && numLevels > 0 && (forall run | run in runs :: run.level < numLevels) && k < |runs|
    requires p.count > 0 && p.start + p.count <= |runs| && p.level == OutputLevel(runs, p.start + p.count, numLevels)
    ensures p.start <= k < p.start + p.count ==> runs[k].level <= p.level
    ensures k < p.start ==> runs[k].level < p.level || runs[k].level == 0
    ensures p.start + p.count <= k ==> runs[k].level > p.level || runs[k].level == p.level == 0
  {
    var after := p.start + p.count;
    assert runs[k] in runs && runs[p.start] in runs;
    assert k < p.start ==> runs[k].level <= runs[p.start].level;
    assert after < |runs| ==> runs[p.start].level <= runs[after].level;
    assert after < k ==> runs[after].level <= runs[k].level;
  }

  lemma MergedAt(runs: seq<Run>, p: Pick, merged: Run, k: nat)
    requires p.count > 0 && p.start + p.count <= |runs| && k < |Merged(runs, p, merged)|
    ensures Merged(runs, p, merged)[k] == if k < p.start then runs[k] else if k == p.start then merged
              else runs[k + p.count - 1]
  {
  }

  /** So merging a block keeps the runs ordered by age and level. */
  lemma MergeKeepsOrder(runs: seq<Run>, p: Pick, numLevels: nat, merged: Run)
    requires Ordered(runs) && numLevels > 0 && (forall run | run in runs :: run.level < numLevels)
    requires p.count > 0 && p.start + p.count <= |runs| && p.level == OutputLevel(runs, p.start + p.count, numLevels)
    requires merged.level == p.level
    ensures Ordered(Merged(runs, p, merged))
  {
    var result := Merged(runs, p, merged);
    forall i, j | 0 <= i < j < |result|
      ensures result[i].level <= result[j].level && (result[j].level > 0 ==> result[i].level < result[j].level)
    {
      hide OutputLevel, Merged;
      MergedAt(runs, p, merged, i);
      MergedAt(runs, p, merged, j);
      if j == p.start {
        LevelsAround(runs, p, numLevels, i);
      } else if i == p.start {
        LevelsAround(runs, p, numLevels, j + p.count - 1);
      }
    }
  }
}
