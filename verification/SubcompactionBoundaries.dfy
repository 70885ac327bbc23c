/** Choosing the boundaries (CompactionJob::GenSubcompactionBoundaries) and laying out the ranges
    (CompactionJob::Prepare). */
module SubcompactionBoundaries {
  import opened Common
  import opened LevelFiles
  import opened Records
  import opened Subcompaction

  datatype InputLevel = InputLevel(level: nat, files: seq<File>)

  function Sum(xs: seq<nat>): nat {
    if xs == [] then 0 else Sum(xs[..|xs| - 1]) + xs[|xs| - 1]
  }

  lemma SumAppend(xs: seq<nat>, x: nat)
    ensures Sum(xs + [x]) == Sum(xs) + x
  {
    assert (xs + [x])[..|xs|] == xs;
  }

  // ---------------------------------------------------------------- candidate keys

  /** Put `k` into a strictly increasing list, once (the effect of std::sort then std::unique). */
  function InsertKey(b: seq<Key>, k: Key): (r: seq<Key>)
    requires Increasing(b)
    ensures Increasing(r)
    ensures forall x :: x in r <==> x in b || x == k
  {
    if b == [] then [k]
    else if k < b[0] then [k] + b
    else if k == b[0] then b
    else
      assert forall i | 0 <= i < |b[1..]| :: b[1..][i] == b[i + 1];
      var rest := InsertKey(b[1..], k);
      assert forall i | 0 <= i < |rest| :: rest[i] in rest;
      [b[0]] + rest
  }

  /** The user keys considered as boundaries: both ends of every L0 file, both ends of every deeper
      input level, and the start of every file of the output level. */
  ghost predicate Candidate(inputs: seq<InputLevel>, startLevel: nat, outLevel: nat, k: Key) {
    exists i | 0 <= i < |inputs| :: LevelCandidate(inputs[i], startLevel, outLevel, k)
  }

  ghost predicate LevelCandidate(input: InputLevel, startLevel: nat, outLevel: nat, k: Key) {
    && startLevel <= input.level <= outLevel
    && exists j | 0 <= j < |input.files| ::
         || (k == input.files[j].smallest && (input.level == 0 || j == 0 || input.level == outLevel))
         || (k == input.files[j].largest && (input.level == 0 || j == |input.files| - 1))
  }

  /** The candidates, sorted by user key without duplicates. */
  method CollectBounds(inputs: seq<InputLevel>, startLevel: nat, outLevel: nat) returns (bounds: seq<Key>)
    ensures Increasing(bounds)
    ensures forall k :: k in bounds <==> Candidate(inputs, startLevel, outLevel, k)
  {
    bounds := [];
    for i := 0 to |inputs|
      invariant Increasing(bounds)
      invariant forall k :: k in bounds <==> Candidate(inputs[..i], startLevel, outLevel, k)
    {
      if startLevel <= inputs[i].level <= outLevel && inputs[i].files != [] {
        bounds := AddLevel(bounds, inputs[i], startLevel, outLevel);
      }
      assert inputs[..i + 1] == inputs[..i] + [inputs[i]];
      CandidateStep(inputs[..i], inputs[i], startLevel, outLevel);
    }
    assert inputs[..|inputs|] == inputs;
  }

  method AddLevel(before: seq<Key>, input: InputLevel, startLevel: nat, outLevel: nat) returns (bounds: seq<Key>)
    requires Increasing(before) && startLevel <= input.level <= outLevel && input.files != []
    ensures Increasing(bounds)
    ensures forall k :: k in bounds <==> k in before || LevelCandidate(input, startLevel, outLevel, k)
  {
    bounds := before;
    var files := input.files;
    if input.level == 0 {
      for j := 0 to |files|
        invariant Increasing(bounds)
        invariant forall k ::
                    k in bounds <==> k in before || exists n | 0 <= n < j ::
                        k == files[n].smallest || k == files[n].largest
      {
        bounds := InsertKey(InsertKey(bounds, files[j].smallest), files[j].largest);
      }
    } else {
      bounds := InsertKey(InsertKey(bounds, files[0].smallest), files[|files| - 1].largest);
      if input.level == outLevel {
        for j := 1 to |files|
          invariant Increasing(bounds)
          invariant forall k :: k in bounds <==>
            k in before || k == files[|files| - 1].largest || exists n | 0 <= n < j :: k == files[n].smallest
        {
          bounds := InsertKey(bounds, files[j].smallest);
        }
      }
    }
  }

  lemma CandidateStep(inputs: seq<InputLevel>, input: InputLevel, startLevel: nat, outLevel: nat)
    ensures forall k :: Candidate(inputs + [input], startLevel, outLevel, k) <==>
              Candidate(inputs, startLevel, outLevel, k) || LevelCandidate(input, startLevel, outLevel, k)
  {
    var all := inputs + [input];
    forall k
      ensures Candidate(all, startLevel, outLevel, k) <==>
              Candidate(inputs, startLevel, outLevel, k) || LevelCandidate(input, startLevel, outLevel, k)
    {
      assert all[|inputs|] == input;
      assert forall i | 0 <= i < |inputs| :: all[i] == inputs[i];
    }
  }

  // ---------------------------------------------------------------- grouping

  /** std::ceil to a whole number. */
  function Ceil(x: real): int {
    -((-x).Floor)
  }

  /** Sizes of the ranges between neighbouring bounds. */
  function RangeSizes(bounds: seq<Key>, size: (Key, Key) -> nat): (sizes: seq<nat>)
    ensures |sizes| == if |bounds| == 0 then 0 else |bounds| - 1
  {
    if |bounds| <= 1 then [] else seq(|bounds| - 1, i requires 0 <= i < |bounds| - 1 => size(bounds[i], bounds[i + 1]))
  }

  /** min(ranges, max_subcompactions, ceil(total / 0.8 / max file size)). */
  function MaxSubcompactions(ranges: nat, maxSubcompactions: nat, total: nat, maxFileSize: nat): (n: nat)
    requires maxFileSize > 0
  {
    var files := Ceil(total as real / 0.8 / maxFileSize as real);
    Min(ranges, Min(maxSubcompactions, if files < 0 then 0 else files))
  }

  /** The greedy grouping. Boundaries are strictly increasing candidate keys, one size per range, no
      byte is lost or counted twice, the number of ranges respects all three limits, and a range ends
      where it first reaches its share. */
  method GenSubcompactionBoundaries(bounds: seq<Key>, size: (Key, Key) -> nat, maxSubcompactions: nat, maxFileSize: nat)
    returns (boundaries: seq<Key>, sizes: seq<nat>, ghost cuts: seq<nat>)
    requires bounds != [] && Increasing(bounds) && maxFileSize > 0
    ensures Increasing(boundaries) && forall k | k in boundaries :: k in bounds[1..]
    ensures |sizes| == |boundaries| + 1
    ensures Sum(sizes) == Sum(RangeSizes(bounds, size))
    ensures var limit := MaxSubcompactions(|bounds| - 1, maxSubcompactions, Sum(RangeSizes(bounds, size)), maxFileSize);
            && |sizes| <= (if limit < 1 then 1 else limit)
            && (limit > 1 ==> var ranges := RangeSizes(bounds, size);
                              AllGrouped(bounds, ranges, limit, Sum(ranges) as real / limit as real, boundaries, sizes,
                                  cuts))
  {
    hide AllGrouped;
    var ranges := RangeSizes(bounds, size);
    var sum := Total(ranges);
    var subcompactions := MaxSubcompactions(|ranges|, maxSubcompactions, sum, maxFileSize);
    if subcompactions > 1 {
      boundaries, sizes, cuts := Group(bounds, ranges, subcompactions, sum as real / subcompactions as real);
    } else {
      boundaries, sizes, cuts := [], [sum], [];
      SumAppend([], sum);
      assert [] + [sum] == sizes && Sum([]) == 0;
    }
  }

  method Total(ranges: seq<nat>) returns (sum: nat)
    ensures sum == Sum(ranges)
  {
    sum := 0;
    for i := 0 to |ranges|
      invariant sum == Sum(ranges[..i])
    {
      assert ranges[..i + 1] == ranges[..i] + [ranges[i]];
      SumAppend(ranges[..i], ranges[i]);
      sum := sum + ranges[i];
    }
    assert ranges[..|ranges|] == ranges;
  }

  function FirstOf(cuts: seq<nat>, k: nat): nat
    requires k <= |cuts|
  {
    if k == 0 then 0 else cuts[k - 1]
  }

  /** The size of ranges[from..to]. */
  function Part(ranges: seq<nat>, from: nat, to: nat): nat
    requires from <= to <= |ranges|
  {
    Sum(ranges[from..to])
  }

  lemma PartMore(ranges: seq<nat>, from: nat, to: nat)
    requires from <= to < |ranges|
    ensures Part(ranges, from, to + 1) == Part(ranges, from, to) + ranges[to]
  {
    assert ranges[from..to + 1] == ranges[from..to] + [ranges[to]];
    SumAppend(ranges[from..to], ranges[to]);
  }

  lemma PartEnds(ranges: seq<nat>, from: nat)
    requires from <= |ranges|
    ensures Part(ranges, from, from) == 0 && Part(ranges, 0, |ranges|) == Sum(ranges)
  {
    assert ranges[from..from] == [] && ranges[0..|ranges|] == ranges;
  }

  predicate Reached(sum: nat, mean: real) {
    sum as real >= mean
  }

  /** No beginning of ranges[from..to] reaches the mean, short of all of it. */
  ghost predicate BelowMean(ranges: seq<nat>, from: nat, to: nat, mean: real) {
    forall n | from < n < to <= |ranges| :: !Reached(Part(ranges, from, n), mean)
  }

  /** Group k is the ranges up to cuts[k], where the sum first reaches the mean, and ends at the bound there. */
  ghost predicate GroupAt(bounds: seq<Key>, ranges: seq<nat>, mean: real, cuts: seq<nat>, k: nat, boundary: Key,
                          size: nat)
    requires k < |cuts|
  {
    var from, to := FirstOf(cuts, k), cuts[k];
    && from < to < |ranges| && to < |bounds| && boundary == bounds[to]
    && size == Part(ranges, from, to) && Reached(size, mean) && BelowMean(ranges, from, to, mean)
  }

  ghost predicate Grouped(bounds: seq<Key>, ranges: seq<nat>, mean: real, cuts: seq<nat>, boundaries: seq<Key>,
                          sizes: seq<nat>) {
    && |cuts| == |boundaries| <= |sizes|
    && forall k | 0 <= k < |cuts| :: GroupAt(bounds, ranges, mean, cuts, k, boundaries[k], sizes[k])
  }

  lemma GroupedMore(bounds: seq<Key>, ranges: seq<nat>, mean: real, cuts: seq<nat>, boundaries: seq<Key>,
                    sizes: seq<nat>, to: nat, size: nat)
    requires Grouped(bounds, ranges, mean, cuts, boundaries, sizes) && |sizes| == |boundaries|
    requires to < |bounds| && GroupAt(bounds, ranges, mean, cuts + [to], |cuts|, bounds[to], size)
    ensures Grouped(bounds, ranges, mean, cuts + [to], boundaries + [bounds[to]], sizes + [size])
  {
    hide BelowMean, Part, Reached;
    forall k | 0 <= k < |cuts|
      ensures GroupAt(bounds, ranges, mean, cuts + [to], k, boundaries[k], sizes[k])
    {
      assert GroupAt(bounds, ranges, mean, cuts, k, boundaries[k], sizes[k]);
    }
  }

  lemma GroupedRest(bounds: seq<Key>, ranges: seq<nat>, mean: real, cuts: seq<nat>, boundaries: seq<Key>,
                    sizes: seq<nat>, size: nat)
    requires Grouped(bounds, ranges, mean, cuts, boundaries, sizes) && |sizes| == |boundaries|
    ensures Grouped(bounds, ranges, mean, cuts, boundaries, sizes + [size])
  {
    hide GroupAt;
  }

  /** The boundaries so far are strictly increasing bounds, none of them the first or beyond bounds[i]. */
  ghost predicate BoundariesUpTo(bounds: seq<Key>, boundaries: seq<Key>, i: nat) {
    i < |bounds| && Increasing(boundaries) && forall k | k in boundaries :: k in bounds[1..] && k <= bounds[i]
  }

  lemma BoundariesMore(bounds: seq<Key>, boundaries: seq<Key>, i: nat)
    requires Increasing(bounds) && BoundariesUpTo(bounds, boundaries, i) && i + 1 < |bounds|
    ensures BoundariesUpTo(bounds, boundaries, i + 1) && BoundariesUpTo(bounds, boundaries + [bounds[i + 1]], i + 1)
  {
    assert bounds[i] < bounds[i + 1] && bounds[1..][i] == bounds[i + 1];
    assert forall j | 0 <= j < |boundaries| :: boundaries[j] in boundaries;
  }

  /** The grouping after i ranges: closed groups, and the sum of the open one. */
  ghost predicate Progress(bounds: seq<Key>, ranges: seq<nat>, limit: nat, mean: real, i: nat, boundaries: seq<Key>,
                           sizes: seq<nat>, cuts: seq<nat>, sum: nat) {
    var from := FirstOf(cuts, |cuts|);
    && |sizes| == |boundaries| == |cuts| < limit && BoundariesUpTo(bounds, boundaries, i)
    && Grouped(bounds, ranges, mean, cuts, boundaries, sizes) && from <= i < |ranges| && sum == Part(ranges, from, i)
    && Sum(sizes) + sum == Part(ranges, 0, i) && (|sizes| + 1 < limit ==> BelowMean(ranges, from, i + 1, mean))
  }

  lemma ProgressStarts(bounds: seq<Key>, ranges: seq<nat>, limit: nat, mean: real)
    requires bounds != [] && ranges != [] && limit > 0
    ensures Progress(bounds, ranges, limit, mean, 0, [], [], [], 0)
  {
    PartEnds(ranges, 0);
  }

  /** Another range for the open group. */
  lemma ProgressAdds(bounds: seq<Key>, ranges: seq<nat>, limit: nat, mean: real, i: nat, boundaries: seq<Key>,
                     sizes: seq<nat>, cuts: seq<nat>, sum: nat)
    requires Progress(bounds, ranges, limit, mean, i, boundaries, sizes, cuts, sum) && Increasing(bounds)
    requires |ranges| + 1 == |bounds| && i + 1 < |ranges|
    requires |sizes| + 1 == limit || !Reached(sum + ranges[i], mean)
    ensures Progress(bounds, ranges, limit, mean, i + 1, boundaries, sizes, cuts, sum + ranges[i])
  {
    hide Grouped, Part, Sum, Increasing, Reached;
    PartMore(ranges, FirstOf(cuts, |cuts|), i);
    PartMore(ranges, 0, i);
    BoundariesMore(bounds, boundaries, i);
  }

  /** The open group is closed behind range i. */
  lemma ProgressCuts(bounds: seq<Key>, ranges: seq<nat>, limit: nat, mean: real, i: nat, boundaries: seq<Key>,
                     sizes: seq<nat>, cuts: seq<nat>, sum: nat)
    requires Progress(bounds, ranges, limit, mean, i, boundaries, sizes, cuts, sum) && Increasing(bounds)
    requires |ranges| + 1 == |bounds| && i + 1 < |ranges|
    requires |sizes| + 1 < limit && Reached(sum + ranges[i], mean)
    ensures Progress(bounds, ranges, limit, mean, i + 1, boundaries + [bounds[i + 1]], sizes + [sum + ranges[i]],
              cuts + [i + 1], 0)
  {
    hide Grouped, Part, Sum, Increasing, Reached, BoundariesUpTo;
    PartMore(ranges, FirstOf(cuts, |cuts|), i);
    PartMore(ranges, 0, i);
    PartEnds(ranges, i + 1);
    BoundariesMore(bounds, boundaries, i);
    SumAppend(sizes, sum + ranges[i]);
    GroupedMore(bounds, ranges, mean, cuts, boundaries, sizes, i + 1, sum + ranges[i]);
  }

  /** The last group takes the rest. */
  ghost predicate AllGrouped(bounds: seq<Key>, ranges: seq<nat>, limit: nat, mean: real, boundaries: seq<Key>,
                             sizes: seq<nat>, cuts: seq<nat>) {
    var from := FirstOf(cuts, |cuts|);
    && |sizes| == |boundaries| + 1 == |cuts| + 1 && Grouped(bounds, ranges, mean, cuts, boundaries, sizes)
    && from < |ranges| && sizes[|cuts|] == Part(ranges, from, |ranges|)
    && (|sizes| < limit ==> BelowMean(ranges, from, |ranges|, mean))
  }

  lemma ProgressEnds(bounds: seq<Key>, ranges: seq<nat>, limit: nat, mean: real, boundaries: seq<Key>, sizes: seq<nat>,
                     cuts: seq<nat>, sum: nat, rest: nat)
    requires ranges != [] && Progress(bounds, ranges, limit, mean, |ranges| - 1, boundaries, sizes, cuts, sum)
    requires rest == sum + ranges[|ranges| - 1]
    ensures AllGrouped(bounds, ranges, limit, mean, boundaries, sizes + [rest], cuts)
  {
    hide Grouped, Part, Sum, BelowMean, BoundariesUpTo;
    PartMore(ranges, FirstOf(cuts, |cuts|), |ranges| - 1);
    GroupedRest(bounds, ranges, mean, cuts, boundaries, sizes, rest);
  }

  lemma ProgressConserves(bounds: seq<Key>, ranges: seq<nat>, limit: nat, mean: real, boundaries: seq<Key>,
                          sizes: seq<nat>, cuts: seq<nat>, sum: nat, rest: nat)
    requires ranges != [] && Progress(bounds, ranges, limit, mean, |ranges| - 1, boundaries, sizes, cuts, sum)
    requires rest == sum + ranges[|ranges| - 1]
    ensures |sizes| + 1 <= limit && Sum(sizes + [rest]) == Sum(ranges)
  {
    hide Grouped, Part, Sum, BelowMean, BoundariesUpTo;
    PartMore(ranges, 0, |ranges| - 1);
    PartEnds(ranges, 0);
    SumAppend(sizes, rest);
  }

  lemma ProgressBoundaries(bounds: seq<Key>, ranges: seq<nat>, limit: nat, mean: real, i: nat, boundaries: seq<Key>,
                           sizes: seq<nat>, cuts: seq<nat>, sum: nat)
    requires Progress(bounds, ranges, limit, mean, i, boundaries, sizes, cuts, sum)
    ensures Increasing(boundaries) && forall k | k in boundaries :: k in bounds[1..]
  {
  }

  /** Add ranges until a group reaches the mean; the last group takes the rest. The cuts say where groups
      end: where the sum first reaches the mean, as long as another group is allowed. */
  method Group(bounds: seq<Key>, ranges: seq<nat>, limit: nat, mean: real)
    returns (boundaries: seq<Key>, sizes: seq<nat>, ghost cuts: seq<nat>)
    requires Increasing(bounds) && |ranges| + 1 == |bounds| && 1 < limit <= |ranges|
    ensures AllGrouped(bounds, ranges, limit, mean, boundaries, sizes, cuts)
    ensures Increasing(boundaries) && forall k | k in boundaries :: k in bounds[1..]
    ensures |sizes| == |boundaries| + 1 && |sizes| <= limit && Sum(sizes) == Sum(ranges)
  {
    hide Progress, Increasing, Sum, Reached;
    boundaries, sizes, cuts := [], [], [];
    ProgressStarts(bounds, ranges, limit, mean);
    var sum, left := 0, limit;
    for i := 0 to |ranges| - 1
      invariant left >= 1 && |sizes| + left == limit
      invariant Progress(bounds, ranges, limit, mean, i, boundaries, sizes, cuts, sum)
    {
      if left != 1 && Reached(sum + ranges[i], mean) {
        ProgressCuts(bounds, ranges, limit, mean, i, boundaries, sizes, cuts, sum);
        boundaries, cuts := boundaries + [bounds[i + 1]], cuts + [i + 1];
        sizes := sizes + [sum + ranges[i]];
        left := left - 1;
        sum := 0;
      } else {
        ProgressAdds(bounds, ranges, limit, mean, i, boundaries, sizes, cuts, sum);
        sum := sum + ranges[i];
      }
    }
    ProgressEnds(bounds, ranges, limit, mean, boundaries, sizes, cuts, sum, sum + ranges[|ranges| - 1]);
    ProgressConserves(bounds, ranges, limit, mean, boundaries, sizes, cuts, sum, sum + ranges[|ranges| - 1]);
    ProgressBoundaries(bounds, ranges, limit, mean, |ranges| - 1, boundaries, sizes, cuts, sum);
    sizes := sizes + [sum + ranges[|ranges| - 1]];
  }

  datatype SubRange = SubRange(start: Option<Key>, end: Option<Key>, size: nat)

  function RangeAt(boundaries: seq<Key>, sizes: seq<nat>, i: nat): SubRange
    requires i <= |boundaries| && |sizes| == |boundaries| + 1
  {
    SubRange(if i == 0 then None else Some(boundaries[i - 1]),
             if i == |boundaries| then None else Some(boundaries[i]), sizes[i])
  }

  /** The ranges of Prepare(): half open, unbounded at both ends. */
  ghost predicate IsLayout(states: seq<SubRange>, boundaries: seq<Key>, sizes: seq<nat>) {
    && |states| == |boundaries| + 1 == |sizes|
    && forall i | 0 <= i < |states| :: states[i] == RangeAt(boundaries, sizes, i)
  }

  method Prepare(boundaries: seq<Key>, sizes: seq<nat>) returns (states: seq<SubRange>)
    requires Increasing(boundaries) && |sizes| == |boundaries| + 1
    ensures IsLayout(states, boundaries, sizes)
  {
    states := [];
    for i := 0 to |boundaries| + 1
      invariant |states| == i
      invariant forall n | 0 <= n < i :: states[n] == RangeAt(boundaries, sizes, n)
    {
      var start, end := None, None;
      if i > 0 {
        start := Some(boundaries[i - 1]);
      }
      if i < |boundaries| {
        end := Some(boundaries[i]);
      }
      states := states + [SubRange(start, end, sizes[i])];
    }
  }

  predicate Covers(r: SubRange, k: Key) {
    AtLeast(k, r.start) && Under(k, r.end)
  }

  /** Every user key, hence every record with all versions of its key, is in exactly one range. */
  lemma LayoutPartitionsKeys(states: seq<SubRange>, boundaries: seq<Key>, sizes: seq<nat>, k: Key) returns (i: nat)
    requires Increasing(boundaries) && IsLayout(states, boundaries, sizes)
    ensures i < |states| && Covers(states[i], k)
    ensures forall j | 0 <= j < |states| && Covers(states[j], k) :: j == i
  {
    i := RangeOf(boundaries, k, 0);
  }

  /** The range a key falls in. */
  lemma {:induction false} RangeOf(boundaries: seq<Key>, k: Key, from: nat) returns (i: nat)
    requires from <= |boundaries| && (from > 0 ==> boundaries[from - 1] <= k)
    ensures i <= |boundaries| && (i > 0 ==> boundaries[i - 1] <= k) && (i < |boundaries| ==> k < boundaries[i])
    decreases |boundaries| - from
  {
    if from == |boundaries| || k < boundaries[from] {
      i := from;
    } else {
      i := RangeOf(boundaries, k, from + 1);
    }
  }
}
