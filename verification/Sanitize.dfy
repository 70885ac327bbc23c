/** SanitizeCompactionInputFilesForAllLevels(): completes a user's choice of files. From level 1 down no file
    with keys of the choice stays beside or below it; in level 0 older files with the same keys may stay. */
module Sanitize {
  import opened Common
  import opened LevelFiles

  datatype Result = Aborted | Ok(files: set<nat>)

  /** HaveOverlappingKeyRanges(), branch by branch. */
  predicate HaveOverlappingKeyRanges(lo: Key, hi: Key, b: File) {
    if lo >= b.smallest && lo <= b.largest then true
    else if lo < b.smallest && hi >= b.smallest then true
    else if hi <= b.largest && hi >= b.smallest then true
    else if hi > b.largest && lo <= b.largest then true
    else false
  }

  lemma OverlapTestIsExact(lo: Key, hi: Key, b: File)
    requires lo <= hi && b.smallest <= b.largest
    ensures HaveOverlappingKeyRanges(lo, hi, b) <==> Overlaps(b, lo, hi)
  {
  }

  // ---------------------------------------------------------------- what sanitising promises

  /** The file of index i in level l, and its number. */
  predicate At(levels: seq<seq<File>>, l: nat, i: nat) {
    l < |levels| && i < |levels[l]|
  }

  predicate In(levels: seq<seq<File>>, l: nat, i: nat, chosen: set<nat>) {
    At(levels, l, i) && levels[l][i].number in chosen
  }

  /** Level 0 is ordered by age: a file between two chosen ones is chosen. */
  ghost predicate ClosedLevel0(levels: seq<seq<File>>, chosen: set<nat>) {
    forall i: nat, j: nat, k: nat | In(levels, 0, i, chosen) && In(levels, 0, j, chosen) && i <= k <= j ::
        In(levels, 0, k, chosen)
  }

  /** A file of level m is chosen if it meets the keys from the first to the last of two chosen files, each of
      its own or a shallower level. */
  ghost predicate ClosedLevel(levels: seq<seq<File>>, m: nat, chosen: set<nat>) {
    forall p: nat, i: nat, q: nat, j: nat, k: nat |
      p <= m && q <= m && In(levels, p, i, chosen) && In(levels, q, j, chosen) && At(levels, m, k) &&
      Overlaps(levels[m][k], levels[p][i].smallest, levels[q][j].largest) ::
      In(levels, m, k, chosen)
  }

  ghost predicate ClosedTo(levels: seq<seq<File>>, n: nat, chosen: set<nat>) {
    ClosedLevel0(levels, chosen) && forall m: nat | 1 <= m < n :: ClosedLevel(levels, m, chosen)
  }

  /** Down to the output level the choice is complete. */
  ghost predicate Closed(levels: seq<seq<File>>, to: nat, chosen: set<nat>) {
    ClosedTo(levels, to + 1, chosen)
  }

  ghost predicate Idle(levels: seq<seq<File>>, n: nat, chosen: set<nat>, busy: set<nat>) {
    forall l: nat, i: nat | l < n && In(levels, l, i, chosen) :: levels[l][i].number !in busy
  }

  /** Every complete choice around the given one holds this file. */
  ghost predicate Needed(levels: seq<seq<File>>, to: nat, chosen: set<nat>, n: nat) {
    forall all: set<nat> | chosen <= all && Closed(levels, to, all) :: n in all
  }

  ghost predicate AllNeeded(levels: seq<seq<File>>, to: nat, chosen: set<nat>, files: set<nat>) {
    forall n | n in files :: Needed(levels, to, chosen, n)
  }

  /** Down to the output level, a file that shares keys with a chosen file of its own or a shallower level is
      chosen, and not busy. */
  lemma SanitizedIsClosed(levels: seq<seq<File>>, to: nat, chosen: set<nat>, busy: set<nat>, l: nat, i: nat, m: nat,
                          k: nat)
    requires Closed(levels, to, chosen) && Idle(levels, to + 1, chosen, busy)
    requires l <= m <= to && m >= 1 && In(levels, l, i, chosen) && At(levels, m, k) && Share(levels[m][k], levels[l][i])
    ensures levels[m][k].number in chosen && levels[m][k].number !in busy
  {
    assert ClosedLevel(levels, m, chosen);
    assert In(levels, m, k, chosen);
  }

  // ---------------------------------------------------------------- older level-0 files

  /** File (m, k) is older than file (l, i): it lies in a deeper level, or behind it in level 0. */
  predicate Older(l: nat, i: nat, m: nat, k: nat) {
    l < m || (l == m == 0 && i < k)
  }

  /** A file above the output level that was left out, and shares keys with an older position than a chosen
      file: the output comes to lie under it. */
  ghost predicate LeftBehind(levels: seq<seq<File>>, to: nat, chosen: set<nat>) {
    exists l: nat, i: nat, m: nat, k: nat ::
      && In(levels, l, i, chosen) && At(levels, m, k) && !In(levels, m, k, chosen) && m < to && Older(l, i, m, k)
      && Share(levels[m][k], levels[l][i])
  }

  /** A level-0 file behind the last chosen one shares keys with a chosen one. */
  ghost predicate OlderShares(levels: seq<seq<File>>, chosen: set<nat>) {
    exists i: nat, k: nat ::
      && In(levels, 0, i, chosen) && At(levels, 0, k) && Share(levels[0][k], levels[0][i])
      && forall j: nat | In(levels, 0, j, chosen) :: j < k
  }

  /** A complete choice leaves an older version behind if and only if such a file exists. */
  lemma LeftBehindIff(levels: seq<seq<File>>, to: nat, chosen: set<nat>)
    requires Closed(levels, to, chosen) && to >= 1
    ensures LeftBehind(levels, to, chosen) <==> OlderShares(levels, chosen)
  {
    if LeftBehind(levels, to, chosen) {
      var l: nat, i: nat, m: nat, k: nat :|
        && In(levels, l, i, chosen) && At(levels, m, k) && !In(levels, m, k, chosen) && m < to && Older(l, i, m, k)
        && Share(levels[m][k], levels[l][i]);
      if m == 0 {
        BehindAll(levels, chosen, i, k);
      } else {
        DeeperIsChosen(levels, m, chosen, l, i, k);
      }
    }
    if OlderShares(levels, chosen) {
      var i: nat, k: nat :|
        && In(levels, 0, i, chosen) && At(levels, 0, k) && Share(levels[0][k], levels[0][i])
        && forall j: nat | In(levels, 0, j, chosen) :: j < k;
      assert Older(0, i, 0, k) && !In(levels, 0, k, chosen);
    }
  }

  lemma DeeperIsChosen(levels: seq<seq<File>>, m: nat, chosen: set<nat>, l: nat, i: nat, k: nat)
    requires ClosedLevel(levels, m, chosen) && l <= m && In(levels, l, i, chosen) && At(levels, m, k)
    requires Share(levels[m][k], levels[l][i])
    ensures In(levels, m, k, chosen)
  {
  }

  lemma BehindAll(levels: seq<seq<File>>, chosen: set<nat>, i: nat, k: nat)
    requires ClosedLevel0(levels, chosen) && In(levels, 0, i, chosen) && At(levels, 0, k) && !In(levels, 0, k, chosen)
    requires i < k
    ensures forall j: nat | In(levels, 0, j, chosen) :: j < k
  {
  }

  /** CompactFiles() of the newest level-0 file: the older file with the same keys is left out of the choice. */
  lemma OlderFileIsLeftBehind()
    ensures var newest, older := File(2, 1, 9, 1), File(1, 1, 9, 1);
            Closed([[newest, older], []], 1, {2}) && LeftBehind([[newest, older], []], 1, {2})
  {
    var levels := [[File(2, 1, 9, 1), File(1, 1, 9, 1)], []];
    assert In(levels, 0, 0, {2}) && !In(levels, 0, 1, {2}) && Older(0, 0, 0, 1) && Share(levels[0][1], levels[0][0]);
    assert forall k: nat | In(levels, 0, k, {2}) :: k == 0;
    assert forall m: nat, k: nat | m >= 1 :: !At(levels, m, k);
  }

  // ---------------------------------------------------------------- steps

  /** From level `from` to `to`, every file with a key in [lo, hi] is chosen. */
  ghost predicate Has(levels: seq<seq<File>>, from: nat, to: nat, lo: Key, hi: Key, chosen: set<nat>) {
    forall m: nat, k: nat | from <= m <= to && At(levels, m, k) && Overlaps(levels[m][k], lo, hi) ::
        In(levels, m, k, chosen)
  }

  /** Only files from level `from` on were added. */
  ghost predicate Adds(levels: seq<seq<File>>, from: nat, chosen: set<nat>, chosen': set<nat>) {
    && chosen <= chosen'
    && forall l: nat, k: nat | l < from && In(levels, l, k, chosen') :: In(levels, l, k, chosen)
  }

  /** The first and last chosen file of a level. */
  method FindRun(files: seq<File>, chosen: set<nat>) returns (found: bool, first: nat, last: nat)
    ensures found <==> exists k | 0 <= k < |files| :: files[k].number in chosen
    ensures found ==> first <= last < |files| && files[first].number in chosen && files[last].number in chosen
    ensures found ==> forall k | 0 <= k < |files| && files[k].number in chosen :: first <= k <= last
  {
    found, first, last := false, |files|, 0;
    var f := 0;
    while f < |files|
      invariant 0 <= f <= |files|
      invariant found <==> exists k | 0 <= k < f :: files[k].number in chosen
      invariant found ==> first <= last < f && files[first].number in chosen && files[last].number in chosen
      invariant found ==> forall k | 0 <= k < f && files[k].number in chosen :: first <= k <= last
    {
      if files[f].number in chosen {
        first := if found then first else f;
        last, found := f, true;
      }
      f := f + 1;
    }
  }

  /** The run was extended over neighbours that share a user key, and no further. */
  ghost predicate Extended(files: seq<File>, first0: nat, last0: nat, first: nat, last: nat) {
    && first <= first0 <= last0 <= last < |files|
    && (forall k | first <= k < first0 :: files[k].largest >= files[k + 1].smallest)
    && (forall k | last0 < k <= last :: files[k].smallest <= files[k - 1].largest)
    && (first > 0 ==> files[first - 1].largest < files[first].smallest)
    && (last + 1 < |files| ==> files[last + 1].smallest > files[last].largest)
  }

  method ExtendRun(files: seq<File>, first0: nat, last0: nat) returns (first: nat, last: nat)
    requires first0 <= last0 < |files|
    ensures Extended(files, first0, last0, first, last)
  {
    first, last := first0, last0;
    while first > 0 && files[first - 1].largest >= files[first].smallest
      invariant first <= first0 && forall k | first <= k < first0 :: files[k].largest >= files[k + 1].smallest
    {
      first := first - 1;
    }
    while last + 1 < |files| && files[last + 1].smallest <= files[last].largest
      invariant last0 <= last < |files| && forall k | last0 < k <= last :: files[k].smallest <= files[k - 1].largest
      decreases |files| - last
    {
      last := last + 1;
    }
  }

  /** Choose the whole run, unless one of it is busy. */
  method IncludeRun(files: seq<File>, busy: set<nat>, chosen: set<nat>, first: nat, last: nat)
    returns (ok: bool, chosen': set<nat>)
    requires first <= last < |files|
    ensures ok <==> forall k | first <= k <= last :: files[k].number !in busy
    ensures ok ==> chosen' == chosen + set k | first <= k <= last :: files[k].number
  {
    chosen' := chosen;
    var f := first;
    while f <= last
      invariant first <= f <= last + 1
      invariant chosen' == chosen + set k | first <= k < f :: files[k].number
      invariant forall k | first <= k < f :: files[k].number !in busy
    {
      if files[f].number in busy {
        return false, chosen';
      }
      chosen' := chosen' + {files[f].number};
      f := f + 1;
    }
    ok := true;
  }

  /** No file of the level with a key in [lo, hi] is busy. */
  ghost predicate OverlappingIdle(files: seq<File>, lo: Key, hi: Key, busy: set<nat>) {
    forall k | 0 <= k < |files| && Overlaps(files[k], lo, hi) :: files[k].number !in busy
  }

  /** One level of the last loop: choose every file of it with a key in [lo, hi]. */
  method IncludeLevel(files: seq<File>, busy: set<nat>, chosen: set<nat>, lo: Key, hi: Key)
    returns (ok: bool, chosen': set<nat>)
    requires FilesOk(files) && lo <= hi
    ensures ok ==> chosen' == chosen + set k | 0 <= k < |files| && Overlaps(files[k], lo, hi) :: files[k].number
    ensures ok <==> OverlappingIdle(files, lo, hi, busy)
  {
    chosen' := chosen;
    var f := 0;
    while f < |files|
      invariant 0 <= f <= |files|
      invariant chosen' == chosen + set k | 0 <= k < f && Overlaps(files[k], lo, hi) :: files[k].number
      invariant forall k | 0 <= k < f && Overlaps(files[k], lo, hi) :: files[k].number !in busy
    {
      OverlapTestIsExact(lo, hi, files[f]);
      if HaveOverlappingKeyRanges(lo, hi, files[f]) {
        if files[f].number in busy {
          return false, chosen';
        }
        chosen' := chosen' + {files[f].number};
      }
      f := f + 1;
    }
    ok := true;
  }

  /** Only files with a key in [lo, hi] were added. */
  ghost predicate Only(levels: seq<seq<File>>, from: nat, to: nat, lo: Key, hi: Key, chosen: set<nat>,
                       chosen': set<nat>) {
    && chosen <= chosen'
    && (forall n | n in chosen' :: n in chosen || exists m: nat, k: nat ::
         from <= m <= to && In(levels, m, k, {n}) && Overlaps(levels[m][k], lo, hi))
  }

  /** All of the last loop, from level `from` to the output level. */
  method IncludeOverlapping(levels: seq<seq<File>>, busy: set<nat>, chosen: set<nat>, from: nat, to: nat, lo: Key,
                            hi: Key)
    returns (ok: bool, chosen': set<nat>)
    requires LevelsOk(levels) && from <= to + 1 && to < |levels| && lo <= hi
    ensures ok <==> forall l | from <= l <= to :: OverlappingIdle(levels[l], lo, hi, busy)
    ensures ok ==> Has(levels, from, to, lo, hi, chosen') && Only(levels, from, to, lo, hi, chosen, chosen')
  {
    hide LevelsOk;
    chosen' := chosen;
    var m := from;
    while m <= to
      invariant from <= m <= to + 1
      invariant m > from ==> Has(levels, from, m - 1, lo, hi, chosen')
      invariant Only(levels, from, to, lo, hi, chosen, chosen')
      invariant forall l | from <= l < m :: OverlappingIdle(levels[l], lo, hi, busy)
    {
      ghost var before := chosen';
      LevelBasics(levels, m);
      var fine;
      fine, chosen' := IncludeLevel(levels[m], busy, chosen', lo, hi);
      if !fine {
        return false, chosen';
      }
      OneLevelMore(levels, from, to, m, lo, hi, chosen, before, chosen');
      m := m + 1;
    }
    ok := true;
  }

  lemma OneLevelMore(levels: seq<seq<File>>, from: nat, to: nat, m: nat, lo: Key, hi: Key, chosen: set<nat>,
                     before: set<nat>, after: set<nat>)
    requires from <= m <= to < |levels|
    requires (m > from ==> Has(levels, from, m - 1, lo, hi, before)) && Only(levels, from, to, lo, hi, chosen, before)
    requires after == before + set k | 0 <= k < |levels[m]| && Overlaps(levels[m][k], lo, hi) :: levels[m][k].number
    ensures Has(levels, from, m, lo, hi, after) && Only(levels, from, to, lo, hi, chosen, after)
  {
    forall n | n in after && n !in chosen
      ensures exists l: nat, k: nat :: from <= l <= to && In(levels, l, k, {n}) && Overlaps(levels[l][k], lo, hi)
    {
      if n !in before {
        var k :| 0 <= k < |levels[m]| && Overlaps(levels[m][k], lo, hi) && levels[m][k].number == n;
        assert In(levels, m, k, {n});
      }
    }
  }

  lemma LevelBasics(levels: seq<seq<File>>, l: nat)
    requires LevelsOk(levels) && l < |levels|
    ensures FilesOk(levels[l]) && (l > 0 ==> LevelOk(levels[l]))
  {
  }

  // ---------------------------------------------------------------- the range of the choice

  /** [lo, hi] is the range of the chosen files of the first n levels. */
  ghost predicate Spans(levels: seq<seq<File>>, n: nat, started: bool, lo: Key, hi: Key, chosen: set<nat>) {
    && (forall l: nat, i: nat | l < n && In(levels, l, i, chosen) :: started && Inside(levels[l][i], lo, hi))
    && (started ==>
          && lo <= hi
          && (exists l: nat, i: nat | l < n && In(levels, l, i, chosen) :: levels[l][i].smallest == lo)
          && (exists l: nat, i: nat | l < n && In(levels, l, i, chosen) :: levels[l][i].largest == hi))
  }

  /** Whatever meets that range, from level n - 1 down, belongs to every complete choice. */
  lemma OverlapIsNeeded(levels: seq<seq<File>>, n: nat, to: nat, lo: Key, hi: Key, origin: set<nat>, chosen: set<nat>,
                        m: nat, k: nat)
    requires Spans(levels, n, true, lo, hi, chosen) && AllNeeded(levels, to, origin, chosen)
    requires n <= m + 1 && 1 <= m <= to && At(levels, m, k) && Overlaps(levels[m][k], lo, hi)
    ensures Needed(levels, to, origin, levels[m][k].number)
  {
    var p: nat, i: nat :| p < n && In(levels, p, i, chosen) && levels[p][i].smallest == lo;
    var q: nat, j: nat :| q < n && In(levels, q, j, chosen) && levels[q][j].largest == hi;
    assert Needed(levels, to, origin, levels[p][i].number) && Needed(levels, to, origin, levels[q][j].number);
    forall all: set<nat> | origin <= all && Closed(levels, to, all)
      ensures levels[m][k].number in all
    {
      assert ClosedLevel(levels, m, all) && In(levels, p, i, all) && In(levels, q, j, all);
    }
  }

  /** So the last loop adds only what is needed, and finds a needed file busy if it fails. */
  lemma OverlappingNeeded(levels: seq<seq<File>>, l: nat, to: nat, lo: Key, hi: Key, origin: set<nat>, chosen: set<nat>,
                          chosen': set<nat>)
    requires Spans(levels, l + 1, true, lo, hi, chosen) && AllNeeded(levels, to, origin, chosen)
    requires Only(levels, From(l), to, lo, hi, chosen, chosen')
    ensures AllNeeded(levels, to, origin, chosen')
  {
    forall n | n in chosen'
      ensures Needed(levels, to, origin, n)
    {
      if n !in chosen {
        var m: nat, k: nat :| From(l) <= m <= to && In(levels, m, k, {n}) && Overlaps(levels[m][k], lo, hi);
        OverlapIsNeeded(levels, l + 1, to, lo, hi, origin, chosen, m, k);
      }
    }
  }

  function From(l: nat): nat {
    if l == 0 then 1 else l
  }

  /** A needed file is busy: no complete choice is idle. */
  ghost predicate Hopeless(levels: seq<seq<File>>, to: nat, origin: set<nat>, busy: set<nat>) {
    exists l: nat, i: nat | l <= to && At(levels, l, i) ::
        levels[l][i].number in busy && Needed(levels, to, origin, levels[l][i].number)
  }

  lemma OverlapHopeless(levels: seq<seq<File>>, l: nat, to: nat, lo: Key, hi: Key, origin: set<nat>, chosen: set<nat>,
                        busy: set<nat>)
    requires Spans(levels, l + 1, true, lo, hi, chosen) && AllNeeded(levels, to, origin, chosen) && to < |levels|
    requires !forall m | From(l) <= m <= to :: OverlappingIdle(levels[m], lo, hi, busy)
    ensures Hopeless(levels, to, origin, busy)
  {
    var m :| From(l) <= m <= to && !OverlappingIdle(levels[m], lo, hi, busy);
    var k: nat :| k < |levels[m]| && Overlaps(levels[m][k], lo, hi) && levels[m][k].number in busy;
    OverlapIsNeeded(levels, l + 1, to, lo, hi, origin, chosen, m, k);
    assert At(levels, m, k);
  }

  /** Every file between two needed files of level 0 is needed. */
  lemma BetweenIsNeeded(levels: seq<seq<File>>, to: nat, origin: set<nat>, chosen: set<nat>, first: nat, last: nat,
                        k: nat)
    requires AllNeeded(levels, to, origin, chosen) && In(levels, 0, first, chosen) && In(levels, 0, last, chosen)
    requires first <= k <= last
    ensures Needed(levels, to, origin, levels[0][k].number)
  {
    assert Needed(levels, to, origin, levels[0][first].number) && Needed(levels, to, origin, levels[0][last].number);
    forall all: set<nat> | origin <= all && Closed(levels, to, all)
      ensures levels[0][k].number in all
    {
      assert In(levels, 0, first, all) && In(levels, 0, last, all);
      assert In(levels, 0, k, all);
    }
  }

  /** From level 1 down, a file that meets the keys of two needed files of its level is needed. */
  lemma SpannedIsNeeded(levels: seq<seq<File>>, to: nat, origin: set<nat>, l: nat, i: nat, j: nat, k: nat)
    requires 1 <= l <= to && At(levels, l, i) && At(levels, l, j) && At(levels, l, k)
    requires Needed(levels, to, origin, levels[l][i].number) && Needed(levels, to, origin, levels[l][j].number)
    requires Overlaps(levels[l][k], levels[l][i].smallest, levels[l][j].largest)
    ensures Needed(levels, to, origin, levels[l][k].number)
  {
    forall all: set<nat> | origin <= all && Closed(levels, to, all)
      ensures levels[l][k].number in all
    {
      assert ClosedLevel(levels, l, all) && In(levels, l, i, all) && In(levels, l, j, all);
    }
  }

  lemma {:induction false} LeftIsNeeded(levels: seq<seq<File>>, to: nat, origin: set<nat>, l: nat, first: nat,
                                        first0: nat, k: nat)
    requires 1 <= l <= to && l < |levels| && LevelOk(levels[l]) && first <= k <= first0 < |levels[l]|
    requires forall n | first <= n < first0 :: levels[l][n].largest >= levels[l][n + 1].smallest
    requires Needed(levels, to, origin, levels[l][first0].number)
    ensures Needed(levels, to, origin, levels[l][k].number)
    decreases first0 - k
  {
    if k < first0 {
      LeftIsNeeded(levels, to, origin, l, first, first0, k + 1);
      SpannedIsNeeded(levels, to, origin, l, k + 1, k + 1, k);
    }
  }

  lemma {:induction false} RightIsNeeded(levels: seq<seq<File>>, to: nat, origin: set<nat>, l: nat, last0: nat,
                                         last: nat, k: nat)
    requires 1 <= l <= to && l < |levels| && LevelOk(levels[l]) && last0 <= k <= last < |levels[l]|
    requires forall n | last0 < n <= last :: levels[l][n].smallest <= levels[l][n - 1].largest
    requires Needed(levels, to, origin, levels[l][last0].number)
    ensures Needed(levels, to, origin, levels[l][k].number)
    decreases k - last0
  {
    if k > last0 {
      RightIsNeeded(levels, to, origin, l, last0, last, k - 1);
      SpannedIsNeeded(levels, to, origin, l, k - 1, k - 1, k);
    }
  }

  /** All of an extended run is needed. */
  lemma RunIsNeeded(levels: seq<seq<File>>, to: nat, origin: set<nat>, l: nat, first0: nat, last0: nat, first: nat,
                    last: nat, k: nat)
    requires 1 <= l <= to && l < |levels| && LevelOk(levels[l]) && Extended(levels[l], first0, last0, first, last)
    requires first <= k <= last
    requires Needed(levels, to, origin, levels[l][first0].number) && Needed(levels, to, origin, levels[l][last0].number)
    ensures Needed(levels, to, origin, levels[l][k].number)
  {
    if k <= first0 {
      LeftIsNeeded(levels, to, origin, l, first, first0, k);
    } else if k >= last0 {
      RightIsNeeded(levels, to, origin, l, last0, last, k);
    } else {
      SpannedIsNeeded(levels, to, origin, l, first0, last0, k);
    }
  }

  // ---------------------------------------------------------------- one level

  /** The state between two levels: the choice so far is complete above level n, idle and needed, [lo, hi] is
      its range, and whatever meets the range further down is chosen. */
  ghost predicate Progress(levels: seq<seq<File>>, n: nat, to: nat, origin: set<nat>, busy: set<nat>, started: bool,
                           lo: Key, hi: Key, chosen: set<nat>) {
    && origin <= chosen && AllNeeded(levels, to, origin, chosen) && Idle(levels, n, chosen, busy)
    && ClosedTo(levels, n, chosen) && Spans(levels, n, started, lo, hi, chosen)
    && (started ==> Has(levels, From(n), to, lo, hi, chosen))
  }

  /** After IncludeRun() the level's chosen files are exactly the run. */
  lemma RunIsChosen(levels: seq<seq<File>>, l: nat, chosen: set<nat>, first: nat, last: nat, chosen': set<nat>)
    requires LevelsOk(levels) && l < |levels| && first <= last < |levels[l]|
    requires forall k | 0 <= k < |levels[l]| && levels[l][k].number in chosen :: first <= k <= last
    requires chosen' == chosen + set k | first <= k <= last :: levels[l][k].number
    ensures forall k | 0 <= k < |levels[l]| :: levels[l][k].number in chosen' <==> first <= k <= last
    ensures Adds(levels, l, chosen, chosen')
  {
    forall m, k | 0 <= m < |levels| && 0 <= k < |levels[m]| && levels[m][k].number in chosen' &&
        levels[m][k].number !in chosen
      ensures m == l && first <= k <= last
    {
      var n :| first <= n <= last && levels[l][n].number == levels[m][k].number;
    }
  }

  /** Files found in one level are not files of another. */
  lemma OnlyAdds(levels: seq<seq<File>>, from: nat, to: nat, lo: Key, hi: Key, chosen: set<nat>, chosen': set<nat>)
    requires LevelsOk(levels) && Only(levels, from, to, lo, hi, chosen, chosen')
    ensures Adds(levels, from, chosen, chosen')
    ensures forall l: nat, k: nat | In(levels, l, k, chosen') ::
              In(levels, l, k, chosen) || (from <= l <= to && Overlaps(levels[l][k], lo, hi))
  {
    forall l: nat, k: nat | In(levels, l, k, chosen') && !In(levels, l, k, chosen)
      ensures from <= l <= to && Overlaps(levels[l][k], lo, hi)
    {
      var n := levels[l][k].number;
      var m: nat, j: nat :| from <= m <= to && In(levels, m, j, {n}) && Overlaps(levels[m][j], lo, hi);
      assert m == l && j == k;
    }
  }

  lemma ClosedKept(levels: seq<seq<File>>, n: nat, from: nat, chosen: set<nat>, chosen': set<nat>)
    requires ClosedTo(levels, n, chosen) && Adds(levels, from, chosen, chosen') && n <= from && from >= 1
    ensures ClosedTo(levels, n, chosen')
  {
    forall i: nat, j: nat, k: nat | In(levels, 0, i, chosen') && In(levels, 0, j, chosen') && i <= k <= j
      ensures In(levels, 0, k, chosen')
    {
      assert In(levels, 0, i, chosen) && In(levels, 0, j, chosen);
      assert In(levels, 0, k, chosen);
    }
    forall m: nat | 1 <= m < n
      ensures ClosedLevel(levels, m, chosen')
    {
      assert ClosedLevel(levels, m, chosen);
    }
  }

  /** One more level is complete: its chosen files are within the range, and all that meets the range is chosen. */
  lemma LevelCloses(levels: seq<seq<File>>, l: nat, to: nat, started: bool, lo: Key, hi: Key, chosen: set<nat>)
    requires 1 <= l <= to && ClosedTo(levels, l, chosen) && Spans(levels, l + 1, started, lo, hi, chosen)
    requires started ==> Has(levels, l, to, lo, hi, chosen)
    ensures ClosedTo(levels, l + 1, chosen)
  {
    forall p: nat, i: nat, q: nat, j: nat, k: nat |
      p <= l && q <= l && In(levels, p, i, chosen) && In(levels, q, j, chosen) && At(levels, l, k) &&
      Overlaps(levels[l][k], levels[p][i].smallest, levels[q][j].largest)
      ensures In(levels, l, k, chosen)
    {
      assert Inside(levels[p][i], lo, hi) && Inside(levels[q][j], lo, hi);
    }
  }

  /** A level without a chosen file. */
  lemma NoRun(levels: seq<seq<File>>, l: nat, to: nat, origin: set<nat>, busy: set<nat>, started: bool, lo: Key,
              hi: Key, chosen: set<nat>)
    requires 1 <= l <= to && Progress(levels, l, to, origin, busy, started, lo, hi, chosen)
    requires forall k: nat :: !In(levels, l, k, chosen)
    ensures Progress(levels, l + 1, to, origin, busy, started, lo, hi, chosen)
  {
    LevelCloses(levels, l, to, started, lo, hi, chosen);
  }

  lemma RunAddsNeeded(levels: seq<seq<File>>, l: nat, to: nat, origin: set<nat>, chosen: set<nat>, first: nat,
                      last: nat, chosen': set<nat>)
    requires l < |levels| && first <= last < |levels[l]| && AllNeeded(levels, to, origin, chosen)
    requires chosen' == chosen + set k | first <= k <= last :: levels[l][k].number
    requires forall k | first <= k <= last :: Needed(levels, to, origin, levels[l][k].number)
    ensures AllNeeded(levels, to, origin, chosen')
  {
  }

  lemma BusyIsHopeless(levels: seq<seq<File>>, l: nat, to: nat, origin: set<nat>, busy: set<nat>, first: nat, last: nat)
    requires l <= to && l < |levels| && first <= last < |levels[l]| && !forall k | first <= k <= last ::
               levels[l][k].number !in busy
    requires forall k | first <= k <= last :: Needed(levels, to, origin, levels[l][k].number)
    ensures Hopeless(levels, to, origin, busy)
  {
    var k: nat :| first <= k <= last && levels[l][k].number in busy;
    assert At(levels, l, k);
  }

  /** From level 1 down: after the run is extended and the range widened to it, whatever has a key in the range
      lies within it. */
  lemma OverlapIsInside(files: seq<File>, started: bool, lo: Key, hi: Key, first: nat, last: nat, lo': Key, hi': Key,
                        k: nat)
    requires LevelOk(files) && first <= last < |files| && k < |files|
    requires first > 0 ==> files[first - 1].largest < files[first].smallest
    requires last + 1 < |files| ==> files[last + 1].smallest > files[last].largest
    requires lo' == Widen(started, lo, files[first].smallest, true)
    requires hi' == Widen(started, hi, files[last].largest, false)
    requires started ==> lo <= hi && forall n | 0 <= n < |files| && Overlaps(files[n], lo, hi) :: first <= n <= last
    requires Overlaps(files[k], lo', hi')
    ensures Inside(files[k], lo', hi')
  {
    if k < first {
      assert files[k].largest <= files[first - 1].largest;
    } else if k > last {
      assert files[last + 1].smallest <= files[k].smallest;
    } else {
      WiderOverlaps(files, k, k + 1, first, last + 1);
    }
  }

  /** A bound of the range, once the level's own is taken into account. */
  function Widen(started: bool, bound: Key, own: Key, low: bool): Key {
    if !started then own else if low then Min(bound, own) else Max(bound, own)
  }

  /** The range once the run of level l is added. */
  lemma SpansRun(levels: seq<seq<File>>, l: nat, started: bool, lo: Key, hi: Key, chosen: set<nat>, first: nat,
                 last: nat, chosen': set<nat>)
    requires 1 <= l < |levels| && LevelOk(levels[l]) && first <= last < |levels[l]|
    requires Spans(levels, l, started, lo, hi, chosen)
    requires Adds(levels, l, chosen, chosen') && forall k | 0 <= k < |levels[l]| :: levels[l][k].number in chosen' <==>
               first <= k <= last
    ensures var files := levels[l];
            Spans(levels, l + 1, true, Widen(started, lo, files[first].smallest, true),
                Widen(started, hi, files[last].largest, false), chosen')
  {
    var files := levels[l];
    RangeOrdered(files, first, last + 1);
    assert In(levels, l, first, chosen') && In(levels, l, last, chosen');
    var lo', hi' := Widen(started, lo, files[first].smallest, true), Widen(started, hi, files[last].largest, false);
    forall m: nat, i: nat | m < l + 1 && In(levels, m, i, chosen')
      ensures Inside(levels[m][i], lo', hi')
    {
      if m == l {
        WiderOverlaps(files, i, i + 1, first, last + 1);
      } else {
        assert In(levels, m, i, chosen);
      }
    }
    if started && lo < files[first].smallest {
      var m: nat, i: nat :| m < l && In(levels, m, i, chosen) && levels[m][i].smallest == lo;
      assert In(levels, m, i, chosen');
    }
    if started && hi > files[last].largest {
      var m: nat, i: nat :| m < l && In(levels, m, i, chosen) && levels[m][i].largest == hi;
      assert In(levels, m, i, chosen');
    }
  }

  /** The range stays when files within it are added. */
  lemma SpansMore(levels: seq<seq<File>>, n: nat, lo: Key, hi: Key, chosen: set<nat>, chosen': set<nat>)
    requires Spans(levels, n, true, lo, hi, chosen) && chosen <= chosen'
    requires forall l: nat, k: nat | l < n && In(levels, l, k, chosen') && !In(levels, l, k, chosen) ::
               Inside(levels[l][k], lo, hi)
    ensures Spans(levels, n, true, lo, hi, chosen')
  {
    var p: nat, i: nat :| p < n && In(levels, p, i, chosen) && levels[p][i].smallest == lo;
    var q: nat, j: nat :| q < n && In(levels, q, j, chosen) && levels[q][j].largest == hi;
    assert In(levels, p, i, chosen') && In(levels, q, j, chosen');
  }

  /** A level from 1 down. */
  method SettleLevel(levels: seq<seq<File>>, busy: set<nat>, chosen: set<nat>, l: nat, to: nat, started0: bool,
                     lo0: Key, hi0: Key, ghost origin: set<nat>)
    returns (ok: bool, chosen': set<nat>, started: bool, lo: Key, hi: Key)
    requires LevelsOk(levels) && 1 <= l <= to < |levels|
    requires Progress(levels, l, to, origin, busy, started0, lo0, hi0, chosen)
    ensures ok ==>
              Adds(levels, l, chosen, chosen') && Progress(levels, l + 1, to, origin, busy, started, lo, hi, chosen')
    ensures !ok ==> Hopeless(levels, to, origin, busy)
  {
    hide LevelsOk, AllNeeded, Spans, ClosedTo, Hopeless, Needed;
    chosen', ok, started, lo, hi := chosen, true, started0, lo0, hi0;
    var files := levels[l];
    LevelBasics(levels, l);
    var found, first0, last0 := FindRun(files, chosen);
    if !found {
      NoRun(levels, l, to, origin, busy, started, lo, hi, chosen);
      return;
    }
    assert started ==> forall n | 0 <= n < |files| && Overlaps(files[n], lo, hi) :: first0 <= n <= last0 by {
      HasInRun(levels, l, to, lo, hi, chosen, started, first0, last0);
    }
    var first, last := ExtendRun(files, first0, last0);
    RunNeeded(levels, to, origin, chosen, l, first0, last0, first, last);
    ok, chosen' := IncludeRun(files, busy, chosen, first, last);
    if !ok {
      BusyIsHopeless(levels, l, to, origin, busy, first, last);
      return;
    }
    ghost var run := chosen';
    RunAddsNeeded(levels, l, to, origin, chosen, first, last, run);
    RunIsChosen(levels, l, chosen, first, last, run);
    lo, hi := Widen(started, lo, files[first].smallest, true), Widen(started, hi, files[last].largest, false);
    SpansRun(levels, l, started, lo0, hi0, chosen, first, last, run);
    SpansOrdered(levels, l + 1, lo, hi, run);
    ok, chosen' := IncludeOverlapping(levels, busy, chosen', l, to, lo, hi);
    if ok {
      SettleOverlapping(levels, busy, chosen, l, to, started0, lo0, hi0, origin, first, last, run, lo, hi, chosen');
      started := true;
    } else {
      OverlapHopeless(levels, l, to, lo, hi, origin, run, busy);
    }
  }

  lemma SpansOrdered(levels: seq<seq<File>>, n: nat, lo: Key, hi: Key, chosen: set<nat>)
    requires Spans(levels, n, true, lo, hi, chosen)
    ensures lo <= hi
  {
  }

  lemma HasInRun(levels: seq<seq<File>>, l: nat, to: nat, lo: Key, hi: Key, chosen: set<nat>, started: bool, first: nat,
                 last: nat)
    requires 1 <= l <= to < |levels| && (started ==> Has(levels, From(l), to, lo, hi, chosen))
    requires forall k | 0 <= k < |levels[l]| && levels[l][k].number in chosen :: first <= k <= last
    ensures started ==> forall n | 0 <= n < |levels[l]| && Overlaps(levels[l][n], lo, hi) :: first <= n <= last
  {
    if started {
      forall n | 0 <= n < |levels[l]| && Overlaps(levels[l][n], lo, hi)
        ensures first <= n <= last
      {
        assert At(levels, l, n);
        assert In(levels, l, n, chosen);
      }
    }
  }

  lemma RunNeeded(levels: seq<seq<File>>, to: nat, origin: set<nat>, chosen: set<nat>, l: nat, first0: nat, last0: nat,
                  first: nat, last: nat)
    requires 1 <= l <= to && l < |levels| && LevelOk(levels[l]) && Extended(levels[l], first0, last0, first, last)
    requires AllNeeded(levels, to, origin, chosen) && levels[l][first0].number in chosen
    requires levels[l][last0].number in chosen
    ensures forall k | first <= k <= last :: Needed(levels, to, origin, levels[l][k].number)
  {
    assert last < |levels[l]|;
    hide Needed, Extended, LevelOk;
    forall k | first <= k <= last
      ensures Needed(levels, to, origin, levels[l][k].number)
    {
      RunIsNeeded(levels, to, origin, l, first0, last0, first, last, k);
    }
  }

  /** With the run and everything that meets the range, level l is complete. */
  lemma SettleOverlapping(levels: seq<seq<File>>, busy: set<nat>, chosen: set<nat>, l: nat, to: nat, started0: bool,
                          lo0: Key, hi0: Key, origin: set<nat>, first: nat, last: nat, run: set<nat>, lo: Key, hi: Key,
                          chosen': set<nat>)
    requires LevelsOk(levels) && 1 <= l <= to < |levels|
    requires Progress(levels, l, to, origin, busy, started0, lo0, hi0, chosen)
    requires first <= last < |levels[l]| && (first > 0 ==> levels[l][first - 1].largest < levels[l][first].smallest)
    requires last + 1 < |levels[l]| ==> levels[l][last + 1].smallest > levels[l][last].largest
    requires started0 ==> forall n | 0 <= n < |levels[l]| && Overlaps(levels[l][n], lo0, hi0) :: first <= n <= last
    requires lo == Widen(started0, lo0, levels[l][first].smallest, true)
    requires hi == Widen(started0, hi0, levels[l][last].largest, false)
    requires forall k | 0 <= k < |levels[l]| :: levels[l][k].number in run <==> first <= k <= last
    requires Adds(levels, l, chosen, run) && AllNeeded(levels, to, origin, run)
    requires Spans(levels, l + 1, true, lo, hi, run)
    requires forall k | first <= k <= last :: levels[l][k].number !in busy
    requires Has(levels, l, to, lo, hi, chosen') && Only(levels, l, to, lo, hi, run, chosen')
    requires forall m | l <= m <= to :: OverlappingIdle(levels[m], lo, hi, busy)
    ensures Adds(levels, l, chosen, chosen') && Progress(levels, l + 1, to, origin, busy, true, lo, hi, chosen')
  {
    LevelBasics(levels, l);
    OnlyAdds(levels, l, to, lo, hi, run, chosen');
    OverlappingNeeded(levels, l, to, lo, hi, origin, run, chosen');
    assert started0 ==> lo0 <= hi0;
    hide LevelsOk, AllNeeded, ClosedTo, Needed, Only, Has, Idle;
    forall m: nat, k: nat | m < l + 1 && In(levels, m, k, chosen') && !In(levels, m, k, run)
      ensures Inside(levels[m][k], lo, hi)
    {
      OverlapIsInside(levels[l], started0, lo0, hi0, first, last, lo, hi, k);
    }
    SpansMore(levels, l + 1, lo, hi, run, chosen');
    hide Spans;
    IdleMore(levels, l, chosen, run, chosen', busy, first, last, lo, hi);
    ClosedKept(levels, l, l, chosen, chosen');
    LevelCloses(levels, l, to, true, lo, hi, chosen');
  }

  lemma IdleMore(levels: seq<seq<File>>, l: nat, chosen: set<nat>, run: set<nat>, chosen': set<nat>, busy: set<nat>,
                 first: nat, last: nat, lo: Key, hi: Key)
    requires l < |levels| && Idle(levels, l, chosen, busy) && Adds(levels, l, chosen, run)
    requires Adds(levels, l, run, chosen')
    requires forall k | 0 <= k < |levels[l]| :: levels[l][k].number in run <==> first <= k <= last
    requires first <= last < |levels[l]| && (forall k | first <= k <= last :: levels[l][k].number !in busy)
    requires OverlappingIdle(levels[l], lo, hi, busy)
    requires forall m: nat, k: nat | In(levels, m, k, chosen') ::
               In(levels, m, k, run) || (l <= m && Overlaps(levels[m][k], lo, hi))
    ensures Idle(levels, l + 1, chosen', busy) && Adds(levels, l, chosen, chosen')
  {
    forall m: nat, k: nat | m < l + 1 && In(levels, m, k, chosen')
      ensures levels[m][k].number !in busy
    {
      if m < l {
        assert In(levels, m, k, run) && In(levels, m, k, chosen);
      }
    }
  }

  // ---------------------------------------------------------------- level 0, and all levels

  /** Level 0 widens the range file by file. */
  method WidenLevel0(files: seq<File>, first: nat, last: nat) returns (lo: Key, hi: Key)
    requires FilesOk(files) && first <= last < |files|
    ensures lo <= hi && forall k | first <= k <= last :: Inside(files[k], lo, hi)
    ensures (exists k | first <= k <= last :: files[k].smallest == lo) && exists k | first <= k <= last ::
              files[k].largest == hi
  {
    lo, hi := files[first].smallest, files[first].largest;
    var f := first;
    while f <= last
      invariant first <= f <= last + 1 && lo <= hi && forall k | first <= k < f :: Inside(files[k], lo, hi)
      invariant (exists k | first <= k <= last :: files[k].smallest == lo) && exists k | first <= k <= last ::
                  files[k].largest == hi
    {
      if lo > files[f].smallest {
        lo := files[f].smallest;
      }
      if hi < files[f].largest {
        hi := files[f].largest;
      }
      f := f + 1;
    }
  }

  /** File k of level 0 lies between two files of the user's choice. */
  ghost predicate Between(files: seq<File>, chosen: set<nat>, k: nat) {
    exists i, j | 0 <= i <= k <= j < |files| :: files[i].number in chosen && files[j].number in chosen
  }

  /** Of level 0 exactly those are in the result; older files with the same keys are not. */
  ghost predicate Level0Exact(files: seq<File>, chosen: set<nat>, result: set<nat>) {
    forall k | 0 <= k < |files| :: files[k].number in result <==> Between(files, chosen, k)
  }

  /** The run of level 0: everything between the first and the last chosen file. */
  method SettleLevel0(levels: seq<seq<File>>, busy: set<nat>, chosen: set<nat>, to: nat)
    returns (ok: bool, chosen': set<nat>, started: bool, lo: Key, hi: Key)
    requires LevelsOk(levels) && to < |levels|
    ensures ok ==>
              Level0Exact(levels[0], chosen, chosen') && Progress(levels, 1, to, chosen, busy, started, lo, hi, chosen')
    ensures !ok ==> Hopeless(levels, to, chosen, busy)
  {
    hide LevelsOk, Spans, ClosedTo, Hopeless;
    chosen', ok, started, lo, hi := chosen, true, false, 0, 0;
    var files := levels[0];
    LevelBasics(levels, 0);
    var found, first, last := FindRun(files, chosen);
    assert AllNeeded(levels, to, chosen, chosen);
    hide AllNeeded, Needed;
    if !found {
      Level0Nothing(levels, to, chosen, busy);
      return;
    }
    Level0Needed(levels, to, chosen, first, last);
    ok, chosen' := IncludeRun(files, busy, chosen, first, last);
    if !ok {
      BusyIsHopeless(levels, 0, to, chosen, busy, first, last);
      return;
    }
    ghost var run := chosen';
    RunAddsNeeded(levels, 0, to, chosen, chosen, first, last, run);
    RunIsChosen(levels, 0, chosen, first, last, run);
    lo, hi := WidenLevel0(files, first, last);
    SpansLevel0(levels, lo, hi, run, first, last);
    ok, chosen' := IncludeOverlapping(levels, busy, chosen', 1, to, lo, hi);
    if ok {
      Level0Settles(levels, busy, chosen, to, first, last, run, lo, hi, chosen');
      started := true;
    } else {
      OverlapHopeless(levels, 0, to, lo, hi, chosen, run, busy);
    }
  }

  lemma Level0Nothing(levels: seq<seq<File>>, to: nat, chosen: set<nat>, busy: set<nat>)
    requires to < |levels| && AllNeeded(levels, to, chosen, chosen) && !exists k | 0 <= k < |levels[0]| ::
               levels[0][k].number in chosen
    ensures Level0Exact(levels[0], chosen, chosen) && Progress(levels, 1, to, chosen, busy, false, 0, 0, chosen)
  {
    assert forall k: nat :: !In(levels, 0, k, chosen);
  }

  lemma Level0Needed(levels: seq<seq<File>>, to: nat, chosen: set<nat>, first: nat, last: nat)
    requires levels != [] && first <= last < |levels[0]| && AllNeeded(levels, to, chosen, chosen)
    requires levels[0][first].number in chosen && levels[0][last].number in chosen
    ensures forall k | first <= k <= last :: Needed(levels, to, chosen, levels[0][k].number)
  {
    forall k | first <= k <= last
      ensures Needed(levels, to, chosen, levels[0][k].number)
    {
      BetweenIsNeeded(levels, to, chosen, chosen, first, last, k);
    }
  }

  lemma SpansLevel0(levels: seq<seq<File>>, lo: Key, hi: Key, run: set<nat>, first: nat, last: nat)
    requires levels != [] && first <= last < |levels[0]| && lo <= hi && forall k | first <= k <= last ::
               Inside(levels[0][k], lo, hi)
    requires (exists k | first <= k <= last :: levels[0][k].smallest == lo) && exists k | first <= k <= last ::
               levels[0][k].largest == hi
    requires forall k | 0 <= k < |levels[0]| :: levels[0][k].number in run <==> first <= k <= last
    ensures Spans(levels, 1, true, lo, hi, run)
  {
    var i: nat :| first <= i <= last && levels[0][i].smallest == lo;
    var j: nat :| first <= j <= last && levels[0][j].largest == hi;
    assert In(levels, 0, i, run) && In(levels, 0, j, run);
  }

  lemma Level0Settles(levels: seq<seq<File>>, busy: set<nat>, chosen: set<nat>, to: nat, first: nat, last: nat,
                      run: set<nat>, lo: Key, hi: Key, chosen': set<nat>)
    requires LevelsOk(levels) && to < |levels| && first <= last < |levels[0]| && chosen <= run
    requires levels[0][first].number in chosen && levels[0][last].number in chosen
    requires forall k | 0 <= k < |levels[0]| :: levels[0][k].number in run <==> first <= k <= last
    requires forall k | 0 <= k < |levels[0]| && levels[0][k].number in chosen :: first <= k <= last
    requires AllNeeded(levels, to, chosen, run) && Spans(levels, 1, true, lo, hi, run)
    requires forall k | first <= k <= last :: levels[0][k].number !in busy
    requires Has(levels, 1, to, lo, hi, chosen') && Only(levels, 1, to, lo, hi, run, chosen')
    ensures Level0Exact(levels[0], chosen, chosen') && Progress(levels, 1, to, chosen, busy, true, lo, hi, chosen')
  {
    assert chosen <= chosen';
    hide LevelsOk, AllNeeded, Spans, Has, Only, ClosedTo, Idle, Level0Exact, Adds;
    OnlyAdds(levels, 1, to, lo, hi, run, chosen');
    OverlappingNeeded(levels, 0, to, lo, hi, chosen, run, chosen');
    Level0Members(levels, run, chosen', first, last);
    Level0Between(levels, chosen, chosen', first, last);
    Level0Alone(levels, busy, lo, hi, run, chosen', first, last);
  }

  lemma Level0Alone(levels: seq<seq<File>>, busy: set<nat>, lo: Key, hi: Key, run: set<nat>, chosen': set<nat>,
                    first: nat, last: nat)
    requires levels != [] && first <= last < |levels[0]| && run <= chosen' && Spans(levels, 1, true, lo, hi, run)
    requires forall k | 0 <= k < |levels[0]| :: levels[0][k].number in run <==> first <= k <= last
    requires forall k: nat :: In(levels, 0, k, chosen') <==> first <= k <= last
    requires forall k | first <= k <= last :: levels[0][k].number !in busy
    ensures Spans(levels, 1, true, lo, hi, chosen') && Idle(levels, 1, chosen', busy) && ClosedTo(levels, 1, chosen')
  {
    forall l: nat, k: nat | l < 1 && In(levels, l, k, chosen')
      ensures In(levels, l, k, run) && levels[l][k].number !in busy
    {
    }
    SpansMore(levels, 1, lo, hi, run, chosen');
  }

  lemma Level0Members(levels: seq<seq<File>>, run: set<nat>, chosen': set<nat>, first: nat, last: nat)
    requires levels != [] && first <= last < |levels[0]| && Adds(levels, 1, run, chosen')
    requires forall k | 0 <= k < |levels[0]| :: levels[0][k].number in run <==> first <= k <= last
    ensures forall k: nat :: In(levels, 0, k, chosen') <==> first <= k <= last
  {
    forall k: nat
      ensures In(levels, 0, k, chosen') <==> first <= k <= last
    {
      assert In(levels, 0, k, chosen') ==> In(levels, 0, k, run);
    }
  }

  lemma Level0Between(levels: seq<seq<File>>, chosen: set<nat>, chosen': set<nat>, first: nat, last: nat)
    requires levels != [] && first <= last < |levels[0]| && forall k: nat :: In(levels, 0, k, chosen') <==>
               first <= k <= last
    requires levels[0][first].number in chosen && levels[0][last].number in chosen
    requires forall k | 0 <= k < |levels[0]| && levels[0][k].number in chosen :: first <= k <= last
    ensures Level0Exact(levels[0], chosen, chosen')
  {
    forall k | 0 <= k < |levels[0]|
      ensures levels[0][k].number in chosen' <==> Between(levels[0], chosen, k)
    {
      assert In(levels, 0, k, chosen') <==> first <= k <= last;
    }
  }

  /** SanitizeCompactionInputFilesForAllLevels(). It returns the least complete choice around the user's, if no
      file of it is busy; it aborts only if every complete choice around the user's holds a busy file. */
  method SanitizeForAllLevels(levels: seq<seq<File>>, busy: set<nat>, chosen: set<nat>, to: nat) returns (r: Result)
    requires LevelsOk(levels) && to < |levels|
    ensures r.Ok? ==> chosen <= r.files && Closed(levels, to, r.files) && Idle(levels, to + 1, r.files, busy)
    ensures r.Ok? ==> forall all: set<nat> | chosen <= all && Closed(levels, to, all) :: r.files <= all
    ensures r.Ok? ==> Level0Exact(levels[0], chosen, r.files)
    ensures r.Aborted? ==>
              forall all: set<nat> | chosen <= all && Closed(levels, to, all) :: !Idle(levels, to + 1, all, busy)
  {
    hide LevelsOk, Level0Exact, Hopeless, Progress, ClosedTo, Idle;
    var ok, files, started, lo, hi := SettleLevel0(levels, busy, chosen, to);
    if !ok {
      NoneIdle(levels, to, chosen, busy);
      return Aborted;
    }
    var l := 1;
    while l <= to
      invariant 1 <= l <= to + 1 && Level0Exact(levels[0], chosen, files)
      invariant Progress(levels, l, to, chosen, busy, started, lo, hi, files)
    {
      ghost var before := files;
      ok, files, started, lo, hi := SettleLevel(levels, busy, files, l, to, started, lo, hi, chosen);
      if !ok {
        NoneIdle(levels, to, chosen, busy);
        return Aborted;
      }
      Level0Kept(levels, l, chosen, before, files);
      l := l + 1;
    }
    LeastChoice(levels, to, chosen, busy, started, lo, hi, files);
    r := Ok(files);
  }

  lemma NoneIdle(levels: seq<seq<File>>, to: nat, chosen: set<nat>, busy: set<nat>)
    requires Hopeless(levels, to, chosen, busy)
    ensures forall all: set<nat> | chosen <= all && Closed(levels, to, all) :: !Idle(levels, to + 1, all, busy)
  {
    var l: nat, i: nat :| l <= to && At(levels, l, i) && levels[l][i].number in busy &&
        Needed(levels, to, chosen, levels[l][i].number);
    forall all: set<nat> | chosen <= all && Closed(levels, to, all)
      ensures !Idle(levels, to + 1, all, busy)
    {
      assert In(levels, l, i, all);
    }
  }

  lemma Level0Kept(levels: seq<seq<File>>, l: nat, chosen: set<nat>, before: set<nat>, after: set<nat>)
    requires l >= 1 && levels != [] && Level0Exact(levels[0], chosen, before) && Adds(levels, l, before, after)
    ensures Level0Exact(levels[0], chosen, after)
  {
    forall k | 0 <= k < |levels[0]|
      ensures levels[0][k].number in after <==> levels[0][k].number in before
    {
      assert In(levels, 0, k, after) ==> In(levels, 0, k, before);
    }
  }

  lemma LeastChoice(levels: seq<seq<File>>, to: nat, chosen: set<nat>, busy: set<nat>, started: bool, lo: Key, hi: Key,
                    files: set<nat>)
    requires Progress(levels, to + 1, to, chosen, busy, started, lo, hi, files)
    ensures chosen <= files && Closed(levels, to, files) && Idle(levels, to + 1, files, busy)
    ensures forall all: set<nat> | chosen <= all && Closed(levels, to, all) :: files <= all
  {
    forall all: set<nat>, n | chosen <= all && Closed(levels, to, all) && n in files
      ensures n in all
    {
      assert Needed(levels, to, chosen, n);
    }
  }
}
