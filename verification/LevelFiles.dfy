/** The file lists of a version and the questions the pickers ask them: which files of a level overlap a
    range of user keys, and which lie cleanly within it. */
module LevelFiles {
  import opened Common

  /** A table file: number, smallest and largest user key, compensated size. */
  datatype File = File(number: nat, smallest: Key, largest: Key, size: nat)

  predicate Overlaps(f: File, lo: Key, hi: Key) {
    f.smallest <= hi && lo <= f.largest
  }

  /** Two files share a user key range. */
  predicate Share(f: File, g: File) {
    Overlaps(f, g.smallest, g.largest)
  }

  predicate FilesOk(files: seq<File>) {
    forall i | 0 <= i < |files| :: files[i].smallest <= files[i].largest
  }

  /** A level from 1 down: sorted, where the last user key of a file may be the first of the next. */
  predicate LevelOk(files: seq<File>) {
    FilesOk(files) && forall i, j | 0 <= i < j < |files| :: files[i].largest <= files[j].smallest
  }

  /** No two files of the version have the same number. */
  predicate DistinctNumbers(levels: seq<seq<File>>) {
    forall l, k, m, n | 0 <= l < |levels| && 0 <= k < |levels[l]| && 0 <= m < |levels| && 0 <= n < |levels[m]| &&
        levels[l][k].number == levels[m][n].number ::
      l == m && k == n
  }

  /** The levels of a version: level 0 is ordered by age, newest first, and its files may overlap. */
  predicate LevelsOk(levels: seq<seq<File>>) {
    && (forall l | 0 <= l < |levels| :: FilesOk(levels[l]))
    && (forall l | 1 <= l < |levels| :: LevelOk(levels[l]))
    && DistinctNumbers(levels)
  }

  /** files[i..j] are exactly the overlapping ones. */
  ghost predicate ExactRange(files: seq<File>, lo: Key, hi: Key, i: nat, j: nat) {
    i <= j <= |files| && forall k | 0 <= k < |files| :: i <= k < j <==> Overlaps(files[k], lo, hi)
  }

  /** ExtendFileRangeOverlappingInterval(): from one overlapping file back and forth to all of them. */
  method ExtendOverlapping(files: seq<File>, lo: Key, hi: Key, mid: nat) returns (i: nat, j: nat)
    requires LevelOk(files) && lo <= hi && mid < |files| && Overlaps(files[mid], lo, hi)
    ensures ExactRange(files, lo, hi, i, j) && i <= mid < j
  {
    i, j := mid, mid + 1;
    while i > 0 && files[i - 1].largest >= lo
      invariant 0 <= i <= mid && forall k | i <= k <= mid :: Overlaps(files[k], lo, hi)
    {
      i := i - 1;
    }
    while j < |files| && files[j].smallest <= hi
      invariant mid < j <= |files| && forall k | mid <= k < j :: Overlaps(files[k], lo, hi)
    {
      j := j + 1;
    }
  }

  /** GetOverlappingInputsRangeBinarySearch(): the overlapping files of a level from 1 down. A hint names
      one of them. */
  method GetOverlapping(files: seq<File>, lo: Key, hi: Key, hint: Option<nat>)
    returns (inputs: seq<File>, index: Option<nat>, ghost i: nat, ghost j: nat)
    requires LevelOk(files) && lo <= hi && (hint.Some? ==> hint.value < |files| && Overlaps(files[hint.value], lo, hi))
    ensures ExactRange(files, lo, hi, i, j) && inputs == files[i..j]
    ensures index.Some? <==> inputs != []
    ensures index.Some? ==> index.value < |files| && Overlaps(files[index.value], lo, hi)
  {
    var min, max := 0, |files|;
    var mid := 0;
    var found := false;
    if hint.Some? {
      mid, found := hint.value, true;
    }
    while !found && min < max
      invariant 0 <= min <= max <= |files|
      invariant found ==> 0 <= mid < |files| && Overlaps(files[mid], lo, hi)
      invariant !found ==> forall k | 0 <= k < min :: files[k].largest < lo
      invariant !found ==> forall k | max <= k < |files| :: hi < files[k].smallest
      decreases max - min, !found
    {
      mid := (min + max - 1) / 2;
      if files[mid].largest < lo {
        min := mid + 1;
      } else if hi < files[mid].smallest {
        max := mid;
      } else {
        found := true;
      }
    }
    if !found {
      inputs, index, i, j := [], None, 0, 0;
      return;
    }
    var start, end := ExtendOverlapping(files, lo, hi, mid);
    inputs, index, i, j := files[start..end], Some(mid), start, end;
  }

  // ---------------------------------------------------------------- clean cuts

  /** A nonempty run of files that shares no user key with the files around it. */
  ghost predicate CleanCut(files: seq<File>, i: nat, j: nat) {
    && i < j <= |files|
    && (i > 0 ==> files[i - 1].largest < files[i].smallest)
    && (j < |files| ==> files[j - 1].largest < files[j].smallest)
  }

  /** So no file outside shares a key with one inside. */
  lemma CleanCutSharesNothing(files: seq<File>, i: nat, j: nat, a: nat, b: nat)
    requires LevelOk(files) && CleanCut(files, i, j) && i <= a < j && b < |files| && !(i <= b < j)
    ensures !Share(files[a], files[b]) && !Share(files[b], files[a])
  {
  }

  predicate AnyBusy(inputs: seq<File>, busy: set<nat>) {
    exists f | f in inputs :: f.number in busy
  }

  /** AreFilesInCompaction(). */
  method AreFilesInCompaction(inputs: seq<File>, busy: set<nat>) returns (r: bool)
    ensures r == AnyBusy(inputs, busy)
  {
    var i := 0;
    while i < |inputs|
      invariant 0 <= i <= |inputs| && forall k | 0 <= k < i :: inputs[k].number !in busy
    {
      if inputs[i].number in busy {
        return true;
      }
      i := i + 1;
    }
    r := false;
  }

  /** Every clean cut around files[i..j] takes in files[i'..j']. */
  ghost predicate InEveryCleanCut(files: seq<File>, i: nat, j: nat, i': nat, j': nat) {
    forall l: nat, r: nat | CleanCut(files, l, r) && l <= i && j <= r :: l <= i' && j' <= r
  }

  /** What overlaps the range of a run is in every clean cut around the run. */
  lemma GrowStaysInside(files: seq<File>, i: nat, j: nat, a: nat, b: nat, i': nat, j': nat)
    requires LevelOk(files) && i < j && a <= i && j <= b <= |files| && InEveryCleanCut(files, i, j, a, b)
    requires ExactRange(files, files[a].smallest, files[b - 1].largest, i', j')
    ensures i' <= a && b <= j' && InEveryCleanCut(files, i, j, i', j')
  {
    assert Overlaps(files[a], files[a].smallest, files[b - 1].largest);
    assert Overlaps(files[b - 1], files[a].smallest, files[b - 1].largest);
    forall l: nat, r: nat | CleanCut(files, l, r) && l <= i && j <= r
      ensures l <= i' && j' <= r
    {
      assert l > 0 ==> !Overlaps(files[l - 1], files[a].smallest, files[b - 1].largest);
      assert r < |files| ==> !Overlaps(files[r], files[a].smallest, files[b - 1].largest);
    }
  }

  /** A run that is exactly what overlaps its range is a clean cut. */
  lemma FixpointIsClean(files: seq<File>, i: nat, j: nat)
    requires LevelOk(files) && i < j <= |files| && ExactRange(files, files[i].smallest, files[j - 1].largest, i, j)
    ensures CleanCut(files, i, j)
  {
    assert i > 0 ==> !Overlaps(files[i - 1], files[i].smallest, files[j - 1].largest);
    assert j < |files| ==> !Overlaps(files[j], files[i].smallest, files[j - 1].largest);
  }

  /** ExpandInputsToCleanCut(), from level 1 down: grow until the files that overlap the range are the
      inputs themselves. That is the least clean cut around them; fails if some file of it is busy. */
  method ExpandInputsToCleanCut(files: seq<File>, busy: set<nat>, inputs: seq<File>, ghost i: nat, ghost j: nat)
    returns (ok: bool, expanded: seq<File>, ghost i': nat, ghost j': nat)
    requires LevelOk(files) && i < j <= |files| && inputs == files[i..j]
    ensures CleanCut(files, i', j') && i' <= i && j <= j' && expanded == files[i'..j']
    ensures InEveryCleanCut(files, i, j, i', j')
    ensures ok <==> !AnyBusy(expanded, busy)
  {
    hide LevelOk, InEveryCleanCut, ExactRange;
    expanded, i', j' := inputs, i, j;
    assert InEveryCleanCut(files, i, j, i, j) by { EveryCleanCut(files, i, j); }
    var hint: Option<nat> := None;
    var size := 0;
    while |expanded| > size
      invariant i' <= i && j <= j' <= |files| && expanded == files[i'..j'] && size <= |expanded|
      invariant InEveryCleanCut(files, i, j, i', j')
      invariant |expanded| == size ==> ExactRange(files, files[i'].smallest, files[j' - 1].largest, i', j')
      invariant hint.Some? ==>
                  hint.value < |files| && Overlaps(files[hint.value], files[i'].smallest, files[j' - 1].largest)
      decreases |files| - size
    {
      size := |expanded|;
      ghost var a, b := i', j';
      RangeOrdered(files, a, b);
      var smallest, largest := expanded[0].smallest, expanded[|expanded| - 1].largest;
      expanded, hint, i', j' := GetOverlapping(files, smallest, largest, hint);
      GrowStaysInside(files, i, j, a, b, i', j');
      WiderOverlaps(files, a, b, i', j');
    }
    FixpointIsClean(files, i', j');
    var inUse := AreFilesInCompaction(expanded, busy);
    ok := !inUse;
  }

  lemma EveryCleanCut(files: seq<File>, i: nat, j: nat)
    ensures InEveryCleanCut(files, i, j, i, j)
  {
  }

  lemma RangeOrdered(files: seq<File>, i: nat, j: nat)
    requires LevelOk(files) && i < j <= |files|
    ensures files[i].smallest <= files[j - 1].largest
  {
    if i < j - 1 {
      assert files[i].smallest <= files[i].largest <= files[j - 1].smallest <= files[j - 1].largest;
    }
  }

  lemma WiderOverlaps(files: seq<File>, a: nat, b: nat, i: nat, j: nat)
    requires LevelOk(files) && i <= a < b <= j <= |files|
    ensures files[i].smallest <= files[a].smallest && files[b - 1].largest <= files[j - 1].largest
  {
    if i < a {
      assert files[i].smallest <= files[i].largest <= files[a].smallest;
    }
    if b < j {
      assert files[b - 1].largest <= files[j - 1].smallest <= files[j - 1].largest;
    }
  }

  // ---------------------------------------------------------------- clean runs within an interval

  predicate Inside(f: File, lo: Key, hi: Key) {
    lo <= f.smallest && f.largest <= hi
  }

  ghost predicate AllInside(files: seq<File>, i: nat, j: nat, lo: Key, hi: Key) {
    i <= j <= |files| && forall k | i <= k < j :: Inside(files[k], lo, hi)
  }

  /** files[l..r] contains every clean cut that lies within the interval. */
  ghost predicate ContainsAllCleanInside(files: seq<File>, lo: Key, hi: Key, l: nat, r: nat) {
    forall i: nat, j: nat | CleanCut(files, i, j) && AllInside(files, i, j, lo, hi) :: l <= i && j <= r
  }

  /** Every run inside the interval overlaps it. */
  lemma InsideIsOverlapping(files: seq<File>, lo: Key, hi: Key, start: nat, end: nat)
    requires LevelOk(files) && lo <= hi && ExactRange(files, lo, hi, start, end)
    ensures ContainsAllCleanInside(files, lo, hi, start, end)
  {
    forall i: nat, j: nat | CleanCut(files, i, j) && AllInside(files, i, j, lo, hi)
      ensures start <= i && j <= end
    {
      assert Inside(files[i], lo, hi) && Inside(files[j - 1], lo, hi);
      assert Overlaps(files[i], lo, hi) && Overlaps(files[j - 1], lo, hi);
    }
  }

  /** ExtendFileRangeWithinInterval(): shrink the overlapping run from both ends to a clean run within. */
  method ShrinkToClean(files: seq<File>, lo: Key, hi: Key, start: nat, end: nat) returns (l: nat, r: nat)
    requires LevelOk(files) && lo <= hi && start < end && ExactRange(files, lo, hi, start, end)
    ensures start <= l && r <= end && ContainsAllCleanInside(files, lo, hi, l, r)
    ensures l < r ==> CleanCut(files, l, r) && AllInside(files, l, r, lo, hi)
  {
    InsideIsOverlapping(files, lo, hi, start, end);
    l, r := start, end;
    while l < r && (files[l].smallest < lo || (l > 0 && files[l].smallest == files[l - 1].largest))
      invariant start <= l <= r == end && ContainsAllCleanInside(files, lo, hi, l, r)
    {
      DropLeft(files, lo, hi, l, r);
      l := l + 1;
    }
    while l < r && (files[r - 1].largest > hi || (r < |files| && files[r - 1].largest == files[r].smallest))
      invariant start <= l <= r <= end && ContainsAllCleanInside(files, lo, hi, l, r)
      invariant l < r ==> lo <= files[l].smallest && (l > 0 ==> files[l].smallest != files[l - 1].largest)
    {
      DropRight(files, lo, hi, l, r);
      r := r - 1;
    }
  }

  lemma DropLeft(files: seq<File>, lo: Key, hi: Key, l: nat, r: nat)
    requires ContainsAllCleanInside(files, lo, hi, l, r) && l < r <= |files|
    requires files[l].smallest < lo || (l > 0 && files[l].smallest == files[l - 1].largest)
    ensures ContainsAllCleanInside(files, lo, hi, l + 1, r)
  {
    forall i: nat, j: nat | CleanCut(files, i, j) && AllInside(files, i, j, lo, hi)
      ensures l + 1 <= i && j <= r
    {
      assert Inside(files[i], lo, hi);
    }
  }

  lemma DropRight(files: seq<File>, lo: Key, hi: Key, l: nat, r: nat)
    requires ContainsAllCleanInside(files, lo, hi, l, r) && l < r <= |files|
    requires files[r - 1].largest > hi || (r < |files| && files[r - 1].largest == files[r].smallest)
    ensures ContainsAllCleanInside(files, lo, hi, l, r - 1)
  {
    forall i: nat, j: nat | CleanCut(files, i, j) && AllInside(files, i, j, lo, hi)
      ensures l <= i && j <= r - 1
    {
      assert Inside(files[j - 1], lo, hi);
    }
  }

  /** GetCleanInputsWithinInterval(), from level 1 down: the largest clean cut within the interval, or
      nothing. A hint names a file within it. */
  method GetCleanWithin(files: seq<File>, lo: Key, hi: Key, hint: Option<nat>)
    returns (inputs: seq<File>, ghost l: nat, ghost r: nat)
    requires LevelOk(files) && lo <= hi && (hint.Some? ==> hint.value < |files| && Inside(files[hint.value], lo, hi))
    ensures inputs != [] ==>
              CleanCut(files, l, r) && AllInside(files, l, r, lo, hi) && inputs == files[l..r] &&
                  ContainsAllCleanInside(files, lo, hi, l, r)
    ensures inputs == [] ==> forall i: nat, j: nat :: !(CleanCut(files, i, j) && AllInside(files, i, j, lo, hi))
  {
    var min, max := 0, |files|;
    var mid := 0;
    var found := false;
    if hint.Some? {
      mid, found := hint.value, true;
    }
    while !found && min < max
      invariant 0 <= min <= max <= |files|
      invariant found ==> 0 <= mid < |files| && Inside(files[mid], lo, hi)
      invariant !found ==> forall k | 0 <= k < min :: files[k].smallest < lo
      invariant !found ==> forall k | max <= k < |files| :: hi < files[k].largest
      decreases max - min, !found
    {
      mid := (min + max - 1) / 2;
      if files[mid].smallest < lo {
        min := mid + 1;
      } else if hi < files[mid].largest {
        max := mid;
      } else {
        found := true;
      }
    }
    if !found {
      inputs, l, r := [], 0, 0;
      forall i: nat, j: nat | CleanCut(files, i, j)
        ensures !AllInside(files, i, j, lo, hi)
      {
        assert !Inside(files[i], lo, hi);
      }
      return;
    }
    var start, end := ExtendOverlapping(files, lo, hi, mid);
    var left, right := ShrinkToClean(files, lo, hi, start, end);
    l, r := left, right;
    inputs := if left < right then files[left..right] else [];
  }

  /** A file can lie within an interval that contains no clean run: the shrinking then passes itself, and
      the assert that follows it in GetOverlappingInputsRangeBinarySearch() fails. */
  lemma InsideButNotClean()
    ensures var files := [File(1, 1, 5, 1), File(2, 5, 9, 1), File(3, 9, 12, 1)];
            LevelOk(files) && Inside(files[1], 5, 9) && forall i: nat, j: nat ::
                !(CleanCut(files, i, j) && AllInside(files, i, j, 5, 9))
  {
    var files := [File(1, 1, 5, 1), File(2, 5, 9, 1), File(3, 9, 12, 1)];
    forall i: nat, j: nat | CleanCut(files, i, j)
      ensures !AllInside(files, i, j, 5, 9)
    {
      assert i == 0 && !Inside(files[i], 5, 9);
    }
  }

  // ---------------------------------------------------------------- level 0

  /** A range of user keys, open-ended where a bound is missing. */
  datatype Bounds = Bounds(lo: Option<Key>, hi: Option<Key>)

  predicate Hit(f: File, b: Bounds) {
    (b.lo.Some? ==> b.lo.value <= f.largest) && (b.hi.Some? ==> f.smallest <= b.hi.value)
  }

  predicate Covered(f: File, b: Bounds) {
    (b.lo.Some? ==> b.lo.value <= f.smallest) && (b.hi.Some? ==> f.largest <= b.hi.value)
  }

  /** The files a range hits, in order. */
  function Hits(files: seq<File>, b: Bounds): seq<File> {
    if files == [] then []
    else
      var last := files[|files| - 1];
      Hits(files[..|files| - 1], b) + if Hit(last, b) then [last] else []
  }

  /** b' reaches at least as far as b on both sides. */
  predicate Wider(b: Bounds, b': Bounds) {
    && (b.lo.None? <==> b'.lo.None?) && (b.hi.None? <==> b'.hi.None?)
    && (b.lo.Some? ==> b'.lo.value <= b.lo.value) && (b.hi.Some? ==> b.hi.value <= b'.hi.value)
  }

  /** Every file the range hits lies within it. */
  ghost predicate Closed(files: seq<File>, b: Bounds) {
    forall f | f in files && Hit(f, b) :: Covered(f, b)
  }

  /** Files sticking out of the range: what the search can still grow by. */
  function Out(files: seq<File>, b: Bounds): nat {
    if files == [] then 0
    else
      var f := files[|files| - 1];
      Out(files[..|files| - 1], b)
      + (if b.lo.Some? && f.smallest < b.lo.value then 1 else 0)
      + (if b.hi.Some? && b.hi.value < f.largest then 1 else 0)
  }

  /** b' takes in what of f sticks out of b on one side. */
  predicate Absorbs(f: File, b: Bounds, b': Bounds) {
    || (b.lo.Some? && b'.lo.Some? && b'.lo.value <= f.smallest < b.lo.value)
    || (b.hi.Some? && b'.hi.Some? && b.hi.value < f.largest <= b'.hi.value)
  }

  lemma {:induction false} OutShrinks(files: seq<File>, b: Bounds, b': Bounds, f: File)
    requires Wider(b, b')
    ensures Out(files, b') <= Out(files, b)
    ensures f in files && Absorbs(f, b, b') ==> Out(files, b') < Out(files, b)
  {
    if files != [] {
      OutShrinks(files[..|files| - 1], b, b', f);
      assert f in files ==> f in files[..|files| - 1] || f == files[|files| - 1];
    }
  }

  lemma {:induction false} HitsMembers(files: seq<File>, b: Bounds, f: File)
    ensures f in Hits(files, b) <==> f in files && Hit(f, b)
  {
    if files != [] {
      HitsMembers(files[..|files| - 1], b, f);
      assert files == files[..|files| - 1] + [files[|files| - 1]];
    }
  }

  /** GetOverlappingInputs() on level 0, whose files may overlap each other: the search starts again
      whenever a file widens the range. It ends with the least range around the given one that no file
      it hits sticks out of, and returns exactly the files that range hits. */
  method GetOverlappingLevel0(files: seq<File>, b: Bounds) returns (inputs: seq<File>, final: Bounds)
    ensures Wider(b, final) && Closed(files, final) && inputs == Hits(files, final)
    ensures forall c | Wider(b, c) && Closed(files, c) :: Wider(final, c)
  {
    hide Hits, Out;
    final, inputs := b, [];
    var i := 0;
    HitsNone(files, b);
    while i < |files|
      invariant 0 <= i <= |files| && Wider(b, final) && inputs == Hits(files[..i], final)
      invariant forall f | f in files[..i] && Hit(f, final) :: Covered(f, final)
      invariant forall c | Wider(b, c) && Closed(files, c) :: Wider(final, c)
      decreases Out(files, final), |files| - i
    {
      var f := files[i];
      HitsStep(files, i, final);
      i := i + 1;
      if Hit(f, final) {
        inputs := inputs + [f];
        if final.lo.Some? && f.smallest < final.lo.value {
          OutShrinks(files, final, final.(lo := Some(f.smallest)), f);
          final, inputs, i := final.(lo := Some(f.smallest)), [], 0;
          HitsNone(files, final);
        } else if final.hi.Some? && f.largest > final.hi.value {
          OutShrinks(files, final, final.(hi := Some(f.largest)), f);
          final, inputs, i := final.(hi := Some(f.largest)), [], 0;
          HitsNone(files, final);
        }
      }
    }
    assert files[..i] == files;
  }

  lemma HitsNone(files: seq<File>, b: Bounds)
    ensures Hits(files[..0], b) == []
  {
  }

  lemma HitsStep(files: seq<File>, i: nat, b: Bounds)
    requires i < |files|
    ensures Hits(files[..i + 1], b) == Hits(files[..i], b) + if Hit(files[i], b) then [files[i]] else []
    ensures files[..i + 1] == files[..i] + [files[i]] && files[i] in files
  {
    assert files[..i + 1][..i] == files[..i];
  }

  /** GetOverlappingInputs() from level 1 down, when a bound is missing: a scan of the whole level. Where
      both bounds are given it finds what GetOverlapping() finds. */
  method ScanSorted(files: seq<File>, b: Bounds) returns (inputs: seq<File>, ghost i: nat, ghost j: nat)
    requires LevelOk(files)
    ensures forall f | f in inputs :: f in files && Hit(f, b)
    ensures i <= j <= |files| && inputs == files[i..j] && forall k | 0 <= k < |files| :: i <= k < j <==>
              Hit(files[k], b)
  {
    inputs, i, j := [], 0, 0;
    var n := 0;
    while n < |files|
      invariant 0 <= n <= |files| && i <= j <= n && inputs == files[i..j] && forall k | 0 <= k < n :: i <= k < j <==>
                  Hit(files[k], b)
      invariant i == j ==> i == n
      invariant i < j < n ==> b.hi.Some? && files[j].smallest > b.hi.value
    {
      if Hit(files[n], b) {
        inputs := inputs + [files[n]];
        if i == j {
          i := n;
        }
        j := n + 1;
      } else if i == j {
        i, j := n + 1, n + 1;
      } else {
        assert j == n ==> Hit(files[n - 1], b) && files[n - 1].largest <= files[n].smallest;
      }
      n := n + 1;
    }
  }
}
