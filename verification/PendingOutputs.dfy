/** How unfinished table files are kept from deletion. A background job records the next file number in
    pending_outputs_ before it creates files; a deletion pass takes a snapshot under the mutex
    (FindObsoleteFiles) and deletes outside it (PurgeObsoleteFiles), while jobs go on. */
module PendingOutputs {
  import opened Common

  type FileNumber = nat
  /** A running job: the number it put into pending_outputs_, and the table files it has created. */
  datatype Job = Job(floor: FileNumber, outputs: set<FileNumber>)

  /** What a deletion pass remembers: min_pending_output (None: no bound), sst_live and its candidates; and, for the
      statement of what it may delete, the deferred files that no entry protected when it began. */
  datatype Pass = Pass(min: Option<FileNumber>, live: set<FileNumber>, candidates: set<FileNumber>,
                       exposed: set<FileNumber>)

  datatype State = State(
    next: FileNumber,               // current_next_file_number()
    pending: seq<Job>,              // pending_outputs_, with the job that made each entry
    disk: set<FileNumber>,          // table files in the directory
    live: set<FileNumber>,          // files of some live version
    deferred: set<FileNumber>,      // flushed by a job that has ended, and to be installed by another flush
    died: set<FileNumber>,          // files that were live and are not any more
    obsolete: set<FileNumber>,      // obsolete_files_ of the version set
    scanning: Option<nat>,          // the pass that is listing the directory, mutex held
    passes: map<nat, Pass>)

  const Init := State(1, [], {}, {}, {}, {}, {}, None, map[])

  /** Below min_pending_output. */
  predicate Below(f: FileNumber, min: Option<FileNumber>) {
    min.Some? ==> f < min.value
  }

  /** The keep decision of PurgeObsoleteFiles() for table files, negated. */
  predicate Deletes(p: Pass, f: FileNumber) {
    f in p.candidates && f !in p.live && Below(f, p.min)
  }

  // ---------------------------------------------------------------- steps

  predicate CanStart(s: State) {
    s.scanning.None?
  }

  /** CaptureCurrentFileNumberInPendingOutputs(). */
  function DoStart(s: State): State {
    s.(pending := s.pending + [Job(s.next, {})])
  }

  predicate CanCreate(s: State, k: nat) {
    k < |s.pending|
  }

  /** The k-th job takes a new file number and creates the file. It does not need the mutex. */
  function DoCreate(s: State, k: nat): State
    requires CanCreate(s, k)
  {
    s.(next := s.next + 1, disk := s.disk + {s.next},
       pending := s.pending[k := s.pending[k].(outputs := s.pending[k].outputs + {s.next})])
  }

  predicate CanInstall(s: State, k: nat, added: set<FileNumber>) {
    s.scanning.None? && k < |s.pending| && added <= s.pending[k].outputs && added !! s.died
  }

  /** A version edit makes outputs of the job live. */
  function DoInstall(s: State, added: set<FileNumber>): State {
    s.(live := s.live + added)
  }

  predicate CanDie(s: State, f: FileNumber) {
    s.scanning.None? && f in s.live
  }

  /** The last version that holds f goes. */
  function DoDie(s: State, f: FileNumber): State {
    s.(live := s.live - {f}, obsolete := s.obsolete + {f}, died := s.died + {f})
  }

  predicate CanRelease(s: State, k: nat, left: set<FileNumber>) {
    s.scanning.None? && k < |s.pending| && left <= s.pending[k].outputs && left !! s.live && left !! s.died
  }

  /** ReleaseFileNumberFromPendingOutputs(): the job that made the k-th entry ends. What a flush leaves for another
      one to install, because an older memtable is not flushed yet or another thread is installing, is deferred. */
  function DoRelease(s: State, k: nat, left: set<FileNumber>): State
    requires CanRelease(s, k, left)
  {
    s.(pending := s.pending[..k] + s.pending[k + 1..], deferred := s.deferred + left)
  }

  predicate CanInstallDeferred(s: State, added: set<FileNumber>) {
    s.scanning.None? && added <= s.deferred
  }

  /** Another flush makes deferred files live. */
  function DoInstallDeferred(s: State, added: set<FileNumber>): State {
    s.(live := s.live + added, deferred := s.deferred - added)
  }

  function MinPending(s: State): Option<FileNumber> {
    if s.pending == [] then None else Some(s.pending[0].floor)
  }

  /** A deferred file that no running job's entry protects. */
  predicate Exposed(s: State, f: FileNumber) {
    f in s.deferred && Below(f, MinPending(s))
  }

  predicate CanFind(s: State, id: nat) {
    s.scanning.None? && id !in s.passes
  }

  /** FindObsoleteFiles() up to the directory scan: min_pending_output, GetObsoleteFiles() and the live
      files. Obsolete files at or above the bound stay with the version set. */
  function DoFind(s: State, id: nat): State {
    var taken := set f | f in s.obsolete && Below(f, MinPending(s));
    var exposed := set f | f in s.deferred && Exposed(s, f);
    s.(passes := s.passes[id := Pass(MinPending(s), s.live, taken, exposed)], obsolete := s.obsolete - taken,
       scanning := Some(id))
  }

  predicate CanScan(s: State, f: FileNumber) {
    s.scanning.Some? && s.scanning.value in s.passes && f in s.disk
  }

  /** The scan comes across a file, possibly one created since it began. */
  function DoScan(s: State, f: FileNumber): State
    requires CanScan(s, f)
  {
    var id := s.scanning.value;
    s.(passes := s.passes[id := s.passes[id].(candidates := s.passes[id].candidates + {f})])
  }

  predicate CanFound(s: State) {
    s.scanning.Some?
  }

  /** The mutex is released. */
  function DoFound(s: State): State {
    s.(scanning := None)
  }

  predicate CanPurge(s: State, id: nat, f: FileNumber) {
    s.scanning != Some(id) && id in s.passes && Deletes(s.passes[id], f)
  }

  /** PurgeObsoleteFiles() deletes one file, without the mutex. */
  function DoPurge(s: State, f: FileNumber): State {
    s.(disk := s.disk - {f})
  }

  /** A pass ends when it has deleted all it is to delete. */
  predicate CanEnd(s: State, id: nat) {
    s.scanning != Some(id) && id in s.passes && forall f | f in s.disk :: !Deletes(s.passes[id], f)
  }

  function DoEnd(s: State, id: nat): State {
    s.(passes := s.passes - {id})
  }

  datatype Action =
    | Start
    | Create(k: nat)
    | Install(k: nat, added: set<FileNumber>)
    | Die(f: FileNumber)
    | Release(k: nat, left: set<FileNumber>)
    | InstallDeferred(added: set<FileNumber>)
    | Find(id: nat)
    | Scan(f: FileNumber)
    | Found
    | Purge(id: nat, f: FileNumber)
    | End(id: nat)

  predicate Enabled(s: State, a: Action) {
    match a
    case Start => CanStart(s)
    case Create(k) => CanCreate(s, k)
    case Install(k, added) => CanInstall(s, k, added)
    case Die(f) => CanDie(s, f)
    case Release(k, left) => CanRelease(s, k, left)
    case InstallDeferred(added) => CanInstallDeferred(s, added)
    case Find(id) => CanFind(s, id)
    case Scan(f) => CanScan(s, f)
    case Found => CanFound(s)
    case Purge(id, f) => CanPurge(s, id, f)
    case End(id) => CanEnd(s, id)
  }

  function Apply(s: State, a: Action): State
    requires Enabled(s, a)
  {
    match a
    case Start => DoStart(s)
    case Create(k) => DoCreate(s, k)
    case Install(k, added) => DoInstall(s, added)
    case Die(f) => DoDie(s, f)
    case Release(k, left) => DoRelease(s, k, left)
    case InstallDeferred(added) => DoInstallDeferred(s, added)
    case Find(id) => DoFind(s, id)
    case Scan(f) => DoScan(s, f)
    case Found => DoFound(s)
    case Purge(id, f) => DoPurge(s, f)
    case End(id) => DoEnd(s, id)
  }

  // ---------------------------------------------------------------- the invariant

  /** pending_outputs_ is sorted. */
  predicate Sorted(pending: seq<Job>) {
    forall i, k | 0 <= i < k < |pending| :: pending[i].floor <= pending[k].floor
  }

  /** A job's files are numbered from its entry on. */
  predicate JobOk(job: Job, next: FileNumber) {
    job.floor <= next && forall f | f in job.outputs :: job.floor <= f < next
  }

  ghost predicate JobsOk(pending: seq<Job>, next: FileNumber) {
    Sorted(pending) && forall k | 0 <= k < |pending| :: JobOk(pending[k], next)
  }

  ghost predicate AllBelow(files: set<FileNumber>, next: FileNumber) {
    forall f | f in files :: f < next
  }

  ghost predicate FilesOk(s: State) {
    && AllBelow(s.disk, s.next) && AllBelow(s.live, s.next) && AllBelow(s.died, s.next) && AllBelow(s.deferred, s.next)
    && s.obsolete <= s.died && s.died !! s.live && s.deferred !! s.live && s.deferred !! s.died
    && forall k | 0 <= k < |s.pending| :: s.pending[k].outputs !! s.deferred
  }

  /** Two running jobs have no file in common. */
  ghost predicate OutputsApart(pending: seq<Job>) {
    forall i, k | 0 <= i < k < |pending| :: pending[i].outputs !! pending[k].outputs
  }

  /** No running job has the file among its outputs. */
  ghost predicate NoOutput(s: State, f: FileNumber) {
    forall k | 0 <= k < |s.pending| :: f !in s.pending[k].outputs
  }

  /** What a pass may delete: no output of a running job and nothing that may become one, and nothing live or
      deferred except what was exposed when the pass began. */
  ghost predicate Deletable(s: State, p: Pass, f: FileNumber) {
    && f < s.next && NoOutput(s, f)
    && (f in s.live || f in s.deferred ==> f in p.exposed)
  }

  ghost predicate PassOk(s: State, p: Pass) {
    forall f | Deletes(p, f) :: Deletable(s, p, f)
  }

  ghost predicate PassesOk(s: State) {
    forall id | id in s.passes :: PassOk(s, s.passes[id])
  }

  /** No running job was started below the bound. */
  ghost predicate Bounded(pending: seq<Job>, min: Option<FileNumber>) {
    if min.None? then pending == [] else forall k | 0 <= k < |pending| :: pending[k].floor >= min.value
  }

  /** The snapshot of a pass is current. */
  ghost predicate SnapshotOk(s: State, p: Pass) {
    && p.live == s.live && Bounded(s.pending, p.min)
    && forall f | f in s.deferred && Below(f, p.min) :: f in p.exposed
  }

  /** While a pass scans, its snapshot stays current. */
  ghost predicate ScanOk(s: State) {
    s.scanning.Some? ==> s.scanning.value in s.passes && SnapshotOk(s, s.passes[s.scanning.value])
  }

  ghost predicate Inv(s: State) {
    JobsOk(s.pending, s.next) && OutputsApart(s.pending) && FilesOk(s) && PassesOk(s) && ScanOk(s)
  }

  /** What a pass may delete it may delete for good, so every pass stays right. */
  lemma PassesStay(s: State, s': State)
    requires PassesOk(s) && s.next <= s'.next
    requires forall id | id in s'.passes :: id in s.passes && s'.passes[id] == s.passes[id]
    requires forall f: FileNumber | f < s.next && NoOutput(s, f) :: NoOutput(s', f)
    requires forall f: FileNumber | f < s.next && NoOutput(s, f) ::
               f in s'.live || f in s'.deferred ==> f in s.live || f in s.deferred
    ensures PassesOk(s')
  {
    forall id | id in s'.passes
      ensures PassOk(s', s'.passes[id])
    {
      assert PassOk(s, s.passes[id]);
      forall f | Deletes(s'.passes[id], f)
        ensures Deletable(s', s'.passes[id], f)
      {
        assert Deletable(s, s.passes[id], f) && NoOutput(s, f);
        assert NoOutput(s', f);
      }
    }
  }

  lemma InvInit()
    ensures Inv(Init)
  {
  }

  lemma InvStart(s: State)
    requires Inv(s) && CanStart(s)
    ensures Inv(DoStart(s))
  {
    PassesStay(s, DoStart(s));
  }

  lemma InvCreate(s: State, k: nat)
    requires Inv(s) && CanCreate(s, k)
    ensures Inv(DoCreate(s, k))
  {
    var s' := DoCreate(s, k);
    assert forall i | 0 <= i < |s'.pending| :: s'.pending[i].floor == s.pending[i].floor;
    PassesStay(s, s');
  }

  lemma InvInstall(s: State, k: nat, added: set<FileNumber>)
    requires Inv(s) && CanInstall(s, k, added)
    ensures Inv(DoInstall(s, added))
  {
    assert JobOk(s.pending[k], s.next);
    PassesStay(s, DoInstall(s, added));
  }

  lemma InvDie(s: State, f: FileNumber)
    requires Inv(s) && CanDie(s, f)
    ensures Inv(DoDie(s, f))
  {
    PassesStay(s, DoDie(s, f));
  }

  lemma InvRelease(s: State, k: nat, left: set<FileNumber>)
    requires Inv(s) && CanRelease(s, k, left)
    ensures Inv(DoRelease(s, k, left))
  {
    var s' := DoRelease(s, k, left);
    assert JobOk(s.pending[k], s.next);
    assert forall i | 0 <= i < |s'.pending| :: s'.pending[i] == s.pending[if i < k then i else i + 1];
    PassesStay(s, s');
  }

  lemma InvInstallDeferred(s: State, added: set<FileNumber>)
    requires Inv(s) && CanInstallDeferred(s, added)
    ensures Inv(DoInstallDeferred(s, added))
  {
    PassesStay(s, DoInstallDeferred(s, added));
  }

  /** Below the bound, no file is an output of a running job. */
  lemma BelowIsNoOutput(s: State, min: Option<FileNumber>, f: FileNumber)
    requires JobsOk(s.pending, s.next) && Bounded(s.pending, min) && Below(f, min)
    ensures NoOutput(s, f)
  {
    forall k | 0 <= k < |s.pending|
      ensures f !in s.pending[k].outputs
    {
      assert JobOk(s.pending[k], s.next);
    }
  }

  lemma InvFind(s: State, id: nat)
    requires Inv(s) && CanFind(s, id)
    ensures Inv(DoFind(s, id))
    ensures forall f | Deletes(DoFind(s, id).passes[id], f) :: f !in s.live && NoOutput(s, f) && f !in s.deferred
    ensures forall f | f in s.obsolete :: f in DoFind(s, id).obsolete || Deletes(DoFind(s, id).passes[id], f)
  {
    var s' := DoFind(s, id);
    assert Bounded(s.pending, MinPending(s));
    forall f | Deletes(s'.passes[id], f)
      ensures Deletable(s', s'.passes[id], f) && NoOutput(s, f)
    {
      BelowIsNoOutput(s, MinPending(s), f);
    }
    PassesStay(s, s'.(passes := s.passes));
    forall i | i in s'.passes
      ensures PassOk(s', s'.passes[i])
    {
      if i != id {
        assert PassOk(s'.(passes := s.passes), s.passes[i]);
      }
    }
  }

  lemma InvScan(s: State, f: FileNumber)
    requires Inv(s) && CanScan(s, f)
    ensures Inv(DoScan(s, f))
  {
    var s', id := DoScan(s, f), s.scanning.value;
    forall g | Deletes(s'.passes[id], g)
      ensures Deletable(s', s'.passes[id], g)
    {
      if g == f {
        BelowIsNoOutput(s, s.passes[id].min, g);
      } else {
        assert Deletes(s.passes[id], g) && PassOk(s, s.passes[id]);
        assert Deletable(s, s.passes[id], g);
      }
    }
    forall i | i in s'.passes
      ensures PassOk(s', s'.passes[i])
    {
      if i != id {
        assert PassOk(s, s.passes[i]);
        assert forall g | Deletable(s, s.passes[i], g) :: Deletable(s', s.passes[i], g);
      }
    }
  }

  lemma InvQuiet(s: State, s': State)
    requires Inv(s) && s' == s.(disk := s'.disk, passes := s'.passes, scanning := s'.scanning) && s'.disk <= s.disk
    requires forall id | id in s'.passes :: id in s.passes && s'.passes[id] == s.passes[id]
    requires s'.scanning == None || (s'.scanning == s.scanning && s.scanning.value in s'.passes)
    ensures Inv(s')
  {
    PassesStay(s, s');
  }

  lemma InvStep(s: State, a: Action)
    requires Inv(s) && Enabled(s, a)
    ensures Inv(Apply(s, a))
  {
    match a
    case Start => InvStart(s);
    case Create(k) => InvCreate(s, k);
    case Install(k, added) => InvInstall(s, k, added);
    case Die(f) => InvDie(s, f);
    case Release(k, left) => InvRelease(s, k, left);
    case InstallDeferred(added) => InvInstallDeferred(s, added);
    case Find(id) => InvFind(s, id);
    case Scan(f) => InvScan(s, f);
    case Found => InvQuiet(s, DoFound(s));
    case Purge(id, f) => InvQuiet(s, DoPurge(s, f));
    case End(id) => InvQuiet(s, DoEnd(s, id));
  }

  // ---------------------------------------------------------------- every run

  function After(steps: seq<Action>): Option<State> {
    if steps == [] then Some(Init)
    else
      var before := After(steps[..|steps| - 1]);
      if before.Some? && Enabled(before.value, steps[|steps| - 1])
      then Some(Apply(before.value, steps[|steps| - 1]))
      else None
  }

  predicate Reaches(steps: seq<Action>, s: State) {
    After(steps) == Some(s)
  }

  lemma {:induction false} InvAlways(steps: seq<Action>, s: State)
    requires Reaches(steps, s)
    ensures Inv(s)
  {
    hide Inv, Enabled, Apply;
    if steps == [] {
      InvInit();
    } else {
      var n := |steps| - 1;
      InvAlways(steps[..n], After(steps[..n]).value);
      InvStep(After(steps[..n]).value, steps[n]);
    }
  }

  /** pending_outputs_ stays sorted, so its first entry is the least. */
  lemma AlwaysSorted(steps: seq<Action>, s: State)
    requires Reaches(steps, s)
    ensures Sorted(s.pending) && forall k | 0 <= k < |s.pending| :: s.pending[k].floor <= s.next
  {
    InvAlways(steps, s);
    assert forall k | 0 <= k < |s.pending| :: JobOk(s.pending[k], s.next);
  }

  /** However much has happened since it took its snapshot, a deletion pass never deletes an output of a job still
      running, and it deletes a live or deferred file only if that file was exposed when the pass began. */
  lemma PurgeIsSafe(steps: seq<Action>, s: State, id: nat, f: FileNumber)
    requires Reaches(steps, s) && CanPurge(s, id, f)
    ensures NoOutput(s, f)
    ensures f in s.live || f in s.deferred ==> f in s.passes[id].exposed
  {
    InvAlways(steps, s);
    assert PassOk(s, s.passes[id]) && Deletable(s, s.passes[id], f);
  }

  // ---------------------------------------------------------------- deferred files

  /** The n-th step of the run began a pass while the file was exposed. */
  ghost predicate BeganExposed(steps: seq<Action>, n: nat, f: FileNumber) {
    n < |steps| && steps[n].Find? && After(steps[..n]).Some? && Exposed(After(steps[..n]).value, f)
  }

  ghost predicate EverExposed(steps: seq<Action>, f: FileNumber) {
    exists n: nat :: BeganExposed(steps, n, f)
  }

  lemma EverExposedLater(steps: seq<Action>, f: FileNumber)
    requires steps != [] && EverExposed(steps[..|steps| - 1], f)
    ensures EverExposed(steps, f)
  {
    var n: nat :| BeganExposed(steps[..|steps| - 1], n, f);
    assert steps[..|steps| - 1][..n] == steps[..n];
    assert BeganExposed(steps, n, f);
  }

  /** What a pass remembers as exposed was exposed when a pass began. */
  lemma {:induction false} ExposedWhenItBegan(steps: seq<Action>, s: State, id: nat, f: FileNumber)
    requires Reaches(steps, s) && id in s.passes && f in s.passes[id].exposed
    ensures EverExposed(steps, f)
  {
    if steps != [] {
      var n := |steps| - 1;
      var before, a := After(steps[..n]).value, steps[n];
      if a == Find(id) {
        assert BeganExposed(steps, n, f);
      } else {
        ExposedKept(before, a, id);
        ExposedWhenItBegan(steps[..n], before, id, f);
        EverExposedLater(steps, f);
      }
    }
  }

  lemma ExposedKept(s: State, a: Action, id: nat)
    requires Enabled(s, a) && a != Find(id) && id in Apply(s, a).passes
    ensures id in s.passes && Apply(s, a).passes[id].exposed == s.passes[id].exposed
  {
  }

  /** The file is in the directory, unless some pass began while it was exposed. */
  ghost predicate Present(steps: seq<Action>, s: State, f: FileNumber) {
    f in s.disk || EverExposed(steps, f)
  }

  /** In every run, every output of a running job is in the directory, and so is every live or deferred file that was
      not exposed at the beginning of a pass. */
  lemma {:induction false} NothingNeededIsDeleted(steps: seq<Action>, s: State, f: FileNumber)
    requires Reaches(steps, s)
    ensures !NoOutput(s, f) ==> f in s.disk
    ensures f in s.live || f in s.deferred ==> Present(steps, s, f)
  {
    if steps != [] {
      var n := |steps| - 1;
      var before, a := After(steps[..n]).value, steps[n];
      NothingNeededIsDeleted(steps[..n], before, f);
      if EverExposed(steps[..n], f) {
        EverExposedLater(steps, f);
      }
      if a.Purge? && a.f == f {
        PurgeIsSafe(steps[..n], before, a.id, f);
        if f in before.passes[a.id].exposed {
          ExposedWhenItBegan(steps[..n], before, a.id, f);
          EverExposedLater(steps, f);
        }
      }
      hide EverExposed;
      PresentStep(before, a, f, EverExposed(steps, f));
    }
  }

  lemma PresentStep(s: State, a: Action, f: FileNumber, lost: bool)
    requires Enabled(s, a)
    requires !NoOutput(s, f) ==> f in s.disk
    requires f in s.live || f in s.deferred ==> f in s.disk || lost
    requires a.Purge? && a.f == f ==> NoOutput(s, f) && (f in s.live || f in s.deferred ==> lost)
    ensures var s' := Apply(s, a);
            && (!NoOutput(s', f) ==> f in s'.disk)
            && (f in s'.live || f in s'.deferred ==> f in s'.disk || lost)
  {
    var s' := Apply(s, a);
    if a.Release? {
      assert forall i | 0 <= i < |s'.pending| :: s'.pending[i] == s.pending[if i < a.k then i else i + 1];
    }
  }

  /** A pass that begins now, and comes across the file, can delete it. */
  ghost predicate CanLose(s: State, f: FileNumber) {
    exists id: nat :: CanFind(s, id) && CanScan(DoFind(s, id), f) && CanPurge(DoFound(DoScan(DoFind(s, id), f)), id, f)
  }

  /** This happens to a deferred file in the directory if and only if it is exposed. */
  lemma DeferredLostIff(steps: seq<Action>, s: State, f: FileNumber)
    requires Reaches(steps, s) && f in s.deferred && s.scanning.None?
    ensures CanLose(s, f) <==> Exposed(s, f) && f in s.disk
  {
    InvAlways(steps, s);
    if Exposed(s, f) && f in s.disk {
      var id := FreshPass(s.passes);
      assert CanFind(s, id) && CanScan(DoFind(s, id), f) && CanPurge(DoFound(DoScan(DoFind(s, id), f)), id, f);
    }
  }

  lemma FreshPass(passes: map<nat, Pass>) returns (id: nat)
    ensures id !in passes
  {
    id := Above(passes.Keys);
  }

  lemma {:induction false} Above(ids: set<nat>) returns (id: nat)
    ensures forall i | i in ids :: i < id
    decreases |ids|
  {
    if ids == {} {
      id := 0;
    } else {
      var x :| x in ids;
      var rest := Above(ids - {x});
      id := if rest <= x then x + 1 else rest;
      forall i | i in ids
        ensures i < id
      {
        assert i == x || i in ids - {x};
      }
    }
  }

  lemma Then(steps: seq<Action>, s: State, a: Action) returns (more: seq<Action>, s': State)
    requires Reaches(steps, s) && Enabled(s, a)
    ensures Reaches(more, s') && s' == Apply(s, a)
  {
    more, s' := steps + [a], Apply(s, a);
    assert more[..|steps|] == steps;
  }

  lemma NothingYet()
    ensures Reaches([], Init)
  {
  }

  /** A flush ends while an older one still runs, and the older one fails: the finished file is in no version and no
      entry protects it. */
  lemma FailedOlderFlushExposesFile() returns (steps: seq<Action>, s: State)
    ensures Reaches(steps, s) && s == Init.(next := 2, disk := {1}, deferred := {1}) && Exposed(s, 1) && CanLose(s, 1)
  {
    steps, s := [], Init;
    NothingYet();
    hide Reaches;
    steps, s := Then(steps, s, Start);
    steps, s := Then(steps, s, Start);
    steps, s := Then(steps, s, Create(1));
    steps, s := Then(steps, s, Release(1, {1}));
    steps, s := Then(steps, s, Release(0, {}));
    DeferredLostIff(steps, s, 1);
  }

  /** So the deletion pass after the failure deletes it. */
  lemma PassDeletesExposedFile() returns (steps: seq<Action>, s: State)
    ensures Reaches(steps, s) && s == Init.(next := 2, deferred := {1})
  {
    steps, s := FailedOlderFlushExposesFile();
    hide Reaches;
    steps, s := Then(steps, s, Find(0));
    steps, s := Then(steps, s, Scan(1));
    steps, s := Then(steps, s, Found);
    steps, s := Then(steps, s, Purge(0, 1));
    steps, s := Then(steps, s, End(0));
  }

  /** When the older memtable is flushed again, the file is installed with the new one, and is not there. */
  lemma FailedOlderFlushLosesFile() returns (steps: seq<Action>, s: State)
    ensures Reaches(steps, s) && 1 in s.live && 1 !in s.disk
  {
    steps, s := PassDeletesExposedFile();
    hide Reaches;
    steps, s := Then(steps, s, Start);
    steps, s := Then(steps, s, Create(0));
    steps, s := Then(steps, s, Install(0, {2}));
    steps, s := Then(steps, s, InstallDeferred({1}));
  }

  // ---------------------------------------------------------------- nothing is forgotten

  /** A dead file is known to the version set or about to be deleted by a pass. */
  ghost predicate Remembered(s: State, f: FileNumber) {
    f in s.obsolete || exists id | id in s.passes :: Deletes(s.passes[id], f)
  }

  /** In every run, a file that was live and is not any more stays remembered until it is deleted. */
  lemma {:induction false} NoDeadFileIsForgotten(steps: seq<Action>, s: State, f: FileNumber)
    requires Reaches(steps, s) && f in s.died && f in s.disk
    ensures Remembered(s, f)
  {
    if steps != [] {
      var n := |steps| - 1;
      var before, a := After(steps[..n]).value, steps[n];
      InvAlways(steps[..n], before);
      if f in before.died && f in before.disk {
        NoDeadFileIsForgotten(steps[..n], before, f);
      }
      RememberedStep(before, a, f);
    }
  }

  lemma RememberedStep(s: State, a: Action, f: FileNumber)
    requires Inv(s) && Enabled(s, a) && (f in s.died && f in s.disk ==> Remembered(s, f))
    requires f in Apply(s, a).died && f in Apply(s, a).disk
    ensures Remembered(Apply(s, a), f)
  {
    var s' := Apply(s, a);
    if f in s.died && f in s.disk && f !in s.obsolete {
      var id :| id in s.passes && Deletes(s.passes[id], f);
      assert id in s'.passes && Deletes(s'.passes[id], f);
    } else if a.Find? && f in s.obsolete && Below(f, MinPending(s)) {
      assert Deletes(s'.passes[a.id], f);
    }
  }
}
