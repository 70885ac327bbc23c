/** Compaction changes no read: the theorem about CompactionStream.Emit. */
module CompactionReads {
  import opened Common
  import opened Records
  import opened CompactionStream

  /** The record at i, of the current key and with number 0, does not clash with snapshot 0: it is not the
      first version of its key, and if a SingleDelete precedes it, a positive snapshot or the reader comes
      between the two. */
  ghost predicate ApartAt(job: Job, input: seq<Record>, st: State, i: nat, s: nat)
    requires i < |input|
  {
    if i == 0 then st.hasKey && st.key == input[0].key && !st.clear
    else
      && input[i - 1].key == input[i].key
      && (s > 0 || input[i - 1].kind != SingleDelete || Previous(job.snapshots, input[i - 1].seqno, 0) > 0)
  }

  ghost predicate ClashApart(job: Job, input: seq<Record>, st: State, k: Key, s: nat) {
    forall i | 0 <= i < |input| && input[i].key == k && ZeroClash(job, input[i]) :: ApartAt(job, input, st, i, s)
  }

  lemma NoClashIsApart(job: Job, input: seq<Record>, st: State, k: Key, s: nat)
    requires NoClashOf(job, input, k)
    ensures ClashApart(job, input, st, k, s)
  {
  }

  lemma {:induction false} PreviousSees(snaps: seq<nat>, q: nat, dflt: nat, s: nat)
    requires Ascending(snaps) && s in snaps && s < q
    ensures s <= Previous(snaps, q, dflt)
  {
    AscendingTail(snaps);
    hide Ascending;
    if s in snaps[1..] {
      PreviousSees(snaps[1..], q, snaps[0], s);
    } else {
      PreviousAtLeast(snaps[1..], q, snaps[0]);
    }
  }

  /** The look-ahead of a SingleDelete that the reader does not see does not reach a clashing record. */
  lemma HiddenPairApart(job: Job, input: seq<Record>, st: State, k: Key, s: nat)
    requires JobOk(job) && InputOk(input) && Readable(job.snapshots, s) && ClashApart(job, input, st, k, s)
    requires |input| > 1 && input[0].key == input[1].key == k && input[0].kind == SingleDelete && s < input[0].seqno
    requires ZeroClash(job, input[1])
    ensures Previous(job.snapshots, input[0].seqno, 0) > 0
  {
    assert ApartAt(job, input, st, 1, s);
    if s > 0 {
      PreviousSees(job.snapshots, input[0].seqno, 0, s);
    }
  }

  lemma ClashApartNext(job: Job, input: seq<Record>, st: State, k: Key, s: nat)
    requires JobOk(job) && InputOk(input) && Readable(job.snapshots, s) && ClashApart(job, input, st, k, s)
    requires input != [] && !Visible(input[0], k, s)
    ensures var step := StepOf(job, input, st); ClashApart(job, input[step.consumed..], step.next, k, s)
  {
    var step := StepOf(job, input, st);
    var rest := input[step.consumed..];
    assert forall i | 0 <= i < |rest| :: rest[i] == input[i + step.consumed];
    forall i | 0 <= i < |rest| && rest[i].key == k && ZeroClash(job, rest[i])
      ensures ApartAt(job, rest, step.next, i, s)
    {
      assert ApartAt(job, input, st, i + step.consumed, s);
      if i == 0 && step.consumed == 1 && input[0].kind == SingleDelete {
        HiddenPairApart(job, input, st, k, s);
      }
    }
  }

  /** `k` at `s` was settled by a record already consumed. */
  ghost predicate Settled(st: State, k: Key, s: nat) {
    st.hasKey && st.key == k && st.snap <= s
  }

  /** A tombstone of `k` that the job may drop has nothing to hide. */
  ghost predicate DropOk(job: Job, input: seq<Record>, k: Key, below: Option<string>) {
    (exists i | 0 <= i < |input| :: input[i].key == k && input[i].kind != Put && Droppable(job, input[i]))
      ==> below == None
  }

  // ---------------------------------------------------------------- what a step keeps

  /** What a pass does to the record at hand, whichever branch it takes. */
  lemma StepKey(job: Job, input: seq<Record>, st: State)
    requires input != []
    ensures var step := StepOf(job, input, st);
            && 1 <= step.consumed <= 2 && step.next.key == input[0].key
            && step.next.snap == Stripe(job.snapshots, input[0].seqno)
            && (step.emit.Some? ==> step.emit.value.key == input[0].key && step.emit.value.seqno == input[0].seqno)
            && (input[0].kind != SingleDelete ==> step.next.hasKey && !step.next.clear)
    ensures var prev := Previous(job.snapshots, input[0].seqno, 0);
            StepOf(job, input, st).consumed == 2 ==>
              && |input| > 1 && input[1].key == input[0].key && input[0].kind == SingleDelete
              && input[1].kind != SingleDelete && (prev == 0 || input[1].seqno > prev)
  {
  }

  lemma PassOver(input: seq<Record>, n: nat, k: Key, s: nat)
    requires n == 1 || (n == 2 && |input| > 1 && !Visible(input[1], k, s))
    requires input != [] && !Visible(input[0], k, s)
    ensures n <= |input| && Lookup(input, k, s) == Lookup(input[n..], k, s)
  {
    if n == 2 {
      assert input[1..][0] == input[1] && input[1..][1..] == input[2..];
    }
  }

  lemma StepKeepsFit(job: Job, input: seq<Record>, st: State)
    requires JobOk(job) && InputOk(input) && input != [] && StateFits(job, input, st)
    ensures var step := StepOf(job, input, st);
            InputOk(input[step.consumed..]) && StateFits(job, input[step.consumed..], step.next)
  {
    var step := StepOf(job, input, st);
    var rest := input[step.consumed..];
    assert forall i | 0 <= i < |rest| :: rest[i] == input[i + step.consumed];
    if rest != [] {
      assert Before(input[0], rest[0]);
      if rest[0].key == input[0].key {
        StripeMonotone(job.snapshots, rest[0].seqno, input[0].seqno);
        StripeDecides(job.snapshots, input[0].seqno, MAX_SEQUENCE);
        if step.consumed == 1 && rest[0].kind != SingleDelete && !ZeroClash(job, rest[0]) {
          SameStripe(job.snapshots, rest[0].seqno, input[0].seqno, 0);
        }
      }
    }
  }

  lemma SortedFront(first: Record, tail: seq<Record>)
    requires Sorted(tail) && forall r | r in tail :: Before(first, r)
    ensures Sorted([first] + tail)
  {
    var out := [first] + tail;
    forall i, j | 0 <= i < j < |out|
      ensures Before(out[i], out[j])
    {
      assert out[j] == tail[j - 1];
    }
  }

  /** Emitted records carry keys and sequence numbers of the input, in input order. */
  lemma {:induction false} EmitFollowsInput(job: Job, input: seq<Record>, st: State)
    requires InputOk(input) && input != []
    ensures forall r | r in Emit(job, input, st) ::
              r.key > input[0].key || (r.key == input[0].key && r.seqno <= input[0].seqno)
    ensures Sorted(Emit(job, input, st))
    decreases |input|
  {
    var step := StepOf(job, input, st);
    var rest := input[step.consumed..];
    var tail := Emit(job, rest, step.next);
    if rest != [] {
      assert forall i | 0 <= i < |rest| :: rest[i] == input[i + step.consumed];
      EmitFollowsInput(job, rest, step.next);
      assert Before(input[0], rest[0]);
    }
    StepKey(job, input, st);
    hide StepOf, InRange;
    if step.emit.Some? {
      SortedFront(step.emit.value, tail);
    }
  }

  lemma EmitSkips(job: Job, input: seq<Record>, st: State, k: Key, s: nat)
    requires InputOk(input)
    requires input != [] ==> k < input[0].key
    ensures Lookup(Emit(job, input, st), k, s) == None
  {
    if input != [] {
      EmitFollowsInput(job, input, st);
    }
    LookupAbsent(Emit(job, input, st), k, s);
  }

  lemma HistorySuffix(input: seq<Record>, n: nat, k: Key, s: nat, below: Option<string>)
    requires n <= |input|
    requires KeyHistoryOk(input, k, s, below)
    ensures KeyHistoryOk(input[n..], k, s, below)
  {
    var rest := input[n..];
    assert forall i | 0 <= i < |rest| :: rest[i] == input[i + n];
    if Alternates(input, k) {
      AlternatesSuffix(input, n, k);
    }
  }

  lemma DropOkSuffix(job: Job, input: seq<Record>, n: nat, k: Key, below: Option<string>)
    requires n <= |input| && DropOk(job, input, k, below)
    ensures DropOk(job, input[n..], k, below)
  {
    assert forall i | 0 <= i < |input[n..]| :: input[n..][i] == input[i + n];
  }

  lemma ReadCons(o: Option<Record>, tail: seq<Record>, k: Key, s: nat, below: Option<string>)
    ensures ReadOver(Opt(o) + tail, k, s, below) ==
            if o.Some? && Visible(o.value, k, s) then Answer(o.value) else ReadOver(tail, k, s, below)
  {
    assert (Opt(o) + tail)[|Opt(o)|..] == tail;
  }

  // ---------------------------------------------------------------- what happens below a dropped record

  /** After a tombstone of the earliest stripe, nothing of that key is emitted any more. */
  lemma {:induction false} NothingBelowTombstone(job: Job, input: seq<Record>, st: State, k: Key, s: nat,
                                                 below: Option<string>)
    requires JobOk(job) && InputOk(input) && StateFits(job, input, st) && NoSingleDelete(input, k)
    requires st.hasKey && st.key == k && st.snap == Earliest(job.snapshots) && !st.clear
    ensures ReadOver(Emit(job, input, st), k, s, below) == below
    decreases |input|
  {
    if input == [] || k < input[0].key {
      EmitSkips(job, input, st, k, s);
    } else {
      StripeDecides(job.snapshots, input[0].seqno, MAX_SEQUENCE);
      StepKeepsFit(job, input, st);
      assert forall i | 0 <= i < |input[1..]| :: input[1..][i] == input[i + 1];
      NothingBelowTombstone(job, input[1..], StepOf(job, input, st).next, k, s, below);
      ReadCons(None, Emit(job, input[1..], StepOf(job, input, st).next), k, s, below);
    }
  }

  /** An alternating history that goes on with a SingleDelete, or ends, reads "not found" after
      compaction at every point that sees all of it: pairs may vanish, the answer does not. */
  lemma {:induction false} NotFoundBelowPair(job: Job, input: seq<Record>, st: State, k: Key, s: nat,
                                             below: Option<string>)
    requires JobOk(job) && InputOk(input) && StateFits(job, input, st) && Readable(job.snapshots, s)
    requires Alternates(input, k) && (EndsInPut(input, k, s) ==> below == None)
    requires input != [] ==> k <= input[0].key
    requires input == [] || input[0].key != k ==> below == None
    requires input != [] && input[0].key == k ==> input[0].kind == SingleDelete && input[0].seqno <= s && !st.clear
    requires DropOk(job, input, k, below)
    ensures ReadOver(Emit(job, input, st), k, s, below) == None
    decreases |input|
  {
    if input == [] || k < input[0].key {
      EmitSkips(job, input, st, k, s);
    } else {
      var step := StepOf(job, input, st);
      var rest := input[step.consumed..];
      ReadCons(step.emit, Emit(job, rest, step.next), k, s, below);
      if step.emit.None? {
        BelowPair(job, input, st, k, s, below);
        DropOkSuffix(job, input, step.consumed, k, below);
        NotFoundBelowPair(job, rest, step.next, k, s, below);
      }
    }
  }

  /** What follows a SingleDelete that the stream swallows. */
  lemma BelowPair(job: Job, input: seq<Record>, st: State, k: Key, s: nat, below: Option<string>)
    requires JobOk(job) && InputOk(input) && StateFits(job, input, st) && Readable(job.snapshots, s)
    requires input != [] && Visible(input[0], k, s) && input[0].kind == SingleDelete && !st.clear
    requires Alternates(input, k) && (EndsInPut(input, k, s) ==> below == None)
    requires DropOk(job, input, k, below)
    requires StepOf(job, input, st).emit.None?
    ensures var step := StepOf(job, input, st); var rest := input[step.consumed..];
            && InputOk(rest) && StateFits(job, rest, step.next) && !step.next.clear
            && Alternates(rest, k) && (EndsInPut(rest, k, s) ==> below == None)
            && (rest != [] ==> k <= rest[0].key)
            && (rest == [] || rest[0].key != k ==> below == None)
            && (rest != [] && rest[0].key == k ==>
                 step.consumed == 2 && rest[0].kind == SingleDelete && rest[0].seqno <= s)
  {
    var step := StepOf(job, input, st);
    var rest := input[step.consumed..];
    StepKeepsFit(job, input, st);
    assert !NoSingleDelete(input, k);
    HistorySuffix(input, step.consumed, k, s, below);
    AlternatesSuffix(input, step.consumed, k);
    if |input| > 1 {
      assert Before(input[0], input[1]);
    }
    if step.consumed == 2 {
      assert input[1].key == k && input[1].kind == Put && Visible(input[1], k, s);
      if |input| > 2 {
        assert Before(input[1], input[2]);
        assert rest[0] == input[2];
      } else {
        assert EndsInPut(input, k, s);
      }
    }
  }

  lemma AlternatesSuffix(input: seq<Record>, n: nat, k: Key)
    requires n <= |input| && Alternates(input, k)
    ensures Alternates(input[n..], k)
    ensures forall s :: EndsInPut(input[n..], k, s) ==> EndsInPut(input, k, s)
  {
    var rest := input[n..];
    forall i, j | 0 <= i < j < |rest| && j == i + 1 && rest[i].key == k && rest[j].key == k
      ensures rest[i].kind != rest[j].kind
    {
      assert input[i + n].kind != input[j + n].kind;
    }
    forall s | EndsInPut(rest, k, s)
      ensures EndsInPut(input, k, s)
    {
      var i :| 0 <= i < |rest| && Visible(rest[i], k, s) && rest[i].kind == Put &&
          (i + 1 == |rest| || rest[i + 1].key != k);
      assert Visible(input[i + n], k, s) && (i + n + 1 == |input| || input[i + n + 1].key != k);
    }
  }

  // ---------------------------------------------------------------- the theorem

  /** From any state that fits: every point of `k` not settled yet reads the same from what is
      still emitted as from what is still to come. */
  lemma {:induction false} EmitPreservesReads(job: Job, input: seq<Record>, st: State, k: Key, s: nat,
                                              below: Option<string>)
    requires JobOk(job) && InputOk(input) && StateFits(job, input, st) && Readable(job.snapshots, s)
    requires KeyHistoryOk(input, k, s, below) && ClashApart(job, input, st, k, s)
    requires DropOk(job, input, k, below)
    requires !Settled(st, k, s)
    ensures ReadOver(Emit(job, input, st), k, s, below) == ReadOver(input, k, s, below)
    decreases |input|
  {
    if input != [] {
      var step := StepOf(job, input, st);
      ReadCons(step.emit, Emit(job, input[step.consumed..], step.next), k, s, below);
      StripeDecides(job.snapshots, input[0].seqno, s);
      if Visible(input[0], k, s) {
        VisibleStep(job, input, st, k, s, below);
      } else {
        HiddenStep(job, input, st, k, s, below);
        StepKeepsFit(job, input, st);
        HistorySuffix(input, step.consumed, k, s, below);
        DropOkSuffix(job, input, step.consumed, k, below);
        ClashApartNext(job, input, st, k, s);
        EmitPreservesReads(job, input[step.consumed..], step.next, k, s, below);
      }
    }
  }

  /** A record that (k, s) does not see is passed over on both sides. */
  lemma HiddenStep(job: Job, input: seq<Record>, st: State, k: Key, s: nat, below: Option<string>)
    requires JobOk(job) && InputOk(input) && Readable(job.snapshots, s)
    requires ClashApart(job, input, st, k, s) || NoSingleDelete(input, k)
    requires input != [] && !Visible(input[0], k, s)
    ensures var step := StepOf(job, input, st);
            && (step.emit.Some? ==> !Visible(step.emit.value, k, s))
            && !Settled(step.next, k, s)
            && ReadOver(input, k, s, below) == ReadOver(input[step.consumed..], k, s, below)
  {
    StripeDecides(job.snapshots, input[0].seqno, s);
    StepKey(job, input, st);
    hide StepOf, JobOk, InputOk, ClashApart;
    if StepOf(job, input, st).consumed == 2 && input[0].key == k {
      HiddenPair(job, input, st, k, s);
    }
    PassOver(input, StepOf(job, input, st).consumed, k, s);
  }

  /** Nor does the reader see what a hidden SingleDelete annihilates with. */
  lemma HiddenPair(job: Job, input: seq<Record>, st: State, k: Key, s: nat)
    requires JobOk(job) && InputOk(input) && Readable(job.snapshots, s) && ClashApart(job, input, st, k, s)
    requires |input| > 1 && input[0].key == input[1].key == k && s < input[0].seqno
    requires input[0].kind == SingleDelete && input[1].kind != SingleDelete
    requires var prev := Previous(job.snapshots, input[0].seqno, 0); prev == 0 || input[1].seqno > prev
    ensures s < input[1].seqno
  {
    assert Before(input[0], input[1]);
    if ZeroClash(job, input[1]) {
      HiddenPairApart(job, input, st, k, s);
    } else {
      SameStripe(job.snapshots, input[1].seqno, input[0].seqno, 0);
      StripeDecides(job.snapshots, input[0].seqno, s);
      StripeDecides(job.snapshots, input[1].seqno, s);
    }
  }

  /** The record (k, s) stops at is emitted, or its absence is not noticed. */
  lemma VisibleStep(job: Job, input: seq<Record>, st: State, k: Key, s: nat, below: Option<string>)
    requires JobOk(job) && InputOk(input) && StateFits(job, input, st) && Readable(job.snapshots, s)
    requires input != [] && !Settled(st, k, s) && KeyHistoryOk(input, k, s, below) && ClashApart(job, input, st, k, s)
    requires DropOk(job, input, k, below)
    requires Visible(input[0], k, s)
    ensures ReadOver(Emit(job, input, st), k, s, below) == Answer(input[0])
  {
    if input[0].kind == SingleDelete {
      VisibleSingleDelete(job, input, st, k, s, below);
    } else {
      VisibleVersion(job, input, st, k, s, below);
    }
  }

  lemma VisibleSingleDelete(job: Job, input: seq<Record>, st: State, k: Key, s: nat, below: Option<string>)
    requires JobOk(job) && InputOk(input) && StateFits(job, input, st) && Readable(job.snapshots, s)
    requires input != [] && !Settled(st, k, s) && KeyHistoryOk(input, k, s, below) && ClashApart(job, input, st, k, s)
    requires DropOk(job, input, k, below)
    requires Visible(input[0], k, s) && input[0].kind == SingleDelete
    ensures ReadOver(Emit(job, input, st), k, s, below) == Answer(input[0])
  {
    var step := StepOf(job, input, st);
    ReadCons(step.emit, Emit(job, input[step.consumed..], step.next), k, s, below);
    assert Emit(job, input, st) == Opt(step.emit) + Emit(job, input[step.consumed..], step.next);
    hide Emit;
    assert !st.clear && !NoSingleDelete(input, k);
    if step.emit.None? {
      BelowPair(job, input, st, k, s, below);
      DropOkSuffix(job, input, step.consumed, k, below);
      hide StepOf, StateFits, ClashApart;
      NotFoundBelowPair(job, input[step.consumed..], step.next, k, s, below);
    }
  }

  lemma VisibleVersion(job: Job, input: seq<Record>, st: State, k: Key, s: nat, below: Option<string>)
    requires JobOk(job) && InputOk(input) && StateFits(job, input, st) && Readable(job.snapshots, s)
    requires input != [] && !Settled(st, k, s) && KeyHistoryOk(input, k, s, below) && ClashApart(job, input, st, k, s)
    requires DropOk(job, input, k, below)
    requires Visible(input[0], k, s) && input[0].kind != SingleDelete
    ensures ReadOver(Emit(job, input, st), k, s, below) == Answer(input[0])
  {
    var step := StepOf(job, input, st);
    ReadCons(step.emit, Emit(job, input[step.consumed..], step.next), k, s, below);
    assert Emit(job, input, st) == Opt(step.emit) + Emit(job, input[step.consumed..], step.next);
    hide Emit;
    StripeDecides(job.snapshots, input[0].seqno, s);
    assert ZeroClash(job, input[0]) ==> ApartAt(job, input, st, 0, s);
    assert st.clear ==> st.key != k;
    PlainStep(job, input, st, k, s);
    if step.emit.None? {
      PlainHistory(input, k, s, below);
      StepKeepsFit(job, input, st);
      assert forall i | 0 <= i < |input[1..]| :: input[1..][i] == input[i + 1];
      hide StepOf, StateFits, ClashApart, KeyHistoryOk;
      NothingBelowTombstone(job, input[1..], step.next, k, s, below);
    }
  }

  /** A key with a Delete is never single-deleted. */
  lemma PlainHistory(input: seq<Record>, k: Key, s: nat, below: Option<string>)
    requires KeyHistoryOk(input, k, s, below) && input != [] && input[0].key == k && input[0].kind == Delete
    ensures NoSingleDelete(input, k)
  {
  }

  // ---------------------------------------------------------------- Put/Delete keys, exactly

  ghost predicate Newest(input: seq<Record>, r: Record) {
    forall i | 0 <= i < |input| && input[i].key == r.key :: input[i].seqno <= r.seqno
  }

  /** The stream swallows `r` although a reader stops at it: an obsolete tombstone, or a record that clashes
      with snapshot 0 and is the newest of its key in the input. */
  ghost predicate Lost(job: Job, input: seq<Record>, r: Record) {
    (r.kind == Delete && Droppable(job, r)) || (ZeroClash(job, r) && Newest(input, r))
  }

  ghost predicate LostFrom(job: Job, input: seq<Record>, st: State, r: Record) {
    (r.kind == Delete && Droppable(job, r)) ||
        (ZeroClash(job, r) && Newest(input, r) && !(st.hasKey && st.key == r.key))
  }

  /** What a reader of a Put/Delete key finds: the record it stopped at before, unless that one is lost. */
  ghost function Found(job: Job, input: seq<Record>, st: State, k: Key, s: nat, below: Option<string>): Option<string> {
    match Lookup(input, k, s)
    case None => below
    case Some(r) => if LostFrom(job, input, st, r) then below else Answer(r)
  }

  lemma {:induction false} EmitReadsExactly(job: Job, input: seq<Record>, st: State, k: Key, s: nat,
                                            below: Option<string>)
    requires JobOk(job) && InputOk(input) && StateFits(job, input, st) && Readable(job.snapshots, s)
    requires NoSingleDelete(input, k) && !Settled(st, k, s) && (st.clear ==> st.key != k)
    ensures ReadOver(Emit(job, input, st), k, s, below) == Found(job, input, st, k, s, below)
    decreases |input|
  {
    if input != [] {
      var step := StepOf(job, input, st);
      var rest := input[step.consumed..];
      ReadCons(step.emit, Emit(job, rest, step.next), k, s, below);
      if Visible(input[0], k, s) {
        VisiblePlain(job, input, st, k, s, below);
      } else {
        HiddenStep(job, input, st, k, s, below);
        StepKeepsFit(job, input, st);
        assert forall i | 0 <= i < |rest| :: rest[i] == input[i + step.consumed];
        HiddenPlain(job, input, st, k, s, below);
        hide StepOf, StateFits, Found;
        EmitReadsExactly(job, rest, step.next, k, s, below);
      }
    }
  }

  /** A Put or Delete that (k, s) stops at comes out, or is lost. */
  lemma PlainStep(job: Job, input: seq<Record>, st: State, k: Key, s: nat)
    requires JobOk(job) && InputOk(input) && StateFits(job, input, st) && Readable(job.snapshots, s)
    requires input != [] && Visible(input[0], k, s) && input[0].kind != SingleDelete
    requires !Settled(st, k, s) && (st.clear ==> st.key != k)
    ensures var step := StepOf(job, input, st);
            && step.consumed == 1 && step.emit == (if LostFrom(job, input, st, input[0]) then None else Some(input[0]))
            && step.next.hasKey && step.next.key == k && !step.next.clear
            && (step.emit.None? ==> step.next.snap == Earliest(job.snapshots))
  {
    FirstIsNewest(input);
    hide Newest, Sorted, TablesOk, NotBeyond;
    StripeDecides(job.snapshots, input[0].seqno, s);
    StripeZero(job, input[0]);
  }

  /** If it is lost, so is all that follows of its key. */
  lemma VisiblePlain(job: Job, input: seq<Record>, st: State, k: Key, s: nat, below: Option<string>)
    requires JobOk(job) && InputOk(input) && StateFits(job, input, st) && Readable(job.snapshots, s)
    requires NoSingleDelete(input, k) && !Settled(st, k, s) && (st.clear ==> st.key != k)
    requires input != [] && Visible(input[0], k, s)
    ensures ReadOver(Emit(job, input, st), k, s, below) == Found(job, input, st, k, s, below)
  {
    var step := StepOf(job, input, st);
    ReadCons(step.emit, Emit(job, input[step.consumed..], step.next), k, s, below);
    PlainStep(job, input, st, k, s);
    if step.emit.None? {
      StepKeepsFit(job, input, st);
      assert forall i | 0 <= i < |input[1..]| :: input[1..][i] == input[i + 1];
      hide StepOf, StateFits, LostFrom, JobOk;
      NothingBelowTombstone(job, input[1..], step.next, k, s, below);
    }
  }

  lemma StripeZero(job: Job, r: Record)
    requires JobOk(job) && r.seqno <= MAX_SEQUENCE && r.kind != SingleDelete
    ensures Stripe(job.snapshots, r.seqno) == 0 <==> ZeroClash(job, r)
    ensures ZeroClash(job, r) ==> Earliest(job.snapshots) == 0
  {
    StripeDecides(job.snapshots, r.seqno, MAX_SEQUENCE);
    if 0 in job.snapshots {
      StripeDecides(job.snapshots, r.seqno, 0);
    } else {
      StripePositive(job.snapshots, r.seqno);
    }
  }

  lemma {:induction false} StripePositive(snaps: seq<nat>, q: nat)
    requires 0 !in snaps
    ensures Stripe(snaps, q) > 0
  {
    if snaps != [] {
      assert snaps[0] in snaps;
      StripePositive(snaps[1..], q);
    }
  }

  lemma FirstIsNewest(input: seq<Record>)
    requires Sorted(input) && input != []
    ensures Newest(input, input[0])
  {
    assert forall i | 0 < i < |input| :: Before(input[0], input[i]);
  }

  /** Passing over a record leaves the verdict on what follows unchanged. */
  lemma HiddenPlain(job: Job, input: seq<Record>, st: State, k: Key, s: nat, below: Option<string>)
    requires JobOk(job) && InputOk(input) && StateFits(job, input, st) && Readable(job.snapshots, s)
    requires NoSingleDelete(input, k) && (st.clear ==> st.key != k)
    requires input != [] && !Visible(input[0], k, s)
    ensures var step := StepOf(job, input, st); var rest := input[step.consumed..];
            && (step.next.clear ==> step.next.key != k)
            && Found(job, rest, step.next, k, s, below) == Found(job, input, st, k, s, below)
  {
    var step := StepOf(job, input, st);
    var rest := input[step.consumed..];
    StepKey(job, input, st);
    hide StepOf, Droppable, JobOk, Stripe, Newest, Lookup, Sorted, InRange;
    PassOver(input, step.consumed, k, s);
    if Lookup(rest, k, s).Some? {
      NewestLater(input, step.consumed, k, s);
    }
  }

  /** A record found later is the newest of its key here if and only if it is there and its key is not here. */
  lemma NewestLater(input: seq<Record>, n: nat, k: Key, s: nat)
    requires Sorted(input) && 0 < n <= |input| && Lookup(input[n..], k, s).Some?
    ensures var r := Lookup(input[n..], k, s).value;
            && r.key == k && input[0].key <= k && (input[0].key == k ==> !Newest(input, r))
            && ((forall i | 0 <= i < n :: input[i].key != k) ==> (Newest(input[n..], r) <==> Newest(input, r)))
  {
    var rest := input[n..];
    assert forall i | 0 <= i < |rest| :: rest[i] == input[i + n];
    LookupIsNewest(rest, k, s);
    var m :| 0 <= m < |rest| && rest[m] == Lookup(rest, k, s).value;
    assert Before(input[0], input[m + n]);
  }
}
