/** Versioned records, snapshot reads and snapshot stripes: the vocabulary of the compaction stream.

    A user key is an integer; only its order matters. A record's position in a table is
    (user key ascending, sequence number descending). */
module Records {
  import opened Common

  /** kMaxSequenceNumber: sequence numbers take 56 bits. A read at the tip uses this bound. */
  const MAX_SEQUENCE: nat := 0xFF_FFFF_FFFF_FFFF

  datatype Kind = Put | Delete | SingleDelete

  datatype Record = Record(key: Key, seqno: nat, kind: Kind, value: string)

  predicate Before(a: Record, b: Record) {
    a.key < b.key || (a.key == b.key && a.seqno > b.seqno)
  }

  ghost predicate Sorted(rs: seq<Record>) {
    forall i, j | 0 <= i < j < |rs| :: Before(rs[i], rs[j])
  }

  ghost predicate InRange(rs: seq<Record>) {
    forall i | 0 <= i < |rs| :: rs[i].seqno <= MAX_SEQUENCE
  }

  predicate Visible(r: Record, k: Key, s: nat) {
    r.key == k && r.seqno <= s
  }

  /** The record a point lookup at snapshot `s` stops at: the first visible one. */
  function Lookup(rs: seq<Record>, k: Key, s: nat): (o: Option<Record>)
  {
    if rs == [] then None
    else if Visible(rs[0], k, s) then Some(rs[0])
    else Lookup(rs[1..], k, s)
  }

  /** What a record answers to a reader: a value, or "not found" for both kinds of tombstone. */
  function Answer(r: Record): Option<string> {
    if r.kind == Put then Some(r.value) else None
  }

  /** Read `k` at `s` from `rs`, falling back to the answer `below` of the older data. */
  function ReadOver(rs: seq<Record>, k: Key, s: nat, below: Option<string>): Option<string> {
    match Lookup(rs, k, s)
    case Some(r) => Answer(r)
    case None => below
  }

  /** Sorted runs, newest run first: older L0 files, then the levels in order. */
  type Runs = seq<seq<Record>>

  function ReadRuns(runs: Runs, k: Key, s: nat): Option<string> {
    if runs == [] then None else ReadOver(runs[0], k, s, ReadRuns(runs[1..], k, s))
  }

  ghost predicate KeyInRuns(runs: Runs, k: Key) {
    exists i, j | 0 <= i < |runs| && 0 <= j < |runs[i]| :: runs[i][j].key == k
  }

  /** On a sorted run the lookup is the newest visible version, and it fails only if there is none. */
  lemma {:induction false} LookupIsNewest(rs: seq<Record>, k: Key, s: nat)
    requires Sorted(rs)
    ensures Lookup(rs, k, s).None? <==> forall i | 0 <= i < |rs| :: !Visible(rs[i], k, s)
    ensures Lookup(rs, k, s).Some? ==>
              var r := Lookup(rs, k, s).value;
              r in rs && Visible(r, k, s) &&
              forall i | 0 <= i < |rs| && Visible(rs[i], k, s) :: rs[i].seqno <= r.seqno
  {
    if rs != [] && !Visible(rs[0], k, s) {
      LookupIsNewest(rs[1..], k, s);
      assert forall i | 1 <= i < |rs| :: rs[i] == rs[1..][i - 1];
    }
  }

  lemma {:induction false} LookupAbsent(rs: seq<Record>, k: Key, s: nat)
    requires forall i | 0 <= i < |rs| :: rs[i].key != k
    ensures Lookup(rs, k, s) == None
  {
    if rs != [] {
      LookupAbsent(rs[1..], k, s);
    }
  }

  lemma {:induction false} ReadRunsAbsent(runs: Runs, k: Key, s: nat)
    requires !KeyInRuns(runs, k)
    ensures ReadRuns(runs, k, s) == None
  {
    if runs != [] {
      LookupAbsent(runs[0], k, s);
      assert forall i | 1 <= i < |runs| :: runs[i] == runs[1..][i - 1];
      ReadRunsAbsent(runs[1..], k, s);
    }
  }

  // ---------------------------------------------------------------- snapshot stripes

  ghost predicate Ascending(snaps: seq<nat>) {
    forall i, j | 0 <= i < j < |snaps| :: snaps[i] <= snaps[j]
  }

  ghost predicate BelowMax(snaps: seq<nat>) {
    forall i | 0 <= i < |snaps| :: snaps[i] < MAX_SEQUENCE
  }

  /** A sequence number somebody can read at: a listed snapshot, or the tip. */
  predicate Readable(snaps: seq<nat>, s: nat) {
    s == MAX_SEQUENCE || s in snaps
  }

  /** The earliest readable point that sees sequence number `q`. */
  function Stripe(snaps: seq<nat>, q: nat): (t: nat)
  {
    if snaps == [] then MAX_SEQUENCE
    else if snaps[0] >= q then snaps[0]
    else Stripe(snaps[1..], q)
  }

  /** The last snapshot that does not see `q`; `dflt` if there is none. */
  function Previous(snaps: seq<nat>, q: nat, dflt: nat): nat {
    if snaps == [] || snaps[0] >= q then dflt else Previous(snaps[1..], q, snaps[0])
  }

  /** earliest_snapshot_: the first listed snapshot, or the tip. */
  function Earliest(snaps: seq<nat>): nat {
    if snaps == [] then MAX_SEQUENCE else snaps[0]
  }

  /** Visibility at a readable point depends on the stripe alone. */
  lemma {:induction false} StripeDecides(snaps: seq<nat>, q: nat, s: nat)
    requires Ascending(snaps) && q <= MAX_SEQUENCE && Readable(snaps, s)
    requires BelowMax(snaps)
    ensures q <= s <==> Stripe(snaps, q) <= s
    ensures q <= Stripe(snaps, q) <= MAX_SEQUENCE
    ensures Earliest(snaps) <= Stripe(snaps, q)
  {
    if snaps != [] && snaps[0] < q {
      assert forall i | 1 <= i < |snaps| :: snaps[i] == snaps[1..][i - 1];
      StripeDecides(snaps[1..], q, if s in snaps[1..] then s else MAX_SEQUENCE);
    }
  }

  /** Stripes order like sequence numbers. */
  lemma {:induction false} StripeMonotone(snaps: seq<nat>, p: nat, q: nat)
    requires Ascending(snaps) && p <= q <= MAX_SEQUENCE
    requires BelowMax(snaps)
    ensures Stripe(snaps, p) <= Stripe(snaps, q)
  {
    if snaps != [] && snaps[0] < q {
      assert forall i | 1 <= i < |snaps| :: snaps[i] == snaps[1..][i - 1];
      StripeDecides(snaps[1..], q, MAX_SEQUENCE);
      if snaps[0] < p {
        StripeMonotone(snaps[1..], p, q);
      } else if |snaps| > 1 {
        assert snaps[0] <= snaps[1];
      }
    }
  }

  /** The look-ahead test of the stream: nothing between `p` and `q` separates them. It takes 0 for "no
      previous snapshot", which is wrong only for a listed snapshot 0 that sees `p`. */
  lemma {:induction false} SameStripe(snaps: seq<nat>, p: nat, q: nat, dflt: nat)
    requires Ascending(snaps) && BelowMax(snaps) && p < q <= MAX_SEQUENCE && (p > 0 || 0 !in snaps)
    requires dflt < p || dflt == 0
    ensures (Previous(snaps, q, dflt) == 0 || p > Previous(snaps, q, dflt)) <==> Stripe(snaps, p) == Stripe(snaps, q)
  {
    if snaps != [] && snaps[0] < q {
      assert forall i | 1 <= i < |snaps| :: snaps[i] == snaps[1..][i - 1];
      if snaps[0] < p {
        SameStripe(snaps[1..], p, q, snaps[0]);
      } else {
        assert snaps[0] in snaps;
        AscendingTail(snaps);
        PreviousAtLeast(snaps[1..], q, snaps[0]);
        StripeDecides(snaps[1..], q, MAX_SEQUENCE);
      }
    }
  }

  lemma {:induction false} PreviousAtLeast(snaps: seq<nat>, q: nat, dflt: nat)
    requires Ascending(snaps) && (snaps != [] ==> dflt <= snaps[0])
    ensures dflt <= Previous(snaps, q, dflt)
  {
    if snaps != [] && snaps[0] < q {
      AscendingTail(snaps);
      hide Ascending;
      PreviousAtLeast(snaps[1..], q, snaps[0]);
    }
  }

  lemma AscendingTail(snaps: seq<nat>)
    requires Ascending(snaps) && snaps != []
    ensures Ascending(snaps[1..]) && (snaps[1..] != [] ==> snaps[0] <= snaps[1..][0])
    ensures forall s | s in snaps :: snaps[0] <= s && (s == snaps[0] || s in snaps[1..])
  {
    assert forall i | 0 <= i < |snaps[1..]| :: snaps[1..][i] == snaps[i + 1];
    forall s | s in snaps
      ensures snaps[0] <= s && (s == snaps[0] || s in snaps[1..])
    {
      var n :| 0 <= n < |snaps| && snaps[n] == s;
      if n > 0 {
        assert snaps[1..][n - 1] == s;
      }
    }
  }
}
