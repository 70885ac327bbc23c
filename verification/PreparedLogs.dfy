/** Which log files hold prepared transactions that are not finished. Preparing pushes the log on a min-heap,
    finishing only counts; the entries that the counts cancel are popped when somebody asks for the
    oldest log. */
module PreparedLogs {

  /** count(log) in the map, where a missing log counts as zero. */
  function CountOf(completed: map<nat, nat>, log: nat): nat {
    if log in completed then completed[log] else 0
  }

  /** More preparations than completions. */
  predicate Outstanding(prepared: multiset<nat>, finished: multiset<nat>, log: nat) {
    prepared[log] > finished[log]
  }

  /** The heap minus the counts is what was prepared minus what was finished, log by log. */
  ghost predicate Balanced(heap: multiset<nat>, completed: map<nat, nat>, prepared: multiset<nat>,
                           finished: multiset<nat>) {
    forall log: nat :: heap[log] + finished[log] == prepared[log] + CountOf(completed, log)
  }

  /** Every prepared log has a count. */
  ghost predicate AllSeen(completed: map<nat, nat>, prepared: multiset<nat>) {
    forall log | log in prepared :: log in completed
  }

  /** One cancelled entry leaves the heap together with its count. */
  lemma CancelKeepsBalance(heap: multiset<nat>, completed: map<nat, nat>, prepared: multiset<nat>,
                           finished: multiset<nat>, log: nat)
    requires Balanced(heap, completed, prepared, finished) && log in heap && CountOf(completed, log) > 0
    ensures Balanced(heap - multiset{log}, completed[log := completed[log] - 1], prepared, finished)
  {
  }

  /** A prepared section enters the heap; a log seen for the first time enters the counts with 0. */
  lemma MarkKeepsBalance(heap: multiset<nat>, completed: map<nat, nat>, prepared: multiset<nat>,
                         finished: multiset<nat>, log: nat)
    requires Balanced(heap, completed, prepared, finished) && AllSeen(completed, prepared) && 0 !in heap && log != 0
    ensures 0 !in heap + multiset{log}
    ensures var seen := if log in completed then completed else completed[log := 0];
            && Balanced(heap + multiset{log}, seen, prepared + multiset{log}, finished)
            && AllSeen(seen, prepared + multiset{log})
  {
  }

  lemma TopIsOldest(heap: multiset<nat>, completed: map<nat, nat>, prepared: multiset<nat>, finished: multiset<nat>,
                    top: nat)
    requires Balanced(heap, completed, prepared, finished) && top in heap && CountOf(completed, top) == 0 &&
               forall log | log in heap :: top <= log
    ensures Outstanding(prepared, finished, top) && forall log: nat | log < top :: !Outstanding(prepared, finished, log)
  {
    assert heap[top] + finished[top] == prepared[top] + CountOf(completed, top);
    forall log: nat | log < top
      ensures !Outstanding(prepared, finished, log)
    {
      assert log !in heap;
      assert heap[log] + finished[log] == prepared[log] + CountOf(completed, log);
    }
  }

  lemma EmptyMeansDone(completed: map<nat, nat>, prepared: multiset<nat>, finished: multiset<nat>)
    requires Balanced(multiset{}, completed, prepared, finished)
    ensures forall log: nat :: !Outstanding(prepared, finished, log)
  {
    forall log: nat
      ensures !Outstanding(prepared, finished, log)
    {
      assert multiset{}[log] + finished[log] == prepared[log] + CountOf(completed, log);
    }
  }

  class PreparedLogHeap {
    var heap: multiset<nat>           // min_log_with_prep_
    var completed: map<nat, nat>      // prepared_section_completed_
    ghost var prepared: multiset<nat> // every preparation so far
    ghost var finished: multiset<nat> // every completion so far

    ghost predicate Valid()
      reads this
    {
      Balanced(heap, completed, prepared, finished) && 0 !in heap && AllSeen(completed, prepared)
    }

    constructor ()
      ensures Valid() && prepared == finished == multiset{}
    {
      heap, completed, prepared, finished := multiset{}, map[], multiset{}, multiset{};
    }

    /** MarkLogAsContainingPrepSection(). */
    method MarkLogAsContainingPrepSection(log: nat)
      requires Valid() && log != 0
      modifies this`heap, this`completed, this`prepared
      ensures Valid() && prepared == old(prepared) + multiset{log}
    {
      MarkKeepsBalance(heap, completed, prepared, finished, log);
      hide Balanced, AllSeen;
      heap := heap + multiset{log};
      if log !in completed {
        completed := completed[log := 0];
      }
      prepared := prepared + multiset{log};
    }

    /** MarkLogAsHavingPrepSectionFlushed(): of a log that was marked before, as the code asserts. */
    method MarkLogAsHavingPrepSectionFlushed(log: nat)
      requires Valid() && log != 0 && log in prepared
      modifies this`completed, this`finished
      ensures Valid() && finished == old(finished) + multiset{log}
    {
      completed := completed[log := completed[log] + 1];
      finished := finished + multiset{log};
    }

    /** top() of the priority queue. */
    method Top() returns (top: nat)
      requires heap != multiset{}
      ensures top in heap && forall log | log in heap :: top <= log
    {
      top :| top in heap;
      var rest := heap[top := 0];
      while rest != multiset{}
        invariant top in heap && rest <= heap && forall log | log in heap && log !in rest :: top <= log
        decreases |rest|
      {
        var log :| log in rest;
        rest := rest[log := 0];
        if log < top {
          top := log;
        }
      }
    }

    /** FindMinLogContainingOutstandingPrep(): the least log with more preparations than completions, or 0.
        Popping cancelled entries changes nothing that is outstanding. */
    method FindMinLogContainingOutstandingPrep(allow2pc: bool) returns (min: nat)
      requires Valid()
      modifies this`heap, this`completed
      ensures Valid()
      ensures allow2pc && min != 0 ==>
                Outstanding(prepared, finished, min) && forall log: nat | log < min ::
                    !Outstanding(prepared, finished, log)
      ensures allow2pc && min == 0 ==> forall log: nat :: !Outstanding(prepared, finished, log)
      ensures !allow2pc ==> min == 0 && heap == old(heap) && completed == old(completed)
    {
      hide Balanced, Outstanding;
      min := 0;
      if !allow2pc {
        return;
      }
      while heap != multiset{}
        invariant Valid() && min == 0
        decreases |heap|
      {
        var top := Top();
        if CountOf(completed, top) > 0 {
          CancelKeepsBalance(heap, completed, prepared, finished, top);
          completed := completed[top := completed[top] - 1];
          heap := heap - multiset{top};
        } else {
          TopIsOldest(heap, completed, prepared, finished, top);
          min := top;
          return;
        }
      }
      EmptyMeansDone(completed, prepared, finished);
    }
  }
}
