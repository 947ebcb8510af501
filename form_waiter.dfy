/**
 * Waiting for the form. `waitForAllSelectors` resolves once every selector matches,
 * re-checking on each DOM mutation, and rejects on a mutation that arrives after the
 * timeout, naming the selectors still missing. The script injected into the booking
 * iframe instead polls for any form control, at most ten times.
 *
 * The page at a given moment is the set of selectors that currently match an element.
 */
module FormWaiter {
  import opened Wrappers
  import opened Search

  datatype WaitState = Pending | Resolved | Rejected(missing: seq<string>)

  /** `timeout = 8000` */
  const DefaultTimeout: int := 8000

  /** `selectors.every(sel => document.querySelector(sel))` */
  predicate AllPresent(selectors: seq<string>, present: set<string>) {
    forall i :: 0 <= i < |selectors| ==> selectors[i] in present
  }

  /** `selectors.filter(sel => !document.querySelector(sel))`, in the original order. */
  function Missing(selectors: seq<string>, present: set<string>): (m: seq<string>)
    ensures |m| <= |selectors|
  {
    if selectors == [] then []
    else (if selectors[0] in present then [] else [selectors[0]]) + Missing(selectors[1..], present)
  }

  /** A selector is listed exactly when it is one of the selectors and does not match. */
  lemma {:induction false} MissingMembers(selectors: seq<string>, present: set<string>)
    ensures forall s :: s in Missing(selectors, present) <==> s in selectors && s !in present
  {
    if selectors != [] {
      MissingMembers(selectors[1..], present);
      assert selectors == [selectors[0]] + selectors[1..];
    }
  }

  /** Filtering distributes over concatenation, so the missing list keeps the selectors' order. */
  lemma {:induction false} MissingAppend(a: seq<string>, b: seq<string>, present: set<string>)
    ensures Missing(a + b, present) == Missing(a, present) + Missing(b, present)
  {
    if a != [] {
      MissingAppend(a[1..], b, present);
      assert (a + b)[1..] == a[1..] + b;
    } else {
      assert a + b == b;
    }
  }

  /** Nothing is missing exactly when every selector matches. */
  lemma {:induction false} MissingEmptyIff(selectors: seq<string>, present: set<string>)
    ensures Missing(selectors, present) == [] <==> AllPresent(selectors, present)
  {
    MissingMembers(selectors, present);
    if Missing(selectors, present) == [] {
      forall i | 0 <= i < |selectors| ensures selectors[i] in present {
        assert selectors[i] in selectors;
      }
    } else {
      var s := Missing(selectors, present)[0];
      assert s in Missing(selectors, present);
    }
  }

  /** The state right after the call: resolved at once when everything already matches. */
  function Initial(selectors: seq<string>, present: set<string>): WaitState {
    if AllPresent(selectors, present) then Resolved else Pending
  }

  /**
   * The observer callback for a mutation at `now`. A settled waiter has disconnected its
   * observer and receives nothing; otherwise it resolves, or rejects when strictly more
   * than `timeout` has elapsed since `start`, or keeps waiting.
   */
  function MutationStep(st: WaitState, selectors: seq<string>, start: int, timeout: int, now: int, present: set<string>): WaitState {
    if !st.Pending? then st
    else if AllPresent(selectors, present) then Resolved
    else if now - start > timeout then Rejected(Missing(selectors, present))
    else Pending
  }

  /** One promise of `waitForAllSelectors`, with its observer. */
  class SelectorWaiter {
    const selectors: seq<string>
    const start: int
    const timeout: int
    var state: WaitState
    var observing: bool

    /** The observer is connected exactly while the promise is pending. */
    predicate Valid()
      reads this
    {
      observing <==> state.Pending?
    }

    /** `waitForAllSelectors(selectors, timeout)` called at `now` on a page where `present` match. */
    constructor (selectors: seq<string>, timeout: int, now: int, present: set<string>)
      ensures Valid()
      ensures this.selectors == selectors && start == now && this.timeout == timeout
      ensures state == Initial(selectors, present)
    {
      this.selectors := selectors;
      this.start := now;
      this.timeout := timeout;
      if AllPresent(selectors, present) {
        state := Resolved;
        observing := false;
      } else {
        state := Pending;
        observing := true;
      }
    }

    /** A DOM mutation observed at `now`, after which `present` match. */
    method OnMutation(now: int, present: set<string>)
      requires Valid()
      modifies this
      ensures Valid()
      ensures state == MutationStep(old(state), selectors, start, timeout, now, present)
    {
      if !observing {
        return;
      }
      if AllPresent(selectors, present) {
        observing := false;
        state := Resolved;
      } else if now - start > timeout {
        observing := false;
        state := Rejected(Missing(selectors, present));
      }
    }
  }

  // ---------------------------------------------------------------------------
  // Traces of mutations

  datatype Mutation = Mutation(time: int, present: set<string>)

  /** The state after the given mutations, in order. */
  function Trace(st: WaitState, selectors: seq<string>, start: int, timeout: int, ms: seq<Mutation>): WaitState
    decreases |ms|
  {
    if ms == [] then st
    else Trace(MutationStep(st, selectors, start, timeout, ms[0].time, ms[0].present), selectors, start, timeout, ms[1..])
  }

  /** Once settled, the outcome never changes. */
  lemma {:induction false} SettledIsFinal(st: WaitState, selectors: seq<string>, start: int, timeout: int, ms: seq<Mutation>)
    requires !st.Pending?
    ensures Trace(st, selectors, start, timeout, ms) == st
    decreases |ms|
  {
    if ms != [] {
      SettledIsFinal(st, selectors, start, timeout, ms[1..]);
    }
  }

  /**
   * A pending waiter rejects only on a mutation strictly later than the timeout, and the
   * rejection lists exactly the selectors missing at that mutation, none of which is empty.
   * With no mutations at all it stays pending.
   */
  lemma {:induction false} RejectOnlyAfterTimeout(selectors: seq<string>, start: int, timeout: int, ms: seq<Mutation>)
    ensures Trace(Pending, selectors, start, timeout, []) == Pending
    ensures Trace(Pending, selectors, start, timeout, ms).Rejected? ==>
      exists k :: 0 <= k < |ms| && ms[k].time - start > timeout
        && Trace(Pending, selectors, start, timeout, ms).missing == Missing(selectors, ms[k].present)
        && Trace(Pending, selectors, start, timeout, ms).missing != []
    decreases |ms|
  {
    if ms != [] {
      var next := MutationStep(Pending, selectors, start, timeout, ms[0].time, ms[0].present);
      if next.Pending? {
        RejectOnlyAfterTimeout(selectors, start, timeout, ms[1..]);
        if Trace(Pending, selectors, start, timeout, ms).Rejected? {
          var k :| 0 <= k < |ms[1..]| && ms[1..][k].time - start > timeout
            && Trace(Pending, selectors, start, timeout, ms).missing == Missing(selectors, ms[1..][k].present)
            && Trace(Pending, selectors, start, timeout, ms).missing != [];
          assert ms[k + 1] == ms[1..][k];
        }
      } else {
        SettledIsFinal(next, selectors, start, timeout, ms[1..]);
        if next.Rejected? {
          MissingEmptyIff(selectors, ms[0].present);
          assert ms[0] == ms[0];
        }
      }
    }
  }

  /** Mutations no later than the timeout never reject, whatever the page looks like. */
  lemma {:induction false} NoRejectWithinTimeout(selectors: seq<string>, start: int, timeout: int, ms: seq<Mutation>)
    requires forall k :: 0 <= k < |ms| ==> ms[k].time - start <= timeout
    ensures !Trace(Pending, selectors, start, timeout, ms).Rejected?
    decreases |ms|
  {
    if ms != [] {
      var next := MutationStep(Pending, selectors, start, timeout, ms[0].time, ms[0].present);
      if next.Pending? {
        assert forall k :: 0 <= k < |ms[1..]| ==> ms[1..][k] == ms[k + 1];
        NoRejectWithinTimeout(selectors, start, timeout, ms[1..]);
      } else {
        SettledIsFinal(next, selectors, start, timeout, ms[1..]);
      }
    }
  }

  /** The boundary: elapsed time equal to the timeout keeps waiting, one millisecond more rejects. */
  lemma {:induction false} TimeoutIsStrict(a: string, b: string)
    requires a != b
    ensures MutationStep(Pending, [a, b], 0, DefaultTimeout, 8000, {}) == Pending
    ensures MutationStep(Pending, [a, b], 0, DefaultTimeout, 8001, {b}) == Rejected([a])
  {
    assert !AllPresent([a, b], {b}) by { assert [a, b][0] == a; }
    assert [a, b][1..] == [b];
    assert [b][1..] == [];
    assert Missing([b], {b}) == [];
    assert Missing([a, b], {b}) == [a] + Missing([b], {b});
  }

  // ---------------------------------------------------------------------------
  // The iframe's polling for form controls

  /** `maxRetries`: the form is checked at most this many times, 50 ms apart. */
  const MaxRetries: nat := 10

  function HasControls(): nat -> bool {
    n => n > 0
  }

  /**
   * `waitForForm` with its retries: `counts[k]` is the number of form controls the k-th
   * check would find. Returns the check that found controls, if any, and how many
   * checks were made.
   */
  method WaitForForm(counts: seq<nat>) returns (found: Option<nat>, checks: nat)
    requires |counts| == MaxRetries
    ensures found == FirstIndex(counts, HasControls())
    ensures found.Some? ==> checks == found.value + 1
    ensures found.None? ==> checks == MaxRetries
  {
    var retryCount := 0;
    while true
      invariant 0 <= retryCount < MaxRetries
      invariant forall j :: 0 <= j < retryCount ==> counts[j] == 0
      decreases MaxRetries - retryCount
    {
      if counts[retryCount] > 0 {
        found, checks := Some(retryCount), retryCount + 1;
        assert FirstIndex(counts, HasControls()) == Some(retryCount) by { FirstHit(counts, retryCount); }
        return;
      }
      retryCount := retryCount + 1;
      if retryCount >= MaxRetries {
        found, checks := None, retryCount;
        return;
      }
    }
  }

  lemma {:induction false} FirstHit(counts: seq<nat>, k: nat)
    requires k < |counts| && counts[k] > 0
    requires forall j :: 0 <= j < k ==> counts[j] == 0
    ensures FirstIndex(counts, HasControls()) == Some(k)
  {
  }

  /** The poll gives up only when none of the ten checks saw a control. */
  lemma {:induction false} GivesUpOnlyOnEmptyForm(counts: seq<nat>)
    requires |counts| == MaxRetries
    ensures FirstIndex(counts, HasControls()).None? <==> forall k :: 0 <= k < |counts| ==> counts[k] == 0
  {
    if forall k :: 0 <= k < |counts| ==> counts[k] == 0 {
    } else {
      var k :| 0 <= k < |counts| && counts[k] != 0;
      assert HasControls()(counts[k]);
    }
  }
}
