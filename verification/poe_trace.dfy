/**
 Sequences of extrinsics executed one after another against the `Proofs`
 map, as the runtime serialises them, and the invariants that hold of
 every state such a sequence can reach.
 */
module PoeTrace {
  import opened Poe
  import PoeProperties

  /** The map after a run, each call's result, and the event log in deposit order. */
  datatype Trace = Trace(proofs: Proofs, results: seq<DispatchResult>, events: seq<Event>)

  /** Number of successful results. */
  function Successes(results: seq<DispatchResult>): nat
  {
    if results == [] then 0
    else Successes(results[..|results| - 1]) + (if results[|results| - 1].Ok? then 1 else 0)
  }

  /**
   Runs `xs` in order from `proofs`. One result per call; the log holds
   exactly one event per successful call.
   */
  function Execute(limit: ClaimLimit, proofs: Proofs, xs: seq<Extrinsic>): (t: Trace)
    ensures |t.results| == |xs|
    ensures |t.events| == Successes(t.results)
    decreases |xs|
  {
    if xs == [] then Trace(proofs, [], [])
    else
      var before := Execute(limit, proofs, xs[..|xs| - 1]);
      var step := Dispatch(limit, before.proofs, xs[|xs| - 1]);
      Trace(step.proofs, before.results + [step.result], before.events + step.events)
  }

  /**
   The log is append-only: running a prefix of the calls yields a prefix
   of the results and a prefix of the events.
   */
  lemma {:induction false} ExecuteLogAppendOnly(limit: ClaimLimit, proofs: Proofs, xs: seq<Extrinsic>, k: nat)
    requires k <= |xs|
    ensures var whole := Execute(limit, proofs, xs);
            var part := Execute(limit, proofs, xs[..k]);
            part.results <= whole.results && part.events <= whole.events
    decreases |xs|
  {
    if k < |xs| {
      var prefix := xs[..|xs| - 1];
      ExecuteLogAppendOnly(limit, proofs, prefix, k);
      assert prefix[..k] == xs[..k];
    } else {
      assert xs[..k] == xs;
    }
  }

  /**
   Result `i` of a run is what call `i` returns on the map left by the
   calls before it, and call `i` appends exactly its own events to the log.
   */
  lemma {:induction false} ExecuteStepMatchesCall(limit: ClaimLimit, proofs: Proofs, xs: seq<Extrinsic>, i: nat)
    requires i < |xs|
    ensures var before := Execute(limit, proofs, xs[..i]);
            var step := Dispatch(limit, before.proofs, xs[i]);
            && Execute(limit, proofs, xs).results[i] == step.result
            && Execute(limit, proofs, xs[..i + 1]).events == before.events + step.events
    decreases |xs|
  {
    var prefix := xs[..|xs| - 1];
    if i < |xs| - 1 {
      ExecuteStepMatchesCall(limit, proofs, prefix, i);
      assert prefix[..i] == xs[..i];
      assert prefix[..i + 1] == xs[..i + 1];
    } else {
      assert xs[..i] == prefix;
      assert xs[..i + 1] == xs;
    }
  }

  /** Every reachable map holds only claims that fit the bound. */
  lemma {:induction false} ExecuteKeepsKeysBounded(limit: ClaimLimit, proofs: Proofs, xs: seq<Extrinsic>)
    requires BoundedKeys(limit, proofs)
    ensures BoundedKeys(limit, Execute(limit, proofs, xs).proofs)
    decreases |xs|
  {
    if xs != [] {
      var before := Execute(limit, proofs, xs[..|xs| - 1]);
      ExecuteKeepsKeysBounded(limit, proofs, xs[..|xs| - 1]);
      PoeProperties.DispatchKeepsKeysBounded(limit, before.proofs, xs[|xs| - 1]);
    }
  }

  /** Calls on other claims never change the entry of `c`. */
  lemma {:induction false} ExecuteLeavesOtherClaims(limit: ClaimLimit, proofs: Proofs, xs: seq<Extrinsic>, c: Claim)
    requires forall i :: 0 <= i < |xs| ==> xs[i].call.claim != c
    ensures Get(Execute(limit, proofs, xs).proofs, c) == Get(proofs, c)
    decreases |xs|
  {
    if xs != [] {
      ExecuteLeavesOtherClaims(limit, proofs, xs[..|xs| - 1], c);
    }
  }

  /**
   The accounts that a successful call of the run made owner of `c`: the
   sender of an accepted create, the recipient of an accepted transfer.
   Rejected calls contribute nobody.
   */
  function Beneficiaries(limit: ClaimLimit, proofs: Proofs, xs: seq<Extrinsic>, c: Claim): set<AccountId>
    decreases |xs|
  {
    if xs == [] then {}
    else
      var prefix := xs[..|xs| - 1];
      var rest := Beneficiaries(limit, proofs, prefix, c);
      var x := xs[|xs| - 1];
      if x.call.claim != c || Dispatch(limit, Execute(limit, proofs, prefix).proofs, x).result.Err? then rest
      else
        match x.call
        case CreateClaimCall(sender, _) => rest + {sender}
        case TransferClaimCall(_, to, _) => rest + {to}
        case RevokeClaimCall(_, _) => rest
  }

  /**
   The owner of a stored claim is never an uninvolved party: it is the
   initial owner, or an account that an accepted create or transfer of
   that claim made owner.
   */
  lemma {:induction false} ExecuteOwnersInvolved(limit: ClaimLimit, proofs: Proofs, xs: seq<Extrinsic>, c: Claim)
    ensures var final := Execute(limit, proofs, xs).proofs;
            c in final ==>
              || final[c].owner in Beneficiaries(limit, proofs, xs, c)
              || (c in proofs && final[c].owner == proofs[c].owner)
    decreases |xs|
  {
    if xs != [] {
      var before := Execute(limit, proofs, xs[..|xs| - 1]);
      ExecuteOwnersInvolved(limit, proofs, xs[..|xs| - 1], c);
      var x := xs[|xs| - 1];
      var after := Dispatch(limit, before.proofs, x);
      if c != x.call.claim {
        assert Get(before.proofs, c) == Get(after.proofs, c);
      }
    }
  }

  /** The block numbers of the run never go backwards. */
  ghost predicate ClockMonotone(xs: seq<Extrinsic>)
  {
    forall i, j :: 0 <= i <= j < |xs| ==> xs[i].now <= xs[j].now
  }

  /** No entry claims to be written after block `t`. */
  ghost predicate RecordedBy(proofs: Proofs, t: BlockNumber)
  {
    forall c :: c in proofs ==> proofs[c].recordedAt <= t
  }

  /**
   With a non-decreasing clock, every entry's block number is at most the
   block of the last call: entries record when they were last written.
   */
  lemma {:induction false} ExecuteRecordsNoFutureBlock(limit: ClaimLimit, proofs: Proofs, xs: seq<Extrinsic>)
    requires |xs| > 0
    requires ClockMonotone(xs)
    requires RecordedBy(proofs, xs[0].now)
    ensures RecordedBy(Execute(limit, proofs, xs).proofs, xs[|xs| - 1].now)
    decreases |xs|
  {
    var prefix := xs[..|xs| - 1];
    var x := xs[|xs| - 1];
    var before := Execute(limit, proofs, prefix);
    if prefix != [] {
      ExecuteRecordsNoFutureBlock(limit, proofs, prefix);
      assert prefix[|prefix| - 1].now <= x.now;
    }
    assert RecordedBy(before.proofs, x.now);
    var after := Dispatch(limit, before.proofs, x);
    forall c | c in after.proofs
      ensures after.proofs[c].recordedAt <= x.now
    {
      if c != x.call.claim {
        assert Get(before.proofs, c) == Get(after.proofs, c);
      }
    }
  }
}
