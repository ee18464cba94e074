/**
 Properties relating two or more calls of the pallet: the scenarios its
 unit tests exercise, the inverse pairs among the transitions, and the
 invariants every transition keeps.
 */
module PoeProperties {
  import opened Poe

  /** A fitting, fresh claim is stored as `(caller, now)` and announced. */
  lemma CreateStoresCaller(limit: ClaimLimit, proofs: Proofs, a: AccountId, c: Claim, now: BlockNumber)
    requires Fits(limit, c) && c !in proofs
    ensures var r := CreateClaim(limit, proofs, a, c, now);
            && r.result == Ok
            && Get(r.proofs, c) == Some(Registration(a, now))
            && r.events == [ClaimCreated(a, c)]
  {
  }

  /**
   A second `create_claim` of the same claim, by anyone, fails with
   `ProofAlreadyExist` and leaves the map of the first call unchanged.
   */
  lemma CreateTwiceRejected(limit: ClaimLimit, proofs: Proofs, a: AccountId, b: AccountId, c: Claim, t1: BlockNumber, t2: BlockNumber)
    requires CreateClaim(limit, proofs, a, c, t1).result == Ok
    ensures var first := CreateClaim(limit, proofs, a, c, t1);
            var second := CreateClaim(limit, first.proofs, b, c, t2);
            && second.result == Err(ProofAlreadyExist)
            && second.proofs == first.proofs
            && second.events == []
  {
  }

  /** On a claim that is not stored, revoke and transfer report `ClaimNotExist` to every caller. */
  lemma AbsentClaimNotExist(limit: ClaimLimit, proofs: Proofs, anyone: AccountId, to: AccountId, c: Claim, now: BlockNumber)
    requires Fits(limit, c) && c !in proofs
    ensures var r := RevokeClaim(limit, proofs, anyone, c);
            r.result == Err(ClaimNotExist) && r.proofs == proofs && r.events == []
    ensures var r := TransferClaim(limit, proofs, anyone, to, c, now);
            r.result == Err(ClaimNotExist) && r.proofs == proofs && r.events == []
  {
  }

  /** Someone other than the owner can neither revoke nor transfer a stored claim. */
  lemma NonOwnerRejected(limit: ClaimLimit, proofs: Proofs, intruder: AccountId, to: AccountId, c: Claim, now: BlockNumber)
    requires Fits(limit, c) && c in proofs && proofs[c].owner != intruder
    ensures var r := RevokeClaim(limit, proofs, intruder, c);
            r.result == Err(NotClaimOwner) && r.proofs == proofs && r.events == []
    ensures var r := TransferClaim(limit, proofs, intruder, to, c, now);
            r.result == Err(NotClaimOwner) && r.proofs == proofs && r.events == []
  {
  }

  /**
   An over-long claim is refused with `ClaimTooLong` by all three calls,
   whatever the map holds and whoever calls.
   */
  lemma TooLongRejectedFirst(limit: ClaimLimit, proofs: Proofs, a: AccountId, to: AccountId, c: Claim, now: BlockNumber)
    requires |c| > limit
    ensures CreateClaim(limit, proofs, a, c, now) == Effect(proofs, Err(ClaimTooLong), [])
    ensures RevokeClaim(limit, proofs, a, c) == Effect(proofs, Err(ClaimTooLong), [])
    ensures TransferClaim(limit, proofs, a, to, c, now) == Effect(proofs, Err(ClaimTooLong), [])
  {
  }

  /** After a successful revoke the claim is free again: anyone may create it. */
  lemma RevokeFreesClaim(limit: ClaimLimit, proofs: Proofs, a: AccountId, x: AccountId, c: Claim, now: BlockNumber)
    requires RevokeClaim(limit, proofs, a, c).result == Ok
    ensures var revoked := RevokeClaim(limit, proofs, a, c);
            var again := CreateClaim(limit, revoked.proofs, x, c, now);
            && Get(revoked.proofs, c) == None
            && again.result == Ok
            && again.proofs == proofs[c := Registration(x, now)]
  {
  }

  /** Revoke undoes create: creating then revoking a claim restores the original map. */
  lemma CreateThenRevokeRestores(limit: ClaimLimit, proofs: Proofs, a: AccountId, c: Claim, now: BlockNumber)
    requires CreateClaim(limit, proofs, a, c, now).result == Ok
    ensures var created := CreateClaim(limit, proofs, a, c, now);
            var revoked := RevokeClaim(limit, created.proofs, a, c);
            revoked.result == Ok && revoked.proofs == proofs
  {
  }

  /**
   Transfer to oneself succeeds and only refreshes the recorded block number.
   */
  lemma SelfTransferRefreshes(limit: ClaimLimit, proofs: Proofs, a: AccountId, c: Claim, now: BlockNumber)
    requires Fits(limit, c) && c in proofs && proofs[c].owner == a
    ensures var r := TransferClaim(limit, proofs, a, a, c, now);
            && r.result == Ok
            && r.proofs == proofs[c := Registration(a, now)]
            && r.events == [ClaimTransferred(a, a, c)]
  {
  }

  /**
   A transfer from `a` to `b` followed by one from `b` back to `a` succeeds
   twice and leaves `a` as owner with the second call's block number.
   */
  lemma TransferRoundTrip(limit: ClaimLimit, proofs: Proofs, a: AccountId, b: AccountId, c: Claim, t1: BlockNumber, t2: BlockNumber)
    requires TransferClaim(limit, proofs, a, b, c, t1).result == Ok
    ensures var there := TransferClaim(limit, proofs, a, b, c, t1);
            var back := TransferClaim(limit, there.proofs, b, a, c, t2);
            && Get(there.proofs, c) == Some(Registration(b, t1))
            && back.result == Ok
            && back.proofs == proofs[c := Registration(a, t2)]
  {
  }

  /**
   A claim's lifecycle: it enters the map only through a successful create,
   leaves only through a successful revoke by its owner, and its entry is
   rewritten only through a successful transfer by its owner.
   */
  lemma LifecycleSteps(limit: ClaimLimit, proofs: Proofs, x: Extrinsic, c: Claim)
    ensures var r := Dispatch(limit, proofs, x);
            && (c !in proofs && c in r.proofs ==>
                  r.result == Ok && x.call == CreateClaimCall(r.proofs[c].owner, c))
            && (c in proofs && c !in r.proofs ==>
                  r.result == Ok && x.call == RevokeClaimCall(proofs[c].owner, c))
            && (c in proofs && c in r.proofs && r.proofs[c] != proofs[c] ==>
                  && r.result == Ok
                  && x.call == TransferClaimCall(proofs[c].owner, r.proofs[c].owner, c)
                  && r.proofs[c].recordedAt == x.now)
  {
  }

  /** No transition can store a key that does not fit the bound. */
  lemma DispatchKeepsKeysBounded(limit: ClaimLimit, proofs: Proofs, x: Extrinsic)
    requires BoundedKeys(limit, proofs)
    ensures BoundedKeys(limit, Dispatch(limit, proofs, x).proofs)
  {
  }

  /**
   The end-to-end scenario with `MaxClaimLength = 32`: account `one` creates
   claim `[0, 1]` at block 5, transfers it to `two` at block 9, and can then
   no longer revoke it.
   */
  lemma CreateTransferRevokeScenario(one: AccountId, two: AccountId)
    requires one != two
    ensures var created := CreateClaim(32, map[], one, [0, 1], 5);
            var moved := TransferClaim(32, created.proofs, one, two, [0, 1], 9);
            var revoked := RevokeClaim(32, moved.proofs, one, [0, 1]);
            && created.proofs == map[[0, 1] := Registration(one, 5)]
            && moved.proofs == map[[0, 1] := Registration(two, 9)]
            && revoked.result == Err(NotClaimOwner)
            && revoked.proofs == moved.proofs
  {
  }
}
