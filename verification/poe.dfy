/**
 The proof-of-existence pallet: a registry binding a bounded byte-string
 claim to its current owner and the block at which that binding was last
 written. Each dispatchable call is a pure function of the stored map, the
 (already authenticated) caller, its arguments and the current block
 number; it returns the map after the call, the dispatch result and the
 events deposited.
 */
module Poe {

  /** One byte of a claim (`u8`). */
  type Byte = b: int | 0 <= b < 0x100

  /** A claim as submitted by a caller: any byte string, not yet bounded. */
  type Claim = seq<Byte>

  /** An account identity; the registry only ever compares two of them. */
  type AccountId(==)

  type BlockNumber = nat

  const U32_MAX: nat := 0xFFFF_FFFF

  /** The configured `MaxClaimLength`, a `u32`. */
  type ClaimLimit = n: nat | n <= U32_MAX

  /** The value stored for a live claim: `(owner, block_number)`. */
  datatype Registration = Registration(owner: AccountId, recordedAt: BlockNumber)

  /** The `Proofs` storage map. */
  type Proofs = map<Claim, Registration>

  datatype Event =
    | ClaimCreated(who: AccountId, claim: Claim)
    | ClaimRevoked(who: AccountId, claim: Claim)
    | ClaimTransferred(from: AccountId, to: AccountId, claim: Claim)

  datatype Error = ProofAlreadyExist | ClaimTooLong | ClaimNotExist | NotClaimOwner

  datatype DispatchResult = Ok | Err(error: Error)

  /** What a dispatch leaves behind: storage, the returned result, and the deposited events. */
  datatype Effect = Effect(proofs: Proofs, result: DispatchResult, events: seq<Event>)

  datatype Option<T> = None | Some(value: T)

  /** `Proofs::get`. */
  function Get(proofs: Proofs, claim: Claim): Option<Registration>
  {
    if claim in proofs then Some(proofs[claim]) else None
  }

  /** True iff `claim` converts into a `BoundedVec<u8, MaxClaimLength>`. */
  predicate Fits(limit: ClaimLimit, claim: Claim)
  {
    |claim| <= limit
  }

  /** Every stored key is a claim that fits the configured bound. */
  ghost predicate BoundedKeys(limit: ClaimLimit, proofs: Proofs)
  {
    forall c :: c in proofs ==> Fits(limit, c)
  }

  /** `before` and `after` agree on every key other than `claim`. */
  ghost predicate SameExcept(before: Proofs, after: Proofs, claim: Claim)
  {
    forall k :: k != claim ==> Get(before, k) == Get(after, k)
  }

  /** A rejected call: storage untouched, no event. */
  function Reject(proofs: Proofs, error: Error): Effect
  {
    Effect(proofs, Err(error), [])
  }

  /**
   `create_claim`: the claim must fit the bound and must not be stored yet;
   then it is stored as `(sender, now)` and `ClaimCreated` is deposited.
   */
  function CreateClaim(limit: ClaimLimit, proofs: Proofs, sender: AccountId, claim: Claim, now: BlockNumber): (r: Effect)
    ensures r.result == Ok <==> Fits(limit, claim) && Get(proofs, claim) == None
    ensures !Fits(limit, claim) ==> r.result == Err(ClaimTooLong)
    ensures Fits(limit, claim) && claim in proofs ==> r.result == Err(ProofAlreadyExist)
    ensures r.result.Ok? ==>
              && Get(r.proofs, claim) == Some(Registration(sender, now))
              && r.proofs.Keys == proofs.Keys + {claim}
              && r.events == [ClaimCreated(sender, claim)]
    ensures r.result.Err? ==> r.proofs == proofs && r.events == []
    ensures SameExcept(proofs, r.proofs, claim)
  {
    if !Fits(limit, claim) then Reject(proofs, ClaimTooLong)
    else if claim in proofs then Reject(proofs, ProofAlreadyExist)
    else Effect(proofs[claim := Registration(sender, now)], Ok, [ClaimCreated(sender, claim)])
  }

  /**
   `revoke_claim`: length, then existence, then ownership; on success the
   entry is removed and `ClaimRevoked` is deposited.
   */
  function RevokeClaim(limit: ClaimLimit, proofs: Proofs, sender: AccountId, claim: Claim): (r: Effect)
    ensures r.result == Ok <==> Fits(limit, claim) && claim in proofs && proofs[claim].owner == sender
    ensures !Fits(limit, claim) ==> r.result == Err(ClaimTooLong)
    ensures Fits(limit, claim) && claim !in proofs ==> r.result == Err(ClaimNotExist)
    ensures Fits(limit, claim) && claim in proofs && proofs[claim].owner != sender ==>
              r.result == Err(NotClaimOwner)
    ensures r.result.Ok? ==>
              && Get(r.proofs, claim) == None
              && r.proofs.Keys == proofs.Keys - {claim}
              && r.events == [ClaimRevoked(sender, claim)]
    ensures r.result.Err? ==> r.proofs == proofs && r.events == []
    ensures SameExcept(proofs, r.proofs, claim)
  {
    if !Fits(limit, claim) then Reject(proofs, ClaimTooLong)
    else
      match Get(proofs, claim)
      case None => Reject(proofs, ClaimNotExist)
      case Some(Registration(owner, _)) =>
        if owner != sender then Reject(proofs, NotClaimOwner)
        else Effect(proofs - {claim}, Ok, [ClaimRevoked(sender, claim)])
  }

  /**
   `transfer_claim`: the same checks in the same order as `revoke_claim`;
   on success the entry is removed and re-inserted as `(to, now)` and
   `ClaimTransferred` is deposited. `to` is not checked at all.
   */
  function TransferClaim(limit: ClaimLimit, proofs: Proofs, sender: AccountId, to: AccountId, claim: Claim, now: BlockNumber): (r: Effect)
    ensures r.result == Ok <==> Fits(limit, claim) && claim in proofs && proofs[claim].owner == sender
    ensures !Fits(limit, claim) ==> r.result == Err(ClaimTooLong)
    ensures Fits(limit, claim) && claim !in proofs ==> r.result == Err(ClaimNotExist)
    ensures Fits(limit, claim) && claim in proofs && proofs[claim].owner != sender ==>
              r.result == Err(NotClaimOwner)
    ensures r.result.Ok? ==>
              && Get(r.proofs, claim) == Some(Registration(to, now))
              && r.proofs.Keys == proofs.Keys
              && r.events == [ClaimTransferred(sender, to, claim)]
    ensures r.result.Err? ==> r.proofs == proofs && r.events == []
    ensures SameExcept(proofs, r.proofs, claim)
  {
    if !Fits(limit, claim) then Reject(proofs, ClaimTooLong)
    else
      match Get(proofs, claim)
      case None => Reject(proofs, ClaimNotExist)
      case Some(Registration(owner, _)) =>
        if owner != sender then Reject(proofs, NotClaimOwner)
        else
          var removed := proofs - {claim};
          Effect(removed[claim := Registration(to, now)], Ok, [ClaimTransferred(sender, to, claim)])
  }

  /** A call of the pallet, with the signer already extracted from its origin. */
  datatype Call =
    | CreateClaimCall(sender: AccountId, claim: Claim)
    | RevokeClaimCall(sender: AccountId, claim: Claim)
    | TransferClaimCall(sender: AccountId, to: AccountId, claim: Claim)

  /** A call together with the block number at which it executes. */
  datatype Extrinsic = Extrinsic(call: Call, now: BlockNumber)

  /** Routes an extrinsic to its transition. */
  function Dispatch(limit: ClaimLimit, proofs: Proofs, x: Extrinsic): (r: Effect)
    ensures |r.events| == (if r.result.Ok? then 1 else 0)
    ensures r.result.Err? ==> r.proofs == proofs
    ensures SameExcept(proofs, r.proofs, x.call.claim)
    ensures !Fits(limit, x.call.claim) ==> r.result == Err(ClaimTooLong)
  {
    match x.call
    case CreateClaimCall(sender, claim) => CreateClaim(limit, proofs, sender, claim, x.now)
    case RevokeClaimCall(sender, claim) => RevokeClaim(limit, proofs, sender, claim)
    case TransferClaimCall(sender, to, claim) => TransferClaim(limit, proofs, sender, to, claim, x.now)
  }
}
