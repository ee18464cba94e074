# Proof-of-existence claim registry, in Dafny

This project models the `poe` pallet of the super-chain runtime. The pallet keeps one storage map, `Proofs`. The map takes a claim (a byte string of at most `MaxClaimLength` bytes) to `(owner, block_number)`. Three dispatchable calls change the map:

- `create_claim` stores a fresh claim as `(sender, now)`.
- `revoke_claim` removes a claim. Only its owner may do this.
- `transfer_claim` rewrites a claim to `(to, now)`. Only its owner may do this.

A successful call deposits exactly one event. A failed call returns one of `ClaimTooLong`, `ProofAlreadyExist`, `ClaimNotExist` or `NotClaimOwner`, and leaves the map untouched.

Files:

- `poe.dfy` (module `Poe`) holds the data model and the three transitions. Each transition is a pure function from (map, caller, claim, [recipient], block number) to an `Effect`: the map after the call, the dispatch result, and the events deposited.
- `poe_properties.dfy` (module `PoeProperties`) holds the properties that relate several calls. These are the unit-test scenarios, the inverse pairs (create/revoke, transfer there and back), the claim lifecycle, and the key-length invariant.
- `poe_trace.dfy` (module `PoeTrace`) runs a sequence of extrinsics one after another, as the runtime serialises them. It proves that the result and event log follow the calls in order and only grow, and it proves invariants of every reachable map:
  - keys stay within the bound;
  - a call on one claim leaves every other claim alone;
  - owners are never uninvolved parties;
  - with a non-decreasing clock, no entry records a block later than the last call's block.

Modelling choices:

- `AccountId` is an abstract type with equality. The caller arrives already authenticated, so `ensure_signed` is not modelled.
- The block number is a `nat` parameter. The model reads it and never produces it.
- `MaxClaimLength` is a parameter of type `ClaimLimit`, which is a `nat` no larger than `u32::MAX`. In the source it is a `Get<u32>` constant. The code does not require it to be positive, so the model does not either.
- The claim is a raw `seq<Byte>`, and each call checks its length explicitly (`Fits`). In the source the argument is already a `BoundedVec`, so the `try_from` conversion at `lib.rs:78`, `102` and `125` cannot fail there. Making the check explicit gives the `ClaimTooLong` branch a meaning, and it fires before any other check, as in the code.
- `transfer_claim` is modelled as the source writes it: remove, then insert.

## Model

| member | source | states |
|---|---|---|
| Poe.CreateClaim | pallets/poe/src/lib.rs:68-91 | Succeeds iff the claim fits and is absent. An over-long claim gives `ClaimTooLong` before the existence check. A present claim gives `ProofAlreadyExist`. On success the claim maps to `(sender, now)`, exactly one key is added, and `ClaimCreated(sender, claim)` is the only event. On failure the map is unchanged and there are no events. No other key changes. |
| Poe.RevokeClaim | pallets/poe/src/lib.rs:95-113 | Succeeds iff the claim fits, is present and is owned by the sender. Errors come in the order length, then existence (`ClaimNotExist` for any caller), then ownership (`NotClaimOwner`). On success exactly that key is removed and `ClaimRevoked` is emitted. On failure the map is unchanged and there are no events. No other key changes. |
| Poe.TransferClaim | pallets/poe/src/lib.rs:117-140 | Same checks in the same order as revoke. On success the claim maps to `(to, now)` whatever `to` is, the key set is unchanged, and `ClaimTransferred(sender, to, claim)` is emitted. On failure the map is unchanged and there are no events. No other key changes. |
| Poe.Dispatch | pallets/poe/src/lib.rs:64-141 | Any call emits one event if it succeeds and none if it fails. A failed call leaves the map unchanged. Only the call's own claim key can change. An over-long claim is always rejected with `ClaimTooLong`. |
| PoeProperties.CreateStoresCaller | pallets/poe/src/tests.rs:19-25 | Creating a fresh, fitting claim succeeds. A lookup then gives `Some((caller, now))`, and the event is `ClaimCreated`. |
| PoeProperties.CreateTwiceRejected | pallets/poe/src/tests.rs:71-78 | A second create of the same claim, by anyone, fails with `ProofAlreadyExist`. It leaves the map exactly as the first create left it and emits no event. |
| PoeProperties.AbsentClaimNotExist | pallets/poe/src/lib.rs:104-105 | Revoke and transfer of a stored-nowhere claim fail with `ClaimNotExist` for every caller, before ownership is looked at. The map is unchanged. Transfer has the same checks at lines 127-128. |
| PoeProperties.NonOwnerRejected | pallets/poe/src/tests.rs:95-105 | A non-owner's revoke or transfer of a stored claim fails with `NotClaimOwner`, and the map is unchanged. |
| PoeProperties.TooLongRejectedFirst | pallets/poe/src/lib.rs:78-79 | An over-long claim gives exactly `(unchanged map, ClaimTooLong, no events)` from all three calls, whatever the map holds and whoever calls. Revoke and transfer do the same at lines 102-103 and 125-126. |
| PoeProperties.RevokeFreesClaim | pallets/poe/src/lib.rs:107 | After a successful revoke the claim is absent. A create by any account then succeeds, and the resulting map is the original map with the claim rebound to the new creator. |
| PoeProperties.CreateThenRevokeRestores | pallets/poe/src/lib.rs:80-107 | Revoke is the inverse of create: a successful create followed by the creator's revoke restores the original map exactly. |
| PoeProperties.SelfTransferRefreshes | pallets/poe/src/lib.rs:130-134 | The owner's transfer to themself succeeds. It changes only the recorded block number of that claim. |
| PoeProperties.TransferRoundTrip | pallets/poe/src/tests.rs:51-62 | A transfer a→b makes b the owner at the transfer block. A transfer b→a then succeeds. The map ends up as the original with the claim bound to `(a, second block)`. |
| PoeProperties.LifecycleSteps | pallets/poe/src/lib.rs:80-134 | A key enters the map only through a successful create by its new owner. It leaves only through a successful revoke by its owner. Its value changes only through a successful transfer by its owner, which records the current block. |
| PoeProperties.DispatchKeepsKeysBounded | pallets/poe/src/lib.rs:35-40 | If every stored key fits `MaxClaimLength`, the same holds after any call. |
| PoeProperties.CreateTransferRevokeScenario | pallets/poe/src/lib.rs:117-134 | A transfer, then a revoke by the former owner. The bound, blocks and claim are illustrative values; the failed revoke mirrors the `wrong_owner` test at tests.rs:95-105. With bound 32: account one creates `[0,1]` at block 5, giving `{[0,1] ↦ (one,5)}`. One transfers it to two at block 9, giving `{[0,1] ↦ (two,9)}`. One's revoke then fails with `NotClaimOwner` and changes nothing. |
| PoeTrace.Execute | pallets/poe/src/lib.rs:87-90 | Running a sequence of calls yields one result per call and exactly one event per successful call. |
| PoeTrace.ExecuteLogAppendOnly | pallets/poe/src/lib.rs:87-90 | The deposit log is append-only: running any prefix of the calls yields a prefix of the results and a prefix of the events of the whole run. |
| PoeTrace.ExecuteStepMatchesCall | pallets/poe/src/lib.rs:64-141 | Result `i` of a run is exactly what call `i` returns on the map left by the calls before it. Call `i` appends exactly its own events, in order, after those of earlier calls. |
| PoeTrace.ExecuteKeepsKeysBounded | pallets/poe/src/lib.rs:35-40 | Every map reachable from a bounded map holds only keys of length at most `MaxClaimLength`. |
| PoeTrace.ExecuteLeavesOtherClaims | pallets/poe/src/lib.rs:78-134 | A run of calls that never names claim `c` leaves `c`'s entry, or its absence, exactly as it was. |
| PoeTrace.ExecuteOwnersInvolved | pallets/poe/src/lib.rs:82-134 | After any run, a stored claim's owner is either its initial owner or an account that an accepted create (as creator) or an accepted transfer (as recipient) of that claim made owner. Rejected calls name nobody. |
| PoeTrace.ExecuteRecordsNoFutureBlock | pallets/poe/src/lib.rs:82-134 | If block numbers never decrease, every entry's recorded block is at most the block of the last call. |

## Left out

- Signed-origin extraction (`ensure_signed`) and its `BadOrigin` failure: the caller is an already-authenticated `AccountId` parameter.
- Reading the block number from `frame_system`: it is a parameter of each call.
- FRAME macro wiring, call weights and `DispatchResultWithPostInfo` post-dispatch info: framework plumbing with no effect on the map.
- `Blake2_128Concat` key hashing and storage persistence: a Dafny `map` stands for the storage map.
- Event deposit mechanics: events are returned in the `Effect` and appended to the trace log, not deposited into `frame_system`.
- Integer width of `T::BlockNumber`: block numbers are unbounded `nat`s. The pallet does no arithmetic on them, so no wrap-around can arise.
- The mock runtime and the test harness (`mock.rs`, `new_test_ext`): `mock.rs` is not part of this model.
