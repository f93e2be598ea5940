# Ledger engine model

A Dafny model of the in-memory ledger engine of the `m10` ledger service
(`server/src/main.rs`). The server keeps one shared map from an account's
serialized secp256k1 public key to its record `{id, name, balance, is_frozen}`
and serves six handlers: create, get, freeze, unfreeze, transfer and history.

Layout, one module per component:

- `Wrappers` (`wrappers.dfy`): `Option` and the pass/fail `Outcome` (Rust's `Result<(), E>`).
- `Bytes` (`bytes.dfy`): `u8`, `u64`, `to_le_bytes`, and `checked_sub` / `checked_add`.
- `Protos` (`protos.dfy`): the protobuf records: `Account`, `Transfer`, `TransferError`
  and its `Code`, the request/response records, the RPC `Status`, and the handler result.
- `Crypto` (`crypto.dfy`): the secp256k1 and SHA-256 calls as a value `Primitives` of
  arbitrary functions, and the generated `Keypair`.
- `Message` (`message.dfy`): the canonical transfer message `from ++ to ++ LE8(amount)`.
- `Authorizer` (`authorizer.dfy`): `verify_transfer_conditions`, the fail-fast check chain.
- `Store` (`store.dfy`): each handler as a function from the old map to the new map and
  the reply, and the lemmas that relate several handlers.
- `Transfers` (`transfers.dfy`): `create_transfer` as one step, with its properties.
- `Server` (`ledger.dfy`): class `Ledger` with `var accounts`. Its handlers update the map
  in place and are proved equal to the `Store` / `Transfers` functions.

Two outcome tiers are kept apart, as in the code. An unknown account is an RPC
`Status` not-found (`Protos.Result.Err`). Every other failure of a transfer is a
normal reply `TransferResult(Some(error))`.

The model follows the code as written. Three behaviours of the code show up as proved lemmas:

- A transfer from an account to itself adds `amount` to its balance. The destination write
  (`server/src/main.rs:254`) replaces the source write (`:244`). See `Transfers.SelfTransferMints`
  and `Transfers.SelfTransferExample`. So the total of all balances grows by the amount
  (`Transfers.TransferTotal`).
- `create_account` uses `insert`, so an existing key is replaced with no conflict check
  (`Store.CreateOverwritesExisting`).
- The signed message has no nonce. The `Transfer` record has no nonce field at all. So an applied
  transfer can be replayed (`Transfers.ReplayAccepted`, `Message.MessageHashIgnoresSignature`).

The code signs no nonce. It does not check for an existing key on creation. It keeps no
history log. It does not write the two balances of a transfer all-or-nothing. The model
follows the code. `Store.MissingDestinationLeavesDebit` shows the partial write the code
would make if the destination were missing. Inside one transfer step this cannot happen
(`Transfers.FailuresClassified`).

Balances and amounts are `u64` (a subset of `int` below 2^64), so every stored balance
stays in range by type. Overflow and underflow are the explicit `CheckedAdd` / `CheckedSub`
checks.

## Model

| member | source | states |
|---|---|---|
| `Bytes.ToLittleEndian` | server/src/main.rs:163 | `to_le_bytes` layout: exactly `width` bytes, least significant first |
| `Bytes.FromLittleEndian` | server/src/main.rs:163 | reference decoding of a little-endian byte string; its value is below 256^length |
| `Bytes.LittleEndianRoundTrip` | server/src/main.rs:163 | decoding the `width`-byte encoding of any `n < 256^width` gives back `n` |
| `Bytes.LE8` | server/src/main.rs:163 | `amount.to_le_bytes()` is 8 bytes that decode back to the amount |
| `Bytes.LE8Injective` | server/src/main.rs:163 | distinct amounts have distinct 8-byte encodings |
| `Bytes.CheckedSub` | server/src/main.rs:223-228 | `checked_sub` is `None` exactly when `b > a`; otherwise the difference, never negative |
| `Bytes.CheckedAdd` | server/src/main.rs:229-234 | `checked_add` is `None` exactly when `a + b > u64::MAX`; otherwise the exact sum |
| `Message.CanonicalMessage` | server/src/main.rs:159-163 | message length is `\|from\| + \|to\| + 8`; it starts with `from`, then `to`, and its last 8 bytes decode to the amount |
| `Message.CanonicalMessageInjective` | server/src/main.rs:159-163 | with fixed id lengths, equal messages mean equal source, destination and amount |
| `Message.CanonicalMessageAmbiguousForUnequalLengths` | server/src/main.rs:161-162 | the id boundary is not encoded: `[1] ++ [2,3]` and `[1,2] ++ [3]` give the same message |
| `Message.MessageHash` | server/src/main.rs:159-165 | digest is `sha256(CanonicalMessage(from, to, amount))` |
| `Message.MessageHashIgnoresSignature` | server/src/main.rs:159-165 | no nonce: requests with equal source, destination and amount hash to the same digest |
| `Authorizer.SignatureAccepted` | server/src/main.rs:188-211 | key parse, message parse, compact-signature parse and verify all accept |
| `Authorizer.VerifyTransferConditions` | server/src/main.rs:167-214 | passes iff neither account is frozen and all four signature stages accept; a frozen source always gives `FrozenAccount` (source message); otherwise a frozen destination gives it (destination message); any other failure is `InvalidSignature` |
| `Authorizer.FrozenCheckedBeforeSignature` | server/src/main.rs:174-186 | with either account frozen, the outcome is `FrozenAccount` and depends on no signature, digest or primitive |
| `Authorizer.AuthorizationIgnoresBalances` | server/src/main.rs:167-214 | the checks do not depend on either balance |
| `Store.Lookup` | server/src/main.rs:103-115 | `get_account` returns the stored record iff the key is present, else not-found "Account not found" |
| `Store.Freeze` | server/src/main.rs:33-52 | unknown id: not-found. Known id: `success` iff it was unfrozen. Afterwards it is frozen with every other field unchanged. Same key set. Every other account unchanged |
| `Store.Unfreeze` | server/src/main.rs:54-73 | unknown id: not-found. Known id: `success` iff it was frozen. Afterwards it is unfrozen with every other field unchanged. Every other account unchanged |
| `Store.Create` | server/src/main.rs:75-101 | the key maps to exactly `{id = key, name, balance, is_frozen = false}`; keys become old keys plus the new key; other accounts unchanged; the reply carries that record and the secret key |
| `Store.ApplyBalances` | server/src/main.rs:216-257 | amount above the source snapshot: `InsufficientBalance`, map unchanged. Otherwise destination snapshot plus amount above `u64::MAX`: `BalanceOverflow`, map unchanged. Success iff both checks pass and both keys exist. Then destination = snapshot + amount, and source = snapshot − amount when the two differ. Only balances of those two keys change |
| `Store.TotalRemove` | server/src/main.rs:28 | the total of all balances in the map can be split at any key: that account's balance plus the total of the rest |
| `Store.TotalUpdate` | server/src/main.rs:28 | writing one record changes the total by the new balance minus the old one, or plus the new balance if the key was absent |
| `Store.ToggleKeepsTotal` | server/src/main.rs:33-73 | freeze and unfreeze never change the total of all balances |
| `Store.CreateChangesTotal` | server/src/main.rs:92-95 | creation adds the new balance to the total and, if it overwrites, removes the replaced balance |
| `Store.FreezeIdempotent` | server/src/main.rs:41-46 | freezing twice: the second call changes nothing and reports `success = false` |
| `Store.UnfreezeIdempotent` | server/src/main.rs:62-67 | unfreezing twice: the second call changes nothing and reports `success = false` |
| `Store.UnsuccessfulToggleChangesNothing` | server/src/main.rs:33-73 | a not-found or `success = false` reply from freeze or unfreeze leaves the map identical |
| `Store.UnfreezeUndoesFreeze` | server/src/main.rs:47-68 | unfreeze after a successful freeze succeeds and restores the map exactly |
| `Store.CreateThenLookup` | server/src/main.rs:84-114 | `get_account(k)` right after creating `k` returns the created record |
| `Store.CreateOverwritesExisting` | server/src/main.rs:92-95 | creating under an existing key keeps the key set and replaces the record (new balance, unfrozen) |
| `Store.ToggleKeepsKeyedById` | server/src/main.rs:47-68 | freeze and unfreeze keep every record stored under its own id |
| `Store.CreateKeepsKeyedById` | server/src/main.rs:84-95 | creation inserts the record under its own id, so every record stays under its own id |
| `Store.ApplyBalancesKeepsKeyedById` | server/src/main.rs:236-254 | the balance update rewrites only balances, so every record stays under its own id |
| `Store.MissingDestinationLeavesDebit` | server/src/main.rs:236-254 | if the destination key is missing at write time, the reply is `AccountNotFound` and the source debit stays applied |
| `Store.StaleSnapshotDestroysMoney` | server/src/main.rs:123-136 | A→B applied, then C→B applied with B's pre-lock snapshot: both sources debited, B credited only the second amount, total falls by the first amount |
| `Store.StaleSnapshotLosesUpdate` | server/src/main.rs:123-136 | two updates both computed from the same pre-lock snapshots both report success, but the second leaves the map as the first left it |
| `Transfers.TransferOutcome` | server/src/main.rs:117-146 | not-found status iff the source or destination is unknown. Key set preserved. Any transfer error leaves the map unchanged |
| `Transfers.UnknownAccountIsNotFound` | server/src/main.rs:124-125 | an unknown source or destination gives the RPC not-found status and no change |
| `Transfers.FrozenSourceRejected` | server/src/main.rs:174-179 | a frozen source gives `FrozenAccount` ("From account is frozen") and no change, whatever the destination, signature or balances |
| `Transfers.FrozenDestinationRejected` | server/src/main.rs:181-186 | an unfrozen source and a frozen destination give `FrozenAccount` ("To account is frozen") before any signature check |
| `Transfers.BadSignatureRejected` | server/src/main.rs:188-211 | both accounts unfrozen and any signature stage failing for the named source key: `InvalidSignature`, no change |
| `Transfers.InsufficientBalanceRejected` | server/src/main.rs:223-228 | an authorized transfer of more than the source balance gives `InsufficientBalance` and no change |
| `Transfers.BalanceOverflowRejected` | server/src/main.rs:229-234 | an authorized, affordable transfer that would push the destination above `u64::MAX` gives `BalanceOverflow` and no change |
| `Transfers.FailuresClassified` | server/src/main.rs:127-145 | every transfer error is `FrozenAccount`, `InvalidSignature`, `InsufficientBalance` or `BalanceOverflow`; never `Unknown` or `AccountNotFound` |
| `Transfers.AppliedIff` | server/src/main.rs:127-145 | `error: None` exactly when both accounts exist, authorization passes, the source can pay and the destination cannot overflow |
| `Transfers.TransferConserves` | server/src/main.rs:236-256 | applied with distinct accounts: source −amount, destination +amount, their sum unchanged, all other records and fields unchanged |
| `Transfers.SelfTransferMints` | server/src/main.rs:244-254 | applied with source = destination: the balance ends at old balance + amount; the rest of that record and every other account are unchanged |
| `Transfers.SelfTransferExample` | server/src/main.rs:244-254 | a concrete self-transfer of 100 from a balance of 100 leaves 200 |
| `Transfers.ReplayAccepted` | server/src/main.rs:159-165 | after an applied transfer, the identical signed request passes authorization again and is applied again whenever balances allow |
| `Transfers.FreezeBlocksTransfers` | server/src/main.rs:174-186 | after freezing the source or the destination, the transfer is refused with `FrozenAccount` and changes nothing |
| `Transfers.TransferExample` | server/src/main.rs:117-146 | A = 100, B = 0, A sends 40 with an accepted signature: A = 60, B = 40 |
| `Transfers.TransferTotal` | server/src/main.rs:236-256 | total of all balances: unchanged by a refused transfer and by an applied transfer between distinct accounts; raised by exactly the amount by an applied self-transfer |
| `Transfers.TransferKeepsKeyedById` | server/src/main.rs:236-254 | a transfer keeps every record stored under its own id |
| `Server.Ledger.constructor` | server/src/main.rs:26-29 | a new ledger holds no accounts |
| `Server.Ledger.FreezeAccount` | server/src/main.rs:33-52 | in-place handler; new map and reply are those of `Store.Freeze` |
| `Server.Ledger.UnfreezeAccount` | server/src/main.rs:54-73 | in-place handler; new map and reply are those of `Store.Unfreeze` |
| `Server.Ledger.CreateAccount` | server/src/main.rs:75-101 | in-place `insert`; new map and reply are those of `Store.Create` |
| `Server.Ledger.GetAccount` | server/src/main.rs:103-115 | read-only; returns `Store.Lookup` of the current map |
| `Server.Ledger.CreateTransferMessageHash` | server/src/main.rs:159-165 | builds the message by three appends and always returns the hash of `CanonicalMessage` |
| `Server.Ledger.UpdateBalances` | server/src/main.rs:216-257 | writes the source then the destination in place; new map and reply are those of `Store.ApplyBalances` |
| `Server.Ledger.CreateTransfer` | server/src/main.rs:117-146 | the full handler (hash, two lookups, checks, update); new map and reply are those of `Transfers.TransferOutcome` |

## Left out

- `get_history` (server/src/main.rs:148-155): a stub that always returns an empty list. There is no history log to model.
- Key generation (`generate_keypair` with `OsRng`, server/src/main.rs:81-82): the generated keypair is the `keys` parameter of `CreateAccount`.
- secp256k1 parsing and verification, and SHA-256 (server/src/main.rs:164, 188-211): arbitrary functions in a `Primitives` value. Every property holds for all of them. Their cryptographic strength is not modelled.
- Account ids are arbitrary byte strings. The 33-byte length of a serialized key is not enforced.
- The tokio `Mutex`, async handlers, the tonic server and `main` (server/src/main.rs:14-24): each handler is one atomic step. Interleavings are not modelled. The read-before-lock gap of `create_transfer` is captured only by `UpdateBalances` / `ApplyBalances` taking the snapshots as parameters. Stale snapshots can lose a transfer (`Store.StaleSnapshotLosesUpdate`) and can destroy money (`Store.StaleSnapshotDestroysMoney`).
- The generated protobuf code is not part of this model. The records and the six error codes are written out in `Protos`.
- The command-line client is not part of this model.
