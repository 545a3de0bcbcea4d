# TrustLink attestation registry in Dafny

TrustLink is a Soroban smart contract that works as an on-chain attestation registry. An admin
registers trusted issuers. Issuers publish claims ("attestations") about subject addresses and
may later revoke them. Anyone can ask whether a subject currently holds a valid claim of a given
type, or page through the attestation ids listed for a subject or an issuer.

This project models the contract's entry points (`src/lib.rs`), its storage layer
(`src/storage.rs`), its authorization checks (`src/validation.rs`) and its event emission
(`src/events.rs`). It proves what each call returns and what it leaves in storage.

- `types.dfy` (module `Types`) holds the ids, addresses and error codes. It also holds the attestation record, the status rule, the identifier generator's type and the event shapes.
- `host.dfy` (module `Host`) models the Soroban environment. The `Env` class has one field per storage key family (`Admin`, `Issuer(address)`, `Attestation(id)`, `SubjectAttestations(address)` and `IssuerAttestations(address)`), plus the ledger clock, a ghost event log and the id generator.
  - `Host` also defines the registry invariant, `Consistent`. It says every record is stored under its own derived id, and both index families list exactly the stored records, each once, under the right address.
  - It also defines `Evolves`, the way state may change over time. The admin is set at most once. Records are never deleted and change only by revocation. Indices and the event log only grow at the end.
- `storage.dfy` (module `Storage`) holds the typed getters as functions and the setters as methods. Each setter's `modifies` clause names just the one key family it writes.
- `validation.dfy` (module `Validation`) holds `require_admin` and `require_issuer` as functions with `Result` values.
- `events.dfy` (module `Events`) has the two publish calls. Each appends one event to the log.
- `lib.dfy` (module `TrustLink`) has the contract's entry points.
  - Every call that changes state requires `Env.Valid()` and re-establishes it.
  - Every such call states that the state `Evolves` from its old value.
  - Every such call states the whole new state, or that nothing changed on an error.
  - Rust's `?` is Dafny's `:-`.
  - The paging loops are proved equal to the specification function `Window`. Lemmas about `Window` cover empty pages, how consecutive pages fit together, and the stability of earlier pages when the index grows.
- `scenarios.dfy` (module `Scenarios`) holds client code in the style of the contract's tests. Each method starts from any valid state, not one fixed deployment, and its assertions state what a caller can conclude from the contracts alone. It covers:
  - initializing twice;
  - registering an issuer twice;
  - removing an issuer twice;
  - duplicate creation;
  - revoking twice;
  - the create, query and revoke lifecycle;
  - expiry;
  - removing an issuer without losing its claims;
  - pages of two over five ids;
  - a new id landing on the last page;
  - re-issuing a claim at a later time.

The doc comments at `src/lib.rs:165` and `src/lib.rs:187` say the paging entry points list attestations, but their signatures return ids (`Vec<String>`, `src/lib.rs:171` and `src/lib.rs:193`); the model follows the signatures.

## Model

| member | source | states |
|---|---|---|
| Types.GetStatus | src/lib.rs:136-137 | `Revoked` exactly when the record is revoked. `Expired` exactly when it is not revoked and has an expiration at or before now. `Valid` otherwise. Revocation takes precedence over expiry. |
| Host.Env.constructor | src/storage.rs:4-11 | A fresh deployment has no admin, no issuers, no records, empty indices and an empty event log. It satisfies the registry invariant. |
| Host.EvolvesTransitive | src/lib.rs:23-122 | Any sequence of calls that each evolve the state evolves it overall. The admin is never replaced, records only gain `revoked`, and indices and the log only grow at the end. |
| Host.OccupiedIffSameTuple | src/lib.rs:65-76 | If ids are collision-free, the id derived from (issuer, subject, claim type, time) is already stored exactly when a stored record was created from that same tuple. So `DuplicateAttestation` means a true duplicate. |
| Host.AppendKeepsIndexSound | src/storage.rs:83-89 | Pushing a fresh record's id onto its owner's list keeps an index family sound, duplicate-free and complete. |
| Host.InsertKeepsConsistent | src/lib.rs:78-92 | Storing a fresh record and listing it in both indices keeps the registry invariant. The old state evolves into the new one. |
| Host.RevokeKeepsConsistent | src/lib.rs:116-119 | Setting `revoked` on a stored record and publishing an event keeps the registry invariant. The old state evolves into the new one. |
| Host.VecGet | src/lib.rs:179 | `Vec::get` returns `Some(v[i])` for an index in range and `None` otherwise. |
| Storage.HasAdmin | src/storage.rs:21-35 | `has_admin` agrees with `get_admin`: it holds exactly when `get_admin` succeeds, which is what lets `initialize` test one and `require_admin` read the other. |
| Storage.SetAdmin | src/storage.rs:25-28 | Stores the admin and touches only the admin entry. Afterwards `has_admin` holds and `get_admin` returns it. |
| Storage.GetAdmin | src/storage.rs:30-35 | Returns the stored admin, or `NotInitialized` when there is none. |
| Storage.IsIssuer | src/storage.rs:38-41 | Definition only: membership in the issuer entries. What it reports after a write is stated by `Storage.AddIssuer` and `Storage.RemoveIssuer`. |
| Storage.AddIssuer | src/storage.rs:43-47 | Adds the issuer and nothing else. Afterwards `is_issuer` holds. Adding a present issuer changes nothing. |
| Storage.RemoveIssuer | src/storage.rs:49-52 | Removes the issuer and nothing else. Afterwards `is_issuer` is false. Removing an absent issuer changes nothing. |
| Storage.HasAttestation | src/storage.rs:55-72 | `has_attestation` agrees with `get_attestation`: it holds exactly when `get_attestation` succeeds, so the duplicate check in `create_attestation` and the lookup in `revoke_attestation` see the same entries. |
| Storage.SetAttestation | src/storage.rs:60-64 | Writes the record under its own id. Afterwards `get_attestation` returns it. Records under other ids and every other key family are unchanged. |
| Storage.GetAttestation | src/storage.rs:66-72 | Returns the stored record, or `NotFound` for an id with no record. |
| Storage.GetSubjectAttestations | src/storage.rs:75-81 | Returns the subject's list, or the empty list when the subject has no entry. |
| Storage.AddSubjectAttestation | src/storage.rs:83-89 | The subject's list becomes the old list followed by the id. Every other subject's list and every other key family are unchanged. |
| Storage.GetIssuerAttestations | src/storage.rs:92-98 | Returns the issuer's list, or the empty list when the issuer has no entry. |
| Storage.AddIssuerAttestation | src/storage.rs:100-106 | The issuer's list becomes the old list followed by the id. Every other issuer's list and every other key family are unchanged. |
| Validation.RequireAdmin | src/validation.rs:9-15 | Succeeds exactly when an admin is stored and equals the caller. Returns `NotInitialized` with no admin and `Unauthorized` for another caller. Reads state only. |
| Validation.RequireIssuer | src/validation.rs:18-23 | Succeeds exactly when the caller is a registered issuer, and fails with `Unauthorized` otherwise. Reads state only. |
| Events.AttestationCreated | src/events.rs:8-18 | Appends exactly one event, keeping earlier entries. Its topic is ("created", subject) and its payload is (id, issuer, claim type, timestamp). |
| Events.AttestationRevoked | src/events.rs:21-26 | Appends exactly one event, keeping earlier entries. Its topic is ("revoked", issuer) and its payload is the id. |
| TrustLink.Initialize | src/lib.rs:23-31 | Fails with `AlreadyInitialized` and keeps the admin when one is stored. Otherwise stores the caller as admin. Touches nothing else. |
| TrustLink.RegisterIssuer | src/lib.rs:34-40 | Fails with `NotInitialized` or `Unauthorized`, changing nothing, unless the caller is the stored admin. On success the issuer is registered, with other issuers unchanged. |
| TrustLink.RemoveIssuer | src/lib.rs:43-49 | Fails the same way as `register_issuer`. On success the issuer is no longer registered, with other issuers unchanged. |
| TrustLink.Record | src/lib.rs:88-92 | Writes the record, appends its id to both indices and publishes the created event. The result is exactly the inserted state, and it stays consistent. |
| TrustLink.CreateAttestation | src/lib.rs:52-95 | Fails with `Unauthorized` for an unregistered issuer, or `DuplicateAttestation` when the derived id is stored; on an error nothing changes. Otherwise it returns the id and stores the record stamped with the ledger time, unrevoked. It appends the id once to the subject's and the issuer's lists and publishes one created event. |
| TrustLink.RevokeAttestation | src/lib.rs:98-122 | Checks `NotFound`, then `Unauthorized` for another issuer, then `AlreadyRevoked`; on an error nothing changes. On success only the record's `revoked` flag changes, to true, the indices are unchanged, and one revoked event is published. |
| TrustLink.HasValidClaim | src/lib.rs:125-145 | True exactly when some id listed for the subject resolves to a record of the claim type that is `Valid` now. Unresolved ids are skipped, and the issuer's current registration plays no part. False for an empty list. Changes nothing. |
| TrustLink.GetAttestation | src/lib.rs:148-153 | Returns the stored record, or `NotFound`. |
| TrustLink.GetAttestationStatus | src/lib.rs:156-163 | Returns `NotFound` for an absent id, and otherwise the record's status at the current ledger time. |
| TrustLink.Window | src/lib.rs:172-184 | A page is `min(limit, len - start)` long, or empty past the end. Its k-th element is `ids[start + k]`. |
| TrustLink.WindowEmpty | src/lib.rs:176-178 | A page is empty exactly when `start >= len` or `limit == 0`. |
| TrustLink.WindowsTile | src/lib.rs:176-178 | Two consecutive pages form the page that spans both, so pages read in turn cover the index in order with no gaps or repeats. |
| TrustLink.WindowStable | src/storage.rs:83-89 | Appending to an index leaves every page that lay within the old list unchanged. Pagination is stable while claims are added. |
| TrustLink.Page | src/lib.rs:173-184 | The loop from `start` to `min(start + limit, len)` that pushes each `get(i)` returns exactly `Window(ids, start, limit)`. |
| TrustLink.GetSubjectAttestations | src/lib.rs:166-185 | Returns the window of the subject's list. In a consistent state every id on the page resolves to a record whose subject is that address. |
| TrustLink.GetIssuerAttestations | src/lib.rs:188-207 | Returns the window of the issuer's list. In a consistent state every id on the page resolves to a record whose issuer is that address. |
| TrustLink.IsIssuer | src/lib.rs:210-212 | Definition only: the registered-issuer query. What it reports after `register_issuer` and `remove_issuer` is stated by `TrustLink.RegisterIssuer` and `TrustLink.RemoveIssuer`. |
| TrustLink.GetAdmin | src/lib.rs:215-217 | Returns the stored admin, or `NotInitialized`. |
| Scenarios.FirstClaim | src/test.rs:72-92 | With collision-free ids, a registered issuer's first claim about a subject is accepted. The subject's list becomes that id, and the record carries the given issuer, subject, claim type and expiration, not revoked. |
| Scenarios.RevokeOnlyClaim | src/test.rs:117-140 | Revoking the only attestation listed for a subject leaves `has_valid_claim` false. |
| Scenarios.ClaimAtNewTime | src/lib.rs:62-76 | A claim stamped later than every stored record is accepted, and gets an id that was not stored before. |
| Scenarios.StampedClaim | src/lib.rs:62-86 | Creation stamps the record with the ledger time, so no record carries a timestamp later than the clock. |

The remaining client methods in `Scenarios` carry their checks as assertions in their bodies. They mirror `src/test.rs:13-37` (initialization), `src/test.rs:40-69` (issuer management), `src/test.rs:143-174` (expiry), `src/test.rs:178-199` (duplicates) and `src/test.rs:202-229` (pagination).

## Left out

- The Soroban storage substrate is not modelled: the instance and persistent storage tiers, `extend_ttl`, and the `INSTANCE_LIFETIME` and `TEMP_LIFETIME` constants. Entry retention is host policy, so every key family is a plain field that never expires.
- `require_auth` is not modelled. Signature checking is done by the host, so the named address is taken to be the authenticated caller.
- The hash inside `Attestation::generate_id` is not modelled. `src/types.rs` is not part of this model, so the generator is an arbitrary deterministic function, an `Env` constant. Where uniqueness matters, collision freedom is an explicit hypothesis (`CollisionFree`). Without it, the model still proves that a claim is rejected exactly when its derived id is occupied.
- Types.GetStatus: `src/types.rs`, which defines `get_status`, is not part of this model, so the rule is assumed: revoked first, then expired once `now >= expiration`, otherwise valid. The source says only "valid, expired, or revoked" (`src/lib.rs:155`). The only evidence in the tests is `src/test.rs:142-174`, which checks expiry well past the expiration time, and `src/test.rs:134-139`, which revokes a claim without expiration; neither settles whether the expiration instant itself counts as expired, nor whether revocation wins over expiry.
- TrustLink.Page, TrustLink.GetSubjectAttestations, TrustLink.GetIssuerAttestations: require `start + limit < 2^32`. The `u32` sum `start + limit` at `src/lib.rs:176` (subject paging) and `src/lib.rs:198` (issuer paging) traps on overflow, and the model does not include that trap path.
- The `u32` length bound of Soroban `Vec` is not modelled. Index lists are unbounded sequences.
- Host transaction rollback is not modelled. Every entry point performs all its checks before any write, so an error leaves the state unchanged, and its contract says so.
- The ledger clock is a field that the contract only reads. Advancing it is done by client code in `Scenarios`.
- `TrustLink.NewAttestation` and `TrustLink.Record` are helpers of `create_attestation`. They have no counterpart of their own in the source.
- The event log is ghost state. It records what is published and in what order, but nothing reads it back.
- `tests/integration_test.rs` is not part of this model. It is a lending-contract demonstration that calls this contract from another contract.
