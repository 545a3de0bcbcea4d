/** The TrustLink contract's entry points. Each takes the environment it runs in;
    an address the source authenticates with `require_auth` is taken to be the
    caller. Every check of a mutating call comes before its first write, so a call
    that returns an error leaves storage and the event log as they were. */
module TrustLink {
  import opened Types
  import opened Host
  import Storage
  import Validation
  import Events

  /** Stores the admin once; a second call fails and keeps the admin already stored. */
  method Initialize(env: Env, admin: Address) returns (r: Result<()>)
    requires env.Valid()
    modifies env`admin
    ensures env.Valid() && Evolves(old(env.View()), env.View())
    ensures old(env.admin).Some? ==> r == Err(AlreadyInitialized) && env.admin == old(env.admin)
    ensures old(env.admin).None? ==> r == Ok(()) && env.admin == Some(admin)
  {
    if Storage.HasAdmin(env) {
      return Err(AlreadyInitialized);
    }
    Storage.SetAdmin(env, admin);
    return Ok(());
  }

  /** Adds `issuer` to the issuer set, if the caller `admin` is the stored admin. */
  method RegisterIssuer(env: Env, admin: Address, issuer: Address) returns (r: Result<()>)
    requires env.Valid()
    modifies env`issuers
    ensures env.Valid() && Evolves(old(env.View()), env.View())
    ensures env.admin.None? ==> r == Err(NotInitialized)
    ensures env.admin.Some? && env.admin.value != admin ==> r == Err(Unauthorized)
    ensures r.Ok? <==> env.admin == Some(admin)
    ensures r.Ok? ==> env.issuers == old(env.issuers) + {issuer} && Storage.IsIssuer(env, issuer)
    ensures r.Err? ==> env.issuers == old(env.issuers)
  {
    var _ :- Validation.RequireAdmin(env, admin);
    Storage.AddIssuer(env, issuer);
    return Ok(());
  }

  /** Removes `issuer` from the issuer set, if the caller `admin` is the stored admin. */
  method RemoveIssuer(env: Env, admin: Address, issuer: Address) returns (r: Result<()>)
    requires env.Valid()
    modifies env`issuers
    ensures env.Valid() && Evolves(old(env.View()), env.View())
    ensures env.admin.None? ==> r == Err(NotInitialized)
    ensures env.admin.Some? && env.admin.value != admin ==> r == Err(Unauthorized)
    ensures r.Ok? <==> env.admin == Some(admin)
    ensures r.Ok? ==> env.issuers == old(env.issuers) - {issuer} && !Storage.IsIssuer(env, issuer)
    ensures r.Err? ==> env.issuers == old(env.issuers)
  {
    var _ :- Validation.RequireAdmin(env, admin);
    Storage.RemoveIssuer(env, issuer);
    return Ok(());
  }

  /** The record `create_attestation` builds for these arguments at the current ledger time. */
  function NewAttestation(env: Env, issuer: Address, subject: Address, claimType: string, expiration: Option<u64>): Attestation
    reads env
  {
    var timestamp := env.ledgerTime;
    Attestation(env.generateId(issuer, subject, claimType, timestamp), issuer, subject, claimType, timestamp, expiration, false)
  }

  /** The writes of a successful `create_attestation`: the record, both index appends
      and the creation event, in that order. */
  method Record(env: Env, attestation: Attestation)
    requires env.Valid() && attestation.id !in env.attestations && StoredUnder(attestation, attestation.id, env.generateId)
    modifies env`attestations, env`subjectIndex, env`issuerIndex, env`events
    ensures env.View() == Inserted(old(env.View()), attestation, Events.CreatedEvent(attestation))
    ensures env.Valid() && Evolves(old(env.View()), env.View())
  {
    ghost var before := env.View();
    Storage.SetAttestation(env, attestation);
    Storage.AddSubjectAttestation(env, attestation.subject, attestation.id);
    Storage.AddIssuerAttestation(env, attestation.issuer, attestation.id);
    Events.AttestationCreated(env, attestation);
    assert env.subjectIndex == Appended(before.subjectIndex, attestation.subject, attestation.id);
    assert env.issuerIndex == Appended(before.issuerIndex, attestation.issuer, attestation.id);
    assert env.View() == Inserted(before, attestation, Events.CreatedEvent(attestation));
    InsertKeepsConsistent(before, env.generateId, attestation, Events.CreatedEvent(attestation));
  }

  /** Stores a new unrevoked attestation stamped with the ledger time, lists its id at
      the end of the subject's and of the issuer's index, and publishes its creation. */
  method CreateAttestation(env: Env, issuer: Address, subject: Address, claimType: string, expiration: Option<u64>)
    returns (r: Result<Id>)
    requires env.Valid()
    modifies env`attestations, env`subjectIndex, env`issuerIndex, env`events
    ensures env.Valid() && Evolves(old(env.View()), env.View())
    ensures issuer !in env.issuers ==> r == Err(Unauthorized)
    ensures issuer in env.issuers && NewAttestation(env, issuer, subject, claimType, expiration).id in old(env.attestations)
      ==> r == Err(DuplicateAttestation)
    ensures r.Ok? <==>
      issuer in env.issuers && NewAttestation(env, issuer, subject, claimType, expiration).id !in old(env.attestations)
    ensures r.Err? ==> env.View() == old(env.View())
    ensures r.Ok? ==>
      var a := NewAttestation(env, issuer, subject, claimType, expiration);
      && r.value == a.id
      && env.attestations == old(env.attestations)[a.id := a]
      && env.subjectIndex == old(env.subjectIndex)[subject := old(Storage.GetSubjectAttestations(env, subject)) + [a.id]]
      && env.issuerIndex == old(env.issuerIndex)[issuer := old(Storage.GetIssuerAttestations(env, issuer)) + [a.id]]
      && env.events == old(env.events) + [Events.CreatedEvent(a)]
  {
    var _ :- Validation.RequireIssuer(env, issuer);
    var timestamp := env.ledgerTime;
    var id := env.generateId(issuer, subject, claimType, timestamp);
    if Storage.HasAttestation(env, id) {
      return Err(DuplicateAttestation);
    }
    var attestation := Attestation(id, issuer, subject, claimType, timestamp, expiration, false);
    Record(env, attestation);
    return Ok(id);
  }

  /** Sets the revoked flag of the attestation under `id`, if the caller `issuer` created
      it and it is not revoked yet, and publishes the revocation. */
  method RevokeAttestation(env: Env, issuer: Address, id: Id) returns (r: Result<()>)
    requires env.Valid()
    modifies env`attestations, env`events
    ensures env.Valid() && Evolves(old(env.View()), env.View())
    ensures id !in old(env.attestations) ==> r == Err(NotFound)
    ensures id in old(env.attestations) && old(env.attestations)[id].issuer != issuer ==> r == Err(Unauthorized)
    ensures id in old(env.attestations) && old(env.attestations)[id].issuer == issuer && old(env.attestations)[id].revoked
      ==> r == Err(AlreadyRevoked)
    ensures r.Ok? <==>
      id in old(env.attestations) && old(env.attestations)[id].issuer == issuer && !old(env.attestations)[id].revoked
    ensures r.Err? ==> env.View() == old(env.View())
    ensures r.Ok? ==>
      && env.attestations == old(env.attestations)[id := old(env.attestations)[id].(revoked := true)]
      && env.events == old(env.events) + [Events.RevokedEvent(id, issuer)]
  {
    var attestation :- Storage.GetAttestation(env, id);
    if attestation.issuer != issuer {
      return Err(Unauthorized);
    }
    if attestation.revoked {
      return Err(AlreadyRevoked);
    }
    ghost var before := env.View();
    assert StoredUnder(attestation, id, env.generateId);
    attestation := attestation.(revoked := true);
    Storage.SetAttestation(env, attestation);
    Events.AttestationRevoked(env, id, issuer);
    assert env.View() == RevokedIn(before, id, Events.RevokedEvent(id, issuer));
    RevokeKeepsConsistent(before, env.generateId, id, Events.RevokedEvent(id, issuer));
    return Ok(());
  }

  /** The record under `id` is of claim type `claimType` and valid at time `now`. */
  predicate ValidClaimAt(atts: map<Id, Attestation>, id: Id, claimType: string, now: u64) {
    id in atts && atts[id].claimType == claimType && GetStatus(atts[id], now) == Valid
  }

  /** Whether some id listed for `subject` resolves to a valid attestation of type
      `claimType` now. Ids that do not resolve are skipped; whether the issuer is
      still registered plays no part. */
  method HasValidClaim(env: Env, subject: Address, claimType: string) returns (b: bool)
    ensures b <==> (exists id :: id in Storage.GetSubjectAttestations(env, subject)
                                 && ValidClaimAt(env.attestations, id, claimType, env.ledgerTime))
    ensures Storage.GetSubjectAttestations(env, subject) == [] ==> !b
  {
    var ids := Storage.GetSubjectAttestations(env, subject);
    var now := env.ledgerTime;
    for i := 0 to |ids|
      invariant forall k :: 0 <= k < i ==> !ValidClaimAt(env.attestations, ids[k], claimType, now)
    {
      var got := Storage.GetAttestation(env, ids[i]);
      if got.Ok? {
        var attestation := got.value;
        if attestation.claimType == claimType {
          if GetStatus(attestation, now) == Valid {
            assert ValidClaimAt(env.attestations, ids[i], claimType, now);
            return true;
          }
        }
      }
    }
    return false;
  }

  function GetAttestation(env: Env, id: Id): (r: Result<Attestation>)
    reads env
    ensures r.Ok? <==> id in env.attestations
    ensures r.Ok? ==> r.value == env.attestations[id]
    ensures r.Err? ==> r.error == NotFound
  {
    Storage.GetAttestation(env, id)
  }

  /** The status of the attestation under `id` at the current ledger time, or `NotFound`. */
  function GetAttestationStatus(env: Env, id: Id): (r: Result<AttestationStatus>)
    reads env
    ensures r.Err? <==> id !in env.attestations
    ensures r.Err? ==> r.error == NotFound
    ensures r.Ok? ==> r.value == GetStatus(env.attestations[id], env.ledgerTime)
  {
    var attestation :- Storage.GetAttestation(env, id);
    Ok(GetStatus(attestation, env.ledgerTime))
  }

  function Min(a: int, b: int): int {
    if a < b then a else b
  }

  /** The page of `ids` that starts at offset `start` and holds at most `limit` entries. */
  function Window<T>(ids: seq<T>, start: nat, limit: nat): (page: seq<T>)
    ensures |page| == if start < |ids| then Min(limit, |ids| - start) else 0
    ensures forall k :: 0 <= k < |page| ==> page[k] == ids[start + k]
  {
    if start < |ids| then ids[start..Min(start + limit, |ids|)] else []
  }

  /** A page is empty exactly when it starts at or past the end, or asks for nothing. */
  lemma WindowEmpty<T>(ids: seq<T>, start: nat, limit: nat)
    ensures Window(ids, start, limit) == [] <==> start >= |ids| || limit == 0
  {
  }

  /** Consecutive pages tile the list: no entry is skipped or repeated between them. */
  lemma WindowsTile<T>(ids: seq<T>, start: nat, first: nat, second: nat)
    ensures Window(ids, start, first) + Window(ids, start + first, second) == Window(ids, start, first + second)
  {
  }

  /** Indices only grow at the end, so a page that lies wholly inside the list stays the same. */
  lemma WindowStable<T>(ids: seq<T>, more: seq<T>, start: nat, limit: nat)
    requires start + limit <= |ids|
    ensures Window(ids + more, start, limit) == Window(ids, start, limit)
  {
  }

  /** The ids of a page, read from the stored list in offset order. */
  method Page(allIds: seq<Id>, start: u32, limit: u32) returns (page: seq<Id>)
    requires start + limit < U32_LIMIT
    ensures page == Window(allIds, start, limit)
  {
    var total := |allIds|;
    page := [];
    var end := Min(start + limit, total);
    var i := start;
    while i < end
      invariant start <= i && (i == start || i <= end)
      invariant |page| == i - start
      invariant forall k :: 0 <= k < |page| ==> page[k] == allIds[start + k]
    {
      var got := VecGet(allIds, i);
      if got.Some? {
        page := page + [got.value];
      }
      i := i + 1;
    }
    assert start < |allIds| ==> |page| == Min(limit, |allIds| - start);
  }

  /** Up to `limit` ids from the subject's index, from offset `start`, in creation order. */
  method GetSubjectAttestations(env: Env, subject: Address, start: u32, limit: u32) returns (page: seq<Id>)
    requires start + limit < U32_LIMIT
    ensures page == Window(Storage.GetSubjectAttestations(env, subject), start, limit)
    ensures env.Valid() ==>
      forall k :: 0 <= k < |page| ==> page[k] in env.attestations && env.attestations[page[k]].subject == subject
  {
    var allIds := Storage.GetSubjectAttestations(env, subject);
    page := Page(allIds, start, limit);
  }

  /** Up to `limit` ids from the issuer's index, from offset `start`, in creation order. */
  method GetIssuerAttestations(env: Env, issuer: Address, start: u32, limit: u32) returns (page: seq<Id>)
    requires start + limit < U32_LIMIT
    ensures page == Window(Storage.GetIssuerAttestations(env, issuer), start, limit)
    ensures env.Valid() ==>
      forall k :: 0 <= k < |page| ==> page[k] in env.attestations && env.attestations[page[k]].issuer == issuer
  {
    var allIds := Storage.GetIssuerAttestations(env, issuer);
    page := Page(allIds, start, limit);
  }

  function IsIssuer(env: Env, address: Address): (b: bool)
    reads env
    ensures b <==> address in env.issuers
  {
    Storage.IsIssuer(env, address)
  }

  function GetAdmin(env: Env): (r: Result<Address>)
    reads env
    ensures r.Ok? <==> env.admin.Some?
    ensures r.Ok? ==> Some(r.value) == env.admin
    ensures r.Err? ==> r.error == NotInitialized
  {
    Storage.GetAdmin(env)
  }
}
