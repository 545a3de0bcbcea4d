/** Client code in the style of the contract's own tests. Each method drives the
    entry points from any state the registry can be in (any `Valid` environment
    meeting the stated situation) and asserts what a caller can conclude from
    their contracts alone. */
module Scenarios {
  import opened Types
  import opened Host
  import Storage
  import TrustLink

  /** Initialization stores the admin once; a second call fails and keeps it. */
  method InitializeOnce(env: Env, admin: Address, other: Address)
    requires env.Valid() && env.admin.None?
    modifies env
  {
    var r := TrustLink.Initialize(env, admin);
    assert r.Ok? && TrustLink.GetAdmin(env) == Ok(admin);
    r := TrustLink.Initialize(env, other);
    assert r == Err(AlreadyInitialized) && TrustLink.GetAdmin(env) == Ok(admin);
  }

  /** Only the admin manages issuers; registering twice is the same as once. */
  method RegisterTwice(env: Env, admin: Address, intruder: Address, issuer: Address)
    requires env.Valid() && env.admin == Some(admin) && intruder != admin
    modifies env
  {
    var r := TrustLink.RegisterIssuer(env, intruder, issuer);
    assert r == Err(Unauthorized);
    r := TrustLink.RegisterIssuer(env, admin, issuer);
    assert r.Ok? && TrustLink.IsIssuer(env, issuer);
    ghost var once := env.issuers;
    r := TrustLink.RegisterIssuer(env, admin, issuer);
    assert r.Ok? && env.issuers == once;
  }

  /** Removal takes effect at once, and removing an absent issuer is harmless. */
  method RemoveTwice(env: Env, admin: Address, issuer: Address)
    requires env.Valid() && env.admin == Some(admin)
    modifies env
  {
    var r := TrustLink.RemoveIssuer(env, admin, issuer);
    assert r.Ok? && !TrustLink.IsIssuer(env, issuer);
    ghost var once := env.issuers;
    r := TrustLink.RemoveIssuer(env, admin, issuer);
    assert r.Ok? && env.issuers == once;
  }

  /** Creating the same claim twice at one ledger time: the second call is a duplicate
      and changes nothing. */
  method DuplicateRejected(env: Env, issuer: Address, subject: Address, claimType: string, expiration: Option<u64>)
    requires env.Valid() && issuer in env.issuers
    modifies env`attestations, env`subjectIndex, env`issuerIndex, env`events
  {
    var c := TrustLink.CreateAttestation(env, issuer, subject, claimType, expiration);
    ghost var after := env.View();
    c := TrustLink.CreateAttestation(env, issuer, subject, claimType, expiration);
    assert c == Err(DuplicateAttestation) && env.View() == after;
  }

  /** A revocation succeeds once; the second attempt fails with `AlreadyRevoked`. */
  method RevokeTwice(env: Env, issuer: Address, id: Id)
    requires env.Valid() && id in env.attestations
    requires env.attestations[id].issuer == issuer && !env.attestations[id].revoked
    modifies env
  {
    var r := TrustLink.RevokeAttestation(env, issuer, id);
    assert r.Ok? && TrustLink.GetAttestationStatus(env, id) == Ok(Revoked);
    r := TrustLink.RevokeAttestation(env, issuer, id);
    assert r == Err(AlreadyRevoked);
  }

  /** A subject's first claim from a registered issuer is always accepted, since with
      collision-free identifiers an occupied id would have to be listed for the subject. */
  method FirstClaim(env: Env, issuer: Address, subject: Address, claimType: string, expiration: Option<u64>)
    returns (id: Id)
    requires env.Valid() && CollisionFree(env.generateId) && issuer in env.issuers
    requires Storage.GetSubjectAttestations(env, subject) == []
    modifies env
    ensures env.Valid() && env.ledgerTime == old(env.ledgerTime)
    ensures Storage.GetSubjectAttestations(env, subject) == [id]
    ensures id in env.attestations && env.attestations[id].issuer == issuer
    ensures env.attestations[id].subject == subject && env.attestations[id].claimType == claimType
    ensures env.attestations[id].expiration == expiration && !env.attestations[id].revoked
  {
    OccupiedIffSameTuple(env.View(), env.generateId, issuer, subject, claimType, env.ledgerTime);
    var c := TrustLink.CreateAttestation(env, issuer, subject, claimType, expiration);
    id := c.value;
  }

  /** A subject's first claim is valid once created and ends with its revocation. */
  method ClaimLifecycle(env: Env, issuer: Address, subject: Address, claimType: string)
    requires env.Valid() && CollisionFree(env.generateId) && issuer in env.issuers
    requires Storage.GetSubjectAttestations(env, subject) == []
    modifies env
  {
    var id := FirstClaim(env, issuer, subject, claimType, None);
    assert TrustLink.GetAttestationStatus(env, id) == Ok(Valid);
    var has := TrustLink.HasValidClaim(env, subject, claimType);
    assert TrustLink.ValidClaimAt(env.attestations, id, claimType, env.ledgerTime);
    assert has;
    has := RevokeOnlyClaim(env, issuer, subject, claimType, id);
    assert !has;
  }

  /** Revoking the only attestation listed for a subject leaves it without a valid claim. */
  method RevokeOnlyClaim(env: Env, issuer: Address, subject: Address, claimType: string, id: Id)
    returns (has: bool)
    requires env.Valid() && Storage.GetSubjectAttestations(env, subject) == [id]
    requires id in env.attestations && env.attestations[id].issuer == issuer && !env.attestations[id].revoked
    modifies env`attestations, env`events
    ensures !has
  {
    var r := TrustLink.RevokeAttestation(env, issuer, id);
    assert Storage.GetSubjectAttestations(env, subject) == [id] && env.attestations[id].revoked;
    has := TrustLink.HasValidClaim(env, subject, claimType);
  }

  /** A subject's first claim, given an expiration, is valid until the ledger reaches it
      and reports `Expired` afterwards. */
  method ClaimExpires(env: Env, issuer: Address, subject: Address, claimType: string)
    requires env.Valid() && CollisionFree(env.generateId) && issuer in env.issuers
    requires Storage.GetSubjectAttestations(env, subject) == []
    requires env.ledgerTime + 200 < U64_LIMIT
    modifies env
  {
    var start := env.ledgerTime;
    var id := FirstClaim(env, issuer, subject, claimType, Some(start + 100));
    var has := TrustLink.HasValidClaim(env, subject, claimType);
    assert TrustLink.ValidClaimAt(env.attestations, id, claimType, env.ledgerTime);
    assert has;
    env.ledgerTime := start + 200;
    has := TrustLink.HasValidClaim(env, subject, claimType);
    assert !has;
    assert TrustLink.GetAttestationStatus(env, id) == Ok(Expired);
  }

  /** Removing an issuer does not withdraw the claims it has already made. */
  method RemovalKeepsClaims(env: Env, admin: Address, issuer: Address, subject: Address, claimType: string)
    requires env.Valid() && env.admin == Some(admin)
    modifies env
  {
    var before := TrustLink.HasValidClaim(env, subject, claimType);
    var r := TrustLink.RemoveIssuer(env, admin, issuer);
    var after := TrustLink.HasValidClaim(env, subject, claimType);
    assert before == after;
  }

  /** Five listed attestations read in pages of two come back as pages of two, two
      and one, which together are the whole index in order. */
  method Pagination(env: Env, subject: Address)
    requires |Storage.GetSubjectAttestations(env, subject)| == 5
  {
    var all := Storage.GetSubjectAttestations(env, subject);
    var page1 := TrustLink.GetSubjectAttestations(env, subject, 0, 2);
    var page2 := TrustLink.GetSubjectAttestations(env, subject, 2, 2);
    var page3 := TrustLink.GetSubjectAttestations(env, subject, 4, 2);
    assert |page1| == 2 && |page2| == 2 && |page3| == 1;
    TrustLink.WindowsTile(all, 0, 2, 2);
    TrustLink.WindowsTile(all, 0, 4, 2);
    assert page1 + page2 + page3 == TrustLink.Window(all, 0, 6);
    assert TrustLink.Window(all, 0, 6) == all;
  }

  /** A new attestation appears alone on the page just past the old end of its subject's
      index, while the pages before it stay as they were. */
  method NewIdOnLastPage(env: Env, issuer: Address, subject: Address, claimType: string)
    requires env.Valid() && |Storage.GetSubjectAttestations(env, subject)| + 1 < U32_LIMIT
    modifies env
  {
    var n := |Storage.GetSubjectAttestations(env, subject)|;
    var earlier := TrustLink.GetSubjectAttestations(env, subject, 0, n);
    var c := TrustLink.CreateAttestation(env, issuer, subject, claimType, None);
    if c.Ok? {
      var last := TrustLink.GetSubjectAttestations(env, subject, n, 1);
      assert last == [c.value];
      var again := TrustLink.GetSubjectAttestations(env, subject, 0, n);
      TrustLink.WindowStable(old(Storage.GetSubjectAttestations(env, subject)), [c.value], 0, n);
      assert again == earlier;
    }
  }

  /** A claim stamped later than every stored record is always accepted from a
      registered issuer, given collision-free identifiers. */
  method ClaimAtNewTime(env: Env, issuer: Address, subject: Address, claimType: string)
    returns (id: Id)
    requires env.Valid() && CollisionFree(env.generateId) && issuer in env.issuers
    requires forall k :: k in env.attestations ==> env.attestations[k].timestamp < env.ledgerTime
    modifies env
    ensures env.Valid() && id !in old(env.attestations) && id in env.attestations
  {
    OccupiedIffSameTuple(env.View(), env.generateId, issuer, subject, claimType, env.ledgerTime);
    var c := TrustLink.CreateAttestation(env, issuer, subject, claimType, None);
    id := c.value;
  }

  /** Creation stamps the new record with the ledger time, so records never carry a
      timestamp later than the clock. */
  method StampedClaim(env: Env, issuer: Address, subject: Address, claimType: string)
    returns (r: Result<Id>)
    requires env.Valid()
    requires forall k :: k in env.attestations ==> env.attestations[k].timestamp <= env.ledgerTime
    modifies env`attestations, env`subjectIndex, env`issuerIndex, env`events
    ensures env.Valid()
    ensures forall k :: k in env.attestations ==> env.attestations[k].timestamp <= env.ledgerTime
    ensures r.Ok? ==> r.value in env.attestations
  {
    r := TrustLink.CreateAttestation(env, issuer, subject, claimType, None);
  }

  /** Re-issuing the same claim at a later ledger time yields a new, distinct attestation,
      provided identifiers are collision-free and the clock has not run backwards. */
  method ReissueLater(env: Env, issuer: Address, subject: Address, claimType: string, later: u64)
    requires env.Valid() && CollisionFree(env.generateId) && issuer in env.issuers
    requires forall id :: id in env.attestations ==> env.attestations[id].timestamp <= env.ledgerTime
    requires env.ledgerTime < later
    modifies env
  {
    var c := StampedClaim(env, issuer, subject, claimType);
    env.ledgerTime := later;
    var second := ClaimAtNewTime(env, issuer, subject, claimType);
    assert c.Ok? ==> second != c.value;
  }
}
