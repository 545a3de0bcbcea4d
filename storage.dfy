/** The storage layer: typed accessors over the host's key space. Getters are
    lookups; each setter writes one entry and touches no other key family. */
module Storage {
  import opened Types
  import opened Host

  // Admin management

  function HasAdmin(env: Env): (b: bool)
    reads env
    ensures b <==> env.admin.Some?
    ensures b <==> GetAdmin(env).Ok?
  {
    env.admin.Some?
  }

  method SetAdmin(env: Env, admin: Address)
    modifies env`admin
    ensures env.admin == Some(admin)
    ensures HasAdmin(env) && GetAdmin(env) == Ok(admin)
  {
    env.admin := Some(admin);
  }

  /** The stored admin, or `NotInitialized` when none is stored. */
  function GetAdmin(env: Env): (r: Result<Address>)
    reads env
    ensures r.Ok? <==> env.admin.Some?
    ensures r.Ok? ==> Some(r.value) == env.admin
    ensures r.Err? ==> r.error == NotInitialized
  {
    match env.admin
    case Some(a) => Ok(a)
    case None => Err(NotInitialized)
  }

  // Issuer management

  function IsIssuer(env: Env, address: Address): (b: bool)
    reads env
    ensures b <==> address in env.issuers
  {
    address in env.issuers
  }

  /** Stores `Issuer(issuer) -> true`; adding a present issuer changes nothing. */
  method AddIssuer(env: Env, issuer: Address)
    modifies env`issuers
    ensures env.issuers == old(env.issuers) + {issuer}
    ensures IsIssuer(env, issuer)
    ensures old(IsIssuer(env, issuer)) ==> env.issuers == old(env.issuers)
  {
    env.issuers := env.issuers + {issuer};
  }

  /** Removes `Issuer(issuer)`; removing an absent issuer changes nothing. */
  method RemoveIssuer(env: Env, issuer: Address)
    modifies env`issuers
    ensures env.issuers == old(env.issuers) - {issuer}
    ensures !IsIssuer(env, issuer)
    ensures !old(IsIssuer(env, issuer)) ==> env.issuers == old(env.issuers)
  {
    env.issuers := env.issuers - {issuer};
  }

  // Attestation management

  function HasAttestation(env: Env, id: Id): (b: bool)
    reads env
    ensures b <==> id in env.attestations
    ensures b <==> GetAttestation(env, id).Ok?
  {
    id in env.attestations
  }

  /** Writes the record under its own id; records under other ids are unchanged. */
  method SetAttestation(env: Env, attestation: Attestation)
    modifies env`attestations
    ensures env.attestations == old(env.attestations)[attestation.id := attestation]
    ensures HasAttestation(env, attestation.id) && GetAttestation(env, attestation.id) == Ok(attestation)
    ensures forall id :: id != attestation.id ==> GetAttestation(env, id) == old(GetAttestation(env, id))
  {
    env.attestations := env.attestations[attestation.id := attestation];
  }

  /** The record stored under `id`, or `NotFound`. */
  function GetAttestation(env: Env, id: Id): (r: Result<Attestation>)
    reads env
    ensures r.Ok? <==> id in env.attestations
    ensures r.Ok? ==> r.value == env.attestations[id]
    ensures r.Err? ==> r.error == NotFound
  {
    if id in env.attestations then Ok(env.attestations[id]) else Err(NotFound)
  }

  // Subject attestations index

  /** The ids listed for `subject`, or the empty list when it has no entry. */
  function GetSubjectAttestations(env: Env, subject: Address): (ids: seq<Id>)
    reads env
    ensures subject in env.subjectIndex ==> ids == env.subjectIndex[subject]
    ensures subject !in env.subjectIndex ==> ids == []
  {
    if subject in env.subjectIndex then env.subjectIndex[subject] else []
  }

  /** Reads the subject's list, pushes `id` at the back and writes it back. */
  method AddSubjectAttestation(env: Env, subject: Address, id: Id)
    modifies env`subjectIndex
    ensures env.subjectIndex == old(env.subjectIndex)[subject := old(GetSubjectAttestations(env, subject)) + [id]]
    ensures GetSubjectAttestations(env, subject) == old(GetSubjectAttestations(env, subject)) + [id]
    ensures forall a :: a != subject ==> GetSubjectAttestations(env, a) == old(GetSubjectAttestations(env, a))
  {
    var ids := GetSubjectAttestations(env, subject);
    ids := ids + [id];
    env.subjectIndex := env.subjectIndex[subject := ids];
  }

  // Issuer attestations index

  /** The ids listed for `issuer`, or the empty list when it has no entry. */
  function GetIssuerAttestations(env: Env, issuer: Address): (ids: seq<Id>)
    reads env
    ensures issuer in env.issuerIndex ==> ids == env.issuerIndex[issuer]
    ensures issuer !in env.issuerIndex ==> ids == []
  {
    if issuer in env.issuerIndex then env.issuerIndex[issuer] else []
  }

  /** Reads the issuer's list, pushes `id` at the back and writes it back. */
  method AddIssuerAttestation(env: Env, issuer: Address, id: Id)
    modifies env`issuerIndex
    ensures env.issuerIndex == old(env.issuerIndex)[issuer := old(GetIssuerAttestations(env, issuer)) + [id]]
    ensures GetIssuerAttestations(env, issuer) == old(GetIssuerAttestations(env, issuer)) + [id]
    ensures forall a :: a != issuer ==> GetIssuerAttestations(env, a) == old(GetIssuerAttestations(env, a))
  {
    var ids := GetIssuerAttestations(env, issuer);
    ids := ids + [id];
    env.issuerIndex := env.issuerIndex[issuer := ids];
  }
}
