/** Value types of the TrustLink attestation registry: addresses and identifiers,
    the ledger's integer widths, the attestation record with its derived status,
    the contract's error codes, the event shapes and the identifier generator. */
module Types {

  /** An account or contract address; the contract only compares addresses. */
  type Address = string

  /** An attestation identifier, as the identifier generator renders it. */
  type Id = string

  const U32_LIMIT: int := 0x1_0000_0000
  const U64_LIMIT: int := 0x1_0000_0000_0000_0000

  /** Soroban's `u32` (paging offsets and limits) and `u64` (ledger timestamps). */
  type u32 = x: int | 0 <= x < U32_LIMIT
  type u64 = x: int | 0 <= x < U64_LIMIT

  datatype Option<T> = None | Some(value: T)

  /** The contract's error enumeration. */
  datatype Error =
    | AlreadyInitialized
    | NotInitialized
    | Unauthorized
    | NotFound
    | DuplicateAttestation
    | AlreadyRevoked

  /** Rust's `Result<T, Error>`; failure-compatible, so `:-` plays the part of `?`. */
  datatype Result<T> = Ok(value: T) | Err(error: Error) {
    predicate IsFailure() {
      Err?
    }

    function PropagateFailure<U>(): Result<U>
      requires Err?
    {
      Err(error)
    }

    function Extract(): T
      requires Ok?
    {
      value
    }
  }

  /** The stored attestation record. Every field but `revoked` is fixed at creation. */
  datatype Attestation = Attestation(
    id: Id,
    issuer: Address,
    subject: Address,
    claimType: string,
    timestamp: u64,
    expiration: Option<u64>,
    revoked: bool)

  datatype AttestationStatus = Valid | Expired | Revoked

  /** Status of an attestation at ledger time `now`: revocation takes precedence over
      expiration, and an attestation with expiration `e` is expired from `e` on. */
  function GetStatus(a: Attestation, now: u64): (s: AttestationStatus)
    ensures s == Revoked <==> a.revoked
    ensures s == Expired <==> !a.revoked && a.expiration.Some? && now >= a.expiration.value
    ensures s == Valid <==> !a.revoked && (a.expiration.None? || now < a.expiration.value)
  {
    if a.revoked then Revoked
    else match a.expiration
      case Some(e) => if now >= e then Expired else Valid
      case None => Valid
  }

  /** The attestation identifier derivation: a deterministic function of
      (issuer, subject, claim type, timestamp). Its hash is not modelled. */
  type IdGenerator = (Address, Address, string, u64) -> Id

  /** The assumption, delegated to the hash, that distinct tuples get distinct identifiers. */
  ghost predicate CollisionFree(gen: IdGenerator) {
    forall i1, s1, c1, t1, i2, s2, c2, t2 ::
      gen(i1, s1, c1, t1) == gen(i2, s2, c2, t2) ==> i1 == i2 && s1 == s2 && c1 == c2 && t1 == t2
  }

  /** Event topic symbols. */
  const CREATED: string := "created"
  const REVOKED: string := "revoked"

  /** An event's payload: the creation tuple, or the revoked identifier. */
  datatype EventData =
    | CreatedData(id: Id, issuer: Address, claimType: string, timestamp: u64)
    | RevokedData(id: Id)

  /** A published event: a (symbol, address) topic and a payload. */
  datatype Event = Event(topic: (string, Address), data: EventData)
}
