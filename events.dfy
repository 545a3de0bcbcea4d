/** Event emission: each call publishes exactly one event at the end of the host's log. */
module Events {
  import opened Types
  import opened Host

  /** The creation event: topic ("created", subject), payload (id, issuer, claim type, timestamp). */
  function CreatedEvent(a: Attestation): Event {
    Event((CREATED, a.subject), CreatedData(a.id, a.issuer, a.claimType, a.timestamp))
  }

  /** The revocation event: topic ("revoked", issuer), payload the id. */
  function RevokedEvent(id: Id, issuer: Address): Event {
    Event((REVOKED, issuer), RevokedData(id))
  }

  method AttestationCreated(env: Env, attestation: Attestation)
    modifies env`events
    ensures env.events == old(env.events) + [CreatedEvent(attestation)]
    ensures env.events[|env.events| - 1].topic == (CREATED, attestation.subject)
    ensures env.events[|env.events| - 1].data ==
      CreatedData(attestation.id, attestation.issuer, attestation.claimType, attestation.timestamp)
  {
    env.events := env.events + [CreatedEvent(attestation)];
  }

  method AttestationRevoked(env: Env, id: Id, issuer: Address)
    modifies env`events
    ensures env.events == old(env.events) + [RevokedEvent(id, issuer)]
    ensures env.events[|env.events| - 1].topic == (REVOKED, issuer)
    ensures env.events[|env.events| - 1].data == RevokedData(id)
  {
    env.events := env.events + [RevokedEvent(id, issuer)];
  }
}
