/** The Soroban host as the contract sees it: one logical key space of persistent
    entries (Admin, Issuer(address), Attestation(id), SubjectAttestations(address),
    IssuerAttestations(address)), the ledger clock, the event log, and the
    identifier generator. Also the registry's invariant and how its state may evolve. */
module Host {
  import opened Types

  /** Which of the two index families an index belongs to. */
  datatype IndexKind = BySubject | ByIssuer

  /** The address under which an attestation is listed in an index family. */
  function KeyOf(a: Attestation, kind: IndexKind): Address {
    match kind
    case BySubject => a.subject
    case ByIssuer => a.issuer
  }

  /** The contents of the key space and the event log at one instant. */
  datatype Snapshot = Snapshot(
    admin: Option<Address>,
    issuers: set<Address>,
    attestations: map<Id, Attestation>,
    subjectIndex: map<Address, seq<Id>>,
    issuerIndex: map<Address, seq<Id>>,
    events: seq<Event>)

  predicate Distinct<T(==)>(q: seq<T>) {
    forall i, j :: 0 <= i < j < |q| ==> q[i] != q[j]
  }

  /** A record stored under `id` carries that id, and the id is the one derived from its fields. */
  predicate StoredUnder(a: Attestation, id: Id, gen: IdGenerator) {
    a.id == id && id == gen(a.issuer, a.subject, a.claimType, a.timestamp)
  }

  /** An index family lists, under each address, exactly the stored attestations
      keyed by that address, each once. */
  ghost predicate IndexSound(index: map<Address, seq<Id>>, atts: map<Id, Attestation>, kind: IndexKind) {
    && (forall owner, k :: owner in index && 0 <= k < |index[owner]| ==>
          index[owner][k] in atts && KeyOf(atts[index[owner][k]], kind) == owner)
    && (forall owner :: owner in index ==> Distinct(index[owner]))
    && (forall id :: id in atts ==> KeyOf(atts[id], kind) in index && id in index[KeyOf(atts[id], kind)])
  }

  /** The registry invariant. */
  ghost predicate Consistent(s: Snapshot, gen: IdGenerator) {
    && (forall id :: id in s.attestations ==> StoredUnder(s.attestations[id], id, gen))
    && IndexSound(s.subjectIndex, s.attestations, BySubject)
    && IndexSound(s.issuerIndex, s.attestations, ByIssuer)
  }

  /** `b` is a later version of record `a`: every field is kept, and `revoked` may only go from false to true. */
  predicate Succeeds(a: Attestation, b: Attestation) {
    b.(revoked := a.revoked) == a && (a.revoked ==> b.revoked)
  }

  /** How the state may change between two instants: the admin is set at most once,
      records are never deleted and change only by revocation, indices and the
      event log only grow at the end. */
  ghost predicate Evolves(s: Snapshot, t: Snapshot) {
    && (s.admin.Some? ==> t.admin == s.admin)
    && (forall id :: id in s.attestations ==>
          id in t.attestations && Succeeds(s.attestations[id], t.attestations[id]))
    && (forall a :: a in s.subjectIndex ==> a in t.subjectIndex && s.subjectIndex[a] <= t.subjectIndex[a])
    && (forall a :: a in s.issuerIndex ==> a in t.issuerIndex && s.issuerIndex[a] <= t.issuerIndex[a])
    && s.events <= t.events
  }

  /** Any run of calls, each of which evolves the state, evolves it as a whole. */
  lemma EvolvesTransitive(s: Snapshot, t: Snapshot, u: Snapshot)
    requires Evolves(s, t) && Evolves(t, u)
    ensures Evolves(s, u)
  {
  }

  /** Under collision freedom, a stored record already occupies the identifier of a
      tuple exactly when some stored record was created from that very tuple. */
  lemma OccupiedIffSameTuple(s: Snapshot, gen: IdGenerator, issuer: Address, subject: Address, claimType: string, t: u64)
    requires Consistent(s, gen) && CollisionFree(gen)
    ensures gen(issuer, subject, claimType, t) in s.attestations <==>
      exists id :: id in s.attestations && s.attestations[id].issuer == issuer && s.attestations[id].subject == subject
        && s.attestations[id].claimType == claimType && s.attestations[id].timestamp == t
  {
  }

  /** The list an index family holds for `owner`; an address without an entry has the empty list. */
  function IndexOf(index: map<Address, seq<Id>>, owner: Address): seq<Id> {
    if owner in index then index[owner] else []
  }

  /** The index family after pushing `id` at the back of `owner`'s list. */
  function Appended(index: map<Address, seq<Id>>, owner: Address, id: Id): map<Address, seq<Id>> {
    index[owner := IndexOf(index, owner) + [id]]
  }

  /** The state after storing the fresh record `a`, listing it in both index families and publishing `e`. */
  function Inserted(s: Snapshot, a: Attestation, e: Event): Snapshot {
    s.(attestations := s.attestations[a.id := a],
       subjectIndex := Appended(s.subjectIndex, a.subject, a.id),
       issuerIndex := Appended(s.issuerIndex, a.issuer, a.id),
       events := s.events + [e])
  }

  /** The state after setting the revoked flag of the record under `id` and publishing `e`. */
  function RevokedIn(s: Snapshot, id: Id, e: Event): Snapshot
    requires id in s.attestations
  {
    s.(attestations := s.attestations[id := s.attestations[id].(revoked := true)],
       events := s.events + [e])
  }

  /** Appending a fresh record's id to the list of its key keeps an index family sound. */
  lemma AppendKeepsIndexSound(index: map<Address, seq<Id>>, atts: map<Id, Attestation>, kind: IndexKind, a: Attestation)
    requires IndexSound(index, atts, kind) && a.id !in atts
    ensures IndexSound(Appended(index, KeyOf(a, kind), a.id), atts[a.id := a], kind)
  {
  }

  /** Storing a fresh record derived from its own fields keeps the invariant, and evolves the state. */
  lemma InsertKeepsConsistent(s: Snapshot, gen: IdGenerator, a: Attestation, e: Event)
    requires Consistent(s, gen) && a.id !in s.attestations && StoredUnder(a, a.id, gen)
    ensures Consistent(Inserted(s, a, e), gen)
    ensures Evolves(s, Inserted(s, a, e))
  {
    AppendKeepsIndexSound(s.subjectIndex, s.attestations, BySubject, a);
    AppendKeepsIndexSound(s.issuerIndex, s.attestations, ByIssuer, a);
    var t := Inserted(s, a, e);
    forall id | id in s.attestations ensures id in t.attestations && Succeeds(s.attestations[id], t.attestations[id]) {
      assert t.attestations[id] == s.attestations[id];
    }
  }

  /** Revoking a stored record keeps the invariant, and evolves the state. */
  lemma RevokeKeepsConsistent(s: Snapshot, gen: IdGenerator, id: Id, e: Event)
    requires Consistent(s, gen) && id in s.attestations
    ensures Consistent(RevokedIn(s, id, e), gen)
    ensures Evolves(s, RevokedIn(s, id, e))
  {
  }

  /** Soroban's `Vec::get`: the element at `i`, or nothing past the end. */
  function VecGet<T>(v: seq<T>, i: nat): (r: Option<T>)
    ensures r.Some? <==> i < |v|
    ensures r.Some? ==> r.value == v[i]
  {
    if i < |v| then Some(v[i]) else None
  }

  /** The environment a contract call runs in. Each storage field is one family of
      keys; an address or id absent from a map has no entry. */
  class Env {
    const generateId: IdGenerator
    /** `env.ledger().timestamp()`; the contract reads it and never writes it. */
    var ledgerTime: u64
    var admin: Option<Address>
    var issuers: set<Address>
    var attestations: map<Id, Attestation>
    var subjectIndex: map<Address, seq<Id>>
    var issuerIndex: map<Address, seq<Id>>
    /** Everything published with `env.events().publish`, in order. */
    ghost var events: seq<Event>

    ghost function View(): Snapshot
      reads this`admin, this`issuers, this`attestations, this`subjectIndex, this`issuerIndex, this`events
    {
      Snapshot(admin, issuers, attestations, subjectIndex, issuerIndex, events)
    }

    ghost predicate Valid()
      reads this`admin, this`issuers, this`attestations, this`subjectIndex, this`issuerIndex, this`events
    {
      Consistent(View(), generateId)
    }

    /** A freshly deployed contract: every key absent, no events. */
    constructor (generateId: IdGenerator, ledgerTime: u64)
      ensures this.generateId == generateId && this.ledgerTime == ledgerTime
      ensures admin == None && issuers == {} && attestations == map[]
      ensures subjectIndex == map[] && issuerIndex == map[] && events == []
      ensures Valid()
    {
      this.generateId := generateId;
      this.ledgerTime := ledgerTime;
      admin := None;
      issuers := {};
      attestations := map[];
      subjectIndex := map[];
      issuerIndex := map[];
      events := [];
    }
  }
}
