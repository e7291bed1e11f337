/**
 Ingestion of evidence envelopes: rejected, accepted once, recognised as a duplicate, or quarantined. Structure
 checks are an arbitrary predicate; the digest check is the real one.
 */
module Ingress {
  import opened Wrappers
  import opened Json
  import opened Digests
  import opened Evidence

  type Envelope = seq<Member>

  /** The structure, version and type checks, and the hash. */
  datatype Config = Config(wellFormed: Envelope -> bool, hash: Hash)

  datatype Conflict = Conflict(id: nat, org: string, resourceId: string, existing: string, conflicting: string)

  datatype Status = Accepted | Duplicate | Rejected | Quarantined

  datatype Receipt = Receipt(resourceId: string, status: Status, digest: string)

  datatype State = State(
    resources: map<string, Resource>, payloads: map<string, Envelope>, conflicts: seq<Conflict>, next: nat)

  /** A text field; the structure checks see to it that the fields read here are texts. */
  function TextOf(ms: seq<Member>, key: string, default: string): string {
    match Get(ms, key)
    case Some(Str(s)) => s
    case _ => default
  }

  function Part(e: Envelope, key: string): seq<Member> {
    match Get(e, key)
    case Some(Obj(ms)) => ms
    case _ => []
  }

  function ResourceId(e: Envelope): string { TextOf(Part(e, "resource"), "id", "") }

  function DigestValue(e: Envelope): string { TextOf(Part(e, "digest"), "value", "") }

  function Algorithm(e: Envelope): string { TextOf(Part(e, "digest"), "algorithm", "sha256") }

  /** `validate_envelope`: a digest computation that raises counts as an error. */
  predicate Valid(e: Envelope, c: Config) {
    c.wellFormed(e) && VerifyDigest(e, c.hash) == Verdict(true)
  }

  function PayloadRef(id: string): string { "dep://payload/" + id }

  /** What ingestion reads from an envelope. */
  datatype Facts = Facts(valid: bool, id: string, algorithm: string, digest: string)

  function FactsOf(e: Envelope, c: Config): Facts {
    Facts(Valid(e, c), ResourceId(e), Algorithm(e), DigestValue(e))
  }

  /** A way to read envelopes. What ingestion keeps does not depend on it. */
  type Reader = Envelope -> Facts

  function ReaderOf(c: Config): Reader {
    e => FactsOf(e, c)
  }

  /** `_make_resource`: it names no environment. */
  function MakeResource(f: Facts, org: string): Resource {
    Resource(f.id, org, "", f.algorithm, f.digest, PayloadRef(f.id))
  }

  /** `get_resource`: resources are keyed by id alone and hidden from other organizations. */
  function Existing(s: State, id: string, org: string): Option<Resource> {
    if id in s.resources && s.resources[id].org == org then Some(s.resources[id]) else None
  }

  function Admit(s: State, f: Facts, e: Envelope, org: string): (State, Receipt) {
    if !f.valid then (s, Receipt(f.id, Rejected, ""))
    else if f.id == "" then (s, Receipt("", Rejected, ""))
    else match Existing(s, f.id, org)
      case Some(r) =>
        if r.digest == f.digest then (s, Receipt(f.id, Duplicate, f.digest))
        else (s.(conflicts := s.conflicts + [Conflict(s.next, org, f.id, r.digest, f.digest)], next := s.next + 1),
              Receipt(f.id, Quarantined, f.digest))
      case None =>
        (s.(resources := s.resources[f.id := MakeResource(f, org)], payloads := s.payloads[PayloadRef(f.id) := e]),
         Receipt(f.id, Accepted, f.digest))
  }

  function Ingest(s: State, e: Envelope, org: string, read: Reader): (State, Receipt) {
    Admit(s, read(e), e, org)
  }

  class IngressService {
    var resources: map<string, Resource>
    var payloads: map<string, Envelope>
    var conflicts: seq<Conflict>
    var next: nat
    const config: Config

    ghost function Abs(): State
      reads this
    {
      State(resources, payloads, conflicts, next)
    }

    constructor (config: Config)
      ensures Abs() == Initial() && this.config == config
    {
      resources, payloads, conflicts, next := map[], map[], [], 0;
      this.config := config;
    }

    /** The steps after validation. */
    method AdmitEnvelope(f: Facts, e: Envelope, org: string) returns (receipt: Receipt)
      modifies this
      ensures (Abs(), receipt) == Admit(old(Abs()), f, e, org)
      ensures receipt.status == Accepted <==> f.valid && f.id != "" && Existing(old(Abs()), f.id, org).None?
      ensures receipt.status == Rejected <==> !f.valid || f.id == ""
      ensures receipt.status == Duplicate ==> old(Abs()) == Abs() && resources[f.id].digest == f.digest
      ensures receipt.status == Quarantined <==> |conflicts| == |old(conflicts)| + 1
      ensures receipt.status != Accepted ==> resources == old(resources) && payloads == old(payloads)
      ensures forall id :: id != f.id ==>
        (id in resources <==> id in old(resources)) && (id in resources ==> resources[id] == old(resources)[id])
    {
      if !f.valid {
        return Receipt(f.id, Rejected, "");
      }
      if f.id == "" {
        return Receipt("", Rejected, "");
      }
      if f.id in resources && resources[f.id].org == org {
        var existing := resources[f.id];
        if existing.digest == f.digest {
          return Receipt(f.id, Duplicate, f.digest);
        }
        conflicts, next := conflicts + [Conflict(next, org, f.id, existing.digest, f.digest)], next + 1;
        return Receipt(f.id, Quarantined, f.digest);
      }
      var resource := MakeResource(f, org);
      payloads := payloads[resource.payloadRef := e];
      resources := resources[resource.id := resource];
      return Receipt(f.id, Accepted, f.digest);
    }

    method IngestEnvelope(e: Envelope, org: string) returns (receipt: Receipt)
      modifies this
      ensures (Abs(), receipt) == Ingest(old(Abs()), e, org, ReaderOf(config))
      ensures receipt.status == Rejected <==> !Valid(e, config) || ResourceId(e) == ""
      ensures receipt.status == Accepted ==>
        ResourceId(e) in resources && PayloadRef(ResourceId(e)) in payloads && payloads[PayloadRef(ResourceId(e))] == e
    {
      receipt := AdmitEnvelope(FactsOf(e, config), e, org);
    }
  }

  // ---- Runs of one organization ----

  function Run(s: State, es: seq<Envelope>, org: string, read: Reader): (State, seq<Receipt>)
    decreases es
  {
    if es == [] then (s, [])
    else
      var (s', r) := Ingest(s, es[0], org, read);
      var (s'', rs) := Run(s', es[1..], org, read);
      (s'', [r] + rs)
  }

  function Initial(): State {
    State(map[], map[], [], 0)
  }

  function Quarantines(rs: seq<Receipt>): nat {
    if rs == [] then 0 else (if rs[0].status == Quarantined then 1 else 0) + Quarantines(rs[1..])
  }

  /** A stored resource was made from its stored payload, which was valid. */
  ghost predicate Made(r: Resource, p: Envelope, read: Reader) {
    read(p).valid && r == MakeResource(read(p), r.org)
  }

  /** Every resource is stored under its id, and was made from its payload. */
  ghost predicate Inv(s: State, read: Reader) {
    forall id :: id in s.resources ==>
      && s.resources[id].id == id && PayloadRef(id) in s.payloads
      && Made(s.resources[id], s.payloads[PayloadRef(id)], read)
  }

  lemma RefsDiffer(a: string, b: string)
    ensures PayloadRef(a) == PayloadRef(b) <==> a == b
  {
    assert PayloadRef(a)[|"dep://payload/"|..] == a && PayloadRef(b)[|"dep://payload/"|..] == b;
  }

  /** Every ingestion keeps each stored resource made from its stored, valid payload. */
  lemma IngestKeeps(s: State, e: Envelope, org: string, read: Reader)
    requires Inv(s, read)
    ensures Inv(Ingest(s, e, org, read).0, read)
  {
    var u := Ingest(s, e, org, read).0;
    forall id | id in u.resources
      ensures u.resources[id].id == id && PayloadRef(id) in u.payloads
      ensures Made(u.resources[id], u.payloads[PayloadRef(id)], read)
    {
      RefsDiffer(id, read(e).id);
    }
  }

  /** A resource's stored form and its payload. */
  ghost predicate Holds(s: State, id: string, r: Resource, p: Envelope) {
    id in s.resources && s.resources[id] == r && PayloadRef(id) in s.payloads && s.payloads[PayloadRef(id)] == p
  }

  /**
   One step replaces a stored resource exactly when another organization ingests a valid envelope under its id:
   the store keys resources by id alone.
   */
  lemma ReplacedIff(s: State, e: Envelope, org: string, read: Reader, id: string)
    requires Inv(s, read) && id in s.resources && id != ""
    ensures !Holds(Ingest(s, e, org, read).0, id, s.resources[id], s.payloads[PayloadRef(id)]) <==>
      read(e).valid && read(e).id == id && s.resources[id].org != org
  {
    RefsDiffer(id, read(e).id);
  }

  lemma {:induction false} RunKeeps(s: State, es: seq<Envelope>, org: string, read: Reader)
    requires Inv(s, read)
    ensures Inv(Run(s, es, org, read).0, read)
    decreases es
  {
    if es != [] {
      IngestKeeps(s, es[0], org, read);
      RunKeeps(Ingest(s, es[0], org, read).0, es[1..], org, read);
    }
  }

  /** The conflicts of a run are as many as its quarantined receipts. */
  lemma {:induction false} RunCounts(s: State, es: seq<Envelope>, org: string, read: Reader)
    ensures var (u, rs) := Run(s, es, org, read); |u.conflicts| == |s.conflicts| + Quarantines(rs)
    decreases es
  {
    if es != [] {
      var (s', r) := Ingest(s, es[0], org, read);
      RunCounts(s', es[1..], org, read);
      var rs := Run(s', es[1..], org, read).1;
      assert Run(s, es, org, read).1 == [r] + rs;
      assert ([r] + rs)[1..] == rs;
    }
  }

  /** What an organization stored stays as it is through any run of its own. */
  lemma {:induction false} EvidenceIsImmutable(s: State, es: seq<Envelope>, org: string, read: Reader, id: string)
    requires Inv(s, read) && id in s.resources && id != "" && s.resources[id].org == org
    ensures Holds(Run(s, es, org, read).0, id, s.resources[id], s.payloads[PayloadRef(id)])
    decreases es
  {
    if es != [] {
      ReplacedIff(s, es[0], org, read, id);
      IngestKeeps(s, es[0], org, read);
      EvidenceIsImmutable(Ingest(s, es[0], org, read).0, es[1..], org, read, id);
    }
  }

  /** An accepted envelope, submitted again after anything else the organization ingests, is a duplicate. */
  lemma ResubmissionIsDuplicate(s: State, e: Envelope, es: seq<Envelope>, org: string, read: Reader)
    requires Inv(s, read) && Ingest(s, e, org, read).1.status == Accepted
    ensures Ingest(Run(Ingest(s, e, org, read).0, es, org, read).0, e, org, read).1.status == Duplicate
  {
    var s' := Ingest(s, e, org, read).0;
    IngestKeeps(s, e, org, read);
    EvidenceIsImmutable(s', es, org, read, read(e).id);
  }

  // ---- What the digests say ----

  lemma MadeDigest(r: Resource, p: Envelope, c: Config)
    requires Made(r, p, ReaderOf(c))
    ensures ComputeDigest(p, r.algorithm, c.hash) == Some(r.digest)
  {
  }

  /** From an empty store: every stored digest is that of its payload, and conflicts count the quarantined receipts. */
  lemma StoreIsFaithful(es: seq<Envelope>, org: string, c: Config)
    ensures var (u, rs) := Run(Initial(), es, org, ReaderOf(c));
      && |u.conflicts| == Quarantines(rs)
      && forall id :: id in u.resources ==>
        PayloadRef(id) in u.payloads
        && ComputeDigest(u.payloads[PayloadRef(id)], u.resources[id].algorithm, c.hash) == Some(u.resources[id].digest)
  {
    RunKeeps(Initial(), es, org, ReaderOf(c));
    RunCounts(Initial(), es, org, ReaderOf(c));
    var u := Run(Initial(), es, org, ReaderOf(c)).0;
    forall id | id in u.resources
      ensures
        ComputeDigest(u.payloads[PayloadRef(id)], u.resources[id].algorithm, c.hash) == Some(u.resources[id].digest)
    {
      MadeDigest(u.resources[id], u.payloads[PayloadRef(id)], c);
    }
  }

  lemma AdmitDuplicateIff(s: State, f: Facts, e: Envelope, org: string)
    requires f.valid && f.id != "" && Existing(s, f.id, org).Some?
    ensures var status := Admit(s, f, e, org).1.status;
      && (status == Duplicate <==> s.resources[f.id].digest == f.digest)
      && (status == Quarantined <==> status != Duplicate)
  {
  }

  /**
   A valid envelope for a resource already held is a duplicate exactly when it has the stored content under the
   stored algorithm; anything else is quarantined.
   */
  lemma DuplicateIffSameContent(s: State, e: Envelope, org: string, c: Config)
    requires Inv(s, ReaderOf(c)) && Injective(c.hash) && (forall alg, t :: c.hash(alg, t).Some? ==> ':' !in alg)
    requires Valid(e, c) && ResourceId(e) != "" && Existing(s, ResourceId(e), org).Some?
    requires Dict(Obj(e)) && Dict(Obj(s.payloads[PayloadRef(ResourceId(e))]))
    ensures var p := s.payloads[PayloadRef(ResourceId(e))];
      var status := Ingest(s, e, org, ReaderOf(c)).1.status;
      && (status == Duplicate <==> Algorithm(e) == Algorithm(p) && Content(e) == Content(p))
      && (status == Quarantined <==> status != Duplicate)
  {
    var p := s.payloads[PayloadRef(ResourceId(e))];
    var r := s.resources[ResourceId(e)];
    AdmitDuplicateIff(s, FactsOf(e, c), e, org);
    MadeDigest(r, p, c);
    MadeDigest(MakeResource(FactsOf(e, c), org), e, c);
    SameDigestIff(e, Algorithm(e), p, r.algorithm, DigestValue(e), r.digest, c.hash);
  }

  lemma SameDigestIff(a: Envelope, alg: string, b: Envelope, alg': string, d: string, d': string, h: Hash)
    requires Injective(h) && (forall x, t :: h(x, t).Some? ==> ':' !in x) && Dict(Obj(a)) && Dict(Obj(b))
    requires ComputeDigest(a, alg, h) == Some(d) && ComputeDigest(b, alg', h) == Some(d')
    ensures d == d' <==> alg == alg' && Content(a) == Content(b)
  {
    DigestDecidesContent(a, alg, b, alg', h);
  }
}
