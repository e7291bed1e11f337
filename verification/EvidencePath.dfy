/**
 Where the steps of the path do not meet: what ingestion stores, what promotion asks for, what certification needs.
 */
module EvidencePath {
  import opened Wrappers
  import opened Cassette
  import opened RecordConversion
  import Ingress
  import ProofBridge
  import Workflow

  // ---- From ingestion to promotion ----

  ghost predicate NoEnvironments(s: Ingress.State) {
    forall id :: id in s.resources ==> s.resources[id].env == ""
  }

  /** Envelopes of any organizations, in any order. */
  function IngestAll(s: Ingress.State, es: seq<(Ingress.Envelope, string)>, read: Ingress.Reader): Ingress.State
    decreases es
  {
    if es == [] then s else IngestAll(Ingress.Ingest(s, es[0].0, es[0].1, read).0, es[1..], read)
  }

  lemma {:induction false} IngestionNamesNone(
      s: Ingress.State, es: seq<(Ingress.Envelope, string)>, read: Ingress.Reader)
    requires NoEnvironments(s)
    ensures NoEnvironments(IngestAll(s, es, read))
    decreases es
  {
    if es != [] { IngestionNamesNone(Ingress.Ingest(s, es[0].0, es[0].1, read).0, es[1..], read); }
  }

  /** Resources that only ingestion stored support no candidate: promotion asks each of them for its environment. */
  lemma IngestedEvidenceSupportsNothing(
      es: seq<(Ingress.Envelope, string)>, read: Ingress.Reader, w: ProofBridge.World, c: ProofBridge.Candidate,
      org: string)
    requires w.resources == IngestAll(Ingress.Initial(), es, read).resources
    ensures !ProofBridge.Eligible(w, c, org)
  {
    IngestionNamesNone(Ingress.Initial(), es, read);
    var ids := ProofBridge.SupportingIds(c, ProofBridge.FindDer(w, c));
    if ids != [] {
      assert ids[0] in ids && !ProofBridge.ResourceFits(w, ids[0], c, org);
    }
  }

  // ---- From promotion to certification ----

  /** The snapshot `_create_vr_for_candidate` builds: one decision. */
  function CandidateElements(c: ProofBridge.Candidate): seq<Element> {
    var decision := if c.actual == "" then "UNKNOWN" else c.actual;
    [Element("decision", Payload(None, None, None, None, None, None, Some(decision), false))]
  }

  lemma CandidateHasNoCalls(c: ProofBridge.Candidate)
    ensures !Workflow.HasCassette(EventsOf(CandidateElements(c)))
  {
    var events := EventsOf(CandidateElements(c));
    assert |events| == 1 && events[0].kind == Decision;
  }

  /** Whatever is done before and after, no proof is ever issued for the record a promotion creates. */
  lemma PromotedRecordIsNeverCertified(
      before: seq<Workflow.Command>, c: ProofBridge.Candidate, scenario: string, isDemo: bool,
      after: seq<Workflow.Command>, setup: Workflow.Setup, cert: Workflow.Certificate)
    requires var create := Workflow.Create(c.org, CandidateElements(c), scenario, isDemo);
      cert in Workflow.Exec(Workflow.Initial(), before + [create] + after, setup).certs
    ensures cert.record != Workflow.Exec(Workflow.Initial(), before, setup).next
  {
    var create := Workflow.Create(c.org, CandidateElements(c), scenario, isDemo);
    var s := Workflow.Exec(Workflow.Initial(), before, setup);
    Workflow.ExecAppend(Workflow.Initial(), before + [create], after, setup);
    Workflow.ExecAppend(Workflow.Initial(), before, [create], setup);
    Workflow.ExecOne(s, create, setup);
    Workflow.ExecKeeps(Workflow.Initial(), before, setup);
    Workflow.StepKeeps(s, create, setup);
    var u := Workflow.Step(s, create, setup);
    Workflow.ExecKeeps(u, after, setup);
    assert Workflow.Backed(Workflow.Exec(u, after, setup), cert, setup);
    assert u.records[s.next].events == EventsOf(CandidateElements(c));
    CandidateHasNoCalls(c);
  }
}
