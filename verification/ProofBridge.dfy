/**
 Promoting an assurance candidate: seal an evidence bundle, create a Verification Record and an incident under
 identifiers derived from the candidate, and link them. A promotion may crash between any two storage writes.
 Hashes are symbolic: a digest is the value it was computed from, and an identifier keeps its whole key.
 */
module ProofBridge {
  import opened Wrappers
  import opened Evidence
  import opened Json
  import opened Texts

  // ---- What a promotion reads ----

  // An absent effective period is always active; a malformed one never is.
  datatype Period = Always | Malformed | Span(start: Option<int>, end: Option<int>)

  datatype Candidate = Candidate(
    id: string, org: string, env: string, derId: string, sweepRunId: string, kind: string,
    resources: seq<string>, assessments: seq<string>, missing: seq<string>, level: string,
    actual: string, expected: string, createdAt: string)

  datatype Der = Der(org: string, env: string, resources: seq<string>, bindings: seq<string>, trace: string)

  datatype SweepRun = SweepRun(org: string, env: string, definition: string)

  datatype Definition = Definition(org: string, env: string)

  datatype Item = Item(org: string, env: string, content: string)  // a context binding or an assessment

  datatype Review = Review(
    id: string, candidate: string, org: string, env: string, decision: string, supersedes: string,
    period: Period, createdAt: string)

  datatype Delegation = Delegation(
    id: string, org: string, env: string, active: bool, deterministic: bool, scope: string, period: Period,
    level: string, condOrg: Option<string>, required: seq<string>)

  /** Everything a promotion only reads. It may differ arbitrarily from one promotion to the next. */
  datatype World = World(
    candidates: map<string, Candidate>, ders: map<string, Der>, sweepRuns: map<string, SweepRun>,
    definitions: map<string, Definition>, resources: map<string, Resource>, bindings: map<string, Item>,
    assessments: map<string, Item>, reviews: seq<Review>, delegations: seq<Delegation>, now: int)

  datatype Authority = ByReview(review: Review) | ByDelegation(delegation: Delegation)

  // ---- Authority ----

  predicate Active(p: Period, now: int) {
    match p
    case Always => true
    case Malformed => false
    case Span(start, end) => (start.Some? ==> start.value <= now) && (end.Some? ==> now <= end.value)
  }

  predicate Concerns(r: Review, c: Candidate, org: string) {
    r.candidate == c.id && r.org == org && r.env == c.env
  }

  predicate SupersededIn(rs: seq<Review>, c: Candidate, org: string, id: string) {
    id != "" && exists i :: 0 <= i < |rs| && Concerns(rs[i], c, org) && rs[i].supersedes == id
  }

  predicate InForce(r: Review, w: World, c: Candidate, org: string) {
    && Concerns(r, c, org) && !SupersededIn(w.reviews, c, org, r.id)
    && r.decision != "supersede" && Active(r.period, w.now)
  }

  /** The tuple order of creation time and identifier. */
  predicate Earlier(a: Review, b: Review) {
    Less(a.createdAt, b.createdAt) || (a.createdAt == b.createdAt && Less(a.id, b.id))
  }

  /** `max` over the reviews in force: the first of the latest. */
  function Latest(rs: seq<Review>, w: World, c: Candidate, org: string): Option<Review> {
    if rs == [] then None
    else
      var r, best := rs[|rs| - 1], Latest(rs[..|rs| - 1], w, c, org);
      if !InForce(r, w, c, org) then best
      else if best.None? || Earlier(best.value, r) then Some(r)
      else best
  }

  predicate Applies(d: Delegation, w: World, c: Candidate, org: string) {
    && d.org == org && d.active && d.env == c.env && d.deterministic && Active(d.period, w.now)
    && (d.scope == "" || d.scope == c.kind) && (d.level == "" || d.level == c.level)
    && (d.condOrg.Some? ==> d.condOrg.value == org)
    && forall i :: 0 <= i < |d.required| ==> d.required[i] !in c.missing
  }

  function FirstDelegation(ds: seq<Delegation>, w: World, c: Candidate, org: string): Option<Delegation> {
    if ds == [] then None
    else if Applies(ds[0], w, c, org) then Some(ds[0])
    else FirstDelegation(ds[1..], w, c, org)
  }

  /** `_resolve_authority`: reviews in force decide alone; delegations count only when there is none. */
  function ResolveAuthority(w: World, c: Candidate, org: string): Option<Authority> {
    match Latest(w.reviews, w, c, org)
    case Some(r) => if r.decision == "approve_incident" then Some(ByReview(r)) else None
    case None =>
      match FirstDelegation(w.delegations, w, c, org)
      case Some(d) => Some(ByDelegation(d))
      case None => None
  }

  lemma EarlierTransitive(a: Review, b: Review, c: Review)
    requires !Earlier(b, a) && Earlier(b, c)
    ensures !Earlier(c, a)
  {
    LessTotal(a.createdAt, b.createdAt);
    LessTotal(b.createdAt, c.createdAt);
    LessTotal(a.createdAt, c.createdAt);
    LessTotal(a.id, b.id);
    LessTotal(b.id, c.id);
    LessTotal(a.id, c.id);
    if Less(a.createdAt, b.createdAt) && Less(b.createdAt, c.createdAt) {
      LessTransitive(a.createdAt, b.createdAt, c.createdAt);
    }
    if Less(a.id, b.id) && Less(b.id, c.id) { LessTransitive(a.id, b.id, c.id); }
  }

  lemma {:induction false} LatestIsLast(rs: seq<Review>, w: World, c: Candidate, org: string)
    ensures var best := Latest(rs, w, c, org);
      && (best.None? <==> forall r :: r in rs ==> !InForce(r, w, c, org))
      && (best.Some? ==> best.value in rs && InForce(best.value, w, c, org))
      && (best.Some? ==> forall r :: r in rs && InForce(r, w, c, org) ==> !Earlier(best.value, r))
  {
    if rs != [] {
      var r, init := rs[|rs| - 1], rs[..|rs| - 1];
      LatestIsLast(init, w, c, org);
      assert rs == init + [r];
      var best := Latest(init, w, c, org);
      LessTotal(r.createdAt, r.createdAt);
      LessTotal(r.id, r.id);
      if InForce(r, w, c, org) && best.Some? && Earlier(best.value, r) {
        forall x | x in init && InForce(x, w, c, org) ensures !Earlier(r, x) {
          EarlierTransitive(x, best.value, r);
        }
      }
    }
  }

  lemma {:induction false} DelegationFound(ds: seq<Delegation>, w: World, c: Candidate, org: string)
    ensures FirstDelegation(ds, w, c, org).Some? <==> exists d :: d in ds && Applies(d, w, c, org)
    ensures FirstDelegation(ds, w, c, org).Some? ==>
      FirstDelegation(ds, w, c, org).value in ds && Applies(FirstDelegation(ds, w, c, org).value, w, c, org)
  {
    if ds != [] {
      DelegationFound(ds[1..], w, c, org);
      assert forall d :: d in ds <==> d == ds[0] || d in ds[1..];
    }
  }

  /** An approval that no review in force is later than. */
  ghost predicate Approves(r: Review, w: World, c: Candidate, org: string) {
    r in w.reviews && InForce(r, w, c, org) && r.decision == "approve_incident"
    && forall x :: x in w.reviews && InForce(x, w, c, org) ==> !Earlier(r, x)
  }

  ghost predicate NoneInForce(w: World, c: Candidate, org: string) {
    forall r :: r in w.reviews ==> !InForce(r, w, c, org)
  }

  /**
   Authority comes from an approval that nothing in force postdates, or from a delegation when nothing is in force.
   */
  lemma AuthoritySound(w: World, c: Candidate, org: string)
    requires ResolveAuthority(w, c, org).Some?
    ensures match ResolveAuthority(w, c, org).value
      case ByReview(r) => Approves(r, w, c, org)
      case ByDelegation(d) => d in w.delegations && Applies(d, w, c, org) && NoneInForce(w, c, org)
  {
    LatestIsLast(w.reviews, w, c, org);
    DelegationFound(w.delegations, w, c, org);
  }

  lemma SameReview(rs: seq<Review>, a: Review, b: Review)
    requires forall i, j :: 0 <= i < j < |rs| ==> rs[i].id != rs[j].id
    requires a in rs && b in rs && !Earlier(a, b) && !Earlier(b, a)
    ensures a == b
  {
    LessTotal(a.createdAt, b.createdAt);
    LessTotal(a.id, b.id);
    var i :| 0 <= i < |rs| && rs[i] == a;
    var j :| 0 <= j < |rs| && rs[j] == b;
  }

  /**
   With unique review ids there is authority exactly when an approval in force is postdated by no review in force, or
   no review is in force and some delegation applies.
   */
  lemma AuthorityIff(w: World, c: Candidate, org: string)
    requires forall i, j :: 0 <= i < j < |w.reviews| ==> w.reviews[i].id != w.reviews[j].id
    ensures ResolveAuthority(w, c, org).Some? <==>
      || (exists r :: Approves(r, w, c, org))
      || (NoneInForce(w, c, org) && exists d :: d in w.delegations && Applies(d, w, c, org))
  {
    LatestIsLast(w.reviews, w, c, org);
    DelegationFound(w.delegations, w, c, org);
    if exists r :: Approves(r, w, c, org) {
      var r :| Approves(r, w, c, org);
      SameReview(w.reviews, r, Latest(w.reviews, w, c, org).value);
    }
    if ResolveAuthority(w, c, org).Some? { AuthoritySound(w, c, org); }
  }

  /** A later review in force that does not approve withdraws all authority, delegations included. */
  lemma LaterReviewRevokes(w: World, c: Candidate, org: string, r: Review)
    requires r in w.reviews && InForce(r, w, c, org) && r.decision != "approve_incident"
    requires forall x :: x in w.reviews && InForce(x, w, c, org) && x != r ==> Earlier(x, r)
    ensures ResolveAuthority(w, c, org).None?
  {
    LatestIsLast(w.reviews, w, c, org);
    var best := Latest(w.reviews, w, c, org).value;
    assert best == r;
  }

  // ---- Eligibility ----

  datatype Failure =
    | DecisionEvidenceRecordMissing | OrganizationMismatch | EnvironmentMismatch
    | SweepRunMissing | SweepDefinitionMissing
    | LevelInsufficient | SupportingEvidenceMissing | SupportingResourceMissing | AuthorityMissing

  function FindCandidate(w: World, id: string, org: string): Option<Candidate> {
    if id in w.candidates && w.candidates[id].org == org then Some(w.candidates[id]) else None
  }

  function FindDer(w: World, c: Candidate): Option<Der> {
    if c.derId != "" && c.derId in w.ders then Some(w.ders[c.derId]) else None
  }

  function FindResource(w: World, id: string, org: string): Option<Resource> {
    if id in w.resources && w.resources[id].org == org then Some(w.resources[id]) else None
  }

  /** `dict.fromkeys`: the first occurrence of each. */
  function Dedup(ids: seq<string>): seq<string> {
    if ids == [] then []
    else
      var init, last := Dedup(ids[..|ids| - 1]), ids[|ids| - 1];
      if last in init then init else init + [last]
  }

  function SupportingIds(c: Candidate, der: Option<Der>): seq<string> {
    Dedup(c.resources + (if der.Some? then der.value.resources else []))
  }

  predicate InEnv(env: string, c: Candidate) {
    env != "" && env == c.env
  }

  predicate DerFits(der: Option<Der>, c: Candidate, org: string) {
    der.Some? && der.value.org == org && InEnv(der.value.env, c)
  }

  predicate SweepFits(w: World, c: Candidate, org: string) {
    && c.sweepRunId != "" && c.sweepRunId in w.sweepRuns
    && var run := w.sweepRuns[c.sweepRunId];
      && run.org == org && InEnv(run.env, c) && run.definition in w.definitions
      && w.definitions[run.definition].org == org && InEnv(w.definitions[run.definition].env, c)
  }

  predicate ResourceFits(w: World, id: string, c: Candidate, org: string) {
    FindResource(w, id, org).Some? && InEnv(FindResource(w, id, org).value.env, c)
  }

  predicate BindingFits(w: World, id: string, c: Candidate, org: string) {
    id in w.bindings && w.bindings[id].org == org && InEnv(w.bindings[id].env, c)
  }

  /** What a candidate needs: one organization and environment throughout, evidence at E3 or above, and authority. */
  ghost predicate Eligible(w: World, c: Candidate, org: string) {
    var der := FindDer(w, c);
    && DerFits(der, c, org) && SweepFits(w, c, org) && (c.level == "E3" || c.level == "E4")
    && SupportingIds(c, der) != []
    && (forall id :: id in SupportingIds(c, der) ==> ResourceFits(w, id, c, org))
    && (forall id :: id in der.value.bindings ==> BindingFits(w, id, c, org))
    && ResolveAuthority(w, c, org).Some?
  }

  predicate RunFound(w: World, c: Candidate) {
    c.sweepRunId != "" && c.sweepRunId in w.sweepRuns
  }

  function RunOf(w: World, c: Candidate): SweepRun
    requires RunFound(w, c)
  {
    w.sweepRuns[c.sweepRunId]
  }

  predicate DefinitionFits(w: World, c: Candidate, org: string)
    requires RunFound(w, c) && RunOf(w, c).definition in w.definitions
  {
    w.definitions[RunOf(w, c).definition].org == org && InEnv(w.definitions[RunOf(w, c).definition].env, c)
  }

  /** When the decision evidence record or the sweep run fails. */
  predicate LineageFails(f: Failure, w: World, c: Candidate, org: string) {
    var der := FindDer(w, c);
    var inScope := RunFound(w, c) && RunOf(w, c).org == org && InEnv(RunOf(w, c).env, c);
    match f
    case DecisionEvidenceRecordMissing => der.None?
    case SweepRunMissing => !RunFound(w, c)
    case SweepDefinitionMissing => inScope && RunOf(w, c).definition !in w.definitions
    case OrganizationMismatch => (der.Some? && der.value.org != org) || (RunFound(w, c) && RunOf(w, c).org != org)
    case EnvironmentMismatch =>
      || (der.Some? && der.value.org == org && !InEnv(der.value.env, c))
      || (RunFound(w, c) && RunOf(w, c).org == org && !InEnv(RunOf(w, c).env, c))
      || (inScope && RunOf(w, c).definition in w.definitions && !DefinitionFits(w, c, org))
    case _ => false
  }

  /** When a supporting resource fails. */
  ghost predicate ResourcesFail(f: Failure, w: World, c: Candidate, org: string) {
    var ids := SupportingIds(c, FindDer(w, c));
    match f
    case SupportingEvidenceMissing => ids == []
    case SupportingResourceMissing => exists id :: id in ids && FindResource(w, id, org).None?
    case EnvironmentMismatch => exists id :: id in ids && FindResource(w, id, org).Some? && !ResourceFits(w, id, c, org)
    case _ => false
  }

  /** When a context binding fails. */
  ghost predicate BindingsFail(f: Failure, w: World, c: Candidate, org: string) {
    f == EnvironmentMismatch && FindDer(w, c).Some?
    && exists id :: id in FindDer(w, c).value.bindings && !BindingFits(w, id, c, org)
  }

  /** When a failure belongs on the list. */
  ghost predicate Fails(f: Failure, w: World, c: Candidate, org: string) {
    || LineageFails(f, w, c, org) || ResourcesFail(f, w, c, org) || BindingsFail(f, w, c, org)
    || (f == LevelInsufficient && c.level != "E3" && c.level != "E4")
    || (f == AuthorityMissing && ResolveAuthority(w, c, org).None?)
  }

  method CollectLineageFailures(w: World, c: Candidate, org: string) returns (failures: seq<Failure>)
    ensures forall f :: f in failures <==> LineageFails(f, w, c, org)
  {
    failures := [];
    var der := FindDer(w, c);
    if der.None? {
      failures := failures + [DecisionEvidenceRecordMissing];
    } else if der.value.org != org {
      failures := failures + [OrganizationMismatch];
    } else if !InEnv(der.value.env, c) {
      failures := failures + [EnvironmentMismatch];
    }
    if c.sweepRunId == "" || c.sweepRunId !in w.sweepRuns {
      failures := failures + [SweepRunMissing];
    } else {
      var run := w.sweepRuns[c.sweepRunId];
      if run.org != org {
        failures := failures + [OrganizationMismatch];
      } else if !InEnv(run.env, c) {
        failures := failures + [EnvironmentMismatch];
      } else if run.definition !in w.definitions {
        failures := failures + [SweepDefinitionMissing];
      } else if w.definitions[run.definition].org != org || !InEnv(w.definitions[run.definition].env, c) {
        failures := failures + [EnvironmentMismatch];
      }
    }
  }

  method CollectResourceFailures(w: World, c: Candidate, org: string) returns (failures: seq<Failure>)
    ensures forall f :: f in failures <==> ResourcesFail(f, w, c, org)
  {
    failures := [];
    var ids := SupportingIds(c, FindDer(w, c));
    if ids == [] {
      return [SupportingEvidenceMissing];
    }
    for i := 0 to |ids|
      invariant SupportingResourceMissing in failures <==> exists k :: 0 <= k < i && FindResource(w, ids[k], org).None?
      invariant EnvironmentMismatch in failures <==>
        exists k :: 0 <= k < i && FindResource(w, ids[k], org).Some? && !ResourceFits(w, ids[k], c, org)
      invariant forall f :: f in failures ==> f.SupportingResourceMissing? || f.EnvironmentMismatch?
    {
      if FindResource(w, ids[i], org).None? {
        failures := failures + [SupportingResourceMissing];
      } else if !InEnv(FindResource(w, ids[i], org).value.env, c) {
        failures := failures + [EnvironmentMismatch];
      }
    }
  }

  method CollectBindingFailures(w: World, c: Candidate, org: string) returns (failures: seq<Failure>)
    ensures forall f :: f in failures <==> BindingsFail(f, w, c, org)
  {
    failures := [];
    if FindDer(w, c).Some? {
      var bs := FindDer(w, c).value.bindings;
      for i := 0 to |bs|
        invariant EnvironmentMismatch in failures <==> exists k :: 0 <= k < i && !BindingFits(w, bs[k], c, org)
        invariant forall f :: f in failures ==> f == EnvironmentMismatch
      {
        if !BindingFits(w, bs[i], c, org) {
          failures := failures + [EnvironmentMismatch];
        }
      }
    }
  }

  /** The failures `check_eligibility` collects for a candidate it found: each code exactly when it belongs there. */
  method CollectFailures(w: World, c: Candidate, org: string) returns (failures: seq<Failure>)
    ensures failures == [] <==> Eligible(w, c, org)
    ensures forall f :: f in failures <==> Fails(f, w, c, org)
  {
    failures := CollectLineageFailures(w, c, org);
    if c.level != "E3" && c.level != "E4" {
      failures := failures + [LevelInsufficient];
    }
    var resources := CollectResourceFailures(w, c, org);
    var bindings := CollectBindingFailures(w, c, org);
    failures := failures + resources + bindings;
    if ResolveAuthority(w, c, org).None? {
      failures := failures + [AuthorityMissing];
    }
    NoFailureIff(w, c, org);
    assert failures == [] <==> forall f :: f !in failures by { if failures != [] { assert failures[0] in failures; } }
  }

  /** A candidate is eligible exactly when no failure belongs on the list. */
  lemma NoFailureIff(w: World, c: Candidate, org: string)
    ensures Eligible(w, c, org) <==> forall f :: !Fails(f, w, c, org)
  {
    if forall f :: !Fails(f, w, c, org) {
      assert !Fails(DecisionEvidenceRecordMissing, w, c, org) && !Fails(OrganizationMismatch, w, c, org);
      assert !Fails(EnvironmentMismatch, w, c, org) && !Fails(SweepRunMissing, w, c, org);
      assert !Fails(SweepDefinitionMissing, w, c, org) && !Fails(LevelInsufficient, w, c, org);
      assert !Fails(SupportingEvidenceMissing, w, c, org) && !Fails(SupportingResourceMissing, w, c, org);
      assert !Fails(AuthorityMissing, w, c, org);
    }
  }

  // ---- The bundle ----

  datatype Subject = Subject(id: string, algorithm: string, digest: string)

  datatype Manifest = Manifest(
    key: string, candidate: Candidate, trace: string, level: string, subjects: seq<Subject>, context: seq<string>,
    lineage: seq<string>, authority: Authority)

  datatype Digest = Sha(manifest: Manifest)

  datatype Bundle = Bundle(id: Digest, manifest: Manifest)

  function SubjectOf(w: World, id: string, org: string): Option<Subject> {
    match FindResource(w, id, org)
    case Some(r) => Some(Subject(id, r.algorithm, r.digest))
    case None => None
  }

  function Subjects(w: World, ids: seq<string>, org: string): seq<Subject> {
    if ids == [] then []
    else
      var subject := SubjectOf(w, ids[0], org);
      (if subject.Some? then [subject.value] else []) + Subjects(w, ids[1..], org)
  }

  function BindingOf(w: World, id: string, c: Candidate): Option<string> {
    if id in w.bindings && w.bindings[id].org == c.org && w.bindings[id].env == c.env
    then Some(w.bindings[id].content) else None
  }

  function Bindings(w: World, ids: seq<string>, c: Candidate): seq<string> {
    if ids == [] then []
    else (if BindingOf(w, ids[0], c).Some? then [BindingOf(w, ids[0], c).value] else []) + Bindings(w, ids[1..], c)
  }

  function Assessments(w: World, ids: seq<string>, c: Candidate): seq<string> {
    if ids == [] then []
    else
      (if ids[0] in w.assessments && w.assessments[ids[0]].org == c.org then [w.assessments[ids[0]].content] else [])
      + Assessments(w, ids[1..], c)
  }

  /** `_freeze_evidence_bundle` */
  function Freeze(w: World, c: Candidate, der: Der, key: string, level: string, authority: Authority): Bundle {
    var m := Manifest(
      key, c, der.trace, level, Subjects(w, SupportingIds(c, Some(der)), c.org), Bindings(w, der.bindings, c),
      Assessments(w, c.assessments, c), authority);
    Bundle(Sha(m), m)
  }

  lemma {:induction false} SubjectsComplete(w: World, ids: seq<string>, c: Candidate, org: string)
    requires forall id :: id in ids ==> ResourceFits(w, id, c, org)
    ensures |Subjects(w, ids, org)| == |ids|
    ensures forall i :: 0 <= i < |ids| ==> Some(Subjects(w, ids, org)[i]) == SubjectOf(w, ids[i], org)
  {
    if ids != [] {
      assert ids[0] in ids && forall id :: id in ids[1..] ==> id in ids;
      SubjectsComplete(w, ids[1..], c, org);
    }
  }

  lemma {:induction false} BindingsComplete(w: World, ids: seq<string>, c: Candidate)
    requires forall id :: id in ids ==> BindingFits(w, id, c, c.org)
    ensures |Bindings(w, ids, c)| == |ids|
    ensures forall i :: 0 <= i < |ids| ==> Some(Bindings(w, ids, c)[i]) == BindingOf(w, ids[i], c)
  {
    if ids != [] {
      assert ids[0] in ids && forall id :: id in ids[1..] ==> id in ids;
      BindingsComplete(w, ids[1..], c);
    }
  }

  lemma {:induction false} DedupKeeps(ids: seq<string>)
    ensures forall id :: id in Dedup(ids) <==> id in ids
    ensures forall i, j :: 0 <= i < j < |Dedup(ids)| ==> Dedup(ids)[i] != Dedup(ids)[j]
  {
    if ids != [] {
      DedupKeeps(ids[..|ids| - 1]);
      assert ids == ids[..|ids| - 1] + [ids[|ids| - 1]];
    }
  }

  /**
   Freezing skips what it cannot find; for an eligible candidate that is nothing, so the bundle covers every
   reference.
   */
  lemma BundleIsComplete(w: World, c: Candidate, key: string, level: string, authority: Authority)
    requires Eligible(w, c, c.org)
    ensures var der := FindDer(w, c).value;
      var m := Freeze(w, c, der, key, level, authority).manifest;
      && (forall id :: id in c.resources || id in der.resources ==>
        exists s :: s in m.subjects && Some(s) == SubjectOf(w, id, c.org))
      && |m.subjects| == |SupportingIds(c, Some(der))|
      && |m.context| == |der.bindings|
      && forall i :: 0 <= i < |der.bindings| ==> Some(m.context[i]) == BindingOf(w, der.bindings[i], c)
  {
    var der := FindDer(w, c).value;
    var ids := SupportingIds(c, Some(der));
    SubjectsComplete(w, ids, c, c.org);
    BindingsComplete(w, der.bindings, c);
    DedupKeeps(c.resources + der.resources);
    forall id | id in c.resources || id in der.resources
      ensures exists s :: s in Subjects(w, ids, c.org) && Some(s) == SubjectOf(w, id, c.org)
    {
      assert id in ids;
      var i :| 0 <= i < |ids| && ids[i] == id;
      assert Subjects(w, ids, c.org)[i] in Subjects(w, ids, c.org);
    }
  }

  // ---- Keys and identifiers ----

  /** The text `_bridge_key` hashes. */
  function BridgeKey(c: Candidate): string {
    c.org + "|" + c.env + "|" + c.id
  }

  function RecordId(key: string): string { "vr-bridge-" + key }

  function IncidentId(key: string): string { "inc-bridge-" + key }

  // ---- What a promotion writes ----

  datatype Record = Record(id: string, key: string, org: string, promotedTo: string, rootHash: Option<Digest>)

  datatype Lineage = Lineage(
    candidateId: string, derId: string, sweepRunId: string, authority: Authority, bundleRef: Digest)

  datatype Incident = Incident(id: string, org: string, lineage: Option<Lineage>)

  datatype State = State(records: seq<Record>, incidents: map<string, Incident>, evidence: map<Digest, Bundle>)

  datatype Write = PutBundle(bundle: Bundle) | PutRecord(record: Record) | PutIncident(incident: Incident)

  /** Storing under an identifier: a known one keeps its place. */
  function PutInto(rs: seq<Record>, r: Record): seq<Record> {
    if rs == [] then [r] else if rs[0].id == r.id then [r] + rs[1..] else [rs[0]] + PutInto(rs[1..], r)
  }

  function Apply(s: State, x: Write): State {
    match x
    case PutBundle(b) => s.(evidence := s.evidence[b.id := b])
    case PutRecord(r) => s.(records := PutInto(s.records, r))
    case PutIncident(i) => s.(incidents := s.incidents[i.id := i])
  }

  function ApplyAll(s: State, xs: seq<Write>): State {
    if xs == [] then s else Apply(ApplyAll(s, xs[..|xs| - 1]), xs[|xs| - 1])
  }

  function ByKey(rs: seq<Record>, key: string, org: string): seq<Record> {
    if rs == [] then [] else (if rs[0].key == key && rs[0].org == org then [rs[0]] else []) + ByKey(rs[1..], key, org)
  }

  datatype Outcome =
    | Success(key: string, recordId: string, isNew: bool, bundleRef: Digest, incidentId: string)
    | NotEligible
    | LineageIncomplete
    | IncidentFailed
    | Crashed

  function BareRecord(c: Candidate, key: string, b: Bundle): Record {
    Record(RecordId(key), "", c.org, "", Some(b.id))
  }

  function RecordWrites(c: Candidate, key: string, b: Bundle): seq<Write> {
    [PutBundle(b), PutRecord(BareRecord(c, key, b)), PutRecord(BareRecord(c, key, b).(key := key))]
  }

  function LineageWrites(c: Candidate, stored: Record, b: Bundle, authority: Authority): seq<Write> {
    var lineage := Lineage(c.id, c.derId, c.sweepRunId, authority, b.id);
    [PutIncident(Incident(IncidentId(stored.key), c.org, None)),
     PutRecord(stored.(promotedTo := IncidentId(stored.key))),
     PutIncident(Incident(IncidentId(stored.key), c.org, Some(lineage)))]
  }

  /** The writes of a first promotion, in the order the storage sees them. */
  function NewWrites(c: Candidate, key: string, b: Bundle, authority: Authority): seq<Write> {
    RecordWrites(c, key, b) + LineageWrites(c, BareRecord(c, key, b).(key := key), b, authority)
  }

  /** What a promotion of an existing record answers. */
  function Again(s: State, r: Record, key: string, org: string): Outcome {
    if r.promotedTo == "" || r.promotedTo !in s.incidents || s.incidents[r.promotedTo].lineage.None?
    then LineageIncomplete
    else
      var i := s.incidents[r.promotedTo];
      if i.org != org then IncidentFailed
      else Success(key, r.id, false, i.lineage.value.bundleRef, i.id)
  }

  datatype Request = Request(world: World, candidate: string, org: string, crash: Option<nat>)

  /** The planned writes and the answer of an eligible promotion; a record without its own runs keeps its level. */
  ghost function Plan(s: State, w: World, c: Candidate, org: string): (seq<Write>, Outcome)
    requires Eligible(w, c, org)
  {
    var key := BridgeKey(c);
    var existing := ByKey(s.records, key, org);
    if existing != [] then ([], Again(s, existing[0], key, org))
    else
      var authority := ResolveAuthority(w, c, org).value;
      var b := Freeze(w, c, FindDer(w, c).value, key, c.level, authority);
      (NewWrites(c, key, b, authority), Success(key, RecordId(key), true, b.id, IncidentId(key)))
  }

  /** `promote`: with a crash only the writes before it happen, and no answer is given. */
  ghost function Promote(s: State, q: Request): (State, Outcome) {
    match FindCandidate(q.world, q.candidate, q.org)
    case None => (s, if q.crash.Some? then Crashed else NotEligible)
    case Some(c) =>
      if !Eligible(q.world, c, q.org) then (s, if q.crash.Some? then Crashed else NotEligible)
      else
        var (writes, answer) := Plan(s, q.world, c, q.org);
        match q.crash
        case None => (ApplyAll(s, writes), answer)
        case Some(n) => (ApplyAll(s, if n < |writes| then writes[..n] else writes), Crashed)
  }

  class ProofBridgeService {
    var records: seq<Record>
    var incidents: map<string, Incident>
    var evidence: map<Digest, Bundle>

    ghost function Abs(): State
      reads this
    {
      State(records, incidents, evidence)
    }

    constructor ()
      ensures Abs() == Initial()
    {
      records, incidents, evidence := [], map[], map[];
    }

    /** Freezes the bundle and stores the record, first without its key; the crash comes after that many writes. */
    method CreateRecord(c: Candidate, key: string, bundle: Bundle, crash: Option<nat>) returns (vr: Option<Record>)
      modifies this
      ensures var writes := RecordWrites(c, key, bundle);
        if crash.Some? && crash.value < 3 then Abs() == ApplyAll(old(Abs()), writes[..crash.value]) && vr == None
        else Abs() == ApplyAll(old(Abs()), writes) && vr == Some(BareRecord(c, key, bundle).(key := key))
    {
      ghost var s, writes := Abs(), RecordWrites(c, key, bundle);
      NoWrites(s, writes);
      if crash == Some(0) { return None; }
      evidence := evidence[bundle.id := bundle];
      OneMoreWrite(s, writes, 0);
      if crash == Some(1) { return None; }
      var bare := Record(RecordId(key), "", c.org, "", Some(bundle.id));
      records := PutInto(records, bare);
      OneMoreWrite(s, writes, 1);
      if crash == Some(2) { return None; }
      bare := bare.(key := key);
      records := PutInto(records, bare);
      OneMoreWrite(s, writes, 2);
      return Some(bare);
    }

    /** `_record_incident_lineage`: the incident, the record's link to it, and last its lineage. */
    method RecordLineage(c: Candidate, stored: Record, bundle: Bundle, authority: Authority, crash: Option<nat>)
      returns (incident: Option<Incident>)
      modifies this
      ensures var writes := LineageWrites(c, stored, bundle, authority);
        if crash.Some? && crash.value < 3 then Abs() == ApplyAll(old(Abs()), writes[..crash.value]) && incident == None
        else Abs() == ApplyAll(old(Abs()), writes) && incident.Some? && incident.value.id == IncidentId(stored.key)
    {
      ghost var s, writes := Abs(), LineageWrites(c, stored, bundle, authority);
      NoWrites(s, writes);
      if crash == Some(0) { return None; }
      var created := Incident(IncidentId(stored.key), c.org, None);
      incidents := incidents[created.id := created];
      OneMoreWrite(s, writes, 0);
      if crash == Some(1) { return None; }
      records := PutInto(records, stored.(promotedTo := created.id));
      OneMoreWrite(s, writes, 1);
      if crash == Some(2) { return None; }
      created := created.(lineage := Some(Lineage(c.id, c.derId, c.sweepRunId, authority, bundle.id)));
      incidents := incidents[created.id := created];
      OneMoreWrite(s, writes, 2);
      return Some(created);
    }

    /** The branch of `promote` for a candidate without a record. */
    method CreateLineage(c: Candidate, key: string, bundle: Bundle, authority: Authority, crash: Option<nat>)
      returns (answer: Outcome)
      modifies this
      ensures var writes := NewWrites(c, key, bundle, authority);
        match crash
        case None =>
          && Abs() == ApplyAll(old(Abs()), writes)
          && answer == Success(key, RecordId(key), true, bundle.id, IncidentId(key))
        case Some(n) => Abs() == ApplyAll(old(Abs()), if n < |writes| then writes[..n] else writes) && answer == Crashed
    {
      ghost var s := Abs();
      ghost var first := RecordWrites(c, key, bundle);
      ghost var second := LineageWrites(c, BareRecord(c, key, bundle).(key := key), bundle, authority);
      var vr := CreateRecord(c, key, bundle, crash);
      if vr.None? {
        assert (first + second)[..crash.value] == first[..crash.value];
        return Crashed;
      }
      var later := if crash.Some? then Some(crash.value - 3) else None;
      var incident := RecordLineage(c, vr.value, bundle, authority, later);
      ApplyAppend(s, first, second);
      if crash.Some? {
        if later.value < 3 {
          ApplyAppend(s, first, second[..later.value]);
          assert (first + second)[..crash.value] == first + second[..later.value];
        }
        return Crashed;
      }
      return Success(key, vr.value.id, true, bundle.id, incident.value.id);
    }

    method PromoteCandidate(q: Request) returns (answer: Outcome)
      modifies this
      ensures (Abs(), answer) == Promote(old(Abs()), q)
    {
      var found := FindCandidate(q.world, q.candidate, q.org);
      if found.None? {
        return if q.crash.Some? then Crashed else NotEligible;
      }
      var c := found.value;
      var failures := CollectFailures(q.world, c, q.org);
      if failures != [] {
        return if q.crash.Some? then Crashed else NotEligible;
      }
      var key := BridgeKey(c);
      var existing := ByKey(records, key, q.org);
      if existing == [] {
        var authority := ResolveAuthority(q.world, c, q.org).value;
        var bundle := Freeze(q.world, c, FindDer(q.world, c).value, key, c.level, authority);
        answer := CreateLineage(c, key, bundle, authority, q.crash);
        return;
      }
      if q.crash.Some? {
        return Crashed;
      }
      var vr := existing[0];
      if vr.promotedTo == "" || vr.promotedTo !in incidents || incidents[vr.promotedTo].lineage.None? {
        return LineageIncomplete;
      }
      var incident := incidents[vr.promotedTo];
      if incident.org != q.org {
        return IncidentFailed;
      }
      return Success(key, vr.id, false, incident.lineage.value.bundleRef, incident.id);
    }
  }

  lemma NoWrites(s: State, xs: seq<Write>)
    ensures ApplyAll(s, xs[..0]) == s && xs[..|xs|] == xs
  {
  }

  lemma OneMoreWrite(s: State, xs: seq<Write>, n: nat)
    requires n < |xs|
    ensures ApplyAll(s, xs[..n + 1]) == Apply(ApplyAll(s, xs[..n]), xs[n])
  {
    assert xs[..n + 1][..n] == xs[..n];
  }

  lemma {:induction false} ApplyAppend(s: State, xs: seq<Write>, ys: seq<Write>)
    ensures ApplyAll(s, xs + ys) == ApplyAll(ApplyAll(s, xs), ys)
  {
    if ys == [] {
      assert xs + ys == xs;
    } else {
      var init := ys[..|ys| - 1];
      assert (xs + ys)[..|xs + ys| - 1] == xs + init;
      ApplyAppend(s, xs, init);
    }
  }

  function Initial(): State {
    State([], map[], map[])
  }

  // ---- Organizations whose keys never meet ----

  /** No organization's name is another's continued by a separator. */
  ghost predicate Separate(orgs: set<string>) {
    forall a, b :: a in orgs && b in orgs ==> !StartsWith(b, a + "|")
  }

  type Orgs = o: set<string> | Separate(o) witness {}

  // ---- What every promotion keeps ----

  /** A record under a bridge key: its identifier, its organization, and the incident it points to. */
  ghost predicate KeyedWell(orgs: Orgs, s: State, r: Record) {
    && r.id == RecordId(r.key) && r.org in orgs && StartsWith(r.key, r.org + "|")
    && (r.promotedTo != "" ==> r.promotedTo == IncidentId(r.key) && r.promotedTo in s.incidents)
    && (IncidentId(r.key) in s.incidents ==>
      var i := s.incidents[IncidentId(r.key)];
      && i.id == IncidentId(r.key) && i.org == r.org
      && (i.lineage.Some? ==> r.promotedTo != "" && i.lineage.value.bundleRef in s.evidence))
  }

  ghost predicate HasRecord(s: State, key: string) {
    exists i :: 0 <= i < |s.records| && s.records[i].key == key
  }

  ghost predicate UniqueIds(rs: seq<Record>) {
    forall i, j :: 0 <= i < j < |rs| ==> rs[i].id != rs[j].id
  }

  /** The bundle under a reference is the one the reference was computed from. */
  ghost predicate Sealed(s: State) {
    forall d :: d in s.evidence ==> s.evidence[d].id == d && Sha(s.evidence[d].manifest) == d
  }

  ghost predicate Inv(orgs: Orgs, s: State) {
    && UniqueIds(s.records) && Sealed(s)
    && (forall i :: 0 <= i < |s.records| && s.records[i].key != "" ==> KeyedWell(orgs, s, s.records[i]))
    && (forall key :: IncidentId(key) in s.incidents ==> key != "" && HasRecord(s, key))
  }

  lemma IdsDiffer(a: string, b: string)
    ensures RecordId(a) == RecordId(b) <==> a == b
    ensures IncidentId(a) == IncidentId(b) <==> a == b
    ensures IncidentId(a) != ""
  {
    assert RecordId(a)[|"vr-bridge-"|..] == a && RecordId(b)[|"vr-bridge-"|..] == b;
    assert IncidentId(a)[|"inc-bridge-"|..] == a && IncidentId(b)[|"inc-bridge-"|..] == b;
  }

  lemma {:induction false} PutKeeps(rs: seq<Record>, r: Record)
    requires UniqueIds(rs)
    ensures UniqueIds(PutInto(rs, r))
    ensures forall x :: x in PutInto(rs, r) <==> x == r || (x in rs && x.id != r.id)
  {
    if rs != [] {
      assert forall i :: 0 < i < |rs| ==> rs[i] == rs[1..][i - 1];
      assert rs == [rs[0]] + rs[1..];
      if rs[0].id == r.id {
        forall x | x in rs[1..] ensures x.id != r.id {
          var k :| 0 <= k < |rs[1..]| && rs[1..][k] == x;
          assert rs[k + 1] == x;
        }
      } else {
        PutKeeps(rs[1..], r);
        var rest := PutInto(rs[1..], r);
        forall j | 0 <= j < |rest| ensures rest[j].id != rs[0].id {
          assert rest[j] in rest;
          if rest[j] != r { var k :| 0 <= k < |rs[1..]| && rs[1..][k] == rest[j]; assert rs[k + 1] == rest[j]; }
        }
      }
    }
  }

  lemma {:induction false} ByKeyFinds(rs: seq<Record>, key: string, org: string)
    ensures forall r :: r in ByKey(rs, key, org) <==> r in rs && r.key == key && r.org == org
    ensures ByKey(rs, key, org) == [] <==> forall r :: r in rs ==> r.key != key || r.org != org
  {
    if rs != [] {
      ByKeyFinds(rs[1..], key, org);
      assert rs == [rs[0]] + rs[1..];
    }
  }

  lemma HasRecordIn(s: State, key: string)
    ensures HasRecord(s, key) <==> exists r :: r in s.records && r.key == key
  {
    if HasRecord(s, key) {
      var i :| 0 <= i < |s.records| && s.records[i].key == key;
      assert s.records[i] in s.records;
    }
  }

  /** The invariant over members instead of positions. */
  lemma InvMembers(orgs: Orgs, s: State)
    requires UniqueIds(s.records) && Sealed(s)
    ensures Inv(orgs, s) <==>
      && (forall r :: r in s.records && r.key != "" ==> KeyedWell(orgs, s, r))
      && (forall key :: IncidentId(key) in s.incidents ==> key != "" && exists r :: r in s.records && r.key == key)
  {
    forall key ensures HasRecord(s, key) <==> exists r :: r in s.records && r.key == key { HasRecordIn(s, key); }
    if forall i :: 0 <= i < |s.records| && s.records[i].key != "" ==> KeyedWell(orgs, s, s.records[i]) {
      forall r | r in s.records && r.key != "" ensures KeyedWell(orgs, s, r) {
        var i :| 0 <= i < |s.records| && s.records[i] == r;
      }
    }
    if forall r :: r in s.records && r.key != "" ==> KeyedWell(orgs, s, r) {
      forall i | 0 <= i < |s.records| && s.records[i].key != "" ensures KeyedWell(orgs, s, s.records[i]) {
        assert s.records[i] in s.records;
      }
    }
  }

  /** Writing a bundle changes nothing but the evidence it adds. */
  lemma PutBundleKeeps(orgs: Orgs, s: State, b: Bundle)
    requires Inv(orgs, s) && b.id == Sha(b.manifest)
    ensures Inv(orgs, Apply(s, PutBundle(b))) && b.id in Apply(s, PutBundle(b)).evidence
  {
    var u := Apply(s, PutBundle(b));
    assert forall key :: HasRecord(u, key) <==> HasRecord(s, key);
    forall i | 0 <= i < |u.records| && u.records[i].key != "" ensures KeyedWell(orgs, u, u.records[i]) {
      assert KeyedWell(orgs, s, s.records[i]);
    }
  }

  /** Writing the record of a key keeps the invariant when the key had no incident yet, or keeps pointing to its own. */
  lemma PutRecordKeeps(orgs: Orgs, s: State, r: Record, key: string)
    requires Inv(orgs, s) && r.id == RecordId(key) && key != "" && (r.key == "" || r.key == key)
    requires forall x :: x in s.records && x.id == r.id ==> x.key == "" || x.key == r.key
    requires r.key == key ==> KeyedWell(orgs, s, r)
    ensures Inv(orgs, Apply(s, PutRecord(r)))
  {
    var u := Apply(s, PutRecord(r));
    PutKeeps(s.records, r);
    InvMembers(orgs, s);
    InvMembers(orgs, u);
    forall x | x in u.records && x.key != "" ensures KeyedWell(orgs, u, x) {
      assert x == r || x in s.records;
      assert KeyedWell(orgs, s, x);
    }
    forall k | IncidentId(k) in u.incidents ensures k != "" && exists x :: x in u.records && x.key == k {
      var x :| x in s.records && x.key == k;
      if x.id == r.id { assert r in u.records && r.key == k; } else { assert x in u.records; }
    }
  }

  lemma PutIncidentKeeps(orgs: Orgs, s: State, r: Record, i: Incident)
    requires Inv(orgs, s) && r in s.records && r.key != "" && i.id == IncidentId(r.key) && i.org == r.org
    requires i.lineage.Some? ==> r.promotedTo != "" && i.lineage.value.bundleRef in s.evidence
    ensures Inv(orgs, Apply(s, PutIncident(i)))
  {
    var u := Apply(s, PutIncident(i));
    InvMembers(orgs, s);
    InvMembers(orgs, u);
    forall x | x in u.records && x.key != "" ensures KeyedWell(orgs, u, x) {
      IdsDiffer(x.key, r.key);
      assert KeyedWell(orgs, s, x);
      if x.key == r.key {
        assert x.id == r.id;
        SameIdSameRecord(s.records, x, r);
      }
    }
    forall k | IncidentId(k) in u.incidents ensures k != "" && exists x :: x in u.records && x.key == k {
      IdsDiffer(k, r.key);
      if k == r.key { assert r in u.records; }
    }
  }

  lemma SameIdSameRecord(rs: seq<Record>, x: Record, y: Record)
    requires UniqueIds(rs) && x in rs && y in rs && x.id == y.id
    ensures x == y
  {
    var i :| 0 <= i < |rs| && rs[i] == x;
    var j :| 0 <= j < |rs| && rs[j] == y;
  }

  // ---- The stages of a first promotion ----

  lemma OrgOfKey(orgs: Orgs, key: string, a: string, b: string)
    requires a in orgs && b in orgs && StartsWith(key, a + "|") && StartsWith(key, b + "|")
    ensures a == b
  {
    assert key == a + "|" + key[|a| + 1..] == b + "|" + key[|b| + 1..];
    JoinIff(a, key[|a| + 1..], b, key[|b| + 1..], "|");
  }

  lemma KeyStart(c: Candidate)
    ensures StartsWith(BridgeKey(c), c.org + "|") && BridgeKey(c) != ""
  {
    assert BridgeKey(c) == c.org + "|" + (c.env + "|" + c.id);
    assert BridgeKey(c)[..|c.org + "|"|] == c.org + "|";
  }

  /** The listing by key and organization finds the record of the key, whatever its position. */
  lemma ListingIsRecord(orgs: Orgs, s: State, c: Candidate)
    requires Inv(orgs, s) && c.org in orgs
    ensures ByKey(s.records, BridgeKey(c), c.org) != [] <==> HasRecord(s, BridgeKey(c))
    ensures forall r :: r in ByKey(s.records, BridgeKey(c), c.org) ==> r in s.records && r.key == BridgeKey(c)
  {
    var key := BridgeKey(c);
    KeyStart(c);
    ByKeyFinds(s.records, key, c.org);
    HasRecordIn(s, key);
    InvMembers(orgs, s);
    if HasRecord(s, key) {
      var r :| r in s.records && r.key == key;
      OrgOfKey(orgs, key, r.org, c.org);
      assert r in ByKey(s.records, key, c.org);
    }
    if ByKey(s.records, key, c.org) != [] {
      assert ByKey(s.records, key, c.org)[0] in ByKey(s.records, key, c.org);
    }
  }

  /** A write of a first promotion under a key. */
  ghost predicate WritesFor(x: Write, key: string) {
    match x
    case PutBundle(b) => b.id == Sha(b.manifest)
    case PutRecord(r) => r.id == RecordId(key) && (r.key == "" || r.key == key)
    case PutIncident(i) => i.id == IncidentId(key)
  }

  /** Everything stored under a key, and all evidence, is the same in both states or only added to. */
  ghost predicate Keeps(s: State, u: State, key: string) {
    && (forall r: Record :: r.key == key ==> (r in s.records <==> r in u.records))
    && (IncidentId(key) in s.incidents <==> IncidentId(key) in u.incidents)
    && (IncidentId(key) in s.incidents ==> u.incidents[IncidentId(key)] == s.incidents[IncidentId(key)])
    && (forall d :: d in s.evidence ==> d in u.evidence && u.evidence[d] == s.evidence[d])
  }

  lemma OtherKeyKept(orgs: Orgs, s: State, x: Write, key: string, other: string)
    requires Inv(orgs, s) && WritesFor(x, key) && other != key && other != ""
    ensures Keeps(s, Apply(s, x), other)
  {
    IdsDiffer(key, other);
    match x
    case PutBundle(b) =>
      if b.id in s.evidence { assert s.evidence[b.id] == b; }
    case PutRecord(r) =>
      PutKeeps(s.records, r);
      InvMembers(orgs, s);
      forall y: Record | y.key == other ensures y in s.records <==> y in Apply(s, x).records {
        if y in s.records { assert KeyedWell(orgs, s, y); }
      }
    case PutIncident(i) =>
  }

  ghost predicate Linked(s: State, key: string) {
    IncidentId(key) in s.incidents && s.incidents[IncidentId(key)].lineage.Some?
  }

  ghost predicate Unstarted(orgs: Orgs, s: State, c: Candidate, key: string, b: Bundle) {
    && Inv(orgs, s) && !HasRecord(s, key) && key != "" && b.id == Sha(b.manifest)
    && c.org in orgs && StartsWith(key, c.org + "|")
  }

  /** The state after the first writes of a first promotion. */
  function After(s: State, c: Candidate, key: string, b: Bundle, a: Authority, n: nat): State
    requires n <= 6
  {
    ApplyAll(s, NewWrites(c, key, b, a)[..n])
  }

  lemma AfterStep(s: State, c: Candidate, key: string, b: Bundle, a: Authority, n: nat)
    requires n < 6
    ensures After(s, c, key, b, a, n + 1) == Apply(After(s, c, key, b, a, n), NewWrites(c, key, b, a)[n])
    ensures After(s, c, key, b, a, 0) == s && After(s, c, key, b, a, 6) == ApplyAll(s, NewWrites(c, key, b, a))
  {
    OneMoreWrite(s, NewWrites(c, key, b, a), n);
    NoWrites(s, NewWrites(c, key, b, a));
  }

  /** Before the record exists under its key. */
  lemma Stage1(orgs: Orgs, s: State, c: Candidate, key: string, b: Bundle, a: Authority)
    requires Unstarted(orgs, s, c, key, b)
    ensures var u := After(s, c, key, b, a, 1);
      Inv(orgs, u) && u.records == s.records && !HasRecord(u, key) && b.id in u.evidence
  {
    AfterStep(s, c, key, b, a, 0);
    PutBundleKeeps(orgs, s, b);
  }

  lemma NoneOfItsId(orgs: Orgs, s: State, key: string)
    requires Inv(orgs, s) && !HasRecord(s, key)
    ensures forall x :: x in s.records && x.id == RecordId(key) ==> x.key == ""
  {
    HasRecordIn(s, key);
    InvMembers(orgs, s);
    forall x | x in s.records && x.id == RecordId(key) ensures x.key == "" {
      if x.key != "" {
        assert KeyedWell(orgs, s, x);
        IdsDiffer(x.key, key);
      }
    }
  }

  lemma Stage2(orgs: Orgs, s: State, c: Candidate, key: string, b: Bundle, a: Authority)
    requires Unstarted(orgs, s, c, key, b)
    ensures var u := After(s, c, key, b, a, 2);
      Inv(orgs, u) && !HasRecord(u, key) && b.id in u.evidence && BareRecord(c, key, b) in u.records
  {
    Stage1(orgs, s, c, key, b, a);
    var s1, s2 := After(s, c, key, b, a, 1), After(s, c, key, b, a, 2);
    AfterStep(s, c, key, b, a, 1);
    NoneOfItsId(orgs, s1, key);
    PutRecordKeeps(orgs, s1, BareRecord(c, key, b), key);
    PutKeeps(s1.records, BareRecord(c, key, b));
    HasRecordIn(s1, key);
    HasRecordIn(s2, key);
  }

  /** The record is visible and has no incident. */
  lemma Stage3(orgs: Orgs, s: State, c: Candidate, key: string, b: Bundle, a: Authority)
    requires Unstarted(orgs, s, c, key, b)
    ensures var u := After(s, c, key, b, a, 3);
      && Inv(orgs, u) && b.id in u.evidence && BareRecord(c, key, b).(key := key) in u.records && HasRecord(u, key)
      && IncidentId(key) !in u.incidents
  {
    Stage2(orgs, s, c, key, b, a);
    var s2, s3, r := After(s, c, key, b, a, 2), After(s, c, key, b, a, 3), BareRecord(c, key, b).(key := key);
    AfterStep(s, c, key, b, a, 2);
    OnlyBareOfItsId(s2, c, key, b);
    IdsDiffer(key, key);
    PutRecordKeeps(orgs, s2, r, key);
    PutKeeps(s2.records, r);
    HasRecordIn(s3, key);
  }

  lemma Stage4(orgs: Orgs, s: State, c: Candidate, key: string, b: Bundle, a: Authority)
    requires Unstarted(orgs, s, c, key, b)
    ensures var u := After(s, c, key, b, a, 4);
      && Inv(orgs, u) && b.id in u.evidence && BareRecord(c, key, b).(key := key) in u.records && HasRecord(u, key)
      && IncidentId(key) in u.incidents && u.incidents[IncidentId(key)] == Incident(IncidentId(key), c.org, None)
  {
    Stage3(orgs, s, c, key, b, a);
    AfterStep(s, c, key, b, a, 3);
    PutIncidentKeeps(
      orgs, After(s, c, key, b, a, 3), BareRecord(c, key, b).(key := key), Incident(IncidentId(key), c.org, None));
  }

  function Pointing(c: Candidate, key: string, b: Bundle): Record {
    BareRecord(c, key, b).(key := key, promotedTo := IncidentId(key))
  }

  lemma Stage5(orgs: Orgs, s: State, c: Candidate, key: string, b: Bundle, a: Authority)
    requires Unstarted(orgs, s, c, key, b)
    ensures var u := After(s, c, key, b, a, 5);
      && Inv(orgs, u) && b.id in u.evidence && Pointing(c, key, b) in u.records && HasRecord(u, key)
      && IncidentId(key) in u.incidents && u.incidents[IncidentId(key)] == Incident(IncidentId(key), c.org, None)
  {
    Stage4(orgs, s, c, key, b, a);
    var s4, s5, r := After(s, c, key, b, a, 4), After(s, c, key, b, a, 5), Pointing(c, key, b);
    AfterStep(s, c, key, b, a, 4);
    OnlyOneOfItsId(s4, BareRecord(c, key, b).(key := key));
    PutRecordKeeps(orgs, s4, r, key);
    PutKeeps(s4.records, r);
    HasRecordIn(s5, key);
  }

  /** The incident is linked. */
  lemma Stage6(orgs: Orgs, s: State, c: Candidate, key: string, b: Bundle, a: Authority)
    requires Unstarted(orgs, s, c, key, b)
    ensures var u := After(s, c, key, b, a, 6); Inv(orgs, u) && HasRecord(u, key) && Done(u, key, b.id)
  {
    Stage5(orgs, s, c, key, b, a);
    var s5, i := After(s, c, key, b, a, 5), NewWrites(c, key, b, a)[5].incident;
    AfterStep(s, c, key, b, a, 5);
    IdsDiffer(key, key);
    PutIncidentKeeps(orgs, s5, Pointing(c, key, b), i);
    HasRecordIn(After(s, c, key, b, a, 6), key);
    assert Pointing(c, key, b) in After(s, c, key, b, a, 6).records;
  }

  /** All stages: the third write makes the record, the sixth links its incident. */
  lemma Stages(orgs: Orgs, s: State, c: Candidate, key: string, b: Bundle, a: Authority, n: nat)
    requires Unstarted(orgs, s, c, key, b) && n <= 6
    ensures var u := After(s, c, key, b, a, n);
      && Inv(orgs, u) && (n <= 2 <==> !HasRecord(u, key)) && (n >= 3 ==> (Linked(u, key) <==> n == 6))
      && (n == 6 ==> Done(u, key, b.id))
  {
    if n == 0 { AfterStep(s, c, key, b, a, 0); }
    else if n == 1 { Stage1(orgs, s, c, key, b, a); }
    else if n == 2 { Stage2(orgs, s, c, key, b, a); }
    else if n == 3 { Stage3(orgs, s, c, key, b, a); }
    else if n == 4 { Stage4(orgs, s, c, key, b, a); }
    else if n == 5 { Stage5(orgs, s, c, key, b, a); }
    else { Stage6(orgs, s, c, key, b, a); }
  }

  lemma OnlyBareOfItsId(s: State, c: Candidate, key: string, b: Bundle)
    requires UniqueIds(s.records) && BareRecord(c, key, b) in s.records
    ensures forall x :: x in s.records && x.id == RecordId(key) ==> x.key == ""
  {
    forall x | x in s.records && x.id == RecordId(key) ensures x.key == "" {
      SameIdSameRecord(s.records, x, BareRecord(c, key, b));
    }
  }

  lemma OnlyOneOfItsId(s: State, r: Record)
    requires UniqueIds(s.records) && r in s.records
    ensures forall x :: x in s.records && x.id == r.id ==> x.key == r.key
  {
    forall x | x in s.records && x.id == r.id ensures x.key == r.key {
      SameIdSameRecord(s.records, x, r);
    }
  }

  /** A completed promotion: record, incident and stored bundle of a key, linked. */
  ghost predicate Done(s: State, key: string, bundleRef: Digest) {
    && (exists r :: r in s.records && r.key == key && r.id == RecordId(key) && r.promotedTo == IncidentId(key))
    && Linked(s, key) && s.incidents[IncidentId(key)].lineage.value.bundleRef == bundleRef && bundleRef in s.evidence
  }

  // ---- Any promotion ----

  /** An eligible candidate of a request, with the key it promotes under. */
  ghost predicate Serves(orgs: Orgs, q: Request, c: Candidate) {
    FindCandidate(q.world, q.candidate, q.org) == Some(c) && Eligible(q.world, c, q.org) && q.org in orgs
  }

  lemma {:induction false} RunOfWritesKeeps(orgs: Orgs, s: State, xs: seq<Write>, key: string, other: string)
    requires forall n :: 0 <= n <= |xs| ==> Inv(orgs, ApplyAll(s, xs[..n]))
    requires forall n :: 0 <= n < |xs| ==> WritesFor(xs[n], key)
    requires other != key && other != ""
    ensures Keeps(s, ApplyAll(s, xs), other)
  {
    if xs != [] {
      var init := xs[..|xs| - 1];
      forall n | 0 <= n <= |init| ensures Inv(orgs, ApplyAll(s, init[..n])) { assert init[..n] == xs[..n]; }
      RunOfWritesKeeps(orgs, s, init, key, other);
      assert xs[..|xs| - 1] == init;
      OtherKeyKept(orgs, ApplyAll(s, init), xs[|xs| - 1], key, other);
    }
  }

  /** A first promotion that may go ahead. */
  ghost predicate MayStart(orgs: Orgs, s: State, c: Candidate, w: World) {
    Inv(orgs, s) && Eligible(w, c, c.org) && c.org in orgs && !HasRecord(s, BridgeKey(c))
  }

  ghost function BundleOf(w: World, c: Candidate): Bundle
    requires Eligible(w, c, c.org)
  {
    Freeze(w, c, FindDer(w, c).value, BridgeKey(c), c.level, ResolveAuthority(w, c, c.org).value)
  }

  ghost function FirstAnswer(w: World, c: Candidate): Outcome
    requires Eligible(w, c, c.org)
  {
    Success(BridgeKey(c), RecordId(BridgeKey(c)), true, BundleOf(w, c).id, IncidentId(BridgeKey(c)))
  }

  ghost function FirstWrites(w: World, c: Candidate): seq<Write>
    requires Eligible(w, c, c.org)
  {
    NewWrites(c, BridgeKey(c), BundleOf(w, c), ResolveAuthority(w, c, c.org).value)
  }

  lemma FirstPlan(orgs: Orgs, s: State, c: Candidate, w: World)
    requires MayStart(orgs, s, c, w)
    ensures Plan(s, w, c, c.org) == (FirstWrites(w, c), FirstAnswer(w, c))
    ensures |FirstWrites(w, c)| == 6 && Unstarted(orgs, s, c, BridgeKey(c), BundleOf(w, c))
  {
    ListingIsRecord(orgs, s, c);
    KeyStart(c);
  }

  /** After any number of the six writes the invariant holds; the third makes the record, the last completes it. */
  lemma StageKeeps(orgs: Orgs, s: State, c: Candidate, w: World, n: nat)
    requires MayStart(orgs, s, c, w) && n <= 6 == |FirstWrites(w, c)|
    ensures var u := ApplyAll(s, FirstWrites(w, c)[..n]);
      Inv(orgs, u) && (n <= 2 <==> !HasRecord(u, BridgeKey(c))) && (n >= 3 ==> (Linked(u, BridgeKey(c)) <==> n == 6))
    ensures n == 6 ==> Done(ApplyAll(s, FirstWrites(w, c)[..n]), BridgeKey(c), BundleOf(w, c).id)
  {
    FirstPlan(orgs, s, c, w);
    Stages(orgs, s, c, BridgeKey(c), BundleOf(w, c), ResolveAuthority(w, c, c.org).value, n);
  }

  /** A first promotion leaves what is stored under every other key alone. */
  lemma StageKeepsOthers(orgs: Orgs, s: State, c: Candidate, w: World, n: nat, other: string)
    requires MayStart(orgs, s, c, w) && n <= 6 == |FirstWrites(w, c)| && other != BridgeKey(c) && other != ""
    ensures Keeps(s, ApplyAll(s, FirstWrites(w, c)[..n]), other)
  {
    var key, xs := BridgeKey(c), FirstWrites(w, c)[..n];
    forall k | 0 <= k <= n ensures Inv(orgs, ApplyAll(s, xs[..k])) {
      assert xs[..k] == FirstWrites(w, c)[..k];
      StageKeeps(orgs, s, c, w, k);
    }
    FirstWritesFor(w, c);
    RunOfWritesKeeps(orgs, s, xs, key, other);
  }

  lemma FirstWritesFor(w: World, c: Candidate)
    requires Eligible(w, c, c.org)
    ensures forall n :: 0 <= n < |FirstWrites(w, c)| ==> WritesFor(FirstWrites(w, c)[n], BridgeKey(c))
  {
  }

  /** How many writes of a first promotion happen. */
  function Reached(q: Request): nat {
    if q.crash.Some? && q.crash.value < 6 then q.crash.value else 6
  }

  lemma FirstPromotion(orgs: Orgs, s: State, c: Candidate, q: Request)
    requires Serves(orgs, q, c) && MayStart(orgs, s, c, q.world)
    ensures |FirstWrites(q.world, c)| == 6
    ensures Promote(s, q).0 == ApplyAll(s, FirstWrites(q.world, c)[..Reached(q)])
    ensures q.crash.None? ==> Promote(s, q).1 == FirstAnswer(q.world, c)
  {
    FirstPlan(orgs, s, c, q.world);
    assert FirstWrites(q.world, c)[..6] == FirstWrites(q.world, c);
  }

  lemma FirstPromotionKeeps(orgs: Orgs, s: State, c: Candidate, q: Request)
    requires Serves(orgs, q, c) && MayStart(orgs, s, c, q.world)
    ensures Inv(orgs, Promote(s, q).0)
    ensures forall key :: key != "" && HasRecord(s, key) ==> Keeps(s, Promote(s, q).0, key)
  {
    FirstPromotion(orgs, s, c, q);
    StageKeeps(orgs, s, c, q.world, Reached(q));
    forall key | key != "" && HasRecord(s, key) ensures Keeps(s, Promote(s, q).0, key) {
      StageKeepsOthers(orgs, s, c, q.world, Reached(q), key);
    }
  }

  lemma RepeatKeeps(orgs: Orgs, s: State, c: Candidate, q: Request)
    requires Serves(orgs, q, c) && Inv(orgs, s) && HasRecord(s, BridgeKey(c))
    ensures Promote(s, q).0 == s
  {
    ListingIsRecord(orgs, s, c);
  }

  /** Every promotion, crashed or not, keeps the invariant and everything stored under a key that has a record. */
  lemma PromotionKeeps(orgs: Orgs, s: State, q: Request)
    requires Inv(orgs, s) && q.org in orgs
    ensures Inv(orgs, Promote(s, q).0)
    ensures forall key :: key != "" && HasRecord(s, key) ==> Keeps(s, Promote(s, q).0, key)
  {
    var found := FindCandidate(q.world, q.candidate, q.org);
    if found.Some? && Eligible(q.world, found.value, q.org) {
      if HasRecord(s, BridgeKey(found.value)) {
        RepeatKeeps(orgs, s, found.value, q);
      } else {
        FirstPromotionKeeps(orgs, s, found.value, q);
      }
    } else {
      assert Promote(s, q).0 == s;
    }
  }

  /** A success leaves the record, the incident and the stored bundle it names, under the identifiers of the key. */
  lemma SuccessIsBacked(orgs: Orgs, s: State, q: Request)
    requires Inv(orgs, s) && q.org in orgs && Promote(s, q).1.Success?
    ensures var (u, answer) := Promote(s, q);
      && answer.recordId == RecordId(answer.key) && answer.incidentId == IncidentId(answer.key) && answer.key != ""
      && Done(u, answer.key, answer.bundleRef)
      && (answer.isNew <==> !HasRecord(s, answer.key))
  {
    var c := FindCandidate(q.world, q.candidate, q.org).value;
    var key := BridgeKey(c);
    KeyStart(c);
    ListingIsRecord(orgs, s, c);
    if HasRecord(s, key) {
      var r := ByKey(s.records, key, q.org)[0];
      assert r in ByKey(s.records, key, q.org);
      InvMembers(orgs, s);
      assert KeyedWell(orgs, s, r);
      assert ApplyAll(s, []) == s;
      assert Done(s, key, s.incidents[IncidentId(key)].lineage.value.bundleRef);
    } else {
      FirstPromotion(orgs, s, c, q);
      StageKeeps(orgs, s, c, q.world, 6);
    }
  }

  lemma DoneStays(s: State, u: State, key: string, bundleRef: Digest)
    requires Keeps(s, u, key) && Done(s, key, bundleRef)
    ensures Done(u, key, bundleRef)
  {
    var r :| r in s.records && r.key == key && r.id == RecordId(key) && r.promotedTo == IncidentId(key);
    assert r in u.records;
  }

  /** A completed key answers every later success with the same identifiers, and never as a new record. */
  lemma DoneAnswers(orgs: Orgs, s: State, q: Request, key: string, bundleRef: Digest)
    requires Inv(orgs, s) && q.org in orgs && key != "" && Done(s, key, bundleRef)
    ensures Done(Promote(s, q).0, key, bundleRef)
    ensures var answer := Promote(s, q).1;
      answer.Success? && answer.key == key ==> answer == Success(key, RecordId(key), false, bundleRef, IncidentId(key))
  {
    HasRecordIn(s, key);
    PromotionKeeps(orgs, s, q);
    DoneStays(s, Promote(s, q).0, key, bundleRef);
    if Promote(s, q).1.Success? && Promote(s, q).1.key == key {
      SuccessIsBacked(orgs, s, q);
    }
  }

  // ---- Runs ----

  ghost function Exec(s: State, qs: seq<Request>): (State, seq<Outcome>)
    decreases qs
  {
    if qs == [] then (s, [])
    else
      var (s', o) := Promote(s, qs[0]);
      var (s'', os) := Exec(s', qs[1..]);
      (s'', [o] + os)
  }

  ghost predicate Within(orgs: Orgs, qs: seq<Request>) {
    forall i :: 0 <= i < |qs| ==> qs[i].org in orgs
  }

  lemma {:induction false} RunKeeps(orgs: Orgs, s: State, qs: seq<Request>)
    requires Inv(orgs, s) && Within(orgs, qs)
    ensures Inv(orgs, Exec(s, qs).0) && |Exec(s, qs).1| == |qs|
    decreases qs
  {
    if qs != [] {
      PromotionKeeps(orgs, s, qs[0]);
      RunKeeps(orgs, Promote(s, qs[0]).0, qs[1..]);
    }
  }

  lemma {:induction false} DoneThroughRun(orgs: Orgs, s: State, qs: seq<Request>, key: string, bundleRef: Digest)
    requires Inv(orgs, s) && Within(orgs, qs) && key != "" && Done(s, key, bundleRef)
    ensures Done(Exec(s, qs).0, key, bundleRef)
    ensures forall o :: o in Exec(s, qs).1 && o.Success? && o.key == key ==>
      o == Success(key, RecordId(key), false, bundleRef, IncidentId(key))
    decreases qs
  {
    if qs != [] {
      DoneAnswers(orgs, s, qs[0], key, bundleRef);
      PromotionKeeps(orgs, s, qs[0]);
      DoneThroughRun(orgs, Promote(s, qs[0]).0, qs[1..], key, bundleRef);
    }
  }

  lemma ExecStep(orgs: Orgs, s: State, qs: seq<Request>, i: nat)
    requires Inv(orgs, s) && Within(orgs, qs) && i < |qs|
    ensures var (s', o) := Promote(s, qs[0]);
      && Exec(s, qs).0 == Exec(s', qs[1..]).0 && |Exec(s, qs).1| == |qs| == 1 + |Exec(s', qs[1..]).1|
      && Exec(s, qs).1[i] == if i == 0 then o else Exec(s', qs[1..]).1[i - 1]
  {
    RunKeeps(orgs, s, qs);
  }

  /**
   In every run, a success names a bundle still stored at the end, and later successes of its key repeat its answer.
   */
  lemma {:induction false} SuccessesAgree(orgs: Orgs, s: State, qs: seq<Request>, i: nat, j: nat)
    requires Inv(orgs, s) && Within(orgs, qs) && i < |qs| && |Exec(s, qs).1| == |qs| && Exec(s, qs).1[i].Success?
    ensures var (u, os) := Exec(s, qs);
      && Done(u, os[i].key, os[i].bundleRef)
      && (i < j < |qs| && os[j].Success? && os[j].key == os[i].key ==> os[j] == os[i].(isNew := false))
    decreases qs
  {
    var (s', o) := Promote(s, qs[0]);
    PromotionKeeps(orgs, s, qs[0]);
    ExecStep(orgs, s, qs, i);
    if i < j < |qs| { ExecStep(orgs, s, qs, j); }
    if i == 0 {
      SuccessIsBacked(orgs, s, qs[0]);
      DoneThroughRun(orgs, s', qs[1..], o.key, o.bundleRef);
    } else {
      SuccessesAgree(orgs, s', qs[1..], i - 1, if j > 0 then j - 1 else 0);
    }
  }

  /** From an empty store: at most one record per bridge key, and every incident is the one of a keyed record. */
  lemma OneRecordOneIncident(orgs: Orgs, qs: seq<Request>)
    requires Within(orgs, qs)
    ensures var u := Exec(Initial(), qs).0;
      && (forall x, y :: x in u.records && y in u.records && x.key == y.key != "" ==> x == y)
      && (forall key :: IncidentId(key) in u.incidents ==> HasRecord(u, key))
      && Sealed(u)
  {
    RunKeeps(orgs, Initial(), qs);
    var u := Exec(Initial(), qs).0;
    InvMembers(orgs, u);
    forall x, y | x in u.records && y in u.records && x.key == y.key != "" ensures x == y {
      assert KeyedWell(orgs, u, x) && KeyedWell(orgs, u, y);
      SameIdSameRecord(u.records, x, y);
    }
  }

  // ---- Crashes ----

  /** A record whose incident was never linked. */
  ghost predicate Stuck(s: State, key: string) {
    key != "" && HasRecord(s, key) && !Linked(s, key)
  }

  /** Once stuck, a key stays stuck, and every eligible promotion of it is refused for its incomplete lineage. */
  lemma StuckForever(orgs: Orgs, s: State, q: Request, key: string)
    requires Inv(orgs, s) && q.org in orgs && Stuck(s, key)
    ensures Inv(orgs, Promote(s, q).0) && Stuck(Promote(s, q).0, key)
    ensures forall c :: Serves(orgs, q, c) && BridgeKey(c) == key && q.crash.None? ==>
      Promote(s, q).1 == LineageIncomplete
  {
    PromotionKeeps(orgs, s, q);
    HasRecordIn(s, key);
    HasRecordIn(Promote(s, q).0, key);
    forall c | Serves(orgs, q, c) && BridgeKey(c) == key && q.crash.None? ensures Promote(s, q).1 == LineageIncomplete {
      ListingIsRecord(orgs, s, c);
      var r := ByKey(s.records, key, q.org)[0];
      assert r in ByKey(s.records, key, q.org);
      InvMembers(orgs, s);
      assert KeyedWell(orgs, s, r);
    }
  }

  /**
   Retrying after a crash works exactly when the crash came before the third write, which makes the record visible
   under its key, or after the sixth, which links the incident. In between the key is stuck for good.
   */
  lemma RetryIff(orgs: Orgs, s: State, c: Candidate, q: Request, n: nat, retry: Request, c': Candidate)
    requires Inv(orgs, s) && Serves(orgs, q, c) && q.crash == Some(n) && !HasRecord(s, BridgeKey(c))
    requires Serves(orgs, retry, c') && BridgeKey(c') == BridgeKey(c) && retry.crash.None?
    ensures Promote(Promote(s, q).0, retry).1.Success? <==> n <= 2 || n >= 6
    ensures 3 <= n < 6 ==> Stuck(Promote(s, q).0, BridgeKey(c))
  {
    var key := BridgeKey(c);
    KeyStart(c);
    FirstPromotion(orgs, s, c, q);
    StageKeeps(orgs, s, c, q.world, Reached(q));
    var u := Promote(s, q).0;
    if n <= 2 {
      FirstPromotion(orgs, u, c', retry);
    } else if n < 6 {
      StuckForever(orgs, u, retry, key);
    } else {
      LinkedAnswers(orgs, u, retry, c');
    }
  }

  /** Promoting a completed key succeeds. */
  lemma LinkedAnswers(orgs: Orgs, s: State, q: Request, c: Candidate)
    requires Inv(orgs, s) && Serves(orgs, q, c) && q.crash.None?
    requires HasRecord(s, BridgeKey(c)) && Linked(s, BridgeKey(c))
    ensures Promote(s, q).1.Success?
  {
    ListingIsRecord(orgs, s, c);
    var r := ByKey(s.records, BridgeKey(c), q.org)[0];
    assert r in ByKey(s.records, BridgeKey(c), q.org);
    InvMembers(orgs, s);
    assert KeyedWell(orgs, s, r);
    OrgOfRecord(orgs, r, c);
  }

  lemma OrgOfRecord(orgs: Orgs, r: Record, c: Candidate)
    requires r.key == BridgeKey(c) && r.org in orgs && c.org in orgs && StartsWith(r.key, r.org + "|")
    ensures r.org == c.org
  {
    KeyStart(c);
    OrgOfKey(orgs, r.key, r.org, c.org);
  }

  // ---- Keys that meet ----

  /**
   Two candidates of one organization share a key exactly when one environment and identifier continue the other's.
   */
  lemma KeysMeetIff(c: Candidate, d: Candidate)
    requires c.org == d.org
    ensures BridgeKey(c) == BridgeKey(d) <==> Meets(c.env, c.id, d.env, d.id, "|")
  {
    var x, y := c.env + "|" + c.id, d.env + "|" + d.id;
    assert BridgeKey(c) == c.org + "|" + x && BridgeKey(d) == c.org + "|" + y;
    assert x == BridgeKey(c)[|c.org| + 1..] && y == BridgeKey(d)[|c.org| + 1..];
    JoinIff(c.env, c.id, d.env, d.id, "|");
  }

  /** A candidate that a promotion can serve: it has an environment and an identifier. */
  predicate Named(c: Candidate) {
    c.env != "" && c.id != ""
  }

  ghost predicate SomeKeysMeet(a: string, b: string) {
    exists c: Candidate, d: Candidate ::
      c.org == a && d.org == b && Named(c) && Named(d) && BridgeKey(c) == BridgeKey(d)
  }

  /** Two organizations can share a key exactly when one name continues the other after a separator. */
  lemma OrganizationsMeetIff(a: string, b: string)
    requires a != b
    ensures SomeKeysMeet(a, b) <==> StartsWith(a, b + "|") || StartsWith(b, a + "|")
  {
    forall c: Candidate, d: Candidate | c.org == a && d.org == b && BridgeKey(c) == BridgeKey(d)
      ensures StartsWith(a, b + "|") || StartsWith(b, a + "|")
    {
      assert BridgeKey(c) == a + "|" + (c.env + "|" + c.id) && BridgeKey(d) == b + "|" + (d.env + "|" + d.id);
      JoinIff(a, c.env + "|" + c.id, b, d.env + "|" + d.id, "|");
    }
    if StartsWith(b, a + "|") {
      Continued(a, b);
      assert Named(Shorter(a, b)) && Named(Plain(b, "e", "i"));
    } else if StartsWith(a, b + "|") {
      Continued(b, a);
      assert Named(Shorter(b, a)) && Named(Plain(a, "e", "i"));
    }
  }

  /** A candidate with evidence at E3 and no references of its own. */
  function Plain(org: string, env: string, id: string): Candidate {
    Candidate(id, org, env, "d", "s", "", [], [], [], "E3", "", "", "")
  }

  /** The candidate of the shorter organization that meets the plain one of the longer. */
  function Shorter(a: string, b: string): Candidate
    requires StartsWith(b, a + "|")
  {
    var rest := b[|a| + 1..];
    if rest == "" then Plain(a, "|e", "i") else Plain(a, rest, "e|i")
  }

  lemma Continued(a: string, b: string)
    requires StartsWith(b, a + "|")
    ensures BridgeKey(Shorter(a, b)) == BridgeKey(Plain(b, "e", "i")) && Named(Shorter(a, b))
  {
    var rest := b[|a| + 1..];
    assert b == a + "|" + rest;
    if rest == "" {
      assert a + "|" + "|e" + "|" + "i" == a + "|" + "" + "|" + "e" + "|" + "i";
    } else {
      assert a + "|" + rest + "|" + "e|i" == a + "|" + rest + "|" + "e" + "|" + "i";
    }
  }

  /** A world in which one plain candidate has all it needs. */
  function WorldOf(c: Candidate): World {
    World(
      map[c.id := c], map["d" := Der(c.org, c.env, ["r"], [], "")], map["s" := SweepRun(c.org, c.env, "f")],
      map["f" := Definition(c.org, c.env)], map["r" := Resource("r", c.org, c.env, "", "", "")], map[], map[], [],
      [Delegation("g", c.org, c.env, true, true, "", Always, "", None, [])], 0)
  }

  function Promoting(c: Candidate): Request {
    Request(WorldOf(c), c.id, c.org, None)
  }

  lemma PlainSupports(org: string, env: string, id: string)
    requires env != ""
    ensures var c := Plain(org, env, id);
      SupportingIds(c, FindDer(WorldOf(c), c)) == ["r"] && ResourceFits(WorldOf(c), "r", c, org)
  {
    assert [] + ["r"] == ["r"] && ["r"][..0] == [];
    assert Dedup(["r"]) == [] + ["r"];
  }

  lemma PlainHasAuthority(org: string, env: string, id: string)
    ensures var c := Plain(org, env, id); ResolveAuthority(WorldOf(c), c, org).Some?
  {
    var c := Plain(org, env, id);
    assert Applies(WorldOf(c).delegations[0], WorldOf(c), c, org);
    assert FirstDelegation(WorldOf(c).delegations, WorldOf(c), c, org).Some?;
  }

  lemma PlainIsEligible(org: string, env: string, id: string)
    requires env != ""
    ensures var c := Plain(org, env, id);
      FindCandidate(WorldOf(c), c.id, c.org) == Some(c) && Eligible(WorldOf(c), c, c.org)
  {
    var c := Plain(org, env, id);
    PlainSupports(org, env, id);
    PlainHasAuthority(org, env, id);
    assert DerFits(FindDer(WorldOf(c), c), c, org) && SweepFits(WorldOf(c), c, org);
  }

  lemma RecordsAfter(s: State, c: Candidate, key: string, b: Bundle, a: Authority)
    ensures var r := BareRecord(c, key, b);
      ApplyAll(s, NewWrites(c, key, b, a)).records
        == PutInto(PutInto(PutInto(s.records, r), r.(key := key)), r.(key := key, promotedTo := IncidentId(key)))
  {
    AfterStep(s, c, key, b, a, 0);
    AfterStep(s, c, key, b, a, 1);
    AfterStep(s, c, key, b, a, 2);
    AfterStep(s, c, key, b, a, 3);
    AfterStep(s, c, key, b, a, 4);
    AfterStep(s, c, key, b, a, 5);
  }

  /** When two organizations share a key, promoting for the second erases the first one's record. */
  lemma OrganizationsOverwrite(s: State, q: Request, d: Candidate, other: string)
    requires UniqueIds(s.records) && forall r :: r in s.records && r.key == BridgeKey(d) ==>
      r.id == RecordId(BridgeKey(d))
    requires FindCandidate(q.world, q.candidate, q.org) == Some(d) && Eligible(q.world, d, q.org) && q.crash.None?
    requires ByKey(s.records, BridgeKey(d), q.org) == [] && other != q.org
    requires ByKey(s.records, BridgeKey(d), other) != []
    ensures ByKey(Promote(s, q).0.records, BridgeKey(d), other) == []
  {
    var key, b, a := BridgeKey(d), BundleOf(q.world, d), ResolveAuthority(q.world, d, d.org).value;
    var r := BareRecord(d, key, b);
    RecordsAfter(s, d, key, b, a);
    PutKeeps(s.records, r);
    PutKeeps(PutInto(s.records, r), r.(key := key));
    PutKeeps(PutInto(PutInto(s.records, r), r.(key := key)), r.(key := key, promotedTo := IncidentId(key)));
    ByKeyFinds(Promote(s, q).0.records, key, other);
  }

  lemma OnlyOrg(orgs: Orgs, s: State, key: string, a: string, b: string)
    requires Inv(orgs, s) && orgs == {a} && b != a && key != "" && HasRecord(s, key)
    ensures ByKey(s.records, key, a) != [] && ByKey(s.records, key, b) == []
    ensures UniqueIds(s.records) && forall r :: r in s.records && r.key == key ==> r.id == RecordId(key)
  {
    InvMembers(orgs, s);
    HasRecordIn(s, key);
    ByKeyFinds(s.records, key, a);
    ByKeyFinds(s.records, key, b);
    forall r | r in s.records && r.key == key ensures r.org == a && r.id == RecordId(key) {
      assert KeyedWell(orgs, s, r);
    }
  }

  /** From the empty store: the first promotion of an eligible candidate succeeds and leaves its record. */
  lemma PlainPromotes(org: string, env: string, id: string)
    requires env != ""
    ensures var c := Plain(org, env, id);
      var (s, answer) := Promote(Initial(), Promoting(c));
      && Separate({org}) && Inv({org}, s) && HasRecord(s, BridgeKey(c)) && BridgeKey(c) != ""
      && answer.Success? && answer.key == BridgeKey(c)
  {
    var c := Plain(org, env, id);
    PlainIsEligible(org, env, id);
    KeyStart(c);
    assert Separate({org});
    FirstPromotion({org}, Initial(), c, Promoting(c));
    StageKeeps({org}, Initial(), c, WorldOf(c), 6);
  }

  /**
   For any two organizations whose names meet, a run of two promotions of eligible candidates: the first succeeds, and
   its record is gone after the second.
   */
  lemma MeetingOrganizationsLoseARecord(a: string, b: string)
    requires StartsWith(b, a + "|")
    ensures var c, d := Shorter(a, b), Plain(b, "e", "i");
      var (s, answer) := Promote(Initial(), Promoting(c));
      && answer.Success? && answer.key == BridgeKey(c)
      && Eligible(WorldOf(d), d, b)
      && ByKey(s.records, BridgeKey(c), a) != []
      && ByKey(Promote(s, Promoting(d)).0.records, BridgeKey(c), a) == []
  {
    var c, d := Shorter(a, b), Plain(b, "e", "i");
    Continued(a, b);
    PlainPromotes(a, c.env, c.id);
    assert c == Plain(a, c.env, c.id);
    var s := Promote(Initial(), Promoting(c)).0;
    OnlyOrg({a}, s, BridgeKey(c), a, b);
    PlainIsEligible(b, "e", "i");
    OrganizationsOverwrite(s, Promoting(d), d, a);
  }

  /** Whatever the organizations promote, nobody's record under a key is ever lost. */
  ghost predicate RecordsStay(orgs: set<string>) {
    forall qs: seq<Request>, q: Request, key: string, org: string ::
      (forall x :: x in qs ==> x.org in orgs) && q.org in orgs && key != "" ==>
        RecordStays(Exec(Initial(), qs).0, q, key, org)
  }

  ghost predicate RecordStays(s: State, q: Request, key: string, org: string) {
    ByKey(s.records, key, org) != [] ==> ByKey(Promote(s, q).0.records, key, org) != []
  }

  lemma KeptRecordStays(orgs: Orgs, s: State, q: Request, key: string, org: string)
    requires Inv(orgs, s) && q.org in orgs && key != ""
    ensures RecordStays(s, q, key, org)
  {
    ByKeyFinds(s.records, key, org);
    ByKeyFinds(Promote(s, q).0.records, key, org);
    if ByKey(s.records, key, org) != [] {
      var r := ByKey(s.records, key, org)[0];
      assert r in ByKey(s.records, key, org);
      HasRecordIn(s, key);
      PromotionKeeps(orgs, s, q);
      assert r in Promote(s, q).0.records;
    }
  }

  lemma SeparateKeep(orgs: Orgs, qs: seq<Request>, q: Request, key: string, org: string)
    requires (forall x :: x in qs ==> x.org in orgs) && q.org in orgs && key != ""
    ensures RecordStays(Exec(Initial(), qs).0, q, key, org)
  {
    forall k | 0 <= k < |qs| ensures qs[k].org in orgs { assert qs[k] in qs; }
    RunKeeps(orgs, Initial(), qs);
    KeptRecordStays(orgs, Exec(Initial(), qs).0, q, key, org);
  }

  lemma LosesARecord(orgs: set<string>, first: Request, second: Request, key: string, org: string)
    requires first.org in orgs && second.org in orgs && key != ""
    requires !RecordStays(Promote(Initial(), first).0, second, key, org)
    ensures !RecordsStay(orgs)
  {
    ExecOne(Initial(), first);
    assert !RecordStays(Exec(Initial(), [first]).0, second, key, org);
  }

  lemma MeetingLose(orgs: set<string>, a: string, b: string)
    requires a in orgs && b in orgs && StartsWith(b, a + "|")
    ensures !RecordsStay(orgs)
  {
    var c, d := Shorter(a, b), Plain(b, "e", "i");
    MeetingOrganizationsLoseARecord(a, b);
    KeyStart(c);
    LosesARecord(orgs, Promoting(c), Promoting(d), BridgeKey(c), a);
  }

  /** Runs of these organizations keep every stored record, exactly when no name continues another after a separator. */
  lemma RecordsStayIff(orgs: set<string>)
    ensures RecordsStay(orgs) <==> Separate(orgs)
  {
    if Separate(orgs) {
      forall qs: seq<Request>, q: Request, key: string, org: string
        | (forall x :: x in qs ==> x.org in orgs) && q.org in orgs && key != ""
        ensures RecordStays(Exec(Initial(), qs).0, q, key, org)
      {
        SeparateKeep(orgs, qs, q, key, org);
      }
    } else {
      var a, b :| a in orgs && b in orgs && StartsWith(b, a + "|");
      MeetingLose(orgs, a, b);
    }
  }

  lemma ExecOne(s: State, q: Request)
    ensures Exec(s, [q]).0 == Promote(s, q).0
  {
    assert [q][1..] == [];
  }

  // ---- Keys that meet inside one organization ----

  type Name = (string, string)  // an environment and an identifier

  function NameOf(c: Candidate): Name {
    (c.env, c.id)
  }

  /** No two of these candidates can share a key; one without an environment is never promoted. */
  ghost predicate Apart(names: set<Name>) {
    forall n, m :: n in names && m in names && n.0 != "" && m.0 != "" && Meets(n.0, n.1, m.0, m.1, "|") ==> n == m
  }

  predicate Over(q: Request, org: string, names: set<Name>) {
    q.org == org &&
    match FindCandidate(q.world, q.candidate, q.org)
    case Some(c) => NameOf(c) in names
    case None => true
  }

  /** A success names a bundle that was made for the promoted candidate. */
  ghost predicate NamesItsCandidate(s: State, q: Request) {
    match FindCandidate(q.world, q.candidate, q.org)
    case Some(c) => Promote(s, q).1.Success? ==> NameOf(Promote(s, q).1.bundleRef.manifest.candidate) == NameOf(c)
    case None => true
  }

  ghost predicate RightBundles(org: string, names: set<Name>) {
    forall qs: seq<Request>, q: Request ::
      (forall x :: x in qs ==> Over(x, org, names)) && Over(q, org, names) ==>
        NamesItsCandidate(Exec(Initial(), qs).0, q)
  }

  /** The bundle of a linked incident was made for a candidate with the key of the incident. */
  ghost predicate LinkedFor(i: Incident, org: string, names: set<Name>) {
    i.lineage.Some? ==>
      var c := i.lineage.value.bundleRef.manifest.candidate;
      i.id == IncidentId(BridgeKey(c)) && c.org == org && c.env != "" && NameOf(c) in names
  }

  ghost predicate AllLinkedFor(s: State, org: string, names: set<Name>) {
    forall k :: k in s.incidents ==> s.incidents[k].id == k && LinkedFor(s.incidents[k], org, names)
  }

  ghost predicate WritesLinkedFor(xs: seq<Write>, org: string, names: set<Name>) {
    forall n :: 0 <= n < |xs| && xs[n].PutIncident? ==> LinkedFor(xs[n].incident, org, names)
  }

  lemma {:induction false} WritesKeepLinked(s: State, xs: seq<Write>, org: string, names: set<Name>)
    requires AllLinkedFor(s, org, names) && WritesLinkedFor(xs, org, names)
    ensures AllLinkedFor(ApplyAll(s, xs), org, names)
  {
    if xs != [] {
      var init := xs[..|xs| - 1];
      assert forall n :: 0 <= n < |init| ==> init[n] == xs[n];
      WritesKeepLinked(s, init, org, names);
    }
  }

  lemma FirstWritesLinked(w: World, c: Candidate, n: nat, names: set<Name>)
    requires Eligible(w, c, c.org) && NameOf(c) in names && n <= |FirstWrites(w, c)|
    ensures WritesLinkedFor(FirstWrites(w, c)[..n], c.org, names)
  {
    assert BundleOf(w, c).id.manifest.candidate == c;
  }

  lemma PromotionKeepsLinked(s: State, q: Request, org: string, names: set<Name>)
    requires Inv({org}, s) && AllLinkedFor(s, org, names) && Over(q, org, names)
    ensures AllLinkedFor(Promote(s, q).0, org, names)
  {
    var found := FindCandidate(q.world, q.candidate, q.org);
    if found.Some? && Eligible(q.world, found.value, q.org) {
      var c := found.value;
      if HasRecord(s, BridgeKey(c)) {
        RepeatKeeps({org}, s, c, q);
      } else {
        FirstPromotion({org}, s, c, q);
        FirstWritesLinked(q.world, c, Reached(q), names);
        WritesKeepLinked(s, FirstWrites(q.world, c)[..Reached(q)], org, names);
      }
    } else {
      assert Promote(s, q).0 == s;
    }
  }

  lemma SuccessKey(s: State, q: Request, c: Candidate)
    requires FindCandidate(q.world, q.candidate, q.org) == Some(c) && Promote(s, q).1.Success?
    ensures Promote(s, q).1.key == BridgeKey(c) && c.org == q.org && c.env != ""
  {
  }

  lemma ApartNames(s: State, q: Request, org: string, names: set<Name>)
    requires Inv({org}, s) && AllLinkedFor(s, org, names) && Over(q, org, names) && Apart(names)
    ensures NamesItsCandidate(s, q)
  {
    var found := FindCandidate(q.world, q.candidate, q.org);
    if found.Some? && Promote(s, q).1.Success? {
      var c := found.value;
      var (u, answer) := Promote(s, q);
      SuccessKey(s, q, c);
      SuccessIsBacked({org}, s, q);
      PromotionKeepsLinked(s, q, org, names);
      var b := answer.bundleRef.manifest.candidate;
      assert LinkedFor(u.incidents[IncidentId(answer.key)], org, names);
      IdsDiffer(BridgeKey(b), BridgeKey(c));
      KeysMeetIff(b, c);
    }
  }

  lemma {:induction false} RunKeepsLinked(s: State, qs: seq<Request>, org: string, names: set<Name>)
    requires Inv({org}, s) && AllLinkedFor(s, org, names) && forall x :: x in qs ==> Over(x, org, names)
    ensures Inv({org}, Exec(s, qs).0) && AllLinkedFor(Exec(s, qs).0, org, names)
    decreases qs
  {
    if qs != [] {
      assert qs[0] in qs && forall x :: x in qs[1..] ==> x in qs;
      PromotionKeeps({org}, s, qs[0]);
      PromotionKeepsLinked(s, qs[0], org, names);
      RunKeepsLinked(Promote(s, qs[0]).0, qs[1..], org, names);
    }
  }

  lemma PlainCompletes(org: string, n: Name)
    requires n.0 != ""
    ensures var c := Plain(org, n.0, n.1);
      var (s, first) := Promote(Initial(), Promoting(c));
      && Inv({org}, s) && first.Success? && Done(s, BridgeKey(c), first.bundleRef)
      && first.bundleRef.manifest.candidate == c && BridgeKey(c) != ""
  {
    var c := Plain(org, n.0, n.1);
    PlainPromotes(org, n.0, n.1);
    PlainBundle(org, n);
    SuccessIsBacked({org}, Initial(), Promoting(c));
  }

  lemma PlainBundle(org: string, n: Name)
    requires n.0 != ""
    ensures var c := Plain(org, n.0, n.1);
      var answer := Promote(Initial(), Promoting(c)).1;
      answer.Success? && answer.bundleRef.manifest.candidate == c
  {
    var c := Plain(org, n.0, n.1);
    PlainPromotes(org, n.0, n.1);
    PlainIsEligible(org, n.0, n.1);
    FirstPromotion({org}, Initial(), c, Promoting(c));
    assert BundleOf(WorldOf(c), c).id.manifest.candidate == c;
  }

  lemma PlainServes(org: string, m: Name)
    requires m.0 != ""
    ensures var d := Plain(org, m.0, m.1);
      Serves({org}, Promoting(d), d)
  {
    PlainIsEligible(org, m.0, m.1);
  }

  lemma Repeats(orgs: Orgs, s: State, q: Request, d: Candidate, bundleRef: Digest)
    requires Inv(orgs, s) && Serves(orgs, q, d) && q.crash.None? && BridgeKey(d) != ""
    requires Done(s, BridgeKey(d), bundleRef)
    ensures Promote(s, q).1.Success? && Promote(s, q).1.bundleRef == bundleRef
  {
    HasRecordIn(s, BridgeKey(d));
    LinkedAnswers(orgs, s, q, d);
    SuccessKey(s, q, d);
    DoneAnswers(orgs, s, q, BridgeKey(d), bundleRef);
  }

  lemma PlainKeys(org: string, n: Name, m: Name)
    requires n != m && Meets(n.0, n.1, m.0, m.1, "|")
    ensures BridgeKey(Plain(org, n.0, n.1)) == BridgeKey(Plain(org, m.0, m.1))
  {
    KeysMeetIff(Plain(org, n.0, n.1), Plain(org, m.0, m.1));
  }

  lemma PlainAnswers(org: string, n: Name, q: Request, d: Candidate)
    requires n.0 != "" && BridgeKey(Plain(org, n.0, n.1)) == BridgeKey(d)
    requires Serves({org}, q, d) && q.crash.None?
    ensures var answer := Promote(Promote(Initial(), Promoting(Plain(org, n.0, n.1))).0, q).1;
      answer.Success? && NameOf(answer.bundleRef.manifest.candidate) == n
  {
    PlainCompletes(org, n);
    var (s, first) := Promote(Initial(), Promoting(Plain(org, n.0, n.1)));
    Repeats({org}, s, q, d, first.bundleRef);
  }

  /** Two eligible candidates that meet: promoting the second answers with the bundle of the first. */
  lemma MeetingCandidatesShareABundle(org: string, n: Name, m: Name)
    requires n.0 != "" && m.0 != "" && n != m && Meets(n.0, n.1, m.0, m.1, "|")
    ensures var c, d := Plain(org, n.0, n.1), Plain(org, m.0, m.1);
      var answer := Promote(Promote(Initial(), Promoting(c)).0, Promoting(d)).1;
      answer.Success? && NameOf(answer.bundleRef.manifest.candidate) == n
  {
    var d := Plain(org, m.0, m.1);
    PlainServes(org, m);
    PlainKeys(org, n, m);
    PlainAnswers(org, n, Promoting(d), d);
  }

  lemma SharedBundle(org: string, names: set<Name>, first: Request, second: Request)
    requires Over(first, org, names) && Over(second, org, names)
    requires !NamesItsCandidate(Promote(Initial(), first).0, second)
    ensures !RightBundles(org, names)
  {
    ExecOne(Initial(), first);
    assert !NamesItsCandidate(Exec(Initial(), [first]).0, second);
  }

  /**
   In every run over some candidates of an organization each success names a bundle made for the promoted candidate,
   exactly when no two of them meet.
   */
  lemma RightBundlesIff(org: string, names: set<Name>)
    ensures RightBundles(org, names) <==> Apart(names)
  {
    if Apart(names) {
      forall qs: seq<Request>, q: Request | (forall x :: x in qs ==> Over(x, org, names)) && Over(q, org, names)
        ensures NamesItsCandidate(Exec(Initial(), qs).0, q)
      {
        assert Separate({org});
        RunKeepsLinked(Initial(), qs, org, names);
        ApartNames(Exec(Initial(), qs).0, q, org, names);
      }
    } else {
      var n, m :| n in names && m in names && n.0 != "" && m.0 != "" && Meets(n.0, n.1, m.0, m.1, "|") && n != m;
      MeetingCandidatesShareABundle(org, n, m);
      PlainIsEligible(org, n.0, n.1);
      PlainIsEligible(org, m.0, m.1);
      SharedBundle(org, names, Promoting(Plain(org, n.0, n.1)), Promoting(Plain(org, m.0, m.1)));
    }
  }
}
