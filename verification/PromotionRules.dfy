/**
 What a promotion asks for, said of the stored fields alone: a second definition of authority and eligibility, and
 the proof that a promotion decides by it.
 */
module PromotionRules {
  import opened Wrappers
  import opened Evidence
  import opened Json
  import opened ProofBridge

  // ---- Authority ----

  /** A review of the candidate that counts: not itself a supersession, named by none, and within its period. */
  ghost predicate Counts(r: Review, w: World, c: Candidate, org: string) {
    && r.candidate == c.id && r.org == org && r.env == c.env && r.decision != "supersede"
    && (r.id != "" ==> forall x :: x in w.reviews && x.candidate == c.id && x.org == org && x.env == c.env ==>
      x.supersedes != r.id)
    && Covers(r.period, w.now)
  }

  /** Both ends of a period belong to it; an unreadable one covers nothing. */
  predicate Covers(p: Period, now: int) {
    && p != Malformed
    && !(p.Span? && p.start.Some? && now < p.start.value) && !(p.Span? && p.end.Some? && p.end.value < now)
  }

  /** Created later: the creation texts part at a place where the first one is smaller; ties go to the identifiers. */
  ghost predicate Later(b: Review, a: Review) {
    || (exists k: nat :: SmallerAt(a.createdAt, b.createdAt, k))
    || (a.createdAt == b.createdAt && exists k: nat :: SmallerAt(a.id, b.id, k))
  }

  lemma LaterIsEarlier(b: Review, a: Review)
    ensures Later(b, a) <==> Earlier(a, b)
  {
    LessIff(a.createdAt, b.createdAt);
    LessIff(a.id, b.id);
  }

  lemma CountsIsInForce(r: Review, w: World, c: Candidate, org: string)
    ensures Counts(r, w, c, org) <==> InForce(r, w, c, org)
  {
    if SupersededIn(w.reviews, c, org, r.id) {
      var i :| 0 <= i < |w.reviews| && Concerns(w.reviews[i], c, org) && w.reviews[i].supersedes == r.id;
      assert w.reviews[i] in w.reviews;
    }
  }

  /** The i-th review decides: it counts, and none that counts is later, nor as late and stored before it. */
  ghost predicate Decides(w: World, c: Candidate, org: string, i: nat) {
    && i < |w.reviews| && Counts(w.reviews[i], w, c, org)
    && forall j :: 0 <= j < |w.reviews| && Counts(w.reviews[j], w, c, org) ==>
      !Later(w.reviews[j], w.reviews[i]) && (j < i ==> Later(w.reviews[i], w.reviews[j]))
  }

  lemma {:induction false} LatestAt(w: World, c: Candidate, org: string, n: nat) returns (i: nat)
    requires n <= |w.reviews| && Latest(w.reviews[..n], w, c, org).Some?
    ensures i < n && Latest(w.reviews[..n], w, c, org) == Some(w.reviews[i]) && InForce(w.reviews[i], w, c, org)
    ensures forall j :: 0 <= j < n && InForce(w.reviews[j], w, c, org) ==> !Earlier(w.reviews[i], w.reviews[j])
    ensures forall j :: 0 <= j < i && InForce(w.reviews[j], w, c, org) ==> Earlier(w.reviews[j], w.reviews[i])
    decreases n
  {
    var rs := w.reviews[..n];
    var r, init := w.reviews[n - 1], w.reviews[..n - 1];
    assert rs[..|rs| - 1] == init && rs[|rs| - 1] == r;
    LatestIsLast(rs, w, c, org);
    LatestIsLast(init, w, c, org);
    if Latest(rs, w, c, org) == Latest(init, w, c, org) {
      i := LatestAt(w, c, org, n - 1);
      assert forall j :: 0 <= j < n ==> w.reviews[j] == rs[j];
      assert forall j :: 0 <= j < n ==> rs[j] in rs;
    } else {
      i := n - 1;
      assert forall j :: 0 <= j < n ==> w.reviews[j] == rs[j] && rs[j] in rs;
      forall j | 0 <= j < i && InForce(w.reviews[j], w, c, org) ensures Earlier(w.reviews[j], r) {
        assert w.reviews[j] == init[j] && init[j] in init;
        OutrunBy(w.reviews[j], Latest(init, w, c, org).value, r);
      }
    }
  }

  /** What is not later than the best so far is earlier than what replaces it. */
  lemma OutrunBy(x: Review, best: Review, r: Review)
    requires !Earlier(best, x) && Earlier(best, r)
    ensures Earlier(x, r)
  {
    LessTotal(x.createdAt, best.createdAt);
    LessTotal(x.id, best.id);
    LessTotal(best.createdAt, r.createdAt);
    if Less(x.createdAt, best.createdAt) && Less(best.createdAt, r.createdAt) {
      LessTransitive(x.createdAt, best.createdAt, r.createdAt);
    }
    if Less(x.id, best.id) && Less(best.id, r.id) { LessTransitive(x.id, best.id, r.id); }
  }

  /** The latest review in force is the one that decides. */
  lemma DecidesIff(w: World, c: Candidate, org: string, i: nat)
    requires Decides(w, c, org, i)
    ensures Latest(w.reviews, w, c, org) == Some(w.reviews[i])
  {
    assert w.reviews[..|w.reviews|] == w.reviews;
    LatestIsLast(w.reviews, w, c, org);
    CountsIsInForce(w.reviews[i], w, c, org);
    assert w.reviews[i] in w.reviews;
    var k := LatestAt(w, c, org, |w.reviews|);
    CountsIsInForce(w.reviews[k], w, c, org);
    LaterIsEarlier(w.reviews[k], w.reviews[i]);
    LaterIsEarlier(w.reviews[i], w.reviews[k]);
  }

  lemma SomeDecides(w: World, c: Candidate, org: string) returns (i: nat)
    requires Latest(w.reviews, w, c, org).Some?
    ensures Decides(w, c, org, i)
  {
    assert w.reviews[..|w.reviews|] == w.reviews;
    i := LatestAt(w, c, org, |w.reviews|);
    CountsIsInForce(w.reviews[i], w, c, org);
    forall j | 0 <= j < |w.reviews| && Counts(w.reviews[j], w, c, org)
      ensures !Later(w.reviews[j], w.reviews[i]) && (j < i ==> Later(w.reviews[i], w.reviews[j]))
    {
      CountsIsInForce(w.reviews[j], w, c, org);
      LaterIsEarlier(w.reviews[j], w.reviews[i]);
      LaterIsEarlier(w.reviews[i], w.reviews[j]);
    }
  }

  /** A delegation that matches the candidate in every condition it sets. */
  ghost predicate Matches(d: Delegation, w: World, c: Candidate, org: string) {
    && d.org == org && d.env == c.env && d.active && d.deterministic && Covers(d.period, w.now)
    && (d.scope != "" ==> d.scope == c.kind) && (d.level != "" ==> d.level == c.level)
    && (d.condOrg != None ==> d.condOrg == Some(org))
    && forall x :: x in d.required ==> x !in c.missing
  }

  /** The i-th delegation decides: it is the first that matches, and no review counts. */
  ghost predicate Delegates(w: World, c: Candidate, org: string, i: nat) {
    && i < |w.delegations| && Matches(w.delegations[i], w, c, org)
    && (forall j :: 0 <= j < i ==> !Matches(w.delegations[j], w, c, org))
    && forall r :: r in w.reviews ==> !Counts(r, w, c, org)
  }

  lemma MatchesIsApplies(d: Delegation, w: World, c: Candidate, org: string)
    ensures Matches(d, w, c, org) <==> Applies(d, w, c, org)
  {
    assert forall i :: 0 <= i < |d.required| ==> d.required[i] in d.required;
  }

  lemma {:induction false} FirstMatching(ds: seq<Delegation>, w: World, c: Candidate, org: string) returns (i: nat)
    requires FirstDelegation(ds, w, c, org).Some?
    ensures i < |ds| && FirstDelegation(ds, w, c, org) == Some(ds[i]) && Matches(ds[i], w, c, org)
    ensures forall j :: 0 <= j < i ==> !Matches(ds[j], w, c, org)
  {
    MatchesIsApplies(ds[0], w, c, org);
    i := 0;
    if !Matches(ds[0], w, c, org) {
      i := FirstMatching(ds[1..], w, c, org);
      assert forall j :: 0 < j <= i + 1 ==> ds[j] == ds[1..][j - 1];
      i := i + 1;
    }
  }

  lemma NoneCounts(w: World, c: Candidate, org: string)
    ensures Latest(w.reviews, w, c, org).None? <==> forall r :: r in w.reviews ==> !Counts(r, w, c, org)
  {
    LatestIsLast(w.reviews, w, c, org);
    forall r | r in w.reviews ensures Counts(r, w, c, org) <==> InForce(r, w, c, org) { CountsIsInForce(r, w, c, org); }
  }

  lemma {:induction false} FirstIsMatching(ds: seq<Delegation>, w: World, c: Candidate, org: string, i: nat)
    requires i < |ds| && Matches(ds[i], w, c, org) && forall j :: 0 <= j < i ==> !Matches(ds[j], w, c, org)
    ensures FirstDelegation(ds, w, c, org) == Some(ds[i])
  {
    MatchesIsApplies(ds[0], w, c, org);
    if i > 0 { FirstIsMatching(ds[1..], w, c, org, i - 1); }
  }

  /** Where authority comes from: the deciding review, if it approves, or else the deciding delegation. */
  ghost predicate Authorises(a: Authority, w: World, c: Candidate, org: string) {
    match a
    case ByReview(r) => r.decision == "approve_incident" && exists i: nat :: Decides(w, c, org, i) && w.reviews[i] == r
    case ByDelegation(d) => exists i: nat :: Delegates(w, c, org, i) && w.delegations[i] == d
  }

  lemma AuthorityIs(w: World, c: Candidate, org: string, a: Authority)
    ensures ResolveAuthority(w, c, org) == Some(a) <==> Authorises(a, w, c, org)
  {
    NoneCounts(w, c, org);
    if ResolveAuthority(w, c, org) == Some(a) {
      if a.ByReview? {
        var i := SomeDecides(w, c, org);
        DecidesIff(w, c, org, i);
      } else {
        var i := FirstMatching(w.delegations, w, c, org);
        assert Delegates(w, c, org, i);
      }
    }
    if Authorises(a, w, c, org) {
      match a
      case ByReview(r) =>
        var i: nat :| Decides(w, c, org, i) && w.reviews[i] == r;
        DecidesIff(w, c, org, i);
      case ByDelegation(d) =>
        var i: nat :| Delegates(w, c, org, i) && w.delegations[i] == d;
        FirstIsMatching(w.delegations, w, c, org, i);
    }
  }

  /** An approval is never the authority once a review that counts and does not approve is later, by text or by tie. */
  lemma LaterTextWithdraws(w: World, c: Candidate, org: string, a: Review, b: Review)
    requires b in w.reviews && Counts(b, w, c, org) && Later(b, a)
    ensures ResolveAuthority(w, c, org) != Some(ByReview(a))
  {
    AuthorityIs(w, c, org, ByReview(a));
    var j :| 0 <= j < |w.reviews| && w.reviews[j] == b;
  }

  /** Where the deciding review does not approve, nothing is promoted, whatever delegations there are. */
  lemma RefusalDecides(s: State, q: Request, i: nat)
    requires q.crash.None? && q.candidate in q.world.candidates
    requires Decides(q.world, q.world.candidates[q.candidate], q.org, i)
    requires q.world.reviews[i].decision != "approve_incident"
    ensures Promote(s, q) == (s, NotEligible)
  {
    DecidesIff(q.world, q.world.candidates[q.candidate], q.org, i);
  }

  // ---- Eligibility ----

  /** The organization and the environment of the candidate, which must have one. */
  predicate InScope(org: string, env: string, c: Candidate) {
    org == c.org && env == c.env != ""
  }

  /** The records the candidate names exist, in its own organization and environment. */
  ghost predicate HasLineage(w: World, c: Candidate) {
    && c.derId != "" && c.derId in w.ders && InScope(w.ders[c.derId].org, w.ders[c.derId].env, c)
    && c.sweepRunId != "" && c.sweepRunId in w.sweepRuns
    && var run := w.sweepRuns[c.sweepRunId];
      && InScope(run.org, run.env, c) && run.definition in w.definitions
      && InScope(w.definitions[run.definition].org, w.definitions[run.definition].env, c)
  }

  /** So do its evidence, of which there is some, and its context. */
  ghost predicate HasEvidence(w: World, c: Candidate)
    requires c.derId in w.ders
  {
    var der := w.ders[c.derId];
    && (c.resources != [] || der.resources != [])
    && (forall id :: id in c.resources || id in der.resources ==>
      id in w.resources && InScope(w.resources[id].org, w.resources[id].env, c))
    && forall id :: id in der.bindings ==> id in w.bindings && InScope(w.bindings[id].org, w.bindings[id].env, c)
  }

  ghost predicate Deserves(w: World, id: string, org: string) {
    && id in w.candidates
    && var c := w.candidates[id];
      && c.org == org && c.level in {"E3", "E4"} && HasLineage(w, c) && HasEvidence(w, c)
      && exists a :: Authorises(a, w, c, org)
  }

  lemma SupportingAre(c: Candidate, der: Der)
    ensures forall id :: id in SupportingIds(c, Some(der)) <==> id in c.resources || id in der.resources
    ensures SupportingIds(c, Some(der)) == [] <==> c.resources == [] && der.resources == []
  {
    DedupKeeps(c.resources + der.resources);
    var ids := SupportingIds(c, Some(der));
    if c.resources != [] { assert c.resources[0] in ids; }
    if der.resources != [] { assert der.resources[0] in ids; }
    if ids != [] { assert ids[0] in ids; }
  }

  lemma DeservesIsEligible(w: World, id: string, org: string)
    ensures Deserves(w, id, org) <==>
      FindCandidate(w, id, org).Some? && Eligible(w, FindCandidate(w, id, org).value, org)
  {
    if FindCandidate(w, id, org).Some? {
      var c := w.candidates[id];
      if FindDer(w, c).Some? { SupportingAre(c, FindDer(w, c).value); }
      if ResolveAuthority(w, c, org).Some? { AuthorityIs(w, c, org, ResolveAuthority(w, c, org).value); }
      if a :| Authorises(a, w, c, org) { AuthorityIs(w, c, org, a); }
    }
  }

  /** A promotion is refused exactly when some prerequisite is missing. */
  lemma RefusedIff(s: State, q: Request)
    requires q.crash.None?
    ensures Promote(s, q).1 == NotEligible <==> !Deserves(q.world, q.candidate, q.org)
  {
    DeservesIsEligible(q.world, q.candidate, q.org);
  }

  // ---- The failure codes ----

  ghost predicate Foreign(org: string, theirs: string) {
    theirs != org
  }

  /** In the organization, but not in the candidate's environment. */
  ghost predicate Elsewhere(org: string, theirs: string, env: string, c: Candidate) {
    theirs == org && (env == "" || env != c.env)
  }

  ghost predicate Supports(w: World, c: Candidate, id: string) {
    id in c.resources || (c.derId != "" && c.derId in w.ders && id in w.ders[c.derId].resources)
  }

  lemma SupportsIs(w: World, c: Candidate)
    ensures forall id :: id in SupportingIds(c, FindDer(w, c)) <==> Supports(w, c, id)
    ensures SupportingIds(c, FindDer(w, c)) == [] <==> forall id :: !Supports(w, c, id)
  {
    var ids := SupportingIds(c, FindDer(w, c));
    DedupKeeps(c.resources + (if FindDer(w, c).Some? then FindDer(w, c).value.resources else []));
    if ids != [] { assert ids[0] in ids; }
  }

  /** Which record of the candidate, or of its sweep, a code is about. */
  lemma LineageCodes(w: World, c: Candidate, org: string)
    ensures Fails(DecisionEvidenceRecordMissing, w, c, org) <==> c.derId == "" || c.derId !in w.ders
    ensures Fails(SweepRunMissing, w, c, org) <==> c.sweepRunId == "" || c.sweepRunId !in w.sweepRuns
    ensures Fails(SweepDefinitionMissing, w, c, org) <==>
      && c.sweepRunId != "" && c.sweepRunId in w.sweepRuns
      && var run := w.sweepRuns[c.sweepRunId];
        run.org == org && run.env == c.env != "" && run.definition !in w.definitions
    ensures Fails(OrganizationMismatch, w, c, org) <==>
      || (c.derId != "" && c.derId in w.ders && Foreign(org, w.ders[c.derId].org))
      || (c.sweepRunId != "" && c.sweepRunId in w.sweepRuns && Foreign(org, w.sweepRuns[c.sweepRunId].org))
  {
  }

  lemma AuthorityCode(w: World, c: Candidate, org: string)
    ensures ResolveAuthority(w, c, org).None? <==> forall a :: !Authorises(a, w, c, org)
  {
    if ResolveAuthority(w, c, org).Some? { AuthorityIs(w, c, org, ResolveAuthority(w, c, org).value); }
    if a :| Authorises(a, w, c, org) { AuthorityIs(w, c, org, a); }
  }

  /** Which evidence a code is about. */
  lemma EvidenceCodes(w: World, c: Candidate, org: string)
    ensures Fails(SupportingEvidenceMissing, w, c, org) <==> forall id :: !Supports(w, c, id)
    ensures Fails(SupportingResourceMissing, w, c, org) <==>
      exists id :: Supports(w, c, id) && (id !in w.resources || Foreign(org, w.resources[id].org))
  {
    SupportsIs(w, c);
  }

  lemma LevelAndAuthorityCodes(w: World, c: Candidate, org: string)
    ensures Fails(LevelInsufficient, w, c, org) <==> c.level !in {"E3", "E4"}
    ensures Fails(AuthorityMissing, w, c, org) <==> forall a :: !Authorises(a, w, c, org)
  {
    AuthorityCode(w, c, org);
  }

  ghost predicate ResourceElsewhere(w: World, c: Candidate, org: string, id: string) {
    id in w.resources && Elsewhere(org, w.resources[id].org, w.resources[id].env, c)
  }

  /** A binding that is not stored, or not for the organization and the environment. */
  ghost predicate BindingElsewhere(w: World, c: Candidate, org: string, id: string) {
    || id !in w.bindings || Foreign(org, w.bindings[id].org)
    || Elsewhere(org, w.bindings[id].org, w.bindings[id].env, c)
  }

  /** What lies in another environment: the evidence record, the run or its definition, a resource or a binding. */
  lemma EnvironmentCode(w: World, c: Candidate, org: string)
    ensures Fails(EnvironmentMismatch, w, c, org) <==>
      || (c.derId != "" && c.derId in w.ders && Elsewhere(org, w.ders[c.derId].org, w.ders[c.derId].env, c))
      || (c.sweepRunId != "" && c.sweepRunId in w.sweepRuns
        && var run := w.sweepRuns[c.sweepRunId];
          || Elsewhere(org, run.org, run.env, c)
          || (run.org == org && run.env == c.env != "" && run.definition in w.definitions
            && (Foreign(org, w.definitions[run.definition].org) || w.definitions[run.definition].env != c.env)))
      || (exists id :: Supports(w, c, id) && ResourceElsewhere(w, c, org, id))
      || (c.derId != "" && c.derId in w.ders
        && exists id :: id in w.ders[c.derId].bindings && BindingElsewhere(w, c, org, id))
  {
    SupportsIs(w, c);
  }

  // ---- What a first promotion stores ----

  /** A stored resource, with its digest and the algorithm of it. */
  predicate IsSubject(w: World, x: Subject) {
    x.id in w.resources && x.algorithm == w.resources[x.id].algorithm && x.digest == w.resources[x.id].digest
  }

  /** What the sealed manifest says of the candidate and of everything it rests on. */
  ghost predicate Manifests(m: Manifest, w: World, c: Candidate)
    requires c.derId in w.ders
  {
    var der := w.ders[c.derId];
    && m.candidate == c && m.level == c.level && m.trace == der.trace && m.key == c.org + "|" + c.env + "|" + c.id
    && Authorises(m.authority, w, c, c.org)
    && (forall x :: x in m.subjects <==> (x.id in c.resources || x.id in der.resources) && IsSubject(w, x))
    && (forall i, j :: 0 <= i < j < |m.subjects| ==> m.subjects[i].id != m.subjects[j].id)
    && |m.context| == |der.bindings|
    && (forall i :: 0 <= i < |der.bindings| ==>
      der.bindings[i] in w.bindings && m.context[i] == w.bindings[der.bindings[i]].content)
    && forall t :: t in m.lineage <==>
      exists id :: id in c.assessments && id in w.assessments && w.assessments[id].org == c.org
        && t == w.assessments[id].content
  }

  lemma {:induction false} AssessmentsAre(w: World, ids: seq<string>, c: Candidate)
    ensures forall t :: t in Assessments(w, ids, c) <==>
      exists id :: id in ids && id in w.assessments && w.assessments[id].org == c.org && t == w.assessments[id].content
  {
    if ids != [] {
      AssessmentsAre(w, ids[1..], c);
      assert forall id :: id in ids <==> id == ids[0] || id in ids[1..];
    }
  }

  lemma SubjectsAre(w: World, c: Candidate, der: Der, subjects: seq<Subject>)
    requires subjects == Subjects(w, SupportingIds(c, Some(der)), c.org)
    requires forall id :: id in SupportingIds(c, Some(der)) ==> ResourceFits(w, id, c, c.org)
    ensures forall x :: x in subjects <==> (x.id in c.resources || x.id in der.resources) && IsSubject(w, x)
    ensures forall i, j :: 0 <= i < j < |subjects| ==> subjects[i].id != subjects[j].id
  {
    var ids := SupportingIds(c, Some(der));
    SupportingAre(c, der);
    DedupKeeps(c.resources + der.resources);
    SubjectsComplete(w, ids, c, c.org);
    forall x ensures x in subjects <==> x.id in ids && SubjectOf(w, x.id, c.org) == Some(x) {
      if x in subjects {
        var i :| 0 <= i < |subjects| && subjects[i] == x;
        assert Some(subjects[i]) == SubjectOf(w, ids[i], c.org);
      }
      if x.id in ids && SubjectOf(w, x.id, c.org) == Some(x) {
        var i :| 0 <= i < |ids| && ids[i] == x.id;
        assert Some(subjects[i]) == SubjectOf(w, ids[i], c.org);
      }
    }
    forall i, j | 0 <= i < j < |subjects| ensures subjects[i].id != subjects[j].id {
      assert Some(subjects[i]) == SubjectOf(w, ids[i], c.org) && Some(subjects[j]) == SubjectOf(w, ids[j], c.org);
    }
  }

  lemma FreezeManifests(w: World, c: Candidate, a: Authority)
    requires Eligible(w, c, c.org) && ResolveAuthority(w, c, c.org) == Some(a)
    ensures c.derId in w.ders
    ensures Manifests(Freeze(w, c, w.ders[c.derId], BridgeKey(c), c.level, a).manifest, w, c)
  {
    var der := w.ders[c.derId];
    var m := Freeze(w, c, der, BridgeKey(c), c.level, a).manifest;
    AuthorityIs(w, c, c.org, a);
    AssessmentsAre(w, c.assessments, c);
    SubjectsAre(w, c, der, m.subjects);
    BindingsComplete(w, der.bindings, c);
    forall i | 0 <= i < |der.bindings|
      ensures der.bindings[i] in w.bindings && m.context[i] == w.bindings[der.bindings[i]].content
    {
      assert Some(m.context[i]) == BindingOf(w, der.bindings[i], c);
    }
  }

  lemma {:induction false} StoredInto(rs: seq<Record>, r: Record)
    ensures r in PutInto(rs, r)
  {
    if rs != [] && rs[0].id != r.id { StoredInto(rs[1..], r); }
  }

  /** The record, the incident and the bundle a first promotion leaves, and how they name one another. */
  ghost predicate Stores(u: State, w: World, c: Candidate, answer: Outcome)
    requires answer.Success? && c.derId in w.ders
  {
    var key := c.org + "|" + c.env + "|" + c.id;
    var ref := answer.bundleRef;
    && answer.key == key && answer.recordId == "vr-bridge-" + key && answer.incidentId == "inc-bridge-" + key
    && Manifests(ref.manifest, w, c) && ref in u.evidence && u.evidence[ref].manifest == ref.manifest
    && Record(answer.recordId, key, c.org, answer.incidentId, Some(ref)) in u.records
    && answer.incidentId in u.incidents
    && u.incidents[answer.incidentId] == Incident(
      answer.incidentId, c.org, Some(Lineage(c.id, c.derId, c.sweepRunId, ref.manifest.authority, ref)))
  }

  lemma WritesStore(s: State, c: Candidate, b: Bundle, a: Authority)
    ensures var u, key := ApplyAll(s, NewWrites(c, BridgeKey(c), b, a)), BridgeKey(c);
      && b.id in u.evidence && u.evidence[b.id] == b
      && Record(RecordId(key), key, c.org, IncidentId(key), Some(b.id)) in u.records
      && IncidentId(key) in u.incidents
      && u.incidents[IncidentId(key)]
        == Incident(IncidentId(key), c.org, Some(Lineage(c.id, c.derId, c.sweepRunId, a, b.id)))
  {
    var key := BridgeKey(c);
    var xs := NewWrites(c, key, b, a);
    AllSix(s, xs);
    var t := Apply(Apply(Apply(Apply(s, xs[0]), xs[1]), xs[2]), xs[3]);
    StoredInto(t.records, Record(RecordId(key), key, c.org, IncidentId(key), Some(b.id)));
  }

  lemma AllSix(s: State, xs: seq<Write>)
    requires |xs| == 6
    ensures ApplyAll(s, xs) == Apply(Apply(Apply(Apply(Apply(Apply(s, xs[0]), xs[1]), xs[2]), xs[3]), xs[4]), xs[5])
  {
    NoWrites(s, xs);
    OneMoreWrite(s, xs, 0);
    OneMoreWrite(s, xs, 1);
    OneMoreWrite(s, xs, 2);
    OneMoreWrite(s, xs, 3);
    OneMoreWrite(s, xs, 4);
    OneMoreWrite(s, xs, 5);
    assert xs[..6] == xs;
  }

  /** A new success leaves exactly that behind, whatever was stored before. */
  lemma FirstPromotionStores(s: State, q: Request)
    requires q.crash.None? && Promote(s, q).1.Success? && Promote(s, q).1.isNew
    ensures q.candidate in q.world.candidates && q.world.candidates[q.candidate].derId in q.world.ders
    ensures Stores(Promote(s, q).0, q.world, q.world.candidates[q.candidate], Promote(s, q).1)
  {
    var w, c := q.world, FindCandidate(q.world, q.candidate, q.org).value;
    var a := ResolveAuthority(w, c, q.org).value;
    FreezeManifests(w, c, a);
    WritesStore(s, c, Freeze(w, c, w.ders[c.derId], BridgeKey(c), c.level, a), a);
  }
}
