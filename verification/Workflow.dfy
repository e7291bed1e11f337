/**
 The services from a Verification Record to its Proof of Mitigation: replay, label, mutation test, certificate.
 Identifiers come from one counter, so a smaller identifier was stored earlier.
 */
module Workflow {
  import opened Wrappers
  import opened Json
  import opened Cassette
  import opened Replay
  import opened RecordConversion

  datatype Severity = Core | Side  // NON_DETERMINISTIC_CORE and NON_DETERMINISTIC_SIDE_EFFECT

  datatype Limitation = Limitation(code: string, severity: Severity, blocking: bool)

  datatype Replayability =
    | Replayable | PartiallyReplayable | EvidenceOnly | MissingContext | RequiresHumanLabel | Unknown

  /** `scenario` is what `_find_scenario` answers; it reads only fields that no service changes. */
  datatype Record = Record(
    org: string, events: seq<Event>, scenario: string, isDemo: bool,
    labelId: Option<nat>, replayability: Replayability, flags: seq<Limitation>)

  datatype Label = Label(expected: string, active: bool)

  datatype RunStatus = RunReplayed | Incomplete | RunError | Escalated | UnsupportedRunner

  datatype ReplayRun = ReplayRun(
    id: nat, record: nat, status: RunStatus, original: string, replayed: string, limitations: seq<Limitation>)

  datatype MutationTest = MutationTest(
    id: nat, record: nat, replayRun: nat, fix: Kwargs, expected: string, labelId: Option<nat>,
    original: string, mutated: string, changed: bool, verified: bool, limitations: seq<Limitation>)

  datatype Certificate = Certificate(
    id: nat, record: nat, fix: Kwargs, expected: string, labelId: Option<nat>,
    original: string, mutated: string, limitations: seq<Limitation>)

  datatype State = State(
    records: map<nat, Record>, labels: map<nat, Label>, runs: seq<ReplayRun>, tests: seq<MutationTest>,
    certs: seq<Certificate>, next: nat, runner: Option<Runner>)

  datatype RunnerResult = RunnerResult(decision: string, status: RunStatus)

  type Runner = seq<Element> -> RunnerResult

  /** What no service changes: the agents by scenario and the lookup budget. */
  datatype Setup = Setup(agents: string -> AgentFn, budget: nat)

  // ---- ReplayabilityService ----

  predicate HasKind(events: seq<Event>, k: EventKind) {
    exists i :: 0 <= i < |events| && events[i].kind == k
  }

  predicate HasCassette(events: seq<Event>) {
    HasKind(events, ApiResponse) || HasKind(events, ToolCall)
  }

  /** Every model call ran with temperature 0.0 and a seed. */
  predicate Pinned(events: seq<Event>) {
    forall i :: 0 <= i < |events| && events[i].kind == ModelCall ==> events[i].payload.pinned
  }

  const MISSING_LABEL := Limitation("missing_label", Side, true)

  /** The flags of `_compute_determinism`. */
  function Flags(events: seq<Event>, labelled: bool): seq<Limitation> {
    (if !HasKind(events, ModelCall) then []
     else if Pinned(events) then [Limitation("llm_call", Side, false)]
     else [Limitation("llm_call", Core, true)])
    + (if HasCassette(events) then [] else [Limitation("missing_cassette", Core, true)])
    + (if labelled then [] else [MISSING_LABEL])
    + (if HasKind(events, Decision) then [] else [Limitation("missing_decision", Core, true)])
  }

  /** The state chosen by `assess`. */
  function Assess(events: seq<Event>, labelled: bool): Replayability {
    var llm, tape, decision := HasKind(events, ModelCall), HasCassette(events), HasKind(events, Decision);
    if llm && !tape then EvidenceOnly
    else if !tape && !llm && !decision then MissingContext
    else if tape && !labelled then RequiresHumanLabel
    else if tape && labelled && decision then Replayable
    else if llm && tape then PartiallyReplayable
    else Unknown
  }

  function Assessed(r: Record): Record {
    r.(replayability := Assess(r.events, r.labelId.Some?), flags := Flags(r.events, r.labelId.Some?))
  }

  // ---- Reading the store ----

  function RunsOf(runs: seq<ReplayRun>, record: nat): seq<ReplayRun> {
    if runs == [] then []
    else RunsOf(runs[..|runs| - 1], record) + (if runs[|runs| - 1].record == record then [runs[|runs| - 1]] else [])
  }

  function TestsOf(tests: seq<MutationTest>, record: nat): seq<MutationTest> {
    if tests == [] then []
    else
      var last := tests[|tests| - 1];
      TestsOf(tests[..|tests| - 1], record) + (if last.record == record then [last] else [])
  }

  function Last<T>(s: seq<T>): Option<T> {
    if s == [] then None else Some(s[|s| - 1])
  }

  function Found(s: State, record: nat, org: string): Option<Record> {
    if record in s.records && s.records[record].org == org then Some(s.records[record]) else None
  }

  /** `_find_decision` */
  function RecordedDecision(events: seq<Event>): string {
    if events == [] then ""
    else if events[0].kind == Decision then OrElse(events[0].payload.decision, "")
    else RecordedDecision(events[1..])
  }

  // ---- The steps ----

  /** `create_from_sdk_snapshot` */
  function CreateRecord(s: State, org: string, elements: seq<Element>, scenario: string, isDemo: bool): State {
    var r := Assessed(Record(org, EventsOf(elements), scenario, isDemo, None, Unknown, []));
    s.(records := s.records[s.next := r], next := s.next + 1)
  }

  function Unplayable(r: Record): bool {
    r.replayability == MissingContext || r.replayability == EvidenceOnly
  }

  /** Decision, status and limitations of a cassette replay; nothing while the agent is still running. */
  function PlayRecord(r: Record, runner: Option<Runner>, setup: Setup): Option<(string, RunStatus, seq<Limitation>)> {
    var elements := SnapshotOf(r.events);
    if runner.Some? then
      var result := runner.value(elements);
      Some((result.decision, result.status, []))
    else if r.isDemo then
      var result := ReplayOf(elements, setup.agents(r.scenario), map[], false, setup.budget);
      match result.status
      case StillRunning => None
      case Replayed => Some((OrElse(result.decision, ""), RunReplayed, []))
      case Errored => Some((OrElse(result.decision, ""), RunError, []))
      case _ => Some((OrElse(result.decision, ""), Escalated, []))
    else Some(("", UnsupportedRunner, [Limitation("replay_runner_not_configured", Core, true)]))
  }

  function Mismatch(original: string, replayed: string): seq<Limitation> {
    if replayed != "" && original != "" && replayed != original
    then [Limitation("decision_mismatch", Side, false)] else []
  }

  /** The run `run_replay` stores for a record. */
  function NewRun(id: nat, record: nat, r: Record, runner: Option<Runner>, setup: Setup): Option<ReplayRun> {
    var original := RecordedDecision(r.events);
    if Unplayable(r) then
      Some(ReplayRun(id, record, Incomplete, original, "", [Limitation("missing_cassette_context", Core, true)]))
    else match PlayRecord(r, runner, setup)
      case None => None
      case Some((decision, status, limitations)) =>
        Some(ReplayRun(id, record, status, original, decision, limitations + Mismatch(original, decision)))
  }

  function ReplayStep(s: State, record: nat, org: string, setup: Setup): State {
    match Found(s, record, org)
    case None => s
    case Some(r) =>
      match NewRun(s.next, record, r, s.runner, setup)
      case None => s
      case Some(run) => s.(runs := s.runs + [run], next := s.next + 1)
  }

  /** `create_label`: a suggested label is stored inactive but counts as the record's label all the same. */
  function LabelStep(s: State, record: nat, org: string, expected: string, suggested: bool): State {
    match Found(s, record, org)
    case None => s
    case Some(r) =>
      s.(labels := s.labels[s.next := Label(expected, !suggested)],
         records := s.records[record := Assessed(r.(labelId := Some(s.next)))], next := s.next + 1)
  }

  /** `approve_suggested_label` */
  function ApproveLabel(s: State, record: nat, org: string): State {
    match Found(s, record, org)
    case None => s
    case Some(r) =>
      if r.labelId.None? || r.labelId.value !in s.labels then s
      else
        var l := r.labelId.value;
        s.(labels := s.labels[l := s.labels[l].(active := true)], records := s.records[record := Assessed(r)])
  }

  function ExpectedOutcome(s: State, r: Record, expected: string): string {
    if expected != "" then expected
    else if r.labelId.Some? && r.labelId.value in s.labels then s.labels[r.labelId.value].expected
    else ""
  }

  /** The test `run_mutation` stores after its two replays; nothing while an agent is still running. */
  function NewTest(
      id: nat, record: nat, r: Record, run: ReplayRun, fix: Kwargs, expected: string,
      setup: Setup): Option<MutationTest> {
    var m := Replay.RunMutation(SnapshotOf(r.events), setup.agents(r.scenario), fix, map[], expected, setup.budget);
    if m.original.status.StillRunning? || m.mutated.status.StillRunning? then None
    else Some(MutationTest(
      id, record, run.id, fix, expected, r.labelId, run.original, OrElse(m.mutated.decision, ""),
      m.changed, m.mitigated,
      if m.changed then [] else [Limitation("fix_did_not_change_decision", Core, true)]))
  }

  function MutationStep(s: State, record: nat, org: string, fix: Kwargs, expected: string, setup: Setup): State {
    match Found(s, record, org)
    case None => s
    case Some(r) =>
      match Last(RunsOf(s.runs, record))
      case None => s
      case Some(run) =>
        var outcome := ExpectedOutcome(s, r, expected);
        if run.status != RunReplayed || outcome == "" then s
        else match NewTest(s.next, record, r, run, fix, outcome, setup)
          case None => s
          case Some(test) => s.(tests := s.tests + [test], next := s.next + 1)
  }

  /** `from_vr_and_replay`: whether a flag blocks is decided again from its severity. */
  function FromFlags(flags: seq<Limitation>): seq<Limitation> {
    seq(|flags|, i requires 0 <= i < |flags| => flags[i].(blocking := flags[i].severity == Core))
  }

  predicate Eligible(limitations: seq<Limitation>) {
    forall i :: 0 <= i < |limitations| ==> !limitations[i].blocking
  }

  function NewCertificate(id: nat, r: Record, t: MutationTest): Certificate {
    Certificate(id, t.record, t.fix, t.expected, t.labelId, t.original, t.mutated, FromFlags(r.flags) + t.limitations)
  }

  function IssueProof(s: State, record: nat, org: string): State {
    match Found(s, record, org)
    case None => s
    case Some(r) =>
      match Last(TestsOf(s.tests, record))
      case None => s
      case Some(t) =>
        if !t.verified || !Eligible(FromFlags(r.flags) + t.limitations) then s
        else s.(certs := s.certs + [NewCertificate(s.next, r, t)], next := s.next + 1)
  }

  /** `ActionEligibilityService.check` for `issue_proof`. */
  predicate ActionEligible(s: State, record: nat)
    requires record in s.records
  {
    match Last(TestsOf(s.tests, record))
    case None => false
    case Some(t) =>
      var latest := Last(RunsOf(s.runs, record));
      var ofReplay := if latest.Some? then latest.value.limitations else [];
      t.verified && Eligible(FromFlags(s.records[record].flags) + ofReplay + t.limitations)
  }

  // ---- The services as the code runs them ----

  class WorkflowServices {
    var records: map<nat, Record>
    var labels: map<nat, Label>
    var replayRuns: seq<ReplayRun>
    var mutationTests: seq<MutationTest>
    var proofCerts: seq<Certificate>
    var next: nat
    var runner: Option<Runner>
    const setup: Setup

    ghost function Abs(): State
      reads this
    {
      State(records, labels, replayRuns, mutationTests, proofCerts, next, runner)
    }

    constructor (setup: Setup)
      ensures Abs() == Initial() && this.setup == setup
    {
      records, labels, replayRuns, mutationTests, proofCerts, next := map[], map[], [], [], [], 0;
      runner := None;
      this.setup := setup;
    }

    /** `set_replay_runner` */
    method SetReplayRunner(runner: Option<Runner>)
      modifies this
      ensures Abs() == old(Abs()).(runner := runner)
    {
      this.runner := runner;
    }

    method CreateFromSdkSnapshot(org: string, elements: seq<Element>, scenario: string, isDemo: bool) returns (id: nat)
      modifies this
      ensures Abs() == CreateRecord(old(Abs()), org, elements, scenario, isDemo) && id == old(next)
      ensures id in records && |records[id].events| == |elements| && records[id].labelId == None
      ensures records[id].replayability != Replayable && MISSING_LABEL in records[id].flags
      ensures forall k :: k in old(records) && k != id ==> k in records && records[k] == old(records)[k]
    {
      var r := Record(org, EventsOf(elements), scenario, isDemo, None, Unknown, []);
      r := r.(replayability := Assess(r.events, false), flags := Flags(r.events, false));
      id := next;
      records, next := records[id := r], next + 1;
    }

    method CreateLabel(record: nat, org: string, expected: string, suggestedBy: string) returns (created: Option<nat>)
      modifies this
      ensures Abs() == LabelStep(old(Abs()), record, org, expected, suggestedBy != "")
      ensures created.Some? ==> created.value in labels && record in records && records[record].labelId == created
      ensures created.Some? ==> labels[created.value] == Label(expected, suggestedBy == "")
    {
      if record !in records || records[record].org != org {
        return None;
      }
      created := Some(next);
      labels := labels[next := Label(expected, suggestedBy == "")];
      var r := records[record].(labelId := created);
      records := records[record := r.(replayability := Assess(r.events, true), flags := Flags(r.events, true))];
      next := next + 1;
    }

    method ApproveSuggestedLabel(record: nat, org: string)
      modifies this
      ensures Abs() == ApproveLabel(old(Abs()), record, org)
      ensures labels.Keys == old(labels).Keys && records.Keys == old(records).Keys
      ensures forall l :: l in labels ==>
        labels[l].expected == old(labels)[l].expected && (old(labels)[l].active ==> labels[l].active)
      ensures forall l :: l in labels && labels[l].active && !old(labels)[l].active ==>
        record in records && records[record].org == org && records[record].labelId == Some(l)
      ensures forall k :: k in records ==> records[k].labelId == old(records)[k].labelId
      ensures forall k :: k in records && k != record ==> records[k] == old(records)[k]
    {
      if record !in records || records[record].org != org {
        return;
      }
      var r := records[record];
      if r.labelId.None? || r.labelId.value !in labels {
        return;
      }
      labels := labels[r.labelId.value := labels[r.labelId.value].(active := true)];
      records := records[record := r.(replayability := Assess(r.events, true), flags := Flags(r.events, true))];
    }

    /** The four ways of `run_replay` to replay a record that can be replayed; nothing while the agent is running. */
    method ReplayRecord(r: Record) returns (replayed: Option<(string, RunStatus, seq<Limitation>)>)
      ensures replayed == PlayRecord(r, runner, setup)
    {
      var elements := SnapshotFromRecord(r.events);
      if runner.Some? {
        var result := runner.value(elements);
        return Some((result.decision, result.status, []));
      }
      if !r.isDemo {
        return Some(("", UnsupportedRunner, [Limitation("replay_runner_not_configured", Core, true)]));
      }
      var result := ReplaySnapshot(elements, setup.agents(r.scenario), map[], false, setup.budget);
      if result.status.StillRunning? {
        return None;
      }
      var status :=
        if result.status.Replayed? then RunReplayed else if result.status.Errored? then RunError else Escalated;
      return Some((OrElse(result.decision, ""), status, []));
    }

    method RunReplay(record: nat, org: string) returns (run: Option<ReplayRun>)
      modifies this
      ensures Abs() == ReplayStep(old(Abs()), record, org, setup)
      ensures replayRuns == old(replayRuns) + (if run.Some? then [run.value] else [])
    {
      run := None;
      if record !in records || records[record].org != org {
        return;
      }
      var r := records[record];
      var original := RecordedDecision(r.events);
      if r.replayability == MissingContext || r.replayability == EvidenceOnly {
        run := Some(ReplayRun(
          next, record, Incomplete, original, "", [Limitation("missing_cassette_context", Core, true)]));
      } else {
        var replayed := ReplayRecord(r);
        if replayed.None? {
          return;
        }
        var (decision, status, limitations) := replayed.value;
        if decision != "" && original != "" && decision != original {
          limitations := limitations + [Limitation("decision_mismatch", Side, false)];
        } else {
          assert limitations + [] == limitations;
        }
        run := Some(ReplayRun(next, record, status, original, decision, limitations));
      }
      replayRuns, next := replayRuns + [run.value], next + 1;
    }

    /** The test of `run_mutation`, from its two replays. */
    method TestFix(
        record: nat, r: Record, run: ReplayRun, fix: Kwargs, outcome: string) returns (test: Option<MutationTest>)
      ensures test == NewTest(next, record, r, run, fix, outcome, setup)
    {
      var elements := SnapshotFromRecord(r.events);
      var agent := setup.agents(r.scenario);
      var unfixed := ReplaySnapshot(elements, agent, map[], false, setup.budget);
      var fixed := ReplaySnapshot(elements, agent, map[] + fix, false, setup.budget);
      if unfixed.status.StillRunning? || fixed.status.StillRunning? {
        return None;
      }
      var changed := unfixed.decision != fixed.decision;
      return Some(MutationTest(
        next, record, run.id, fix, outcome, r.labelId, run.original, OrElse(fixed.decision, ""), changed,
        changed && fixed.decision == Some(outcome),
        if changed then [] else [Limitation("fix_did_not_change_decision", Core, true)]));
    }

    method RunMutation(record: nat, org: string, fix: Kwargs, expected: string) returns (test: Option<MutationTest>)
      modifies this
      ensures Abs() == MutationStep(old(Abs()), record, org, fix, expected, setup)
    {
      test := None;
      if record !in records || records[record].org != org {
        return;
      }
      var r := records[record];
      var runs := RunsOf(replayRuns, record);
      if runs == [] || runs[|runs| - 1].status != RunReplayed {
        return;
      }
      var outcome := expected;
      if outcome == "" && r.labelId.Some? && r.labelId.value in labels {
        outcome := labels[r.labelId.value].expected;
      }
      if outcome == "" {
        return;
      }
      test := TestFix(record, r, runs[|runs| - 1], fix, outcome);
      if test.Some? {
        mutationTests, next := mutationTests + [test.value], next + 1;
      }
    }

    method IssueProofOfMitigation(record: nat, org: string) returns (cert: Option<Certificate>)
      modifies this
      ensures Abs() == IssueProof(old(Abs()), record, org)
    {
      cert := None;
      if record !in records || records[record].org != org {
        return;
      }
      var r := records[record];
      var tests := TestsOf(mutationTests, record);
      if tests == [] || !tests[|tests| - 1].verified {
        return;
      }
      var t := tests[|tests| - 1];
      TestsOfRecord(mutationTests, record);
      var limitations: seq<Limitation> := [];
      for i := 0 to |r.flags|
        invariant limitations == FromFlags(r.flags[..i])
      {
        limitations := limitations + [r.flags[i].(blocking := r.flags[i].severity == Core)];
      }
      assert r.flags[..|r.flags|] == r.flags;
      limitations := limitations + t.limitations;
      if exists i :: 0 <= i < |limitations| && limitations[i].blocking {
        return;
      }
      cert := Some(Certificate(next, t.record, t.fix, t.expected, t.labelId, t.original, t.mutated, limitations));
      proofCerts, next := proofCerts + [cert.value], next + 1;
    }
  }

  lemma {:induction false} TestsOfRecord(tests: seq<MutationTest>, record: nat)
    ensures forall t :: t in TestsOf(tests, record) <==> t in tests && t.record == record
  {
    if tests != [] {
      TestsOfRecord(tests[..|tests| - 1], record);
      assert tests == tests[..|tests| - 1] + [tests[|tests| - 1]];
    }
  }

  lemma {:induction false} RunsOfRecord(runs: seq<ReplayRun>, record: nat)
    ensures forall r :: r in RunsOf(runs, record) <==> r in runs && r.record == record
  {
    if runs != [] {
      RunsOfRecord(runs[..|runs| - 1], record);
      assert runs == runs[..|runs| - 1] + [runs[|runs| - 1]];
    }
  }

  // ---- Runs ----

  datatype Command =
    | Create(org: string, elements: seq<Element>, scenario: string, isDemo: bool)
    | Replaying(record: nat, org: string)
    | Labelling(record: nat, org: string, expected: string, suggested: bool)
    | Approving(record: nat, org: string)
    | Mutating(record: nat, org: string, fix: Kwargs, expected: string)
    | Issuing(record: nat, org: string)
    | Configuring(runner: Option<Runner>)

  function Initial(): State {
    State(map[], map[], [], [], [], 0, None)
  }

  function Step(s: State, c: Command, setup: Setup): State {
    match c
    case Create(org, elements, scenario, isDemo) => CreateRecord(s, org, elements, scenario, isDemo)
    case Replaying(record, org) => ReplayStep(s, record, org, setup)
    case Labelling(record, org, expected, suggested) => LabelStep(s, record, org, expected, suggested)
    case Approving(record, org) => ApproveLabel(s, record, org)
    case Mutating(record, org, fix, expected) => MutationStep(s, record, org, fix, expected, setup)
    case Issuing(record, org) => IssueProof(s, record, org)
    case Configuring(runner) => s.(runner := runner)
  }

  function Exec(s: State, cs: seq<Command>, setup: Setup): State
    decreases cs
  {
    if cs == [] then s else Exec(Step(s, cs[0], setup), cs[1..], setup)
  }

  // ---- What every run keeps ----

  predicate Precedes(run: ReplayRun, t: MutationTest) {
    run.id == t.replayRun && run.id < t.id && run.record == t.record && run.status == RunReplayed
  }

  /**
   A verified test says what two replays of its record do, after a stored run of its record with status `replayed`.
   */
  ghost predicate TestHolds(s: State, t: MutationTest, setup: Setup) {
    && t.id < s.next && t.record in s.records && t.expected != ""
    && (t.changed ==> t.limitations == [])
    && (exists run :: run in s.runs && Precedes(run, t))
    && (t.verified ==>
      var r := s.records[t.record];
      var es, agent := SnapshotOf(r.events), setup.agents(r.scenario);
      var expected := Result(Some(t.expected), Status.Replayed);
      && t.changed && t.mutated == t.expected
      && ReplayOf(es, agent, t.fix, false, setup.budget) == expected
      && ReplayOf(es, agent, map[], false, setup.budget) != expected)
  }

  ghost predicate Backs(s: State, t: MutationTest, c: Certificate, setup: Setup) {
    && t.id < c.id && t.record == c.record && t.verified && TestHolds(s, t, setup)
    && t.fix == c.fix && t.expected == c.expected && t.labelId == c.labelId && t.mutated == c.mutated
  }

  /** A certificate rests on an earlier verified test of its record and has no blocking limitation. */
  ghost predicate Backed(s: State, c: Certificate, setup: Setup) {
    && c.id < s.next && c.record in s.records && Eligible(c.limitations)
    && (exists t :: t in s.tests && Backs(s, t, c, setup))
    && Sound(s.records[c.record].events)
  }

  /** Recorded calls, a decision, and only pinned model calls. */
  ghost predicate Sound(events: seq<Event>) {
    HasCassette(events) && HasKind(events, Decision) && Pinned(events)
  }

  ghost predicate Inv(s: State, setup: Setup) {
    && (forall k :: k in s.records ==>
      k < s.next && s.records[k].flags == Flags(s.records[k].events, s.records[k].labelId.Some?))
    && (forall run :: run in s.runs ==> run.id < s.next && run.record in s.records)
    && (forall t :: t in s.tests ==> TestHolds(s, t, setup))
    && (forall c :: c in s.certs ==> Backed(s, c, setup))
  }

  /** Later states keep every record's events and agent, and every stored run and test. */
  ghost predicate Grows(s: State, u: State) {
    && s.next <= u.next
    && (forall k :: k in s.records ==>
      k in u.records && u.records[k].events == s.records[k].events && u.records[k].scenario == s.records[k].scenario)
    && (forall run :: run in s.runs ==> run in u.runs)
    && (forall t :: t in s.tests ==> t in u.tests)
    && (forall c :: c in s.certs ==> c in u.certs)
  }

  lemma TestStays(s: State, u: State, t: MutationTest, setup: Setup)
    requires Grows(s, u) && TestHolds(s, t, setup)
    ensures TestHolds(u, t, setup)
  {
    var run :| run in s.runs && Precedes(run, t);
    assert run in u.runs;
  }

  lemma CertificateStays(s: State, u: State, c: Certificate, setup: Setup)
    requires Grows(s, u) && Backed(s, c, setup)
    ensures Backed(u, c, setup)
  {
    var t :| t in s.tests && Backs(s, t, c, setup);
    TestStays(s, u, t, setup);
    assert t in u.tests && Backs(u, t, c, setup);
  }

  lemma EligibleFromFlags(fs: seq<Limitation>)
    ensures Eligible(FromFlags(fs)) <==> forall f :: f in fs ==> f.severity != Core
  {
    if Eligible(FromFlags(fs)) {
      forall f | f in fs ensures f.severity != Core {
        var i :| 0 <= i < |fs| && fs[i] == f;
        assert !FromFlags(fs)[i].blocking;
      }
    }
    if forall f :: f in fs ==> f.severity != Core {
      forall i | 0 <= i < |fs| ensures !FromFlags(fs)[i].blocking { assert fs[i] in fs; }
    }
  }

  lemma CoreFlags(events: seq<Event>, labelled: bool)
    ensures (exists f :: f in Flags(events, labelled) && f.severity == Core) <==> !Sound(events)
  {
    var fs := Flags(events, labelled);
    assert Limitation("llm_call", Core, true) in fs <==> !Pinned(events);
    assert Limitation("missing_cassette", Core, true) in fs <==> !HasCassette(events);
    assert Limitation("missing_decision", Core, true) in fs <==> !HasKind(events, Decision);
  }

  /** Flags decide soundness: no flag is core exactly for sound events, with or without a label. */
  lemma FlagsSound(events: seq<Event>, labelled: bool)
    ensures Eligible(FromFlags(Flags(events, labelled))) <==> Sound(events)
  {
    EligibleFromFlags(Flags(events, labelled));
    CoreFlags(events, labelled);
  }

  lemma NewTestHolds(s: State, u: State, record: nat, run: ReplayRun, fix: Kwargs, expected: string, setup: Setup)
    requires record in s.records && run in s.runs && run.record == record && run.status == RunReplayed
    requires run.id < s.next
    requires u.records == s.records && u.runs == s.runs && u.next == s.next + 1 && expected != ""
    requires NewTest(s.next, record, s.records[record], run, fix, expected, setup).Some?
    ensures TestHolds(u, NewTest(s.next, record, s.records[record], run, fix, expected, setup).value, setup)
  {
    var r := s.records[record];
    MitigatedIff(SnapshotOf(r.events), setup.agents(r.scenario), fix, map[], expected, setup.budget);
    assert map[] + fix == fix;
  }

  lemma MutationKeeps(s: State, record: nat, org: string, fix: Kwargs, expected: string, setup: Setup)
    requires Inv(s, setup)
    ensures var u := MutationStep(s, record, org, fix, expected, setup); Inv(u, setup) && Grows(s, u)
  {
    var u := MutationStep(s, record, org, fix, expected, setup);
    if u != s {
      var r := s.records[record];
      RunsOfRecord(s.runs, record);
      var run := Last(RunsOf(s.runs, record)).value;
      assert run in RunsOf(s.runs, record);
      var outcome := ExpectedOutcome(s, r, expected);
      var t := NewTest(s.next, record, r, run, fix, outcome, setup).value;
      NewTestHolds(s, u, record, run, fix, outcome, setup);
      Kept(s, u, setup);
    }
  }

  /** What is already stored keeps its properties in a later state. */
  lemma Kept(s: State, u: State, setup: Setup)
    requires Inv(s, setup) && Grows(s, u)
    ensures forall t :: t in s.tests ==> TestHolds(u, t, setup)
    ensures forall c :: c in s.certs ==> Backed(u, c, setup)
  {
    forall t | t in s.tests ensures TestHolds(u, t, setup) { TestStays(s, u, t, setup); }
    forall c | c in s.certs ensures Backed(u, c, setup) { CertificateStays(s, u, c, setup); }
  }

  lemma IssueKeeps(s: State, record: nat, org: string, setup: Setup)
    requires Inv(s, setup)
    ensures var u := IssueProof(s, record, org); Inv(u, setup) && Grows(s, u)
  {
    var u := IssueProof(s, record, org);
    if u != s {
      var r := s.records[record];
      TestsOfRecord(s.tests, record);
      var t := Last(TestsOf(s.tests, record)).value;
      assert t in TestsOf(s.tests, record);
      var c := NewCertificate(s.next, r, t);
      Kept(s, u, setup);
      FlagsSound(r.events, r.labelId.Some?);
      assert forall i :: 0 <= i < |FromFlags(r.flags)| ==>
        (FromFlags(r.flags) + t.limitations)[i] == FromFlags(r.flags)[i];
      assert t in u.tests && Backs(u, t, c, setup);
      assert Backed(u, c, setup);
    }
  }

  lemma ReplayKeeps(s: State, record: nat, org: string, setup: Setup)
    requires Inv(s, setup)
    ensures var u := ReplayStep(s, record, org, setup); Inv(u, setup) && Grows(s, u)
  {
    Kept(s, ReplayStep(s, record, org, setup), setup);
  }

  lemma CreateKeeps(s: State, org: string, elements: seq<Element>, scenario: string, isDemo: bool, setup: Setup)
    requires Inv(s, setup)
    ensures var u := CreateRecord(s, org, elements, scenario, isDemo); Inv(u, setup) && Grows(s, u)
  {
    var u := CreateRecord(s, org, elements, scenario, isDemo);
    assert Grows(s, u);
    Kept(s, u, setup);
  }

  lemma LabelKeeps(s: State, record: nat, org: string, expected: string, suggested: bool, setup: Setup)
    requires Inv(s, setup)
    ensures var u := LabelStep(s, record, org, expected, suggested); Inv(u, setup) && Grows(s, u)
  {
    var u := LabelStep(s, record, org, expected, suggested);
    assert Grows(s, u);
    Kept(s, u, setup);
  }

  lemma ApproveKeeps(s: State, record: nat, org: string, setup: Setup)
    requires Inv(s, setup)
    ensures var u := ApproveLabel(s, record, org); Inv(u, setup) && Grows(s, u)
  {
    var u := ApproveLabel(s, record, org);
    assert Grows(s, u);
    Kept(s, u, setup);
  }

  lemma ConfiguringKeeps(s: State, runner: Option<Runner>, setup: Setup)
    requires Inv(s, setup)
    ensures Inv(s.(runner := runner), setup) && Grows(s, s.(runner := runner))
  {
    Kept(s, s.(runner := runner), setup);
  }

  /** Every service call keeps the invariant and only adds to the store. */
  lemma StepKeeps(s: State, c: Command, setup: Setup)
    requires Inv(s, setup)
    ensures Inv(Step(s, c, setup), setup) && Grows(s, Step(s, c, setup))
  {
    match c
    case Create(org, elements, scenario, isDemo) => CreateKeeps(s, org, elements, scenario, isDemo, setup);
    case Replaying(record, org) => ReplayKeeps(s, record, org, setup);
    case Labelling(record, org, expected, suggested) => LabelKeeps(s, record, org, expected, suggested, setup);
    case Approving(record, org) => ApproveKeeps(s, record, org, setup);
    case Mutating(record, org, fix, expected) => MutationKeeps(s, record, org, fix, expected, setup);
    case Issuing(record, org) => IssueKeeps(s, record, org, setup);
    case Configuring(runner) => ConfiguringKeeps(s, runner, setup);
  }

  lemma {:induction false} ExecKeeps(s: State, cs: seq<Command>, setup: Setup)
    requires Inv(s, setup)
    ensures Inv(Exec(s, cs, setup), setup) && Grows(s, Exec(s, cs, setup))
    decreases cs
  {
    if cs != [] {
      StepKeeps(s, cs[0], setup);
      ExecKeeps(Step(s, cs[0], setup), cs[1..], setup);
    }
  }

  /** In every run every stored Proof of Mitigation is backed. */
  lemma EveryProofIsBacked(cs: seq<Command>, setup: Setup, c: Certificate)
    requires c in Exec(Initial(), cs, setup).certs
    ensures Backed(Exec(Initial(), cs, setup), c, setup)
  {
    ExecKeeps(Initial(), cs, setup);
  }

  /** What issuing a proof really asks for; a label is not part of it. */
  ghost predicate Provable(s: State, record: nat) {
    record in s.records && Sound(s.records[record].events)
    && Last(TestsOf(s.tests, record)).Some? && Last(TestsOf(s.tests, record)).value.verified
  }

  lemma EligibleAppend(xs: seq<Limitation>, ys: seq<Limitation>)
    ensures Eligible(xs + ys) <==> Eligible(xs) && Eligible(ys)
  {
    assert forall i :: 0 <= i < |xs| ==> (xs + ys)[i] == xs[i];
    assert forall i :: 0 <= i < |ys| ==> (xs + ys)[|xs| + i] == ys[i];
  }

  /** In a reachable state a proof is issued exactly for a sound record whose last mutation test is verified. */
  lemma IssuedIff(s: State, record: nat, org: string, setup: Setup)
    requires Inv(s, setup) && Found(s, record, org).Some?
    ensures |IssueProof(s, record, org).certs| == |s.certs| + 1 <==> Provable(s, record)
  {
    var r := s.records[record];
    FlagsSound(r.events, r.labelId.Some?);
    TestsOfRecord(s.tests, record);
    var last := Last(TestsOf(s.tests, record));
    if last.Some? {
      assert last.value in TestsOf(s.tests, record);
      EligibleAppend(FromFlags(r.flags), last.value.limitations);
    }
  }

  /**
   In every state the services reach, the eligibility check asks what issuing asks and, beyond it, that the latest
   replay blocks nothing. `EligibilityAgrees` and `ClearingTheRunnerDivides` say when that clause decides.
   */
  lemma EligibilityIff(s: State, record: nat, setup: Setup)
    requires Inv(s, setup) && record in s.records
    ensures ActionEligible(s, record) <==>
      && Provable(s, record)
      && (Last(RunsOf(s.runs, record)).Some? ==> Eligible(Last(RunsOf(s.runs, record)).value.limitations))
  {
    var r := s.records[record];
    FlagsSound(r.events, r.labelId.Some?);
    TestsOfRecord(s.tests, record);
    var last, latest := Last(TestsOf(s.tests, record)), Last(RunsOf(s.runs, record));
    if last.Some? {
      assert last.value in TestsOf(s.tests, record);
      var ls := if latest.Some? then latest.value.limitations else [];
      EligibleAppend(FromFlags(r.flags) + ls, last.value.limitations);
      EligibleAppend(FromFlags(r.flags), ls);
    }
  }

  // ---- Where eligibility and issuing part ----

  /**
   With the runner as it is, a run of a record with recorded calls blocks nothing, or no run of it is ever replayed.
   */
  ghost predicate RunFits(s: State, run: ReplayRun)
    requires run.record in s.records
  {
    var r := s.records[run.record];
    HasCassette(r.events) ==>
      if s.runner.None? && !r.isDemo then run.status != RunReplayed else Eligible(run.limitations)
  }

  lemma NewRunFits(id: nat, record: nat, r: Record, runner: Option<Runner>, setup: Setup)
    requires HasCassette(r.events) && r.replayability == Assess(r.events, r.labelId.Some?)
    requires NewRun(id, record, r, runner, setup).Some?
    ensures var run := NewRun(id, record, r, runner, setup).value;
      if runner.None? && !r.isDemo then run.status != RunReplayed else Eligible(run.limitations)
  {
  }

  ghost predicate AllFit(s: State) {
    forall run :: run in s.runs ==> run.record in s.records && RunFits(s, run)
  }

  ghost predicate AllAssessed(s: State) {
    forall k :: k in s.records ==> s.records[k].replayability == Assess(s.records[k].events, s.records[k].labelId.Some?)
  }

  lemma StepKeepsAssessed(s: State, c: Command, setup: Setup)
    requires AllAssessed(s)
    ensures AllAssessed(Step(s, c, setup))
  {
  }

  lemma OldRunsFit(s: State, u: State)
    requires AllFit(s) && u.runner == s.runner && u.runs == s.runs
    requires forall k :: k in s.records ==>
      k in u.records && u.records[k].events == s.records[k].events && u.records[k].isDemo == s.records[k].isDemo
    ensures AllFit(u)
  {
    forall run | run in u.runs ensures run.record in u.records && RunFits(u, run) { assert RunFits(s, run); }
  }

  lemma ReplayKeepsFit(s: State, record: nat, org: string, setup: Setup)
    requires AllFit(s) && AllAssessed(s)
    ensures AllFit(ReplayStep(s, record, org, setup))
  {
    var u := ReplayStep(s, record, org, setup);
    if u.runs != s.runs {
      var r := s.records[record];
      var run := NewRun(s.next, record, r, s.runner, setup).value;
      if HasCassette(r.events) { NewRunFits(s.next, record, r, s.runner, setup); }
      assert RunFits(u, run);
      forall x | x in u.runs ensures x.record in u.records && RunFits(u, x) {
        if x in s.runs { assert RunFits(s, x); }
      }
    }
  }

  lemma StepKeepsFit(s: State, c: Command, setup: Setup)
    requires Inv(s, setup) && AllFit(s) && AllAssessed(s) && !c.Configuring?
    ensures AllFit(Step(s, c, setup))
  {
    if c.Replaying? {
      ReplayKeepsFit(s, c.record, c.org, setup);
    } else {
      OldRunsFit(s, Step(s, c, setup));
    }
  }

  lemma {:induction false} ExecKeepsFit(s: State, cs: seq<Command>, setup: Setup)
    requires Inv(s, setup) && AllFit(s) && AllAssessed(s) && forall c :: c in cs ==> !c.Configuring?
    ensures Inv(Exec(s, cs, setup), setup) && AllFit(Exec(s, cs, setup))
    decreases cs
  {
    if cs != [] {
      assert cs[0] in cs && forall c :: c in cs[1..] ==> c in cs;
      StepKeeps(s, cs[0], setup);
      StepKeepsFit(s, cs[0], setup);
      StepKeepsAssessed(s, cs[0], setup);
      ExecKeepsFit(Step(s, cs[0], setup), cs[1..], setup);
    }
  }

  /** As long as nobody changes the runner, the eligibility check says exactly whether a proof would be issued. */
  lemma EligibilityAgrees(runner: Option<Runner>, cs: seq<Command>, setup: Setup, record: nat)
    requires forall c :: c in cs ==> !c.Configuring?
    requires record in Exec(Initial().(runner := runner), cs, setup).records
    ensures var s := Exec(Initial().(runner := runner), cs, setup);
      ActionEligible(s, record) <==> Provable(s, record)
  {
    ExecKeepsFit(Initial().(runner := runner), cs, setup);
    var s := Exec(Initial().(runner := runner), cs, setup);
    EligibilityIff(s, record, setup);
    if Provable(s, record) {
      var t := Last(TestsOf(s.tests, record)).value;
      TestsOfRecord(s.tests, record);
      assert t in TestsOf(s.tests, record) && TestHolds(s, t, setup);
      RunsOfRecord(s.runs, record);
      var run :| run in s.runs && run.record == record && run.status == RunReplayed;
      assert RunFits(s, run);
      var latest := Last(RunsOf(s.runs, record));
      if latest.Some? {
        assert latest.value in RunsOf(s.runs, record) && RunFits(s, latest.value);
      }
    }
  }

  lemma LastOfAppended(runs: seq<ReplayRun>, run: ReplayRun)
    ensures Last(RunsOf(runs + [run], run.record)) == Some(run)
  {
    assert (runs + [run])[..|runs|] == runs;
  }

  lemma UnsupportedRun(id: nat, record: nat, r: Record, setup: Setup)
    requires !r.isDemo && !Unplayable(r)
    ensures var run := NewRun(id, record, r, None, setup);
      run.Some? && run.value.record == record && !Eligible(run.value.limitations)
  {
    var run := NewRun(id, record, r, None, setup).value;
    assert run.limitations[0] == Limitation("replay_runner_not_configured", Core, true);
  }

  /** A state whose latest run of the record is unsupported, and which is otherwise provable. */
  lemma UnsupportedDivides(u: State, record: nat, org: string, setup: Setup, run: ReplayRun)
    requires Inv(u, setup) && Found(u, record, org).Some? && Provable(u, record)
    requires Last(RunsOf(u.runs, record)) == Some(run) && !Eligible(run.limitations)
    ensures !ActionEligible(u, record) && |IssueProof(u, record, org).certs| == |u.certs| + 1
  {
    IssuedIff(u, record, org, setup);
    EligibilityIff(u, record, setup);
  }

  function WithRun(s: State, run: ReplayRun): State {
    s.(runner := None, runs := s.runs + [run], next := s.next + 1)
  }

  lemma UnsupportedReplay(s: State, record: nat, org: string, setup: Setup) returns (run: ReplayRun)
    requires Found(s, record, org).Some? && !s.records[record].isDemo && !Unplayable(s.records[record])
    ensures ReplayStep(s.(runner := None), record, org, setup) == WithRun(s, run)
    ensures !Eligible(run.limitations) && Last(RunsOf(WithRun(s, run).runs, record)) == Some(run)
  {
    UnsupportedRun(s.next, record, s.records[record], setup);
    run := NewRun(s.next, record, s.records[record], None, setup).value;
    LastOfAppended(s.runs, run);
  }

  lemma ClearedInv(s: State, record: nat, org: string, setup: Setup)
    requires Inv(s, setup)
    ensures Inv(ReplayStep(s.(runner := None), record, org, setup), setup)
  {
    ConfiguringKeeps(s, None, setup);
    ReplayKeeps(s.(runner := None), record, org, setup);
  }

  /**
   Clearing the runner divides the two: after one more replay of a provable record that is not a demo record,
   the eligibility check refuses while a proof is still issued.
   */
  lemma ClearingTheRunnerDivides(s: State, record: nat, org: string, setup: Setup)
    requires Inv(s, setup) && Found(s, record, org).Some? && Provable(s, record)
    requires !s.records[record].isDemo && !Unplayable(s.records[record])
    ensures var u := ReplayStep(s.(runner := None), record, org, setup);
      && record in u.records && !ActionEligible(u, record)
      && |IssueProof(u, record, org).certs| == |u.certs| + 1
  {
    ClearedInv(s, record, org, setup);
    var run := UnsupportedReplay(s, record, org, setup);
    UnsupportedDivides(WithRun(s, run), record, org, setup, run);
  }

  // ---- What a proof reports ----

  ghost predicate Reports(s: State) {
    && (forall run :: run in s.runs ==>
      run.record in s.records && run.original == RecordedDecision(s.records[run.record].events))
    && (forall t :: t in s.tests ==>
      t.record in s.records && t.original == RecordedDecision(s.records[t.record].events))
    && (forall c :: c in s.certs ==>
      c.record in s.records && c.original == RecordedDecision(s.records[c.record].events))
  }

  lemma ReportsStay(s: State, u: State)
    requires Reports(s)
    requires forall k :: k in s.records ==> k in u.records && u.records[k].events == s.records[k].events
    requires u.runs == s.runs && u.tests == s.tests && u.certs == s.certs
    ensures Reports(u)
  {
  }

  lemma NewRunReports(id: nat, record: nat, r: Record, runner: Option<Runner>, setup: Setup)
    requires NewRun(id, record, r, runner, setup).Some?
    ensures var run := NewRun(id, record, r, runner, setup).value;
      run.record == record && run.original == RecordedDecision(r.events)
  {
  }

  lemma ReplayReports(s: State, record: nat, org: string, setup: Setup)
    requires Reports(s)
    ensures Reports(ReplayStep(s, record, org, setup))
  {
    var found := Found(s, record, org);
    if found.Some? && NewRun(s.next, record, found.value, s.runner, setup).Some? {
      NewRunReports(s.next, record, found.value, s.runner, setup);
    }
  }

  lemma MutationReports(s: State, record: nat, org: string, fix: Kwargs, expected: string, setup: Setup)
    requires Reports(s)
    ensures Reports(MutationStep(s, record, org, fix, expected, setup))
  {
    var u := MutationStep(s, record, org, fix, expected, setup);
    if u != s {
      RunsOfRecord(s.runs, record);
      var run := Last(RunsOf(s.runs, record)).value;
      assert run in RunsOf(s.runs, record);
      var r := s.records[record];
      var t := NewTest(s.next, record, r, run, fix, ExpectedOutcome(s, r, expected), setup).value;
      assert u == s.(tests := s.tests + [t], next := s.next + 1);
    }
  }

  lemma IssueReports(s: State, record: nat, org: string)
    requires Reports(s)
    ensures Reports(IssueProof(s, record, org))
  {
    var u := IssueProof(s, record, org);
    if u != s {
      TestsOfRecord(s.tests, record);
      var t := Last(TestsOf(s.tests, record)).value;
      assert t in TestsOf(s.tests, record);
      assert u.certs == s.certs + [NewCertificate(s.next, s.records[record], t)];
    }
  }

  lemma StepReports(s: State, c: Command, setup: Setup)
    requires Reports(s) && Inv(s, setup)
    ensures Reports(Step(s, c, setup))
  {
    match c
    case Replaying(record, org) => ReplayReports(s, record, org, setup);
    case Mutating(record, org, fix, expected) => MutationReports(s, record, org, fix, expected, setup);
    case Issuing(record, org) => IssueReports(s, record, org);
    case _ =>
      StepKeeps(s, c, setup);
      ReportsStay(s, Step(s, c, setup));
  }

  lemma {:induction false} ExecReports(s: State, cs: seq<Command>, setup: Setup)
    requires Reports(s) && Inv(s, setup)
    ensures Reports(Exec(s, cs, setup))
    decreases cs
  {
    if cs != [] {
      StepReports(s, cs[0], setup);
      StepKeeps(s, cs[0], setup);
      ExecReports(Step(s, cs[0], setup), cs[1..], setup);
    }
  }

  /** In every run a proof reports a change of decision exactly when its record had not decided as expected. */
  lemma ProofReportsChangeIff(cs: seq<Command>, setup: Setup, c: Certificate)
    requires c in Exec(Initial(), cs, setup).certs
    ensures var s := Exec(Initial(), cs, setup);
      && c.record in s.records && c.mutated == c.expected
      && c.original == RecordedDecision(s.records[c.record].events)
      && (c.original != c.mutated <==> RecordedDecision(s.records[c.record].events) != c.expected)
  {
    EveryProofIsBacked(cs, setup, c);
    ExecReports(Initial(), cs, setup);
  }

  /** What a label expects never changes. */
  ghost predicate LabelsKept(s: State, u: State) {
    s.next <= u.next && (forall l :: l in u.labels ==> l < u.next)
    && forall l :: l in s.labels ==> l in u.labels && u.labels[l].expected == s.labels[l].expected
  }

  lemma {:induction false} ExecKeepsLabels(s: State, cs: seq<Command>, setup: Setup)
    requires forall l :: l in s.labels ==> l < s.next
    ensures LabelsKept(s, Exec(s, cs, setup))
    decreases cs
  {
    if cs != [] {
      StepKeepsLabels(s, cs[0], setup);
      ExecKeepsLabels(Step(s, cs[0], setup), cs[1..], setup);
    }
  }

  lemma StepKeepsLabels(s: State, c: Command, setup: Setup)
    requires forall l :: l in s.labels ==> l < s.next
    ensures LabelsKept(s, Step(s, c, setup))
  {
  }

  /**
   A test carries its record's label whatever outcome it was made for. After any further run the two agree exactly when
   the call named no outcome, or the label's.
   */
  lemma LabelAgreesIff(
      s: State, record: nat, org: string, fix: Kwargs, expected: string, setup: Setup, t: MutationTest, l: nat,
      later: seq<Command>)
    requires forall k :: k in s.labels ==> k < s.next
    requires MutationStep(s, record, org, fix, expected, setup).tests == s.tests + [t]
    requires t.labelId == Some(l) && l in s.labels
    ensures var u := Exec(MutationStep(s, record, org, fix, expected, setup), later, setup);
      && l in u.labels
      && (t.expected == u.labels[l].expected <==> expected == "" || expected == s.labels[l].expected)
  {
    StoredTest(s, record, org, fix, expected, setup, t);
    ExecKeepsLabels(MutationStep(s, record, org, fix, expected, setup), later, setup);
  }

  lemma StoredTest(
      s: State, record: nat, org: string, fix: Kwargs, expected: string, setup: Setup, t: MutationTest)
    requires MutationStep(s, record, org, fix, expected, setup).tests == s.tests + [t]
    ensures Found(s, record, org).Some? && t.labelId == s.records[record].labelId
    ensures t.expected == ExpectedOutcome(s, s.records[record], expected)
    ensures var u := MutationStep(s, record, org, fix, expected, setup); u.labels == s.labels && u.next == s.next + 1
  {
    var u := MutationStep(s, record, org, fix, expected, setup);
    assert u.tests[|s.tests|] == t && |u.tests| != |s.tests|;
  }

  // ---- Runs that certify ----

  function Deciding(decision: string): Payload {
    Payload(Some(Fields(None, None, None)), None, None, None, None, None, Some(decision), false)
  }

  /** Denies unless the fix is set. */
  function FixableAgent(): AgentFn {
    kw => (seen => Finish(Some(if "fix" in kw then "APPROVE" else "DENY")))
  }

  function FixableSetup(): Setup {
    Setup(scenario => FixableAgent(), 0)
  }

  /** A configured runner that reproduces the denial. */
  function Denier(): Runner {
    elements => RunnerResult("DENY", RunReplayed)
  }

  /** A demo record is replayed by its agent, any other by the runner. */
  function RunnerFor(demo: bool): Option<Runner> {
    if demo then None else Some(Denier())
  }

  const FIX: Kwargs := map["fix" := Null]

  function Creating(org: string, demo: bool, decision: string): Command {
    Create(org, [Element("http", Deciding(decision)), Element("decision", Deciding(decision))], "", demo)
  }

  function Fixing(org: string): Command {
    Mutating(0, org, FIX, "APPROVE")
  }

  function FirstHalf(org: string, demo: bool, decision: string): seq<Command> {
    [Configuring(RunnerFor(demo)), Creating(org, demo, decision)]
  }

  /** Configure, create a record, replay it, verify a fix. */
  function FixingRun(org: string, demo: bool, decision: string): seq<Command> {
    FirstHalf(org, demo, decision) + [Replaying(0, org), Fixing(org)]
  }

  lemma FixableReplays(es: seq<Element>)
    ensures ReplayOf(es, FixableAgent(), map[], false, 0) == Result(Some("DENY"), Status.Replayed)
    ensures ReplayOf(es, FixableAgent(), map[] + FIX, false, 0) == Result(Some("APPROVE"), Status.Replayed)
  {
    assert "fix" in map[] + FIX && "cassette" !in map[] + FIX;
  }

  /** A store holding one sound, unlabelled record, with some of its replays and tests. */
  ghost predicate OneRecord(s: State, org: string, demo: bool, decision: string, runs: nat, tests: nat) {
    && 0 in s.records && Inv(s, FixableSetup()) && s.labels == map[] && s.certs == []
    && |s.runs| == runs && |s.tests| == tests && s.runner == RunnerFor(demo)
    && (forall run :: run in s.runs ==> run.record == 0 && run.status == RunReplayed)
    && (forall t :: t in s.tests ==> t.record == 0 && t.verified && t.labelId == None && t.expected == "APPROVE")
    && var r := s.records[0];
      r.org == org && r.isDemo == demo && r.labelId == None && Sound(r.events) && !Unplayable(r)
      && RecordedDecision(r.events) == decision
  }

  /** One proof of the record was issued, and no label was ever given. */
  ghost predicate ProvedUnlabelled(s: State) {
    |s.certs| == 1 && s.certs[0].record == 0 && s.certs[0].labelId == None && s.labels == map[]
  }

  lemma CreatedSound(decision: string)
    ensures var es := EventsOf([Element("http", Deciding(decision)), Element("decision", Deciding(decision))]);
      Sound(es) && Assess(es, false) == RequiresHumanLabel && RecordedDecision(es) == decision
  {
    var es := EventsOf([Element("http", Deciding(decision)), Element("decision", Deciding(decision))]);
    assert |es| == 2 && es[0].kind == ToolCall && es[1].kind == Decision;
    assert HasKind(es, ToolCall) && HasKind(es, Decision);
    assert es[1..][0].kind == Decision;
  }

  lemma OneCreated(org: string, demo: bool, decision: string)
    ensures var s := Step(Initial().(runner := RunnerFor(demo)), Creating(org, demo, decision), FixableSetup());
      OneRecord(s, org, demo, decision, 0, 0)
  {
    StepKeeps(Initial().(runner := RunnerFor(demo)), Creating(org, demo, decision), FixableSetup());
    CreatedSound(decision);
  }

  lemma OneReplayed(s: State, org: string, demo: bool, decision: string)
    requires OneRecord(s, org, demo, decision, 0, 0)
    ensures OneRecord(ReplayStep(s, 0, org, FixableSetup()), org, demo, decision, 1, 0)
  {
    ReplayKeeps(s, 0, org, FixableSetup());
    FixableReplays(SnapshotOf(s.records[0].events));
  }

  lemma OneMutated(s: State, org: string, demo: bool, decision: string)
    requires OneRecord(s, org, demo, decision, 1, 0)
    ensures OneRecord(MutationStep(s, 0, org, FIX, "APPROVE", FixableSetup()), org, demo, decision, 1, 1)
  {
    MutationKeeps(s, 0, org, FIX, "APPROVE", FixableSetup());
    assert s.runs[0] in s.runs;
    OneRun(s.runs, 0);
    FixableTest(s.next, s.records[0], s.runs[0]);
  }

  lemma OneRun(runs: seq<ReplayRun>, record: nat)
    requires |runs| == 1 && runs[0].record == record
    ensures Last(RunsOf(runs, record)) == Some(runs[0])
  {
    assert runs[..0] == [];
  }

  lemma OneTest(tests: seq<MutationTest>, record: nat)
    requires |tests| == 1 && tests[0].record == record
    ensures Last(TestsOf(tests, record)) == Some(tests[0])
  {
    assert tests[..0] == [];
  }

  lemma FixableTest(id: nat, r: Record, run: ReplayRun)
    ensures var t := NewTest(id, 0, r, run, FIX, "APPROVE", FixableSetup());
      && t.Some? && t.value.record == 0 && t.value.verified
      && t.value.labelId == r.labelId && t.value.expected == "APPROVE"
  {
    FixableReplays(SnapshotOf(r.events));
  }

  lemma OneProvable(s: State, org: string, demo: bool, decision: string)
    requires OneRecord(s, org, demo, decision, 1, 1)
    ensures Provable(s, 0) && Inv(s, FixableSetup()) && Found(s, 0, org) == Some(s.records[0])
    ensures s.records[0].isDemo == demo && !Unplayable(s.records[0])
  {
    assert s.tests[0] in s.tests;
    OneTest(s.tests, 0);
  }

  lemma OneIssued(s: State, org: string, decision: string)
    requires OneRecord(s, org, true, decision, 1, 1)
    ensures ProvedUnlabelled(IssueProof(s, 0, org))
  {
    assert s.tests[0] in s.tests;
    OneTest(s.tests, 0);
    IssuedIff(s, 0, org, FixableSetup());
  }

  lemma ExecOne(s: State, a: Command, setup: Setup)
    ensures Exec(s, [a], setup) == Step(s, a, setup)
  {
    assert [a][1..] == [];
  }

  lemma ExecTwo(s: State, a: Command, b: Command, setup: Setup)
    ensures Exec(s, [a, b], setup) == Step(Step(s, a, setup), b, setup)
  {
    assert [a, b][1..] == [b];
    ExecOne(Step(s, a, setup), b, setup);
  }

  lemma {:induction false} ExecAppend(s: State, xs: seq<Command>, ys: seq<Command>, setup: Setup)
    ensures Exec(s, xs + ys, setup) == Exec(Exec(s, xs, setup), ys, setup)
    decreases xs
  {
    if xs == [] {
      assert xs + ys == ys;
    } else {
      assert (xs + ys)[1..] == xs[1..] + ys;
      ExecAppend(Step(s, xs[0], setup), xs[1..], ys, setup);
    }
  }

  lemma ExecFour(
      s: State, runner: Option<Runner>, create: Command, record: nat, org: string, fix: Kwargs, expected: string,
      setup: Setup)
    ensures var u := ReplayStep(Step(s.(runner := runner), create, setup), record, org, setup);
      Exec(s, [Configuring(runner), create] + [Replaying(record, org), Mutating(record, org, fix, expected)], setup)
        == MutationStep(u, record, org, fix, expected, setup)
  {
    ExecAppend(s, [Configuring(runner), create], [Replaying(record, org), Mutating(record, org, fix, expected)], setup);
    ExecTwo(s, Configuring(runner), create, setup);
    var u := Exec(s, [Configuring(runner), create], setup);
    ExecTwo(u, Replaying(record, org), Mutating(record, org, fix, expected), setup);
  }

  lemma OneTested(org: string, demo: bool, decision: string)
    ensures OneRecord(Exec(Initial(), FixingRun(org, demo, decision), FixableSetup()), org, demo, decision, 1, 1)
  {
    var s := Step(Initial().(runner := RunnerFor(demo)), Creating(org, demo, decision), FixableSetup());
    OneCreated(org, demo, decision);
    OneReplayed(s, org, demo, decision);
    OneMutated(ReplayStep(s, 0, org, FixableSetup()), org, demo, decision);
    ExecFour(Initial(), RunnerFor(demo), Creating(org, demo, decision), 0, org, FIX, "APPROVE", FixableSetup());
  }

  lemma ThenOne(s: State, cs: seq<Command>, u: State, record: nat, org: string, setup: Setup)
    requires Exec(s, cs, setup) == u
    ensures Exec(s, cs + [Issuing(record, org)], setup) == IssueProof(u, record, org)
  {
    ExecAppend(s, cs, [Issuing(record, org)], setup);
    ExecOne(u, Issuing(record, org), setup);
  }

  /** Proofs exist, and no human label is needed to get one: naming the expected outcome in the call is enough. */
  lemma ProofNeedsNoLabel(org: string, decision: string)
    ensures ProvedUnlabelled(Exec(Initial(), FixingRun(org, true, decision) + [Issuing(0, org)], FixableSetup()))
  {
    var s := Exec(Initial(), FixingRun(org, true, decision), FixableSetup());
    OneTested(org, true, decision);
    OneIssued(s, org, decision);
    ThenOne(Initial(), FixingRun(org, true, decision), s, 0, org, FixableSetup());
  }

  lemma ThenTwo(s: State, cs: seq<Command>, u: State, record: nat, org: string, setup: Setup)
    requires Exec(s, cs, setup) == u
    ensures Exec(s, cs + [Configuring(None), Replaying(record, org)], setup) ==
      ReplayStep(u.(runner := None), record, org, setup)
  {
    ExecAppend(s, cs, [Configuring(None), Replaying(record, org)], setup);
    ExecTwo(u, Configuring(None), Replaying(record, org), setup);
  }

  /** A run from the empty store that divides eligibility and issuing. */
  lemma EligibilityDivides(org: string, decision: string)
    ensures var cs := FixingRun(org, false, decision) + [Configuring(None), Replaying(0, org)];
      var s := Exec(Initial(), cs, FixableSetup());
      && 0 in s.records && !ActionEligible(s, 0)
      && |IssueProof(s, 0, org).certs| == |s.certs| + 1
  {
    var s := Exec(Initial(), FixingRun(org, false, decision), FixableSetup());
    OneTested(org, false, decision);
    OneProvable(s, org, false, decision);
    ClearingTheRunnerDivides(s, 0, org, FixableSetup());
    ThenTwo(Initial(), FixingRun(org, false, decision), s, 0, org, FixableSetup());
  }

  /**
    * A proof that reports no change: the record had decided as expected all along, and only its unfixed replay
    * did not.
    */
  lemma ProofCanReportNoChange(org: string)
    ensures var s := Exec(Initial(), FixingRun(org, true, "APPROVE") + [Issuing(0, org)], FixableSetup());
      ProvedUnlabelled(s) && s.certs[0].original == s.certs[0].mutated
  {
    var cs := FixingRun(org, true, "APPROVE");
    var s := Exec(Initial(), cs, FixableSetup());
    OneTested(org, true, "APPROVE");
    OneIssued(s, org, "APPROVE");
    ThenOne(Initial(), cs, s, 0, org, FixableSetup());
    var u := IssueProof(s, 0, org);
    ProofReportsChangeIff(cs + [Issuing(0, org)], FixableSetup(), u.certs[0]);
    OneExpects(s, org);
  }

  lemma OneExpects(s: State, org: string)
    requires OneRecord(s, org, true, "APPROVE", 1, 1)
    ensures var u := IssueProof(s, 0, org);
      u.records == s.records && (|u.certs| == 1 ==> u.certs[0].expected == "APPROVE")
  {
    assert s.tests[0] in s.tests;
    OneTest(s.tests, 0);
  }
}
