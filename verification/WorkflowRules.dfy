/**
 Where everything stored comes from: in every run of the services each record, replay run, test and proof was made
 by one call, and holds what that call found.
 */
module WorkflowRules {
  import opened Wrappers
  import opened Json
  import opened Cassette
  import opened Replay
  import opened RecordConversion
  import opened Workflow

  /** The state before the n-th call. */
  function Before(cs: seq<Command>, n: nat, setup: Setup): State
    requires n <= |cs|
  {
    Exec(Initial(), cs[..n], setup)
  }

  lemma OneMoreCall(cs: seq<Command>, n: nat, setup: Setup)
    requires n < |cs|
    ensures Before(cs, n + 1, setup) == Step(Before(cs, n, setup), cs[n], setup)
  {
    assert cs[..n + 1] == cs[..n] + [cs[n]];
    ExecAppend(Initial(), cs[..n], [cs[n]], setup);
    ExecOne(Before(cs, n, setup), cs[n], setup);
  }

  // ---- Replay runs ----

  /** What a run without a configured runner says of a demo record: how its agent ended on the recorded calls. */
  ghost predicate SaysOfAgent(run: ReplayRun, result: Result) {
    && (run.status == RunReplayed <==> result.status == Replayed)
    && (run.status == RunError <==> result.status == Errored)
    && (run.status == RunReplayed || run.status == RunError)
    && (result.decision == Some(run.replayed) || (result.decision == None && run.replayed == ""))
  }

  /** What a run says of its record, by the runner configured when it was made. */
  ghost predicate Says(run: ReplayRun, r: Record, runner: Option<Runner>, setup: Setup) {
    && run.original == RecordedDecision(r.events)
    && (MISMATCHED in run.limitations <==>
      run.original != "" && run.replayed != "" && run.original != run.replayed)
    && if r.replayability in {MissingContext, EvidenceOnly} then
         run.status == Incomplete && run.replayed == "" && run.limitations == [NO_CALLS]
       else if runner == None && !r.isDemo then
         run.status == UnsupportedRunner && run.replayed == "" && run.limitations == [NO_RUNNER]
       else
         && (forall l :: l in run.limitations ==> l == MISMATCHED)
         && if runner != None then
              run.status == runner.value(SnapshotOf(r.events)).status
              && run.replayed == runner.value(SnapshotOf(r.events)).decision
            else
              SaysOfAgent(run, ReplayOf(SnapshotOf(r.events), setup.agents(r.scenario), map[], false, setup.budget))
  }

  const NO_CALLS := Limitation("missing_cassette_context", Core, true)

  const NO_RUNNER := Limitation("replay_runner_not_configured", Core, true)

  const MISMATCHED := Limitation("decision_mismatch", Side, false)

  /** The n-th call made the run. */
  ghost predicate MadeRun(cs: seq<Command>, n: nat, run: ReplayRun, setup: Setup) {
    n < |cs| && cs[n].Replaying? && cs[n].record == run.record
    && var s := Before(cs, n, setup);
      && run.id == s.next && run.record in s.records && s.records[run.record].org == cs[n].org
      && Says(run, s.records[run.record], s.runner, setup)
  }

  lemma NewRunSays(id: nat, record: nat, r: Record, runner: Option<Runner>, setup: Setup)
    requires NewRun(id, record, r, runner, setup).Some?
    ensures var run := NewRun(id, record, r, runner, setup).value;
      run.id == id && run.record == record && Says(run, r, runner, setup)
  {
    LooseStatus(SnapshotOf(r.events), setup.agents(r.scenario), map[], setup.budget);
    var run := NewRun(id, record, r, runner, setup).value;
    if !Unplayable(r) {
      var (decision, status, limitations) := PlayRecord(r, runner, setup).value;
      assert run.limitations == limitations + Mismatch(run.original, decision);
      assert MISMATCHED !in limitations;
    }
  }

  /** In every run of the services each stored run was made by one call, and says what that call found. */
  lemma {:induction false} EveryRunIsMade(cs: seq<Command>, n: nat, setup: Setup, run: ReplayRun)
    requires n <= |cs| && run in Before(cs, n, setup).runs
    ensures exists m: nat :: m < n && MadeRun(cs, m, run, setup)
    decreases n
  {
    if n > 0 {
      var s := Before(cs, n - 1, setup);
      OneMoreCall(cs, n - 1, setup);
      if run in s.runs {
        EveryRunIsMade(cs, n - 1, setup, run);
      } else {
        var c := cs[n - 1];
        var r := Found(s, c.record, c.org).value;
        NewRunSays(s.next, c.record, r, s.runner, setup);
        assert MadeRun(cs, n - 1, run, setup);
      }
    }
  }

  // ---- Mutation tests ----

  /** The last stored run of a record. */
  ghost predicate IsLatestRun(runs: seq<ReplayRun>, record: nat, i: nat) {
    i < |runs| && runs[i].record == record && forall j :: i < j < |runs| ==> runs[j].record != record
  }

  lemma {:induction false} LatestRunIs(runs: seq<ReplayRun>, record: nat) returns (i: nat)
    requires Last(RunsOf(runs, record)).Some?
    ensures IsLatestRun(runs, record, i) && Last(RunsOf(runs, record)) == Some(runs[i])
  {
    var init := runs[..|runs| - 1];
    if runs[|runs| - 1].record == record {
      i := |runs| - 1;
    } else {
      i := LatestRunIs(init, record);
    }
  }

  /** What a test says of its record: the decisions with the fix and without it, and whether the fix mitigates. */
  ghost predicate SaysOfFix(t: MutationTest, r: Record, setup: Setup) {
    var es, agent := SnapshotOf(r.events), setup.agents(r.scenario);
    var fixed := ReplayOf(es, agent, t.fix, false, setup.budget);
    var unfixed := ReplayOf(es, agent, map[], false, setup.budget);
    var wanted := Result(Some(t.expected), Replayed);
    && (fixed.decision == Some(t.mutated) || (fixed.decision == None && t.mutated == ""))
    && (t.changed <==> fixed.decision != unfixed.decision)
    && (t.verified <==> fixed == wanted && unfixed != wanted)
    && (t.changed ==> t.limitations == [])
    && (!t.changed ==> t.limitations == [Limitation("fix_did_not_change_decision", Core, true)])
    && fixed.status != StillRunning && unfixed.status != StillRunning
  }

  /** The outcome named in the call, else that of the record's label. */
  ghost predicate Expects(t: MutationTest, s: State, named: string) {
    && t.expected != ""
    && (named != "" ==> t.expected == named)
    && (named == "" ==>
      t.labelId != None && t.labelId.value in s.labels && s.labels[t.labelId.value].expected == t.expected)
  }

  predicate RestsOn(t: MutationTest, run: ReplayRun) {
    run.status == RunReplayed && t.replayRun == run.id && t.record == run.record && t.original == run.original
  }

  /** The n-th call made the test, after a latest run with status `replayed`. */
  ghost predicate MadeTest(cs: seq<Command>, n: nat, t: MutationTest, setup: Setup) {
    n < |cs| && cs[n].Mutating? && cs[n].record == t.record && cs[n].fix == t.fix
    && var s := Before(cs, n, setup);
      && t.id == s.next && t.record in s.records && s.records[t.record].org == cs[n].org
      && t.labelId == s.records[t.record].labelId && Expects(t, s, cs[n].expected)
      && SaysOfFix(t, s.records[t.record], setup)
      && exists i: nat :: IsLatestRun(s.runs, t.record, i) && RestsOn(t, s.runs[i])
  }

  lemma NewTestSays(id: nat, record: nat, r: Record, run: ReplayRun, fix: Kwargs, expected: string, setup: Setup)
    requires NewTest(id, record, r, run, fix, expected, setup).Some?
    ensures var t := NewTest(id, record, r, run, fix, expected, setup).value;
      && SaysOfFix(t, r, setup) && t.id == id && t.record == record && t.fix == fix && t.expected == expected
      && t.labelId == r.labelId && t.replayRun == run.id && t.original == run.original
  {
    MitigatedIff(SnapshotOf(r.events), setup.agents(r.scenario), fix, map[], expected, setup.budget);
    assert map[] + fix == fix;
  }

  lemma TestedNow(s: State, c: Command, setup: Setup, t: MutationTest)
    requires t in Step(s, c, setup).tests && t !in s.tests
    ensures c.Mutating? && c.record == t.record && c.fix == t.fix && Found(s, c.record, c.org).Some? && t.id == s.next
    ensures var r := s.records[c.record];
      t.labelId == r.labelId && Expects(t, s, c.expected) && SaysOfFix(t, r, setup)
    ensures exists i: nat :: IsLatestRun(s.runs, t.record, i) && RestsOn(t, s.runs[i])
  {
    var r := Found(s, c.record, c.org).value;
    var i := LatestRunIs(s.runs, c.record);
    NewTestSays(s.next, c.record, r, s.runs[i], c.fix, ExpectedOutcome(s, r, c.expected), setup);
    assert RestsOn(t, s.runs[i]);
  }

  lemma {:induction false} EveryTestIsMade(cs: seq<Command>, n: nat, setup: Setup, t: MutationTest)
    requires n <= |cs| && t in Before(cs, n, setup).tests
    ensures exists m: nat :: m < n && MadeTest(cs, m, t, setup)
    decreases n
  {
    if n > 0 {
      var s := Before(cs, n - 1, setup);
      OneMoreCall(cs, n - 1, setup);
      if t in s.tests {
        EveryTestIsMade(cs, n - 1, setup, t);
      } else {
        TestedNow(s, cs[n - 1], setup, t);
        assert MadeTest(cs, n - 1, t, setup);
      }
    }
  }

  // ---- Proofs ----

  /** The last stored test of a record. */
  ghost predicate IsLatestTest(tests: seq<MutationTest>, record: nat, i: nat) {
    i < |tests| && tests[i].record == record && forall j :: i < j < |tests| ==> tests[j].record != record
  }

  lemma {:induction false} LatestTestIs(tests: seq<MutationTest>, record: nat) returns (i: nat)
    requires Last(TestsOf(tests, record)).Some?
    ensures IsLatestTest(tests, record, i) && Last(TestsOf(tests, record)) == Some(tests[i])
  {
    var init := tests[..|tests| - 1];
    if tests[|tests| - 1].record == record {
      i := |tests| - 1;
    } else {
      i := LatestTestIs(init, record);
    }
  }

  lemma {:induction false} LatestTestUnique(tests: seq<MutationTest>, record: nat, i: nat)
    requires IsLatestTest(tests, record, i)
    ensures Last(TestsOf(tests, record)) == Some(tests[i])
  {
    if i < |tests| - 1 {
      var init := tests[..|tests| - 1];
      LatestTestUnique(init, record, i);
      assert TestsOf(tests, record) == TestsOf(init, record);
    }
  }

  lemma {:induction false} LatestRunUnique(runs: seq<ReplayRun>, record: nat, i: nat)
    requires IsLatestRun(runs, record, i)
    ensures Last(RunsOf(runs, record)) == Some(runs[i])
  {
    if i < |runs| - 1 {
      var init := runs[..|runs| - 1];
      LatestRunUnique(init, record, i);
      assert RunsOf(runs, record) == RunsOf(init, record);
    }
  }

  predicate Reports(c: Certificate, t: MutationTest) {
    t.verified && c.record == t.record && c.fix == t.fix && c.expected == t.expected && c.labelId == t.labelId
    && c.original == t.original && c.mutated == t.mutated
  }

  /** What a proof admits: a missing label and model calls, if its record has them, and nothing that blocks. */
  ghost predicate Admits(c: Certificate, r: Record) {
    && (forall l :: l in c.limitations ==> l in {NO_LABEL, MODEL_CALLS})
    && (NO_LABEL in c.limitations <==> r.labelId == None)
    && (MODEL_CALLS in c.limitations <==> HasKind(r.events, ModelCall))
  }

  const NO_LABEL := Limitation("missing_label", Side, false)

  const MODEL_CALLS := Limitation("llm_call", Side, false)

  /** The n-th call issued the proof, from the latest test of its record. */
  ghost predicate MadeProof(cs: seq<Command>, n: nat, c: Certificate, setup: Setup) {
    n < |cs| && cs[n].Issuing? && cs[n].record == c.record
    && var s := Before(cs, n, setup);
      && c.id == s.next && c.record in s.records && s.records[c.record].org == cs[n].org
      && Sound(s.records[c.record].events) && Admits(c, s.records[c.record])
      && exists i: nat :: IsLatestTest(s.tests, c.record, i) && Reports(c, s.tests[i])
  }

  lemma FlagsAdmit(r: Record, fs: seq<Limitation>)
    requires Sound(r.events) && fs == FromFlags(Flags(r.events, r.labelId.Some?))
    ensures forall l :: l in fs ==> l in {NO_LABEL, MODEL_CALLS}
    ensures NO_LABEL in fs <==> r.labelId == None
    ensures MODEL_CALLS in fs <==> HasKind(r.events, ModelCall)
  {
    var llm := if HasKind(r.events, ModelCall) then [MODEL_CALLS] else [];
    var unlabelled := if r.labelId.Some? then [] else [NO_LABEL];
    assert fs == llm + unlabelled;
  }

  /** In every run each proof was issued by one call, from the latest test of a sound record. */
  lemma {:induction false} EveryProofIsIssued(cs: seq<Command>, n: nat, setup: Setup, c: Certificate)
    requires n <= |cs| && c in Before(cs, n, setup).certs
    ensures exists m: nat :: m < n && MadeProof(cs, m, c, setup)
    decreases n
  {
    if n > 0 {
      var s := Before(cs, n - 1, setup);
      OneMoreCall(cs, n - 1, setup);
      if c in s.certs {
        EveryProofIsIssued(cs, n - 1, setup, c);
      } else {
        ExecKeeps(Initial(), cs[..n - 1], setup);
        IssuedNow(s, cs[n - 1].record, cs[n - 1].org, setup);
        assert MadeProof(cs, n - 1, c, setup);
      }
    }
  }

  lemma IssuedNow(s: State, record: nat, org: string, setup: Setup)
    requires Inv(s, setup) && IssueProof(s, record, org) != s
    ensures Found(s, record, org).Some? && Sound(s.records[record].events)
    ensures forall c :: c in IssueProof(s, record, org).certs && c !in s.certs ==>
      && c.id == s.next && c.record == record && Admits(c, s.records[record])
      && exists i: nat :: IsLatestTest(s.tests, record, i) && Reports(c, s.tests[i])
  {
    var r := s.records[record];
    var i := LatestTestIs(s.tests, record);
    var t := s.tests[i];
    IssuedIff(s, record, org, setup);
    assert t in s.tests && TestHolds(s, t, setup);
    FlagsAdmit(r, FromFlags(r.flags));
    assert t.limitations == [];
    assert FromFlags(r.flags) + t.limitations == FromFlags(r.flags);
    assert IsLatestTest(s.tests, record, i) && Reports(NewCertificate(s.next, r, t), t);
  }

  /** The whole history of a proof: a replay run, then a test that rests on it, then the proof. */
  ghost predicate Rests(cs: seq<Command>, c: Certificate, t: MutationTest, run: ReplayRun, setup: Setup) {
    Reports(c, t) && RestsOn(t, run) &&
    exists k: nat, m: nat, n: nat ::
      k < m < n && MadeRun(cs, k, run, setup) && MadeTest(cs, m, t, setup) && MadeProof(cs, n, c, setup)
  }

  lemma EveryProofRests(cs: seq<Command>, setup: Setup, c: Certificate) returns (t: MutationTest, run: ReplayRun)
    requires c in Exec(Initial(), cs, setup).certs
    ensures Rests(cs, c, t, run, setup)
  {
    assert cs[..|cs|] == cs;
    EveryProofIsIssued(cs, |cs|, setup, c);
    var n: nat :| n < |cs| && MadeProof(cs, n, c, setup);
    var s := Before(cs, n, setup);
    var i: nat :| IsLatestTest(s.tests, c.record, i) && Reports(c, s.tests[i]);
    t := s.tests[i];
    EveryTestIsMade(cs, n, setup, t);
    var m: nat :| m < n && MadeTest(cs, m, t, setup);
    var u := Before(cs, m, setup);
    var j: nat :| IsLatestRun(u.runs, t.record, j) && RestsOn(t, u.runs[j]);
    run := u.runs[j];
    EveryRunIsMade(cs, m, setup, run);
    var k: nat :| k < m && MadeRun(cs, k, run, setup);
  }

  // ---- When a call stores something ----

  /** A proof is issued exactly when the record is sound and its last stored test is verified. */
  lemma LatestTestDecides(s: State, record: nat, org: string, setup: Setup, i: nat)
    requires Inv(s, setup) && Found(s, record, org).Some? && IsLatestTest(s.tests, record, i)
    ensures IssueProof(s, record, org) != s <==> Sound(s.records[record].events) && s.tests[i].verified
  {
    LatestTestUnique(s.tests, record, i);
    IssuedIff(s, record, org, setup);
    if IssueProof(s, record, org) != s { assert |IssueProof(s, record, org).certs| == |s.certs| + 1; }
  }

  lemma {:induction false} NoTests(tests: seq<MutationTest>, record: nat)
    requires forall i :: 0 <= i < |tests| ==> tests[i].record != record
    ensures TestsOf(tests, record) == []
  {
    if tests != [] { NoTests(tests[..|tests| - 1], record); }
  }

  /** Without a test of the record nothing is issued. */
  lemma NoTestNoProof(s: State, record: nat, org: string)
    requires forall i :: 0 <= i < |s.tests| ==> s.tests[i].record != record
    ensures IssueProof(s, record, org) == s
  {
    NoTests(s.tests, record);
  }

  /** No test is stored unless the last stored run of the record has status `replayed`. */
  lemma LatestRunDecides(
      s: State, record: nat, org: string, fix: Kwargs, expected: string, setup: Setup, i: nat)
    requires IsLatestRun(s.runs, record, i) && s.runs[i].status != RunReplayed
    ensures MutationStep(s, record, org, fix, expected, setup) == s
  {
    LatestRunUnique(s.runs, record, i);
  }

  // ---- Records ----

  /** The n-th call made the record, from the elements of a snapshot. */
  ghost predicate MadeRecord(cs: seq<Command>, n: nat, k: nat, r: Record, setup: Setup) {
    n < |cs| && cs[n].Create? && k == Before(cs, n, setup).next
    && r.org == cs[n].org && r.scenario == cs[n].scenario && r.isDemo == cs[n].isDemo
    && r.events == EventsOf(cs[n].elements)
  }

  /** What the assessment of a record says, state by state. */
  ghost predicate IsAssessed(r: Record) {
    var llm, tape := HasKind(r.events, ModelCall), HasKind(r.events, ToolCall) || HasKind(r.events, ApiResponse);
    var decided, labelled := HasKind(r.events, Decision), r.labelId != None;
    && (r.replayability == Replayable <==> tape && labelled && decided)
    && (r.replayability == RequiresHumanLabel <==> tape && !labelled)
    && (r.replayability == PartiallyReplayable <==> tape && labelled && !decided && llm)
    && (r.replayability == EvidenceOnly <==> !tape && llm)
    && (r.replayability == MissingContext <==> !tape && !llm && !decided)
  }

  /** No call changes what a record was made from; a call that adds one made it. */
  lemma RecordsStay(s: State, c: Command, setup: Setup, k: nat)
    requires k in Step(s, c, setup).records && forall j :: j in s.records ==> j < s.next
    ensures var r := Step(s, c, setup).records[k];
      if k in s.records then
        r.org == s.records[k].org && r.events == s.records[k].events && r.scenario == s.records[k].scenario
        && r.isDemo == s.records[k].isDemo
      else
        c.Create? && k == s.next && r.org == c.org && r.scenario == c.scenario && r.isDemo == c.isDemo
        && r.events == EventsOf(c.elements)
  {
  }

  lemma {:induction false} AlwaysAssessed(cs: seq<Command>, n: nat, setup: Setup)
    requires n <= |cs|
    ensures AllAssessed(Before(cs, n, setup))
    decreases n
  {
    if n > 0 {
      AlwaysAssessed(cs, n - 1, setup);
      OneMoreCall(cs, n - 1, setup);
      StepKeepsAssessed(Before(cs, n - 1, setup), cs[n - 1], setup);
    }
  }

  /** In every run each record was made by one call, and is assessed by its events and whether it has a label. */
  lemma EveryRecordIsAssessed(cs: seq<Command>, setup: Setup, k: nat)
    requires k in Exec(Initial(), cs, setup).records
    ensures IsAssessed(Exec(Initial(), cs, setup).records[k])
  {
    assert cs[..|cs|] == cs;
    AlwaysAssessed(cs, |cs|, setup);
  }

  /** The flags of a record, code by code. */
  ghost predicate IsFlagged(r: Record) {
    var llm, tape := HasKind(r.events, ModelCall), HasKind(r.events, ToolCall) || HasKind(r.events, ApiResponse);
    && (Limitation("llm_call", Side, false) in r.flags <==> llm && AllPinned(r.events))
    && (Limitation("llm_call", Core, true) in r.flags <==> !AllPinned(r.events))
    && (Limitation("missing_cassette", Core, true) in r.flags <==> !tape)
    && (Limitation("missing_decision", Core, true) in r.flags <==> !HasKind(r.events, Decision))
    && (Limitation("missing_label", Side, true) in r.flags <==> r.labelId == None)
    && forall l :: l in r.flags ==> l.code in {"llm_call", "missing_cassette", "missing_decision", "missing_label"}
  }

  ghost predicate AllPinned(events: seq<Event>) {
    forall e :: e in events && e.kind == ModelCall ==> e.payload.pinned
  }

  lemma PinnedIs(events: seq<Event>)
    ensures Pinned(events) <==> AllPinned(events)
    ensures !Pinned(events) ==> HasKind(events, ModelCall)
  {
    assert forall i :: 0 <= i < |events| ==> events[i] in events;
  }

  const UNPINNED := Limitation("llm_call", Core, true)

  const NO_TAPE := Limitation("missing_cassette", Core, true)

  const NO_DECISION := Limitation("missing_decision", Core, true)

  /** What is flagged, limitation by limitation. */
  lemma FlagIs(events: seq<Event>, labelled: bool, l: Limitation)
    ensures l in Flags(events, labelled) <==>
      || (l == MODEL_CALLS && HasKind(events, ModelCall) && Pinned(events))
      || (l == UNPINNED && HasKind(events, ModelCall) && !Pinned(events))
      || (l == NO_TAPE && !HasCassette(events)) || (l == MISSING_LABEL && !labelled)
      || (l == NO_DECISION && !HasKind(events, Decision))
  {
  }

  lemma CodesDiffer()
    ensures MODEL_CALLS.code != NO_TAPE.code && MODEL_CALLS.code != NO_DECISION.code
    ensures MODEL_CALLS.code != MISSING_LABEL.code && NO_TAPE.code != NO_DECISION.code
  {
    assert NO_TAPE.code[8] != NO_DECISION.code[8];
  }

  lemma FlagsAre(r: Record)
    requires r.flags == Flags(r.events, r.labelId.Some?)
    ensures IsFlagged(r)
  {
    PinnedIs(r.events);
    CodesDiffer();
    forall l ensures l in r.flags <==>
      || (l == MODEL_CALLS && HasKind(r.events, ModelCall) && Pinned(r.events))
      || (l == UNPINNED && HasKind(r.events, ModelCall) && !Pinned(r.events))
      || (l == NO_TAPE && !HasCassette(r.events)) || (l == MISSING_LABEL && r.labelId.None?)
      || (l == NO_DECISION && !HasKind(r.events, Decision))
    {
      FlagIs(r.events, r.labelId.Some?, l);
    }
  }

  /** In every run each record is flagged by its events and whether it has a label. */
  lemma EveryRecordIsFlagged(cs: seq<Command>, setup: Setup, k: nat)
    requires k in Exec(Initial(), cs, setup).records
    ensures IsFlagged(Exec(Initial(), cs, setup).records[k])
  {
    ExecKeeps(Initial(), cs, setup);
    FlagsAre(Exec(Initial(), cs, setup).records[k]);
  }

  lemma {:induction false} EveryRecordIsMade(cs: seq<Command>, n: nat, setup: Setup, k: nat)
    requires n <= |cs| && k in Before(cs, n, setup).records
    ensures exists m: nat :: m < n && MadeRecord(cs, m, k, Before(cs, n, setup).records[k], setup)
    decreases n
  {
    if n > 0 {
      var s := Before(cs, n - 1, setup);
      OneMoreCall(cs, n - 1, setup);
      ExecKeeps(Initial(), cs[..n - 1], setup);
      RecordsStay(s, cs[n - 1], setup, k);
      var r := Before(cs, n, setup).records[k];
      if k in s.records {
        EveryRecordIsMade(cs, n - 1, setup, k);
        var m: nat :| m < n - 1 && MadeRecord(cs, m, k, s.records[k], setup);
        assert MadeRecord(cs, m, k, r, setup);
      } else {
        assert MadeRecord(cs, n - 1, k, r, setup);
      }
    }
  }

  // ---- Labels ----

  /** The n-th call is one of the organization the record belongs to. */
  ghost predicate Reaches(cs: seq<Command>, n: nat, record: nat, org: string, setup: Setup)
    requires n <= |cs|
  {
    Found(Before(cs, n, setup), record, org).Some?
  }

  /** The n-th call labels the record. */
  ghost predicate Labels(cs: seq<Command>, n: nat, k: nat, setup: Setup) {
    n < |cs| && cs[n].Labelling? && cs[n].record == k && Reaches(cs, n, k, cs[n].org, setup)
  }

  /** The n-th call approves the label: it is then that of the record the call names. */
  ghost predicate Approves(cs: seq<Command>, n: nat, l: nat, setup: Setup) {
    n < |cs| && cs[n].Approving? && Reaches(cs, n, cs[n].record, cs[n].org, setup)
    && Before(cs, n, setup).records[cs[n].record].labelId == Some(l)
  }

  ghost predicate ApprovedBetween(cs: seq<Command>, m: nat, n: nat, l: nat, setup: Setup) {
    exists j: nat :: m < j < n && Approves(cs, j, l, setup)
  }

  /** The m-th call made the label; it is active from the start, or once some call approves it. */
  ghost predicate MadeLabel(cs: seq<Command>, m: nat, n: nat, l: nat, made: Label, setup: Setup) {
    && m < n <= |cs| && cs[m].Labelling? && Labels(cs, m, cs[m].record, setup)
    && l == Before(cs, m, setup).next && made.expected == cs[m].expected
    && (made.active <==> !cs[m].suggested || ApprovedBetween(cs, m, n, l, setup))
  }

  lemma LabelsBelow(cs: seq<Command>, n: nat, setup: Setup)
    requires n <= |cs|
    ensures forall l :: l in Before(cs, n, setup).labels ==> l < Before(cs, n, setup).next
    ensures Inv(Before(cs, n, setup), setup)
  {
    ExecKeepsLabels(Initial(), cs[..n], setup);
    ExecKeeps(Initial(), cs[..n], setup);
  }

  predicate ApprovesNow(s: State, c: Command, l: nat) {
    c.Approving? && Found(s, c.record, c.org).Some? && s.records[c.record].labelId == Some(l)
  }

  /** What one call does to a label. */
  lemma LabelStays(s: State, c: Command, setup: Setup, l: nat)
    requires l in Step(s, c, setup).labels && forall k :: k in s.labels ==> k < s.next
    ensures l in s.labels ==> Step(s, c, setup).labels[l].expected == s.labels[l].expected
    ensures l in s.labels ==>
      (Step(s, c, setup).labels[l].active <==> s.labels[l].active || ApprovesNow(s, c, l))
    ensures l !in s.labels ==>
      c.Labelling? && Found(s, c.record, c.org).Some? && l == s.next
      && Step(s, c, setup).labels[l] == Label(c.expected, !c.suggested)
  {
  }

  /** In every run each label was made by one call, expects what that call named, and is active as told. */
  lemma {:induction false} EveryLabelIsMade(cs: seq<Command>, n: nat, setup: Setup, l: nat)
    requires n <= |cs| && l in Before(cs, n, setup).labels
    ensures exists m: nat :: MadeLabel(cs, m, n, l, Before(cs, n, setup).labels[l], setup)
    decreases n
  {
    if n > 0 {
      var s := Before(cs, n - 1, setup);
      OneMoreCall(cs, n - 1, setup);
      LabelsBelow(cs, n - 1, setup);
      LabelStays(s, cs[n - 1], setup, l);
      var now := Before(cs, n, setup).labels[l];
      if l in s.labels {
        EveryLabelIsMade(cs, n - 1, setup, l);
        var m: nat :| MadeLabel(cs, m, n - 1, l, s.labels[l], setup);
        OneMoreApproval(cs, m, n - 1, l, setup);
        assert MadeLabel(cs, m, n, l, now, setup);
      } else {
        assert MadeLabel(cs, n - 1, n, l, now, setup);
      }
    }
  }

  lemma OneMoreApproval(cs: seq<Command>, m: nat, n: nat, l: nat, setup: Setup)
    requires m < n < |cs|
    ensures ApprovedBetween(cs, m, n + 1, l, setup) <==>
      ApprovedBetween(cs, m, n, l, setup) || Approves(cs, n, l, setup)
  {
    if ApprovedBetween(cs, m, n, l, setup) {
      var j: nat :| m < j < n && Approves(cs, j, l, setup);
      assert m < j < n + 1;
    }
  }

  lemma {:induction false} BeforeGrows(cs: seq<Command>, m: nat, n: nat, setup: Setup)
    requires m <= n <= |cs|
    ensures Before(cs, m, setup).records.Keys <= Before(cs, n, setup).records.Keys
    decreases n
  {
    if m < n {
      BeforeGrows(cs, m, n - 1, setup);
      OneMoreCall(cs, n - 1, setup);
      LabelsBelow(cs, n - 1, setup);
      StepKeeps(Before(cs, n - 1, setup), cs[n - 1], setup);
    }
  }

  /** What one call does to the label of a record. */
  lemma RecordLabelStays(s: State, c: Command, setup: Setup, k: nat)
    requires k in Step(s, c, setup).records && forall j :: j in s.records ==> j < s.next
    ensures var labelId := Step(s, c, setup).records[k].labelId;
      if k !in s.records then labelId == None
      else if c.Labelling? && c.record == k && Found(s, k, c.org).Some? then labelId == Some(s.next)
      else labelId == s.records[k].labelId
  {
  }

  /** A record has the label of the last call that labelled it, and none if no call did. */
  ghost predicate LabelledBy(cs: seq<Command>, n: nat, k: nat, labelId: Option<nat>, setup: Setup) {
    match labelId
    case None => forall m: nat :: m < n ==> !Labels(cs, m, k, setup)
    case Some(l) => exists m: nat ::
      && m < n <= |cs| && Labels(cs, m, k, setup) && l == Before(cs, m, setup).next
      && forall j: nat :: m < j < n ==> !Labels(cs, j, k, setup)
  }

  lemma {:induction false} EveryRecordIsLabelled(cs: seq<Command>, n: nat, setup: Setup, k: nat)
    requires n <= |cs| && k in Before(cs, n, setup).records
    ensures LabelledBy(cs, n, k, Before(cs, n, setup).records[k].labelId, setup)
    decreases n
  {
    if n > 0 {
      var s, c := Before(cs, n - 1, setup), cs[n - 1];
      OneMoreCall(cs, n - 1, setup);
      LabelsBelow(cs, n - 1, setup);
      RecordLabelStays(s, c, setup, k);
      if k !in s.records {
        forall m: nat | m < n ensures !Labels(cs, m, k, setup) { BeforeGrows(cs, m, n - 1, setup); }
      } else {
        EveryRecordIsLabelled(cs, n - 1, setup, k);
        LabelNow(cs, n - 1, setup, k);
      }
    }
  }

  lemma LabelNow(cs: seq<Command>, n: nat, setup: Setup, k: nat)
    requires n < |cs| && k in Before(cs, n, setup).records
    requires LabelledBy(cs, n, k, Before(cs, n, setup).records[k].labelId, setup)
    ensures LabelledBy(cs, n + 1, k,
      if Labels(cs, n, k, setup) then Some(Before(cs, n, setup).next) else Before(cs, n, setup).records[k].labelId,
      setup)
  {
    var labelId := Before(cs, n, setup).records[k].labelId;
    if !Labels(cs, n, k, setup) && labelId.Some? {
      var m: nat :| m < n && Labels(cs, m, k, setup) && labelId.value == Before(cs, m, setup).next
        && forall j: nat :: m < j < n ==> !Labels(cs, j, k, setup);
      assert forall j: nat :: m < j < n + 1 ==> !Labels(cs, j, k, setup);
    }
  }
}
