/**
 What a replay is, said of the list of calls the agent makes: their replies, what is missed, what is left over, and
 the verdict on it.
 */
module ReplayRules {
  import opened Wrappers
  import opened Json
  import opened Cassette
  import opened CassetteRules
  import opened Replay

  function RepliesTo(t: Tape, calls: seq<Call>): seq<Option<Reply>> {
    Run(t, calls).1
  }

  /** Handed the replies so far, the agent makes these calls, one after the other. */
  ghost predicate Makes(agent: Agent, t: Tape, seen: seq<Option<Reply>>, calls: seq<Call>) {
    |RepliesTo(t, calls)| == |calls| &&
    forall k :: 0 <= k < |calls| ==> agent(seen + RepliesTo(t, calls)[..k]) == Invoke(calls[k])
  }

  lemma RepliesSplit(t: Tape, calls: seq<Call>)
    requires calls != []
    ensures RepliesTo(t, calls) == [Look(t, calls[0]).1] + RepliesTo(Look(t, calls[0]).0, calls[1..])
    ensures Run(t, calls).0 == Run(Look(t, calls[0]).0, calls[1..]).0
  {
  }

  lemma MakesRest(
      agent: Agent, seen: seq<Option<Reply>>, calls: seq<Call>, r: Option<Reply>, rest: seq<Option<Reply>>)
    requires calls != [] && |rest| == |calls| - 1
    requires forall k :: 0 <= k < |calls| ==> agent(seen + ([r] + rest)[..k]) == Invoke(calls[k])
    ensures agent(seen) == Invoke(calls[0])
    ensures forall k :: 0 <= k < |calls[1..]| ==> agent((seen + [r]) + rest[..k]) == Invoke(calls[1..][k])
  {
    assert seen + ([r] + rest)[..0] == seen;
    forall k | 0 <= k < |calls[1..]| ensures agent((seen + [r]) + rest[..k]) == Invoke(calls[1..][k]) {
      assert (seen + [r]) + rest[..k] == seen + ([r] + rest)[..k + 1];
    }
  }

  lemma MakesFirst(agent: Agent, t: Tape, seen: seq<Option<Reply>>, calls: seq<Call>)
    requires calls != [] && Makes(agent, t, seen, calls)
    ensures agent(seen) == Invoke(calls[0])
    ensures var (t', r) := Look(t, calls[0]);
      && Makes(agent, t', seen + [r], calls[1..])
      && seen + RepliesTo(t, calls) == (seen + [r]) + RepliesTo(t', calls[1..])
      && Run(t, calls).0 == Run(t', calls[1..]).0
  {
    RepliesSplit(t, calls);
    var (t', r) := Look(t, calls[0]);
    var rest := RepliesTo(t', calls[1..]);
    MakesRest(agent, seen, calls, r, rest);
    assert seen + ([r] + rest) == (seen + [r]) + rest;
  }

  lemma MakesNext(agent: Agent, t: Tape, seen: seq<Option<Reply>>, calls: seq<Call>, c: Call)
    requires agent(seen) == Invoke(c) && Makes(agent, Look(t, c).0, seen + [Look(t, c).1], calls)
    ensures Makes(agent, t, seen, [c] + calls)
  {
    var (t', r) := Look(t, c);
    assert ([c] + calls)[1..] == calls;
    var rs, rest := RepliesTo(t, [c] + calls), RepliesTo(t', calls);
    assert rs == [r] + rest;
    forall k | 0 <= k < |[c] + calls| ensures agent(seen + rs[..k]) == Invoke(([c] + calls)[k]) {
      if k == 0 {
        assert seen + rs[..0] == seen;
      } else {
        assert seen + rs[..k] == (seen + [r]) + rest[..k - 1];
      }
    }
  }

  /** The outcome, told by what the agent does after its calls. */
  ghost predicate Concludes(agent: Agent, seen: seq<Option<Reply>>, calls: seq<Call>, budget: nat, o: Outcome) {
    |calls| <= budget &&
    match agent(seen)
    case Finish(d) => o == Returned(d)
    case Raise => o == Failed
    case Invoke(_) => o == Running && |calls| == budget
  }

  lemma {:induction false} DriveIs(
      agent: Agent, t: Tape, seen: seq<Option<Reply>>, budget: nat, calls: seq<Call>, o: Outcome)
    requires Makes(agent, t, seen, calls) && Concludes(agent, seen + RepliesTo(t, calls), calls, budget, o)
    ensures Drive(agent, t, seen, budget) == (Run(t, calls).0, o)
    decreases |calls|
  {
    if calls == [] {
      assert seen + RepliesTo(t, calls) == seen;
    } else {
      MakesFirst(agent, t, seen, calls);
      var (t', r) := Look(t, calls[0]);
      DriveIs(agent, t', seen + [r], budget - 1, calls[1..], o);
    }
  }

  lemma {:induction false} SomeCalls(agent: Agent, t: Tape, seen: seq<Option<Reply>>, budget: nat)
    returns (calls: seq<Call>, o: Outcome)
    ensures Makes(agent, t, seen, calls) && Concludes(agent, seen + RepliesTo(t, calls), calls, budget, o)
    decreases budget
  {
    calls := [];
    assert RepliesTo(t, []) == [] && seen + [] == seen;
    match agent(seen)
    case Finish(d) => o := Returned(d);
    case Raise => o := Failed;
    case Invoke(c) =>
      o := Running;
      if budget > 0 {
        var rest;
        var (t', r) := Look(t, c);
        rest, o := SomeCalls(agent, t', seen + [r], budget - 1);
        MakesNext(agent, t, seen, rest, c);
        calls := [c] + rest;
        MakesFirst(agent, t, seen, calls);
        assert calls[1..] == rest;
      }
  }

  /** In order, what the agent asked for and did not get is reported; else how much it did not ask for, if anything. */
  ghost predicate StrictVerdict(recorded: nat, calls: seq<Call>, rs: seq<Option<Reply>>, s: Status)
    requires |rs| == |calls|
  {
    if exists i :: 0 <= i < |rs| && rs[i] == None then
      s.MissedCalls? && InCapitals(s.misses, Unanswered(calls, rs))
    else if |calls| < recorded then s == UnusedEntries(recorded - |calls|)
    else s == Replayed
  }

  /** The verdict on a list of calls: by how the agent ends and, in order, by what was missed or left over. */
  ghost predicate Verdict(t: Tape, agent: Agent, calls: seq<Call>, budget: nat, r: Result)
    requires |RepliesTo(t, calls)| == |calls|
  {
    |calls| <= budget &&
    match agent(RepliesTo(t, calls))
    case Raise => r == Result(None, Errored)
    case Invoke(_) => |calls| == budget && r == Result(None, StillRunning)
    case Finish(d) =>
      && r.decision == d
      && if t.strict then StrictVerdict(|t.ordered|, calls, RepliesTo(t, calls), r.status) else r.status == Replayed
  }

  lemma {:induction false} UnansweredNone(calls: seq<Call>, rs: seq<Option<Reply>>)
    requires |rs| == |calls|
    ensures Unanswered(calls, rs) == [] <==> forall i :: 0 <= i < |rs| ==> rs[i] != None
  {
    if calls != [] {
      UnansweredNone(calls[1..], rs[1..]);
      assert forall i :: 0 < i < |rs| ==> rs[i] == rs[1..][i - 1];
    }
  }

  lemma {:induction false} RunKeeps(t: Tape, calls: seq<Call>)
    ensures Run(t, calls).0.strict == t.strict && Run(t, calls).0.ordered == t.ordered
    decreases calls
  {
    if calls != [] { RunKeeps(Look(t, calls[0]).0, calls[1..]); }
  }

  lemma JudgeIs(es: seq<Entry>, strict: bool, agent: Agent, calls: seq<Call>, budget: nat, o: Outcome)
    requires var t := Fresh(strict, es);
      Makes(agent, t, [], calls) && Concludes(agent, RepliesTo(t, calls), calls, budget, o)
    ensures var t := Fresh(strict, es); Verdict(t, agent, calls, budget, Judge(Run(t, calls).0, o))
  {
    var t := Fresh(strict, es);
    var (u, rs) := Run(t, calls);
    RunKeeps(t, calls);
    MissesAre(t, calls);
    assert u.misses[|t.misses|..] == u.misses;
    UnansweredNone(calls, rs);
    if strict { StrictRunCounts(es, calls); }
  }

  /** Every replay is the verdict on the calls its agent makes. */
  lemma ReplayIs(es: seq<Element>, fn: AgentFn, kwargs: Kwargs, strict: bool, budget: nat) returns (calls: seq<Call>)
    requires "cassette" !in kwargs
    ensures var t := Fresh(strict, Extract(es));
      && Makes(fn(kwargs), t, [], calls)
      && Verdict(t, fn(kwargs), calls, budget, ReplayOf(es, fn, kwargs, strict, budget))
  {
    var t := Fresh(strict, Extract(es));
    var o;
    calls, o := SomeCalls(fn(kwargs), t, [], budget);
    assert [] + RepliesTo(t, calls) == RepliesTo(t, calls);
    DriveIs(fn(kwargs), t, [], budget, calls, o);
    JudgeIs(Extract(es), strict, fn(kwargs), calls, budget, o);
  }

  /** A setting with the name of the argument the engine passes makes every replay fail. */
  lemma CollisionFails(es: seq<Element>, fn: AgentFn, kwargs: Kwargs, strict: bool, budget: nat)
    requires "cassette" in kwargs
    ensures ReplayOf(es, fn, kwargs, strict, budget) == Result(None, Errored)
  {
  }

  /** Out of order: replayed exactly when the agent finishes after calls within the budget, and with its decision. */
  lemma LooseReplayedIff(es: seq<Element>, fn: AgentFn, kwargs: Kwargs, budget: nat, d: Option<string>)
    ensures ReplayOf(es, fn, kwargs, false, budget) == Result(d, Replayed) <==>
      "cassette" !in kwargs && exists calls ::
        var t := Fresh(false, Extract(es));
        |calls| <= budget && Makes(fn(kwargs), t, [], calls) && fn(kwargs)(RepliesTo(t, calls)) == Finish(d)
  {
    var t := Fresh(false, Extract(es));
    if "cassette" !in kwargs {
      var calls := ReplayIs(es, fn, kwargs, false, budget);
      if cs :| |cs| <= budget && Makes(fn(kwargs), t, [], cs) && fn(kwargs)(RepliesTo(t, cs)) == Finish(d) {
        assert [] + RepliesTo(t, cs) == RepliesTo(t, cs);
        DriveIs(fn(kwargs), t, [], budget, cs, Returned(d));
        JudgeIs(Extract(es), false, fn(kwargs), cs, budget, Returned(d));
      }
    }
  }
}
