/**
 Replaying an agent against a recording, and verifying a fix by replaying it with changed settings.
 An agent is any function from the replies it has seen to its next action, so nothing is assumed of it beyond
 determinism. The budget is the number of lookups it may make before it is called still running.
 */
module Replay {
  import opened Wrappers
  import opened Json
  import opened Cassette

  datatype Action = Finish(decision: Option<string>) | Raise | Invoke(call: Call)

  type Agent = seq<Option<Reply>> -> Action

  type Kwargs = map<string, Json>

  type AgentFn = Kwargs -> Agent

  datatype Outcome = Returned(decision: Option<string>) | Failed | Running

  datatype Status = Replayed | MissedCalls(misses: seq<Call>) | UnusedEntries(count: nat) | Errored | StillRunning

  datatype Result = Result(decision: Option<string>, status: Status)

  function Drive(agent: Agent, t: Tape, seen: seq<Option<Reply>>, budget: nat): (Tape, Outcome)
    decreases budget
  {
    match agent(seen)
    case Finish(d) => (t, Returned(d))
    case Raise => (t, Failed)
    case Invoke(c) =>
      if budget == 0 then (t, Running)
      else
        var (t', r) := Look(t, c);
        Drive(agent, t', seen + [r], budget - 1)
  }

  /** The verdict on a finished run: only strict order looks at misses and leftovers, misses first. */
  function Judge(t: Tape, o: Outcome): Result {
    match o
    case Running => Result(None, StillRunning)
    case Failed => Result(None, Errored)
    case Returned(d) =>
      if t.strict && t.misses != [] then Result(d, MissedCalls(t.misses))
      else if t.strict && Unconsumed(t) > 0 then Result(d, UnusedEntries(Unconsumed(t)))
      else Result(d, Replayed)
  }

  /** `replay_snapshot`. A setting named `cassette` collides with the argument the engine passes, which raises. */
  function ReplayOf(es: seq<Element>, fn: AgentFn, kwargs: Kwargs, strict: bool, budget: nat): Result {
    if "cassette" in kwargs then Result(None, Errored)
    else
      var (t, o) := Drive(fn(kwargs), Fresh(strict, Extract(es)), [], budget);
      Judge(t, o)
  }

  lemma DriveStep(agent: Agent, t: Tape, seen: seq<Option<Reply>>, budget: nat)
    requires agent(seen).Invoke? && budget > 0
    ensures var (t', r) := Look(t, agent(seen).call);
      Drive(agent, t, seen, budget) == Drive(agent, t', seen + [r], budget - 1)
  {
  }

  /** `replay_snapshot` as the code runs it, over one cassette the agent's calls update. */
  method ReplaySnapshot(es: seq<Element>, fn: AgentFn, kwargs: Kwargs, strict: bool, budget: nat) returns (r: Result)
    ensures r == ReplayOf(es, fn, kwargs, strict, budget)
  {
    var cassette := new ResponseCassette(es, strict);
    if "cassette" in kwargs {
      return Result(None, Errored);
    }
    var agent := fn(kwargs);
    var seen: seq<Option<Reply>> := [];
    var left := budget;
    while agent(seen).Invoke? && left > 0
      invariant cassette.Valid() && fresh(cassette)
      invariant Drive(agent, cassette.Abs(), seen, left) == Drive(agent, Fresh(strict, Extract(es)), [], budget)
      decreases left
    {
      DriveStep(agent, cassette.Abs(), seen, left);
      var reply := cassette.Lookup(agent(seen).call);
      seen, left := seen + [reply], left - 1;
    }
    var unconsumed := cassette.UnconsumedCount();
    match agent(seen)
    case Invoke(_) => return Result(None, StillRunning);
    case Raise => return Result(None, Errored);
    case Finish(d) =>
      if cassette.strictOrder && cassette.misses != [] {
        return Result(d, MissedCalls(cassette.misses));
      }
      if cassette.strictOrder && unconsumed > 0 {
        return Result(d, UnusedEntries(unconsumed));
      }
      return Result(d, Replayed);
  }

  // ---- What a replay depends on ----

  function RecordedOnly(es: seq<Element>): seq<Element> {
    if es == [] then [] else (if IsRecorded(es[0]) then [es[0]] else []) + RecordedOnly(es[1..])
  }

  lemma {:induction false} ExtractIgnoresTheRest(es: seq<Element>)
    ensures Extract(RecordedOnly(es)) == Extract(es)
  {
    if es != [] {
      ExtractIgnoresTheRest(es[1..]);
      if IsRecorded(es[0]) {
        assert RecordedOnly(es)[1..] == RecordedOnly(es[1..]);
      } else {
        assert RecordedOnly(es) == RecordedOnly(es[1..]);
      }
    }
  }

  /** Decision and status depend only on the settings and the ordered http, tool_call and api_response elements. */
  lemma OnlyRecordedElementsMatter(
      es: seq<Element>, fs: seq<Element>, fn: AgentFn, kwargs: Kwargs, strict: bool, budget: nat)
    requires RecordedOnly(es) == RecordedOnly(fs)
    ensures ReplayOf(es, fn, kwargs, strict, budget) == ReplayOf(fs, fn, kwargs, strict, budget)
  {
    ExtractIgnoresTheRest(es);
    ExtractIgnoresTheRest(fs);
  }

  /** A replay that ended does not change with a larger budget. */
  lemma {:induction false} BudgetIrrelevant(agent: Agent, t: Tape, seen: seq<Option<Reply>>, b: nat, c: nat)
    requires b <= c && !Drive(agent, t, seen, b).1.Running?
    ensures Drive(agent, t, seen, c) == Drive(agent, t, seen, b)
    decreases b
  {
    if agent(seen).Invoke? {
      var (t', r) := Look(t, agent(seen).call);
      BudgetIrrelevant(agent, t', seen + [r], b - 1, c - 1);
    }
  }

  // ---- Strict order ----

  /**
   The reference for strict order: hand the agent the recorded replies one by one, checking each call. The
   decision, if the agent asks for exactly the recorded calls and then finishes.
   */
  function Follow(agent: Agent, es: seq<Entry>, seen: seq<Option<Reply>>): Option<Option<string>>
    decreases |es|
  {
    match agent(seen)
    case Finish(d) => if es == [] then Some(d) else None
    case Raise => None
    case Invoke(c) =>
      if es != [] && Matches(es[0], c) then Follow(agent, es[1..], seen + [Some(es[0].reply)]) else None
  }

  lemma {:induction false} MissesStay(agent: Agent, t: Tape, seen: seq<Option<Reply>>, budget: nat)
    ensures |t.misses| <= |Drive(agent, t, seen, budget).0.misses|
    ensures Drive(agent, t, seen, budget).0.strict == t.strict
    decreases budget
  {
    if agent(seen).Invoke? && budget > 0 {
      var (t', r) := Look(t, agent(seen).call);
      MissesStay(agent, t', seen + [r], budget - 1);
    }
  }

  lemma {:induction false} DriveFollows(agent: Agent, t: Tape, seen: seq<Option<Reply>>, budget: nat, d: Option<string>)
    requires t.strict && t.misses == [] && t.cursor <= |t.ordered|
    ensures var rest := t.ordered[t.cursor..];
      Judge(Drive(agent, t, seen, budget).0, Drive(agent, t, seen, budget).1) == Result(d, Replayed)
      <==> |rest| <= budget && Follow(agent, rest, seen) == Some(d)
    decreases budget
  {
    if agent(seen).Invoke? && budget > 0 {
      var (t', r) := Look(t, agent(seen).call);
      if r.Some? {
        DriveFollows(agent, t', seen + [r], budget - 1, d);
        assert t.ordered[t.cursor..][1..] == t.ordered[t'.cursor..];
      } else {
        MissesStay(agent, t', seen + [r], budget - 1);
      }
    }
  }

  /**
   In strict order a replay counts as replayed exactly when the agent finishes and its calls are the recorded
   entries, one for one, with none left over; the decision is then the one the recording leads to.
   */
  lemma StrictReplayedIff(es: seq<Element>, fn: AgentFn, kwargs: Kwargs, budget: nat, d: Option<string>)
    ensures ReplayOf(es, fn, kwargs, true, budget) == Result(d, Replayed) <==>
      "cassette" !in kwargs && |Extract(es)| <= budget && Follow(fn(kwargs), Extract(es), []) == Some(d)
  {
    var t := Fresh(true, Extract(es));
    assert t.ordered[0..] == Extract(es);
    if "cassette" !in kwargs {
      DriveFollows(fn(kwargs), t, [], budget, d);
    }
  }

  // ---- Out of order against strict order ----

  ghost predicate DistinctTargets(es: seq<Entry>) {
    forall i, j :: 0 <= i < j < |es| ==>
      Upper(es[i].call.verb) != Upper(es[j].call.verb) || es[i].call.url != es[j].call.url
  }

  /** With distinct methods and URLs, free of separators, the index gives the very reply strict order would give. */
  lemma LooseGivesTheEntry(es: seq<Entry>, i: nat, c: Call)
    requires PipeFreeRecording(es) && DistinctTargets(es) && i < |es| && Matches(es[i], c)
    ensures Look(Fresh(false, es), c) == (Fresh(false, es), Some(es[i].reply))
  {
    var ix := IndexOf(es);
    IndexWellKeyed(es);
    FirstBodiedFound(ix.keys, ix.entries, c);
    if Signature(c) in ix.entries {
      var j := LastOf(es, Signature(c));
      SignatureUnique(es[j].call, c);
    } else {
      var j := SomeLast(es, i);
      IndexKeepsLast(es, j);
      SignatureUnique(es[j].call, es[i].call);
      assert Bodied(ix.entries[Signature(es[j].call)], c);
      var k :| k in ix.keys && ix.entries[k] == FirstBodied(ix.keys, ix.entries, c).value && Bodied(ix.entries[k], c);
      var l := LastOf(es, k);
    }
  }

  lemma {:induction false} FollowedOutOfOrder(
      agent: Agent, es: seq<Entry>, i: nat, seen: seq<Option<Reply>>, budget: nat, d: Option<string>)
    requires PipeFreeRecording(es) && DistinctTargets(es) && i <= |es| && |es| - i <= budget
    requires Follow(agent, es[i..], seen) == Some(d)
    ensures Drive(agent, Fresh(false, es), seen, budget) == (Fresh(false, es), Returned(d))
    decreases |es| - i
  {
    if agent(seen).Invoke? {
      assert es[i..][1..] == es[i + 1..];
      LooseGivesTheEntry(es, i, agent(seen).call);
      FollowedOutOfOrder(agent, es, i + 1, seen + [Some(es[i].reply)], budget - 1, d);
    }
  }

  /**
   The services replay out of order. On recordings without repeated targets or separators that is no weaker:
   a run strict order accepts ends in the same decision and status.
   */
  lemma StrictReplayHoldsOutOfOrder(es: seq<Element>, fn: AgentFn, kwargs: Kwargs, budget: nat)
    requires PipeFreeRecording(Extract(es)) && DistinctTargets(Extract(es))
    requires ReplayOf(es, fn, kwargs, true, budget).status == Replayed
    ensures ReplayOf(es, fn, kwargs, false, budget) == ReplayOf(es, fn, kwargs, true, budget)
  {
    var d := ReplayOf(es, fn, kwargs, true, budget).decision;
    StrictReplayedIff(es, fn, kwargs, budget, d);
    assert Extract(es)[0..] == Extract(es);
    FollowedOutOfOrder(fn(kwargs), Extract(es), 0, [], budget, d);
  }

  // ---- What replay can tell apart ----

  /** Equal but for the case of the method. */
  ghost predicate SameEntry(e: Entry, f: Entry) {
    && Upper(e.call.verb) == Upper(f.call.verb) && e.call.url == f.call.url && e.call.body == f.call.body
    && e.reply == f.reply
  }

  ghost predicate SameRecording(es: seq<Entry>, fs: seq<Entry>) {
    |es| == |fs| && forall i :: 0 <= i < |es| ==> SameEntry(es[i], fs[i])
  }

  ghost predicate SameTape(t: Tape, u: Tape) {
    t.strict == u.strict && t.cursor == u.cursor && t.misses == u.misses && SameRecording(t.ordered, u.ordered)
  }

  ghost predicate SameIndex(ix: Index, jx: Index) {
    && ix.keys == jx.keys && ix.entries.Keys == jx.entries.Keys
    && forall k :: k in ix.entries ==> SameEntry(ix.entries[k], jx.entries[k])
  }

  lemma {:induction false} IndexSame(es: seq<Entry>, fs: seq<Entry>)
    requires SameRecording(es, fs)
    ensures SameIndex(IndexOf(es), IndexOf(fs))
  {
    if es != [] {
      IndexSame(es[..|es| - 1], fs[..|fs| - 1]);
      assert SameEntry(es[|es| - 1], fs[|fs| - 1]);
    }
  }

  lemma {:induction false} FirstBodiedSame(keys: seq<string>, ix: Index, jx: Index, c: Call)
    requires SameIndex(ix, jx) && forall k :: k in keys ==> k in ix.entries
    ensures match FirstBodied(keys, ix.entries, c)
      case None => FirstBodied(keys, jx.entries, c).None?
      case Some(e) => FirstBodied(keys, jx.entries, c).Some? && SameEntry(e, FirstBodied(keys, jx.entries, c).value)
  {
    if keys != [] { FirstBodiedSame(keys[1..], ix, jx, c); }
  }

  lemma LookSame(t: Tape, u: Tape, c: Call)
    requires SameTape(t, u)
    ensures Look(t, c).1 == Look(u, c).1 && SameTape(Look(t, c).0, Look(u, c).0)
  {
    if !t.strict {
      IndexWellKeyed(t.ordered);
      IndexWellKeyed(u.ordered);
      IndexSame(t.ordered, u.ordered);
      FirstBodiedSame(IndexOf(t.ordered).keys, IndexOf(t.ordered), IndexOf(u.ordered), c);
    }
  }

  lemma {:induction false} DriveSame(agent: Agent, t: Tape, u: Tape, seen: seq<Option<Reply>>, budget: nat)
    requires SameTape(t, u)
    ensures Drive(agent, t, seen, budget).1 == Drive(agent, u, seen, budget).1
    ensures SameTape(Drive(agent, t, seen, budget).0, Drive(agent, u, seen, budget).0)
    decreases budget
  {
    if agent(seen).Invoke? && budget > 0 {
      var c := agent(seen).call;
      LookSame(t, u, c);
      DriveSame(agent, Look(t, c).0, Look(u, c).0, seen + [Look(t, c).1], budget - 1);
    }
  }

  lemma SameRecordingReplaysAlike(
      es: seq<Element>, fs: seq<Element>, fn: AgentFn, kwargs: Kwargs, strict: bool, budget: nat)
    requires SameRecording(Extract(es), Extract(fs))
    ensures ReplayOf(es, fn, kwargs, strict, budget) == ReplayOf(fs, fn, kwargs, strict, budget)
  {
    if "cassette" !in kwargs {
      DriveSame(fn(kwargs), Fresh(strict, Extract(es)), Fresh(strict, Extract(fs)), [], budget);
    }
  }

  /** An agent that makes the calls of a recording and compares the replies. */
  function Player(es: seq<Entry>): AgentFn {
    kwargs => ((seen: seq<Option<Reply>>) =>
      if |seen| < |es| then Invoke(es[|seen|].call)
      else Finish(Some(if seen == Answers(es) then "same" else "other")))
  }

  function Answers(es: seq<Entry>): seq<Option<Reply>> {
    seq(|es|, i requires 0 <= i < |es| => Some(es[i].reply))
  }

  function Opinion(es: seq<Entry>, fs: seq<Entry>): string {
    if Answers(fs) == Answers(es) then "same" else "other"
  }

  lemma PlayerMoves(es: seq<Entry>, fs: seq<Entry>, i: nat)
    requires i <= |es| == |fs|
    ensures Player(es)(map[])(Answers(fs)[..i]) ==
      if i < |es| then Invoke(es[i].call) else Finish(Some(Opinion(es, fs)))
  {
    if i == |es| { assert Answers(fs)[..i] == Answers(fs); }
  }

  ghost predicate MatchesFrom(es: seq<Entry>, fs: seq<Entry>, i: nat)
    requires |es| == |fs|
  {
    forall k :: i <= k < |es| ==> Matches(fs[k], es[k].call)
  }

  lemma FollowInvoke(agent: Agent, fs: seq<Entry>, seen: seq<Option<Reply>>, c: Call)
    requires agent(seen) == Invoke(c) && fs != []
    ensures Follow(agent, fs, seen) ==
      if Matches(fs[0], c) then Follow(agent, fs[1..], seen + [Some(fs[0].reply)]) else None
  {
  }

  lemma MatchesNext(es: seq<Entry>, fs: seq<Entry>, i: nat)
    requires i < |es| == |fs|
    ensures MatchesFrom(es, fs, i) <==> Matches(fs[i], es[i].call) && MatchesFrom(es, fs, i + 1)
  {
  }

  lemma AnswersNext(fs: seq<Entry>, i: nat)
    requires i < |fs|
    ensures Answers(fs)[..i] + [Some(fs[i].reply)] == Answers(fs)[..i + 1] && fs[i..][1..] == fs[i + 1..]
  {
  }

  /** Played against another recording of its length: it is followed exactly where every call matches. */
  lemma {:induction false} FollowPlayer(agent: Agent, es: seq<Entry>, fs: seq<Entry>, i: nat)
    requires i <= |es| == |fs| && agent == Player(es)(map[])
    ensures Follow(agent, fs[i..], Answers(fs)[..i])
      == if MatchesFrom(es, fs, i) then Some(Some(Opinion(es, fs))) else None
    decreases |es| - i
  {
    PlayerMoves(es, fs, i);
    if i < |es| {
      FollowInvoke(agent, fs[i..], Answers(fs)[..i], es[i].call);
      AnswersNext(fs, i);
      FollowPlayer(agent, es, fs, i + 1);
      MatchesNext(es, fs, i);
    }
  }

  lemma PlayedStrictly(es: seq<Entry>, fs: seq<Element>)
    requires |es| == |Extract(fs)|
    ensures ReplayOf(fs, Player(es), map[], true, |es|) == Result(Some("same"), Replayed) <==>
      && (forall k :: 0 <= k < |es| ==> Matches(Extract(fs)[k], es[k].call))
      && Answers(Extract(fs)) == Answers(es)
  {
    StrictReplayedIff(fs, Player(es), map[], |es|, Some("same"));
    FollowPlayer(Player(es)(map[]), es, Extract(fs), 0);
    assert Extract(fs)[0..] == Extract(fs) && Answers(Extract(fs))[..0] == [];
    assert |"same"| != |"other"|;
  }

  function Quitter(): AgentFn {
    kwargs => (seen => Finish(None))
  }

  lemma QuitterCounts(es: seq<Element>)
    ensures ReplayOf(es, Quitter(), map[], true, 0).status ==
      if Extract(es) == [] then Replayed else UnusedEntries(|Extract(es)|)
  {
  }

  ghost predicate ReplayAlike(es: seq<Element>, fs: seq<Element>) {
    forall fn: AgentFn, kwargs: Kwargs, strict: bool, budget: nat ::
      ReplayOf(es, fn, kwargs, strict, budget) == ReplayOf(fs, fn, kwargs, strict, budget)
  }

  lemma AlikeMatches(es: seq<Element>, fs: seq<Element>)
    requires ReplayAlike(es, fs) && |Extract(es)| == |Extract(fs)|
    ensures forall k :: 0 <= k < |Extract(es)| ==> Matches(Extract(fs)[k], Extract(es)[k].call)
    ensures Answers(Extract(es)) == Answers(Extract(fs))
  {
    var e := Extract(es);
    PlayedStrictly(e, es);
    PlayedStrictly(e, fs);
    assert ReplayOf(es, Player(e), map[], true, |e|) == ReplayOf(fs, Player(e), map[], true, |e|);
  }

  /**
   Every agent, with every setting and in both modes, ends alike on two snapshots exactly when their recordings
   agree in length, replies and calls up to the case of the method.
   */
  lemma ReplayAlikeIff(es: seq<Element>, fs: seq<Element>)
    ensures ReplayAlike(es, fs) <==> SameRecording(Extract(es), Extract(fs))
  {
    var e, f := Extract(es), Extract(fs);
    if SameRecording(e, f) {
      forall fn: AgentFn, kwargs: Kwargs, strict: bool, budget: nat
        ensures ReplayOf(es, fn, kwargs, strict, budget) == ReplayOf(fs, fn, kwargs, strict, budget)
      {
        SameRecordingReplaysAlike(es, fs, fn, kwargs, strict, budget);
      }
    }
    if ReplayAlike(es, fs) {
      QuitterCounts(es);
      QuitterCounts(fs);
      assert ReplayOf(es, Quitter(), map[], true, 0) == ReplayOf(fs, Quitter(), map[], true, 0);
      AlikeMatches(es, fs);
      AlikeMatches(fs, es);
      forall i | 0 <= i < |e| ensures SameEntry(e[i], f[i]) {
        assert Answers(e)[i] == Answers(f)[i];
      }
    }
  }

  // ---- What replay out of order can tell apart ----

  ghost predicate LooseAlike(es: seq<Element>, fs: seq<Element>) {
    forall fn: AgentFn, kwargs: Kwargs, budget: nat ::
      ReplayOf(es, fn, kwargs, false, budget) == ReplayOf(fs, fn, kwargs, false, budget)
  }

  /** The same signatures are indexed, with the same replies. */
  ghost predicate SameReplies(es: seq<Entry>, fs: seq<Entry>) {
    var ix, jx := IndexOf(es), IndexOf(fs);
    && ix.entries.Keys == jx.entries.Keys
    && forall k :: k in ix.entries ==> ix.entries[k].reply == jx.entries[k].reply
  }

  function LooseReply(es: seq<Entry>, c: Call): Option<Reply> {
    Look(Fresh(false, es), c).1
  }

  function Bodyless(c: Call): Call {
    c.(body := None)
  }

  /** A call without a body to a method and URL of one recording gets the same reply from both. */
  ghost predicate SameFallback(of: seq<Entry>, es: seq<Entry>, fs: seq<Entry>) {
    forall i :: 0 <= i < |of| ==> LooseReply(es, Bodyless(of[i].call)) == LooseReply(fs, Bodyless(of[i].call))
  }

  ghost predicate SameIndexAnswers(es: seq<Entry>, fs: seq<Entry>) {
    SameReplies(es, fs) && SameFallback(es, es, fs) && SameFallback(fs, es, fs)
  }

  ghost predicate SameTarget(c: Call, d: Call) {
    Upper(c.verb) == Upper(d.verb) && c.url == d.url
  }

  lemma {:induction false} TargetDecides(keys: seq<string>, entries: map<string, Entry>, c: Call, d: Call)
    requires SameTarget(c, d) && forall k :: k in keys ==> k in entries
    ensures FirstBodied(keys, entries, c) == FirstBodied(keys, entries, d)
  {
    if keys != [] { TargetDecides(keys[1..], entries, c, d); }
  }

  /** What a call without a body is answered depends on its target alone. */
  lemma FallbackByTarget(es: seq<Entry>, c: Call, d: Call)
    requires SameTarget(c, d) && c.body.None? && d.body.None?
    ensures LooseReply(es, c) == LooseReply(es, d)
  {
    IndexWellKeyed(es);
    TargetDecides(IndexOf(es).keys, IndexOf(es).entries, c, d);
  }

  /** A call that is answered other than by its very signature has the target of an entry. */
  lemma FallbackHasTarget(es: seq<Entry>, c: Call)
    requires LooseReply(es, c).Some? && Signature(c) !in IndexOf(es).entries
    ensures exists i :: 0 <= i < |es| && SameTarget(es[i].call, c)
  {
    IndexWellKeyed(es);
    FirstBodiedFound(IndexOf(es).keys, IndexOf(es).entries, c);
    var k :| k in IndexOf(es).keys && Bodied(IndexOf(es).entries[k], c);
    var i := LastOf(es, k);
    assert SameTarget(es[i].call, c);
  }

  lemma AnswersAgree(es: seq<Entry>, fs: seq<Entry>, c: Call)
    requires SameIndexAnswers(es, fs)
    ensures LooseReply(es, c) == LooseReply(fs, c)
  {
    IndexWellKeyed(es);
    IndexWellKeyed(fs);
    if Signature(c) !in IndexOf(es).entries && c.body.None? {
      if i :| 0 <= i < |es| && SameTarget(es[i].call, c) {
        FallbackByTarget(es, c, Bodyless(es[i].call));
        FallbackByTarget(fs, c, Bodyless(es[i].call));
      } else if i :| 0 <= i < |fs| && SameTarget(fs[i].call, c) {
        FallbackByTarget(es, c, Bodyless(fs[i].call));
        FallbackByTarget(fs, c, Bodyless(fs[i].call));
      } else {
        if LooseReply(es, c).Some? { FallbackHasTarget(es, c); }
        if LooseReply(fs, c).Some? { FallbackHasTarget(fs, c); }
      }
    }
  }

  lemma LooseLook(t: Tape, u: Tape, c: Call)
    requires !t.strict && !u.strict && LooseReply(t.ordered, c) == LooseReply(u.ordered, c)
    ensures Look(t, c).1 == Look(u, c).1
    ensures !Look(t, c).0.strict && Look(t, c).0.ordered == t.ordered
    ensures !Look(u, c).0.strict && Look(u, c).0.ordered == u.ordered
  {
  }

  lemma {:induction false} LooseDrive(agent: Agent, t: Tape, u: Tape, seen: seq<Option<Reply>>, budget: nat)
    requires !t.strict && !u.strict && forall c :: LooseReply(t.ordered, c) == LooseReply(u.ordered, c)
    ensures Drive(agent, t, seen, budget).1 == Drive(agent, u, seen, budget).1
    decreases budget
  {
    if agent(seen).Invoke? && budget > 0 {
      var c := agent(seen).call;
      LooseLook(t, u, c);
      LooseDrive(agent, Look(t, c).0, Look(u, c).0, seen + [Look(t, c).1], budget - 1);
    }
  }

  lemma LooseReplaysAlike(es: seq<Element>, fs: seq<Element>, fn: AgentFn, kwargs: Kwargs, budget: nat)
    requires forall c :: LooseReply(Extract(es), c) == LooseReply(Extract(fs), c)
    ensures ReplayOf(es, fn, kwargs, false, budget) == ReplayOf(fs, fn, kwargs, false, budget)
  {
    if "cassette" !in kwargs {
      var t, u := Fresh(false, Extract(es)), Fresh(false, Extract(fs));
      LooseDrive(fn(kwargs), t, u, [], budget);
      MissesStay(fn(kwargs), t, [], budget);
      MissesStay(fn(kwargs), u, [], budget);
    }
  }

  /** An agent that makes one call and tells whether it got this reply. */
  function Asker(c: Call, reply: Option<Reply>): AgentFn {
    kwargs => ((seen: seq<Option<Reply>>) =>
      if seen == [] then Invoke(c) else Finish(Some(if seen[0] == reply then "same" else "other")))
  }

  lemma AskerHears(es: seq<Element>, c: Call, reply: Option<Reply>)
    ensures ReplayOf(es, Asker(c, reply), map[], false, 1).decision ==
      Some(if LooseReply(Extract(es), c) == reply then "same" else "other")
  {
    var t, agent := Fresh(false, Extract(es)), Asker(c, reply)(map[]);
    var (t', r) := Look(t, c);
    assert agent([]) == Invoke(c) && ([] + [r])[0] == r;
    assert agent([] + [r]) == Finish(Some(if r == reply then "same" else "other"));
    DriveStep(agent, t, [], 1);
    assert Drive(agent, t, [], 1) == Drive(agent, t', [] + [r], 0);
    LooseStatus(es, Asker(c, reply), map[], 1);
  }

  lemma AlikeAnswers(es: seq<Element>, fs: seq<Element>, c: Call)
    requires LooseAlike(es, fs)
    ensures LooseReply(Extract(es), c) == LooseReply(Extract(fs), c)
  {
    var reply := LooseReply(Extract(es), c);
    AskerHears(es, c, reply);
    AskerHears(fs, c, reply);
    assert ReplayOf(es, Asker(c, reply), map[], false, 1) == ReplayOf(fs, Asker(c, reply), map[], false, 1);
    assert |"same"| != |"other"|;
  }

  /** The indexed entry of a signature can be asked for by a call with a body, which has no fallback. */
  lemma SignatureAsked(es: seq<Entry>, k: string) returns (c: Call)
    requires k in IndexOf(es).entries
    ensures Signature(c) == k && c.body.Some?
    ensures LooseReply(es, c) == Some(IndexOf(es).entries[k].reply)
  {
    IndexWellKeyed(es);
    c := IndexOf(es).entries[k].call;
    c := c.(body := Some(OrElse(c.body, "")));
  }

  lemma RepliesIncluded(es: seq<Entry>, fs: seq<Entry>)
    requires forall c :: LooseReply(es, c) == LooseReply(fs, c)
    ensures forall k :: k in IndexOf(es).entries ==>
      k in IndexOf(fs).entries && IndexOf(fs).entries[k].reply == IndexOf(es).entries[k].reply
  {
    forall k | k in IndexOf(es).entries
      ensures k in IndexOf(fs).entries && IndexOf(fs).entries[k].reply == IndexOf(es).entries[k].reply
    {
      var c := SignatureAsked(es, k);
      assert LooseReply(fs, c) == Some(IndexOf(es).entries[k].reply);
      IndexWellKeyed(fs);
    }
  }

  lemma IndexDecides(es: seq<Entry>, fs: seq<Entry>, c: Call)
    requires IndexOf(es) == IndexOf(fs)
    ensures LooseReply(es, c) == LooseReply(fs, c)
  {
  }

  lemma SameIndexSameAnswers(es: seq<Entry>, fs: seq<Entry>)
    requires IndexOf(es) == IndexOf(fs)
    ensures SameIndexAnswers(es, fs)
  {
    forall i | 0 <= i < |es| ensures LooseReply(es, Bodyless(es[i].call)) == LooseReply(fs, Bodyless(es[i].call)) {
      IndexDecides(es, fs, Bodyless(es[i].call));
    }
    forall i | 0 <= i < |fs| ensures LooseReply(es, Bodyless(fs[i].call)) == LooseReply(fs, Bodyless(fs[i].call)) {
      IndexDecides(es, fs, Bodyless(fs[i].call));
    }
  }

  lemma PutTwice(ix: Index, e: Entry)
    ensures Put(Put(ix, e), e) == Put(ix, e)
  {
  }

  /** A call recorded twice is indexed once. */
  lemma TwiceIndexedOnce(e: Entry)
    ensures IndexOf([e] + [e]) == IndexOf([e])
  {
    IndexNext([e], e);
    IndexNext([], e);
    PutTwice(IndexOf([]), e);
    assert [] + [e] == [e];
  }

  /**
   Out of order, every agent with every setting ends alike on two snapshots exactly when their indexes hold the same
   signatures with the same replies, and answer body-less calls to recorded methods and URLs alike.
   */
  lemma LooseAlikeIff(es: seq<Element>, fs: seq<Element>)
    ensures LooseAlike(es, fs) <==> SameIndexAnswers(Extract(es), Extract(fs))
  {
    var e, f := Extract(es), Extract(fs);
    if SameIndexAnswers(e, f) {
      forall c ensures LooseReply(e, c) == LooseReply(f, c) { AnswersAgree(e, f, c); }
      forall fn: AgentFn, kwargs: Kwargs, budget: nat
        ensures ReplayOf(es, fn, kwargs, false, budget) == ReplayOf(fs, fn, kwargs, false, budget)
      {
        LooseReplaysAlike(es, fs, fn, kwargs, budget);
      }
    }
    if LooseAlike(es, fs) {
      forall c ensures LooseReply(e, c) == LooseReply(f, c) { AlikeAnswers(es, fs, c); }
      RepliesIncluded(e, f);
      RepliesIncluded(f, e);
    }
  }

  // ---- Fix verification ----

  datatype Mutation = Mutation(original: Result, mutated: Result, changed: bool, mitigated: bool)

  /** `run_mutation`: both replays are out of order. */
  function RunMutation(
      es: seq<Element>, fn: AgentFn, fix: Kwargs, kwargs: Kwargs, expected: string, budget: nat): Mutation {
    var original := ReplayOf(es, fn, kwargs, false, budget);
    var mutated := ReplayOf(es, fn, kwargs + fix, false, budget);
    var changed := original.decision != mutated.decision;
    Mutation(original, mutated, changed, changed && mutated.decision == Some(expected))
  }

  /** A fix that sets nothing new is never reported as mitigating. */
  lemma IdleFixNeverMitigates(es: seq<Element>, fn: AgentFn, fix: Kwargs, kwargs: Kwargs, expected: string, budget: nat)
    requires forall k :: k in fix ==> k in kwargs && kwargs[k] == fix[k]
    ensures !RunMutation(es, fn, fix, kwargs, expected, budget).mitigated
  {
    assert kwargs + fix == kwargs;
  }

  /** Mitigated: the fixed run finishes with the expected decision, and the run without the fix does not. */
  lemma MitigatedIff(es: seq<Element>, fn: AgentFn, fix: Kwargs, kwargs: Kwargs, expected: string, budget: nat)
    ensures RunMutation(es, fn, fix, kwargs, expected, budget).mitigated <==>
      && ReplayOf(es, fn, kwargs + fix, false, budget) == Result(Some(expected), Replayed)
      && ReplayOf(es, fn, kwargs, false, budget) != Result(Some(expected), Replayed)
  {
    LooseStatus(es, fn, kwargs + fix, budget);
    LooseStatus(es, fn, kwargs, budget);
  }

  /** Out of order, a decision means the agent finished, and finishing is all it takes. */
  lemma LooseStatus(es: seq<Element>, fn: AgentFn, kwargs: Kwargs, budget: nat)
    ensures var r := ReplayOf(es, fn, kwargs, false, budget);
      && (r.decision.Some? ==> r.status == Replayed)
      && (r.status == Replayed || r.status == Errored || r.status == StillRunning)
  {
    if "cassette" !in kwargs {
      MissesStay(fn(kwargs), Fresh(false, Extract(es)), [], budget);
    }
  }

  /** The unfixed run need not have succeeded: an agent that raises without the fix counts as mitigated by it. */
  lemma MitigatedAfterError(k: string, v: Json, expected: string)
    requires k != "cassette"
    ensures var fn: AgentFn := kw => (seen => if k in kw then Finish(Some(expected)) else Raise);
      var m := RunMutation([], fn, map[k := v], map[], expected, 0);
      m.original.status == Errored && m.mitigated
  {
  }
}
