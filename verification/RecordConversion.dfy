/** SDK elements become the events of a Verification Record, and events become replay elements again. */
module RecordConversion {
  import opened Wrappers
  import opened Json
  import opened Cassette
  import opened Replay

  datatype EventKind =
    | ModelCall | ToolCall | ApiResponse | Retrieval | PolicyCheck | GuardrailCheck | HumanAction | Decision
    | SideEffect | EvaluationResult | Timestamp | RngSeed

  datatype Event = Event(kind: EventKind, payload: Payload, sourceSystem: string)

  function KindText(k: EventKind): string {
    match k
    case ModelCall => "model_call"
    case ToolCall => "tool_call"
    case ApiResponse => "api_response"
    case Retrieval => "retrieval"
    case PolicyCheck => "policy_check"
    case GuardrailCheck => "guardrail_check"
    case HumanAction => "human_action"
    case Decision => "decision"
    case SideEffect => "side_effect"
    case EvaluationResult => "evaluation_result"
    case Timestamp => "timestamp"
    case RngSeed => "rng_seed"
  }

  /** `_SDK_TO_EVENT_MAP`; every kind it does not name becomes a model call. */
  function MappedKind(kind: string): EventKind {
    if kind == "llm" then ModelCall
    else if kind == "http" then ApiResponse
    else if kind == "input" then HumanAction
    else if kind == "rule" then PolicyCheck
    else if kind == "decision" then Decision
    else if kind == "rng_seed" then RngSeed
    else if kind == "timestamp" then Timestamp
    else if kind == "tool" then ToolCall
    else if kind == "retrieval" then Retrieval
    else if kind == "guardrail" then GuardrailCheck
    else if kind == "human" then HumanAction
    else ModelCall
  }

  /** `sdk_element_to_event` */
  function EventOf(e: Element): Event {
    var kind := if e.kind == "http" && e.payload.request.Some? then ToolCall else MappedKind(e.kind);
    Event(kind, e.payload, "")
  }

  /** The payload of a tool call without a request, rewritten so that the cassette can match it. */
  function WithRequest(p: Payload, sourceSystem: string): Payload {
    Payload(
      Some(Fields(
        Some(OrElse(p.verb, "POST")), Some(OrElse(p.url, "https://demo.notary.local/" + sourceSystem)),
        Some(OrElse(p.body, "")))),
      None, None, None, Some(OrElse(p.response, Obj([]))), Some(OrElse(p.status, Num(200))), None, false)
  }

  function ElementOf(e: Event): Element {
    Element(
      KindText(e.kind),
      if e.kind.ToolCall? && e.payload.request.None? then WithRequest(e.payload, e.sourceSystem) else e.payload)
  }

  function EventsOf(es: seq<Element>): seq<Event> {
    seq(|es|, i requires 0 <= i < |es| => EventOf(es[i]))
  }

  function SnapshotOf(events: seq<Event>): seq<Element> {
    seq(|events|, i requires 0 <= i < |events| => ElementOf(events[i]))
  }

  /** `_snapshot_from_vr` */
  method SnapshotFromRecord(events: seq<Event>) returns (elements: seq<Element>)
    ensures elements == SnapshotOf(events)
  {
    elements := [];
    for i := 0 to |events|
      invariant elements == SnapshotOf(events[..i])
    {
      var e := events[i];
      var payload := e.payload;
      if e.kind == ToolCall {
        if payload.request.None? {
          payload := WithRequest(payload, e.sourceSystem);
        }
      }
      elements := elements + [Element(KindText(e.kind), payload)];
    }
    assert events[..|events|] == events;
  }

  /** An SDK snapshot as the replay services see it after it became a record. */
  function Rebuilt(es: seq<Element>): seq<Element> {
    SnapshotOf(EventsOf(es))
  }

  /** The kinds that do not survive the conversion. */
  predicate Unstable(e: Element) {
    e.kind == "tool" || e.kind == "tool_call" || e.kind == "api_response"
  }

  lemma MappedRecorded(e: Element)
    ensures IsRecorded(ElementOf(EventOf(e))) <==> e.kind == "http" || e.kind == "tool"
  {
  }

  /** One element contributes the same entry, or none, before and after, exactly when its kind is stable. */
  lemma EntryPreservedIff(e: Element)
    ensures EntriesOf(ElementOf(EventOf(e))) == EntriesOf(e) <==> !Unstable(e)
  {
  }

  lemma {:induction false} EntriesPreserved(es: seq<Element>)
    requires forall i :: 0 <= i < |es| ==> !Unstable(es[i])
    ensures Extract(Rebuilt(es)) == Extract(es)
  {
    if es != [] {
      EntriesPreserved(es[1..]);
      EntryPreservedIff(es[0]);
      assert Rebuilt(es)[1..] == Rebuilt(es[1..]);
    }
  }

  /** A snapshot of stable kinds replays alike before and after, for every agent, mode and setting. */
  lemma ConversionPreservesReplay(es: seq<Element>, fn: AgentFn, kwargs: Kwargs, strict: bool, budget: nat)
    requires forall i :: 0 <= i < |es| ==> !Unstable(es[i])
    ensures ReplayOf(Rebuilt(es), fn, kwargs, strict, budget) == ReplayOf(es, fn, kwargs, strict, budget)
  {
    EntriesPreserved(es);
  }

  /**
   Whatever the kinds: all agents replay alike before and after the conversion exactly when the rebuilt recording
   agrees with the original in length, replies and calls up to the case of the method.
   */
  lemma ConversionAlikeIff(es: seq<Element>)
    ensures ReplayAlike(Rebuilt(es), es) <==> SameRecording(Extract(Rebuilt(es)), Extract(es))
  {
    ReplayAlikeIff(Rebuilt(es), es);
  }

  /** Alone, an element of an unstable kind is told apart in either mode: a recorded call is lost, or one appears. */
  lemma UnstableAloneDiffers(e: Element)
    requires Unstable(e)
    ensures !ReplayAlike(Rebuilt([e]), [e]) && !LooseAlike(Rebuilt([e]), [e])
  {
    var r := ElementOf(EventOf(e));
    MappedRecorded(e);
    assert Rebuilt([e]) == [r] && [e][1..] == [] && [r][1..] == [];
    ConversionAlikeIff([e]);
    ConversionLooseAlikeIff([e]);
    OneIsIndexed(EntryOf(e));
    OneIsIndexed(EntryOf(r));
  }

  lemma OneIsIndexed(e: Entry)
    ensures !SameReplies([], [e]) && !SameReplies([e], [])
  {
    assert [e][..0] == [];
    assert Signature(e.call) in IndexOf([e]).entries;
  }

  /** Next to each other unstable kinds can cancel out: the call one of them loses, the other one invents. */
  lemma UnstableKindsCanCancel(p: Payload)
    requires p.request.Some?
    ensures var es := [Element("api_response", p), Element("tool", p)];
      Unstable(es[0]) && Unstable(es[1]) && ReplayAlike(Rebuilt(es), es)
  {
    var lost, invented := Element("api_response", p), Element("tool", p);
    var es := [lost, invented];
    var r := ElementOf(EventOf(lost));
    assert ElementOf(EventOf(invented)) == Element("tool_call", p);
    assert Rebuilt(es) == [r] + [Element("tool_call", p)] && es == [lost] + [invented];
    ExtractAppend([r], [Element("tool_call", p)]);
    ExtractAppend([lost], [invented]);
    MappedRecorded(lost);
    assert [r][1..] == [] && [Element("tool_call", p)][1..] == [] && [lost][1..] == [] && [invented][1..] == [];
    ConversionAlikeIff(es);
  }

  /**
   Out of order, the only way the services replay: all agents end alike before and after the conversion exactly when
   the rebuilt index holds the same signatures with the same replies, and answers body-less calls alike.
   */
  lemma ConversionLooseAlikeIff(es: seq<Element>)
    ensures LooseAlike(Rebuilt(es), es) <==> SameIndexAnswers(Extract(Rebuilt(es)), Extract(es))
  {
    LooseAlikeIff(Rebuilt(es), es);
  }

  lemma RepeatedCallRebuilt(p: Payload)
    requires p.request.Some?
    ensures var es := [Element("http", p), Element("tool_call", p)];
      var e := EntryOf(es[0]);
      Extract(Rebuilt(es)) == [e] && Extract(es) == [e] + [e]
  {
    var kept, lost := Element("http", p), Element("tool_call", p);
    var r := ElementOf(EventOf(lost));
    assert ElementOf(EventOf(kept)) == Element("tool_call", p);
    assert Rebuilt([kept, lost]) == [Element("tool_call", p)] + [r] && [kept, lost] == [kept] + [lost];
    ExtractAppend([Element("tool_call", p)], [r]);
    ExtractAppend([kept], [lost]);
    MappedRecorded(lost);
    assert [r][1..] == [] && [Element("tool_call", p)][1..] == [] && [kept][1..] == [] && [lost][1..] == [];
  }

  /** Losing a repeated call is noticed in strict order only. */
  lemma RepeatedCallIsLost(p: Payload)
    requires p.request.Some?
    ensures var es := [Element("http", p), Element("tool_call", p)];
      LooseAlike(Rebuilt(es), es) && !ReplayAlike(Rebuilt(es), es)
  {
    var es := [Element("http", p), Element("tool_call", p)];
    RepeatedCallRebuilt(p);
    TwiceIndexedOnce(EntryOf(es[0]));
    SameIndexSameAnswers([EntryOf(es[0])], [EntryOf(es[0])] + [EntryOf(es[0])]);
    ConversionLooseAlikeIff(es);
    ConversionAlikeIff(es);
  }
}
