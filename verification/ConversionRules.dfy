/**
 What becomes of the elements of an SDK snapshot, kind by kind: in the record, in the rebuilt snapshot, and for
 certification.
 */
module ConversionRules {
  import opened Wrappers
  import opened Json
  import opened Cassette
  import opened CassetteRules
  import opened RecordConversion
  import Workflow

  // ---- Kinds ----

  /** The kinds with a kind of their own after the conversion; an `http` element depends on its request. */
  const KINDS: map<string, string> := map[
    "input" := "human_action", "rule" := "policy_check", "decision" := "decision", "rng_seed" := "rng_seed",
    "timestamp" := "timestamp", "tool" := "tool_call", "retrieval" := "retrieval", "guardrail" := "guardrail_check",
    "human" := "human_action"]

  function RebuiltKind(e: Element): string {
    if e.kind == "http" then (if e.payload.request == None then "api_response" else "tool_call")
    else if e.kind in KINDS then KINDS[e.kind]
    else "model_call"
  }

  /** The request and the reply a tool element without a request is given. */
  ghost predicate Completes(q: Payload, p: Payload) {
    && (exists verb, url, body ::
      && q.request == Some(Fields(Some(verb), Some(url), Some(body)))
      && (p.verb == Some(verb) || (p.verb == None && verb == "POST"))
      && (p.url == Some(url) || (p.url == None && url == "https://demo.notary.local/"))
      && (p.body == Some(body) || (p.body == None && body == "")))
    && q.response.Some? && (p.response == q.response || (p.response == None && q.response == Some(Obj([]))))
    && q.status.Some? && (p.status == q.status || (p.status == None && q.status == Some(Num(200))))
  }

  /** Each element keeps its place and its payload; only a tool element without a request is given one. */
  lemma RebuiltIs(es: seq<Element>, i: nat)
    requires i < |es|
    ensures |Rebuilt(es)| == |es| && Rebuilt(es)[i].kind == RebuiltKind(es[i])
    ensures if es[i].kind == "tool" && es[i].payload.request == None
      then Completes(Rebuilt(es)[i].payload, es[i].payload) else Rebuilt(es)[i].payload == es[i].payload
  {
    var p, q := es[i].payload, Rebuilt(es)[i].payload;
    assert "https://demo.notary.local/" + "" == "https://demo.notary.local/";
    if es[i].kind == "tool" && p.request == None {
      var verb, url := OrElse(p.verb, "POST"), OrElse(p.url, "https://demo.notary.local/");
      assert q.request == Some(Fields(Some(verb), Some(url), Some(OrElse(p.body, ""))));
    }
  }

  /** So an agent that asks for the tool gets the tool's own answer, or an empty one, in either mode. */
  lemma ToolIsAnswered(e: Element, strict: bool, c: Call)
    requires e.kind == "tool" && e.payload.request == None
    requires c.verb == OrElse(e.payload.verb, "POST") && c.body == Some(OrElse(e.payload.body, ""))
    requires c.url == OrElse(e.payload.url, "https://demo.notary.local/")
    ensures exists r ::
      && Look(Fresh(strict, Extract(Rebuilt([e]))), c).1 == Some(r)
      && r.response == OrElse(e.payload.response, Obj([])) && r.status == OrElse(e.payload.status, Num(200))
  {
    RebuiltIs([e], 0);
    var b := Rebuilt([e])[0];
    var r := Reply(OrElse(e.payload.response, Obj([])), OrElse(e.payload.status, Num(200)));
    assert Rebuilt([e]) == [b];
    assert Records(b, c, r);
    OneElementAnswers(b, c, r, strict);
  }

  // ---- What certification reads off a snapshot ----

  /** Some recorded call, a decision, and no model call left unpinned. */
  ghost predicate Certifiable(es: seq<Element>) {
    && (exists e :: e in es && e.kind in {"http", "tool"})
    && (exists e :: e in es && e.kind == "decision")
    && forall e :: e in es && e.kind != "http" && e.kind !in KINDS ==> e.payload.pinned
  }

  lemma KindOf(es: seq<Element>, k: EventKind)
    ensures Workflow.HasKind(EventsOf(es), k) <==> exists e :: e in es && EventOf(e).kind == k
  {
    if i :| 0 <= i < |es| && EventsOf(es)[i].kind == k { assert es[i] in es; }
    if e :| e in es && EventOf(e).kind == k {
      var i :| 0 <= i < |es| && es[i] == e;
      assert EventsOf(es)[i].kind == k;
    }
  }

  lemma PinnedIff(es: seq<Element>)
    ensures Workflow.Pinned(EventsOf(es)) <==>
      forall e :: e in es && e.kind != "http" && e.kind !in KINDS ==> e.payload.pinned
  {
    var events := EventsOf(es);
    forall i | 0 <= i < |es|
      ensures events[i].payload == es[i].payload
      ensures events[i].kind == ModelCall <==> es[i].kind != "http" && es[i].kind !in KINDS
    {
    }
    if Workflow.Pinned(events) {
      forall e | e in es && e.kind != "http" && e.kind !in KINDS ensures e.payload.pinned {
        var i :| 0 <= i < |es| && es[i] == e;
        assert events[i].kind == ModelCall;
      }
    } else {
      var i :| 0 <= i < |events| && events[i].kind == ModelCall && !events[i].payload.pinned;
      assert es[i] in es;
    }
  }

  /** A record is sound exactly when its snapshot was certifiable. */
  lemma SoundIff(es: seq<Element>)
    ensures Workflow.Sound(EventsOf(es)) <==> Certifiable(es)
  {
    KindOf(es, ToolCall);
    KindOf(es, ApiResponse);
    KindOf(es, Decision);
    PinnedIff(es);
  }

  /** The recorded decision is what the first decision element decided, or nothing. */
  lemma {:induction false} DecisionIs(es: seq<Element>, i: nat)
    requires i < |es| && es[i].kind == "decision" && forall j :: 0 <= j < i ==> es[j].kind != "decision"
    ensures var d := Workflow.RecordedDecision(EventsOf(es));
      es[i].payload.decision == Some(d) || (es[i].payload.decision == None && d == "")
  {
    assert EventsOf(es)[1..] == EventsOf(es[1..]);
    if i > 0 { DecisionIs(es[1..], i - 1); }
  }

  lemma {:induction false} NoDecision(es: seq<Element>)
    requires forall e :: e in es ==> e.kind != "decision"
    ensures Workflow.RecordedDecision(EventsOf(es)) == ""
  {
    if es != [] {
      assert es[0] in es && EventsOf(es)[1..] == EventsOf(es[1..]);
      NoDecision(es[1..]);
    }
  }
}
