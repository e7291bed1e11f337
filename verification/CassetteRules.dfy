/**
 What a cassette answers, said of the recorded payloads: which call and which reply an element stands for, and which
 element answers a call, in order and out of order.
 */
module CassetteRules {
  import opened Wrappers
  import opened Json
  import opened Cassette

  // ---- Recorded elements ----

  predicate IsCall(e: Element) {
    e.kind in {"http", "tool_call", "api_response"}
  }

  /** The reply of a payload: its response and its status, where absent ones are null. */
  ghost predicate Answers(p: Payload, r: Reply) {
    && (p.response == Some(r.response) || (p.response == None && r.response == Null))
    && (p.status == Some(r.status) || (p.status == None && r.status == Null))
  }

  /** The call of a payload: method, URL and body of its request; `GET` and no URL unless it says otherwise. */
  ghost predicate Asks(p: Payload, c: Call) {
    && (p.request == None ==> c == Call("GET", "", None))
    && (forall text :: p.request == Some(Other(text)) ==> c == Call("GET", text, None))
    && forall verb, url, body :: p.request == Some(Fields(verb, url, body)) ==>
      && (verb == Some(c.verb) || (verb == None && c.verb == "GET"))
      && (url == Some(c.url) || (url == None && c.url == "")) && c.body == body
  }

  ghost predicate Records(e: Element, c: Call, r: Reply) {
    IsCall(e) && Asks(e.payload, c) && Answers(e.payload, r)
  }

  lemma EntryRecords(e: Element)
    requires IsCall(e)
    ensures Records(e, EntryOf(e).call, EntryOf(e).reply)
    ensures forall c, r :: Records(e, c, r) ==> EntryOf(e) == Entry(c, r)
  {
    forall c, r | Records(e, c, r) ensures EntryOf(e) == Entry(c, r) {
      match e.payload.request
      case None =>
      case Some(Fields(verb, url, body)) => assert c.body == body;
      case Some(Other(text)) => assert c == Call("GET", text, None);
    }
  }

  function CallCount(es: seq<Element>): nat {
    if es == [] then 0 else CallCount(es[..|es| - 1]) + (if IsCall(es[|es| - 1]) then 1 else 0)
  }

  /** The element at this place is the n-th recorded call, counting from none. */
  ghost predicate IsNth(es: seq<Element>, n: nat, i: nat) {
    i < |es| && IsCall(es[i]) && CallCount(es[..i]) == n
  }

  lemma {:induction false} RecordingSize(es: seq<Element>)
    ensures |Extract(es)| == CallCount(es)
  {
    if es != [] {
      RecordingSize(es[..|es| - 1]);
      ExtractNext(es, |es| - 1);
      assert es[..|es|] == es;
    }
  }

  /** The recording holds the calls and replies of the recorded elements, in their order, and nothing else. */
  lemma {:induction false} RecordingIs(es: seq<Element>, n: nat, i: nat, c: Call, r: Reply)
    requires IsNth(es, n, i) && Records(es[i], c, r)
    ensures n < |Extract(es)| == CallCount(es) && Extract(es)[n] == Entry(c, r)
  {
    var init := es[..|es| - 1];
    RecordingSize(es);
    RecordingSize(init);
    ExtractNext(es, |es| - 1);
    assert es[..|es|] == es;
    if i < |init| {
      assert es[..i] == init[..i] && es[i] == init[i];
      RecordingIs(init, n, i, c, r);
    } else {
      EntryRecords(es[i]);
    }
  }

  lemma {:induction false} SomeNth(es: seq<Element>, n: nat) returns (i: nat)
    requires n < CallCount(es)
    ensures IsNth(es, n, i)
  {
    var init := es[..|es| - 1];
    if n < CallCount(init) {
      i := SomeNth(init, n);
      assert es[..i] == init[..i];
    } else {
      i := |es| - 1;
    }
  }

  // ---- Methods ----

  /** One letter in both cases, by code point. */
  predicate OtherCase(c: char, d: char) {
    (65 <= c as int <= 90 && d as int == c as int + 32) || (65 <= d as int <= 90 && c as int == d as int + 32)
  }

  ghost predicate SameButCase(a: string, b: string) {
    |a| == |b| && forall i :: 0 <= i < |a| ==> a[i] == b[i] || OtherCase(a[i], b[i])
  }

  lemma UpperCase(c: char, d: char)
    ensures UpperChar(c) == UpperChar(d) <==> c == d || OtherCase(c, d)
    ensures !(97 <= UpperChar(c) as int <= 122) && (c == UpperChar(c) || OtherCase(c, UpperChar(c)))
  {
    assert 'a' as int == 97 && 'z' as int == 122 && 'A' as int == 65;
    assert 'a' <= c <= 'z' ==> UpperChar(c) as int == c as int - 32;
    assert 'a' <= d <= 'z' ==> UpperChar(d) as int == d as int - 32;
  }

  lemma {:induction false} UpperAt(s: string)
    ensures forall i :: 0 <= i < |s| ==> Upper(s)[i] == UpperChar(s[i])
  {
    if s != "" { UpperAt(s[1..]); }
  }

  /** Methods are compared up to the case of their letters. */
  lemma UpperIff(a: string, b: string)
    ensures Upper(a) == Upper(b) <==> SameButCase(a, b)
    ensures SameButCase(a, Upper(a)) && forall c :: c in Upper(a) ==> !(97 <= c as int <= 122)
  {
    UpperAt(a);
    UpperAt(b);
    forall c, d ensures UpperChar(c) == UpperChar(d) <==> c == d || OtherCase(c, d) { UpperCase(c, d); }
    forall c ensures !(97 <= UpperChar(c) as int <= 122) && (c == UpperChar(c) || OtherCase(c, UpperChar(c))) {
      UpperCase(c, c);
    }
    if SameButCase(a, b) {
      assert forall i :: 0 <= i < |a| ==> Upper(a)[i] == Upper(b)[i];
    }
    if Upper(a) == Upper(b) {
      assert |Upper(a)| == |Upper(b)|;
      forall i | 0 <= i < |a| ensures a[i] == b[i] || OtherCase(a[i], b[i]) { assert Upper(a)[i] == Upper(b)[i]; }
    }
  }

  // ---- In order ----

  /** A call that asks for the recorded one: a missing body asks for any. */
  ghost predicate AsksFor(c: Call, recorded: Call) {
    SameButCase(c.verb, recorded.verb) && c.url == recorded.url && (c.body == recorded.body || c.body == None)
  }

  /** In order, a call is answered exactly when it asks for the next recorded element, and with that element's reply. */
  lemma StrictAnswerIs(es: seq<Element>, n: nat, misses: seq<Call>, c: Call, r: Reply)
    ensures Look(Tape(true, Extract(es), n, misses), c).1 == Some(r) <==>
      exists i: nat, recorded :: IsNth(es, n, i) && Records(es[i], recorded, r) && AsksFor(c, recorded)
  {
    RecordingSize(es);
    if Look(Tape(true, Extract(es), n, misses), c).1 == Some(r) {
      var i := SomeNth(es, n);
      EntryRecords(es[i]);
      var recorded := EntryOf(es[i]).call;
      RecordingIs(es, n, i, recorded, EntryOf(es[i]).reply);
      UpperIff(c.verb, recorded.verb);
      assert IsNth(es, n, i) && Records(es[i], recorded, r) && AsksFor(c, recorded);
    }
    if i: nat, recorded :| IsNth(es, n, i) && Records(es[i], recorded, r) && AsksFor(c, recorded) {
      UpperIff(c.verb, recorded.verb);
      RecordingIs(es, n, i, recorded, r);
    }
  }

  /** The i-th hit of a run in order is the reply of the i-th recorded element. */
  lemma StrictHitIs(es: seq<Element>, calls: seq<Call>, n: nat, i: nat, c: Call, r: Reply)
    requires IsNth(es, n, i) && Records(es[i], c, r)
    ensures var hits := Hits(Run(Fresh(true, Extract(es)), calls).1);
      |hits| <= CallCount(es) && (n < |hits| ==> hits[n] == r)
  {
    StrictRunCounts(Extract(es), calls);
    RecordingIs(es, n, i, c, r);
  }

  // ---- Out of order ----

  /** The method in capitals, the URL and a body that is not empty, with separators between them. */
  lemma SignatureIs(c: Call) returns (verb: string)
    ensures SameButCase(verb, c.verb) && forall x :: x in verb ==> !(97 <= x as int <= 122)
    ensures Signature(c) == verb + "|" + c.url + (if c.body in {None, Some("")} then "" else "|" + c.body.value)
  {
    verb := Upper(c.verb);
    UpperIff(c.verb, c.verb);
    UpperIff(verb, c.verb);
    UpperAgain(c.verb);
  }

  lemma UpperAgain(s: string)
    ensures Upper(Upper(s)) == Upper(s)
  {
    UpperIff(s, Upper(s));
  }

  /** No recorded element from this place on has the signature. */
  ghost predicate NoneFrom(es: seq<Element>, i: nat, signature: string) {
    forall j, d, q :: i <= j < |es| && Records(es[j], d, q) ==> Signature(d) != signature
  }

  lemma NoneLater(es: seq<Element>, n: nat, i: nat, signature: string)
    requires IsNth(es, n, i) && NoneFrom(es, i + 1, signature)
    ensures forall m :: n < m < |Extract(es)| ==> Signature(Extract(es)[m].call) != signature
  {
    RecordingSize(es);
    forall m | n < m < |Extract(es)| ensures Signature(Extract(es)[m].call) != signature {
      var j := SomeNth(es, m);
      EntryRecords(es[j]);
      RecordingIs(es, m, j, EntryOf(es[j]).call, EntryOf(es[j]).reply);
      LaterNth(es, n, i, m, j);
    }
  }

  /** Out of order, the last recorded element with the signature of the call answers it. */
  lemma LooseAnswerIs(es: seq<Element>, i: nat, c: Call, recorded: Call, r: Reply)
    requires i < |es| && Records(es[i], recorded, r) && Signature(recorded) == Signature(c)
    requires NoneFrom(es, i + 1, Signature(c))
    ensures Look(Fresh(false, Extract(es)), c).1 == Some(r)
  {
    var n := CallCount(es[..i]);
    assert IsNth(es, n, i);
    RecordingIs(es, n, i, recorded, r);
    NoneLater(es, n, i, Signature(c));
    ExactLookupReturnsLast(Extract(es), c, n);
  }

  lemma {:induction false} CountGrows(es: seq<Element>, i: nat, j: nat)
    requires i <= j <= |es|
    ensures CallCount(es[..i]) <= CallCount(es[..j])
    decreases j
  {
    if i < j {
      assert es[..j][..j - 1] == es[..j - 1];
      CountGrows(es, i, j - 1);
    }
  }

  lemma LaterNth(es: seq<Element>, n: nat, i: nat, m: nat, j: nat)
    requires IsNth(es, n, i) && IsNth(es, m, j) && n < m
    ensures i < j
  {
    if j <= i { CountGrows(es, j, i); }
  }

  /** One recorded element answers its own call in either mode. */
  lemma OneElementAnswers(e: Element, c: Call, r: Reply, strict: bool)
    requires Records(e, c, r)
    ensures Look(Fresh(strict, Extract([e])), c).1 == Some(r)
  {
    assert [e][..0] == [] && CallCount([e][..0]) == 0;
    if strict {
      UpperIff(c.verb, c.verb);
      assert IsNth([e], 0, 0) && Records([e][0], c, r) && AsksFor(c, c);
      StrictAnswerIs([e], 0, [], c, r);
    } else {
      LooseAnswerIs([e], 0, c, c, r);
    }
  }

  // ---- The fallback ----

  /** No earlier entry has the signature of this one. */
  ghost predicate IsFirst(es: seq<Entry>, i: nat) {
    i < |es| && forall j :: 0 <= j < i ==> Signature(es[j].call) != Signature(es[i].call)
  }

  /** The entries at a first and a last place of one signature, the last one with this method and URL and a body. */
  ghost predicate Falls(es: seq<Entry>, i: nat, l: nat, c: Call) {
    && IsFirst(es, i) && IsLast(es, l) && Signature(es[i].call) == Signature(es[l].call)
    && SameButCase(es[l].call.verb, c.verb) && es[l].call.url == c.url && es[l].call.body != None
  }

  lemma FirstInPrefix(es: seq<Entry>, i: nat)
    requires i < |es| - 1
    ensures IsFirst(es, i) <==> IsFirst(es[..|es| - 1], i)
  {
    assert forall k :: 0 <= k < |es| - 1 ==> es[k] == es[..|es| - 1][k];
  }

  /** The last entry is the first of its signature exactly when the index before it does not know it. */
  lemma NewSignature(es: seq<Entry>)
    requires es != []
    ensures IsFirst(es, |es| - 1) <==> Signature(es[|es| - 1].call) !in IndexOf(es[..|es| - 1]).entries
  {
    var init, n := es[..|es| - 1], |es| - 1;
    var sig := Signature(es[n].call);
    if sig in IndexOf(init).entries {
      var l := LastOf(init, sig);
      assert Signature(es[l].call) == sig;
    } else {
      forall j | 0 <= j < n ensures Signature(es[j].call) != sig {
        var l := SomeLast(init, j);
        IndexKeepsLast(init, l);
      }
    }
  }

  lemma {:induction false} IndexPlaces(es: seq<Entry>) returns (ps: seq<nat>)
    ensures |ps| == |IndexOf(es).keys|
    ensures forall n :: 0 <= n < |ps| ==> IsFirst(es, ps[n]) && IndexOf(es).keys[n] == Signature(es[ps[n]].call)
    ensures forall m, n :: 0 <= m < n < |ps| ==> ps[m] < ps[n]
    ensures forall i :: IsFirst(es, i) ==> i in ps
  {
    ps := [];
    if es != [] {
      var init, n := es[..|es| - 1], |es| - 1;
      ps := IndexPlaces(init);
      NewSignature(es);
      forall i: nat | i < n ensures IsFirst(es, i) <==> IsFirst(init, i) { FirstInPrefix(es, i); }
      if IsFirst(es, n) { ps := ps + [n]; }
    }
  }

  lemma {:induction false} FirstBodiedAt(keys: seq<string>, entries: map<string, Entry>, c: Call, n: nat)
    requires (forall k :: k in keys ==> k in entries) && n < |keys| && Bodied(entries[keys[n]], c)
    requires forall m :: 0 <= m < n ==> !Bodied(entries[keys[m]], c)
    ensures FirstBodied(keys, entries, c) == Some(entries[keys[n]])
  {
    if n > 0 { FirstBodiedAt(keys[1..], entries, c, n - 1); }
  }

  lemma {:induction false} NotIndexed(es: seq<Entry>, signature: string)
    requires forall e :: e in es ==> Signature(e.call) != signature
    ensures signature !in IndexOf(es).entries
  {
    if es != [] {
      assert es[|es| - 1] in es;
      NotIndexed(es[..|es| - 1], signature);
    }
  }

  /**
   A call without a body and without an entry of its signature is answered by the last entry of that signature which
   was recorded first, among those with its method and URL and a body.
   */
  lemma FallbackIs(es: seq<Entry>, i: nat, l: nat, c: Call)
    requires c.body == None && forall e :: e in es ==> Signature(e.call) != Signature(c)
    requires Falls(es, i, l, c) && forall j: nat, k: nat :: Falls(es, j, k, c) ==> i <= j
    ensures Look(Fresh(false, es), c).1 == Some(es[l].reply)
  {
    var ix := IndexOf(es);
    IndexWellKeyed(es);
    var ps := IndexPlaces(es);
    NotIndexed(es, Signature(c));
    var n :| 0 <= n < |ps| && ps[n] == i;
    IndexKeepsLast(es, l);
    UpperIff(es[l].call.verb, c.verb);
    forall m | 0 <= m < n ensures !Bodied(ix.entries[ix.keys[m]], c) {
      var k := LastOf(es, ix.keys[m]);
      UpperIff(es[k].call.verb, c.verb);
      if Bodied(es[k], c) { assert Falls(es, ps[m], k, c); }
    }
    FirstBodiedAt(ix.keys, ix.entries, c, n);
  }

  // ---- Misses ----

  /** The calls without a reply. */
  function Unanswered(calls: seq<Call>, rs: seq<Option<Reply>>): seq<Call>
    requires |rs| == |calls|
  {
    if calls == [] then []
    else (if rs[0] == None then [calls[0]] else []) + Unanswered(calls[1..], rs[1..])
  }

  /** Equal but for the case of the methods, which the first list has in capitals. */
  ghost predicate InCapitals(ms: seq<Call>, cs: seq<Call>) {
    |ms| == |cs| && forall i :: 0 <= i < |ms| ==>
      && SameButCase(ms[i].verb, cs[i].verb) && (forall c :: c in ms[i].verb ==> !(97 <= c as int <= 122))
      && ms[i].url == cs[i].url && ms[i].body == cs[i].body
  }

  lemma OneCapital(c: Call, ms: seq<Call>, cs: seq<Call>)
    requires InCapitals(ms, cs)
    ensures InCapitals([c.(verb := Upper(c.verb))] + ms, [c] + cs)
  {
    UpperIff(c.verb, c.verb);
    UpperAgain(c.verb);
    UpperIff(Upper(c.verb), c.verb);
  }

  /** The misses are the unanswered calls, in order, in both modes. */
  lemma {:induction false} MissesAre(t: Tape, calls: seq<Call>)
    ensures var (u, rs) := Run(t, calls);
      && |rs| == |calls| && |t.misses| <= |u.misses| && u.misses[..|t.misses|] == t.misses
      && InCapitals(u.misses[|t.misses|..], Unanswered(calls, rs))
    decreases calls
  {
    if calls != [] {
      var (t', r) := Look(t, calls[0]);
      MissesAre(t', calls[1..]);
      var (u, rs) := Run(t', calls[1..]);
      assert Run(t, calls) == (u, [r] + rs) && ([r] + rs)[1..] == rs;
      var rest := u.misses[|t'.misses|..];
      if r == None {
        OneCapital(calls[0], rest, Unanswered(calls[1..], rs));
        assert u.misses[|t.misses|..] == [calls[0].(verb := Upper(calls[0].verb))] + rest;
      } else {
        assert u.misses[|t.misses|..] == rest;
      }
    }
  }
}
