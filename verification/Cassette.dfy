/** Recorded calls and how a replay is answered from them, in recorded order or by call signature. */
module Cassette {
  import opened Wrappers
  import opened Json

  /** The `request` of a payload: a dictionary, or anything else turned into text. */
  datatype Request = Fields(verb: Option<string>, url: Option<string>, body: Option<string>) | Other(text: string)

  /** The payload keys the replay engine and the record services read. */
  datatype Payload = Payload(
    request: Option<Request>,
    verb: Option<string>,
    url: Option<string>,
    body: Option<string>,
    response: Option<Json>,
    status: Option<Json>,
    decision: Option<string>,
    pinned: bool)  // a model call with temperature 0.0 and a seed

  datatype Element = Element(kind: string, payload: Payload)

  datatype Call = Call(verb: string, url: string, body: Option<string>)

  datatype Reply = Reply(response: Json, status: Json)

  datatype Entry = Entry(call: Call, reply: Reply)

  function UpperChar(c: char): char {
    if 'a' <= c <= 'z' then 'A' + (c - 'a') else c
  }

  /** `str.upper` on ASCII text. */
  function Upper(s: string): (r: string)
    ensures |r| == |s|
  {
    if s == "" then "" else [UpperChar(s[0])] + Upper(s[1..])
  }

  /** The text `_call_signature` hashes; an empty body counts as none. */
  function Signature(c: Call): string {
    Upper(c.verb) + "|" + c.url + (if c.body.Some? && c.body.value != "" then "|" + c.body.value else "")
  }

  predicate IsRecorded(e: Element) {
    e.kind == "http" || e.kind == "tool_call" || e.kind == "api_response"
  }

  function OrElse<T>(o: Option<T>, default: T): T {
    if o.Some? then o.value else default
  }

  /** The entry the constructor makes of a recorded element. */
  function EntryOf(e: Element): Entry {
    var call := match e.payload.request
      case None => Call("GET", "", None)
      case Some(Fields(m, u, b)) => Call(OrElse(m, "GET"), OrElse(u, ""), b)
      case Some(Other(text)) => Call("GET", text, None);
    Entry(call, Reply(OrElse(e.payload.response, Null), OrElse(e.payload.status, Null)))
  }

  function EntriesOf(e: Element): seq<Entry> {
    if IsRecorded(e) then [EntryOf(e)] else []
  }

  /** The recorded entries in order. */
  function Extract(es: seq<Element>): seq<Entry> {
    if es == [] then [] else EntriesOf(es[0]) + Extract(es[1..])
  }

  lemma {:induction false} ExtractAppend(xs: seq<Element>, ys: seq<Element>)
    ensures Extract(xs + ys) == Extract(xs) + Extract(ys)
  {
    if xs == [] {
      assert xs + ys == ys;
    } else {
      var first := EntriesOf(xs[0]);
      assert (xs + ys)[1..] == xs[1..] + ys;
      ExtractAppend(xs[1..], ys);
      assert first + (Extract(xs[1..]) + Extract(ys)) == first + Extract(xs[1..]) + Extract(ys);
    }
  }

  lemma ExtractNext(es: seq<Element>, i: nat)
    requires i < |es|
    ensures Extract(es[..i + 1]) == Extract(es[..i]) + EntriesOf(es[i])
  {
    assert es[..i + 1] == es[..i] + [es[i]] && [es[i]][1..] == [];
    ExtractAppend(es[..i], [es[i]]);
  }

  /** `_matches`: a call without a body matches a recorded call with any body. */
  predicate Matches(e: Entry, c: Call) {
    Upper(e.call.verb) == Upper(c.verb) && e.call.url == c.url
    && (c.body == e.call.body || (c.body.None? && e.call.body.Some?))
  }

  // ---- The signature index: a dictionary keeps the place of the first and the value of the last ----

  datatype Index = Index(keys: seq<string>, entries: map<string, Entry>)

  function Put(ix: Index, e: Entry): Index {
    var s := Signature(e.call);
    Index(if s in ix.entries then ix.keys else ix.keys + [s], ix.entries[s := e])
  }

  function IndexOf(es: seq<Entry>): Index {
    if es == [] then Index([], map[]) else Put(IndexOf(es[..|es| - 1]), es[|es| - 1])
  }

  lemma IndexNext(es: seq<Entry>, e: Entry)
    ensures IndexOf(es + [e]) == Put(IndexOf(es), e)
  {
    assert (es + [e])[..|es|] == es;
  }

  predicate Bodied(e: Entry, c: Call) {
    Upper(e.call.verb) == Upper(c.verb) && e.call.url == c.url && e.call.body.Some?
  }

  /** The fallback loop: the first indexed entry with this method and URL that has a body. */
  function FirstBodied(keys: seq<string>, entries: map<string, Entry>, c: Call): Option<Entry>
    requires forall k :: k in keys ==> k in entries
  {
    if keys == [] then None
    else if Bodied(entries[keys[0]], c) then Some(entries[keys[0]])
    else FirstBodied(keys[1..], entries, c)
  }

  ghost predicate WellKeyed(ix: Index) {
    && (forall k :: k in ix.keys <==> k in ix.entries)
    && forall k :: k in ix.entries ==> Signature(ix.entries[k].call) == k
  }

  lemma {:induction false} IndexWellKeyed(es: seq<Entry>)
    ensures WellKeyed(IndexOf(es))
  {
    if es != [] { IndexWellKeyed(es[..|es| - 1]); }
  }

  // ---- Lookup ----

  datatype Tape = Tape(strict: bool, ordered: seq<Entry>, cursor: nat, misses: seq<Call>)

  function Fresh(strict: bool, ordered: seq<Entry>): Tape {
    Tape(strict, ordered, 0, [])
  }

  function Miss(t: Tape, c: Call): Tape {
    t.(misses := t.misses + [c.(verb := Upper(c.verb))])
  }

  /** What the index answers to a call. */
  function Answer(ix: Index, c: Call): Option<Entry>
    requires WellKeyed(ix)
  {
    if Signature(c) in ix.entries then Some(ix.entries[Signature(c)])
    else if c.body.None? then FirstBodied(ix.keys, ix.entries, c)
    else None
  }

  function Look(t: Tape, c: Call): (Tape, Option<Reply>) {
    if t.strict then
      if t.cursor < |t.ordered| && Matches(t.ordered[t.cursor], c) then
        (t.(cursor := t.cursor + 1), Some(t.ordered[t.cursor].reply))
      else (Miss(t, c), None)
    else
      IndexWellKeyed(t.ordered);
      match Answer(IndexOf(t.ordered), c)
      case Some(e) => (t, Some(e.reply))
      case None => (Miss(t, c), None)
  }

  class ResponseCassette {
    var keys: seq<string>
    var entries: map<string, Entry>
    var orderedEntries: seq<Entry>
    var cursor: nat
    var strictOrder: bool
    var misses: seq<Call>

    ghost predicate Valid()
      reads this
    {
      Index(keys, entries) == IndexOf(orderedEntries)
    }

    ghost function Abs(): Tape
      reads this
    {
      Tape(strictOrder, orderedEntries, cursor, misses)
    }

    constructor (elements: seq<Element>, strict: bool)
      ensures Valid() && Abs() == Fresh(strict, Extract(elements))
    {
      keys, entries, orderedEntries, cursor, strictOrder, misses := [], map[], [], 0, strict, [];
      new;
      for i := 0 to |elements|
        invariant orderedEntries == Extract(elements[..i]) && Valid()
        invariant cursor == 0 && strictOrder == strict && misses == []
      {
        ExtractNext(elements, i);
        Load(elements[i]);
      }
      assert elements[..|elements|] == elements;
    }

    /** One turn of the constructor's loop. */
    method Load(e: Element)
      requires Valid()
      modifies this
      ensures Valid() && Abs() == old(Abs()).(ordered := old(orderedEntries) + EntriesOf(e))
    {
      if IsRecorded(e) {
        var entry := EntryOf(e);
        var sig := Signature(entry.call);
        IndexNext(orderedEntries, entry);
        if sig !in entries {
          keys := keys + [sig];
        }
        entries := entries[sig := entry];
        orderedEntries := orderedEntries + [entry];
      } else {
        assert orderedEntries + [] == orderedEntries;
      }
    }

    method Lookup(c: Call) returns (r: Option<Reply>)
      requires Valid()
      modifies this
      ensures Valid() && (Abs(), r) == Look(old(Abs()), c)
    {
      if strictOrder {
        if cursor < |orderedEntries| && Matches(orderedEntries[cursor], c) {
          cursor := cursor + 1;
          return Some(orderedEntries[cursor - 1].reply);
        }
        misses := misses + [c.(verb := Upper(c.verb))];
        return None;
      }
      IndexWellKeyed(orderedEntries);
      var sig := Signature(c);
      if sig in entries {
        return Some(entries[sig].reply);
      }
      if c.body.None? {
        for i := 0 to |keys|
          invariant FirstBodied(keys[i..], entries, c) == FirstBodied(keys, entries, c)
        {
          if Bodied(entries[keys[i]], c) {
            return Some(entries[keys[i]].reply);
          }
        }
      }
      misses := misses + [c.(verb := Upper(c.verb))];
      return None;
    }

    method UnconsumedCount() returns (n: nat)
      ensures n == Unconsumed(Abs())
      ensures cursor <= |orderedEntries| ==> n == |orderedEntries[cursor..]|
    {
      n := if cursor < |orderedEntries| then |orderedEntries| - cursor else 0;
    }
  }

  function Unconsumed(t: Tape): nat {
    if t.cursor < |t.ordered| then |t.ordered| - t.cursor else 0
  }

  // ---- The index refines a scan of the recording ----

  /** The last recorded entry with its signature: the one the index keeps. */
  ghost predicate IsLast(es: seq<Entry>, i: nat) {
    i < |es| && forall j :: i < j < |es| ==> Signature(es[j].call) != Signature(es[i].call)
  }

  lemma {:induction false} IndexKeepsLast(es: seq<Entry>, i: nat)
    requires IsLast(es, i)
    ensures Signature(es[i].call) in IndexOf(es).entries
    ensures IndexOf(es).entries[Signature(es[i].call)] == es[i]
  {
    if i < |es| - 1 { IndexKeepsLast(es[..|es| - 1], i); }
  }

  lemma {:induction false} LastOf(es: seq<Entry>, s: string) returns (i: nat)
    requires s in IndexOf(es).entries
    ensures IsLast(es, i) && Signature(es[i].call) == s && IndexOf(es).entries[s] == es[i]
  {
    var n := |es| - 1;
    if Signature(es[n].call) == s {
      i := n;
    } else {
      i := LastOf(es[..n], s);
    }
  }

  lemma {:induction false} SomeLast(es: seq<Entry>, i: nat) returns (j: nat)
    requires i < |es|
    ensures IsLast(es, j) && Signature(es[j].call) == Signature(es[i].call) && i <= j
    decreases |es| - i
  {
    if IsLast(es, i) {
      j := i;
    } else {
      var k :| i < k < |es| && Signature(es[k].call) == Signature(es[i].call);
      j := SomeLast(es, k);
    }
  }

  /** An exact lookup returns the last recorded element with that call signature. */
  lemma ExactLookupReturnsLast(es: seq<Entry>, c: Call, i: nat)
    requires IsLast(es, i) && Signature(es[i].call) == Signature(c)
    ensures Look(Fresh(false, es), c) == (Fresh(false, es), Some(es[i].reply))
  {
    IndexKeepsLast(es, i);
  }

  lemma {:induction false} FirstBodiedFound(keys: seq<string>, entries: map<string, Entry>, c: Call)
    requires forall k :: k in keys ==> k in entries
    ensures FirstBodied(keys, entries, c).Some? <==> exists k :: k in keys && Bodied(entries[k], c)
    ensures FirstBodied(keys, entries, c).Some? ==>
      exists k :: k in keys && entries[k] == FirstBodied(keys, entries, c).value && Bodied(entries[k], c)
  {
    if keys != [] && !Bodied(entries[keys[0]], c) {
      FirstBodiedFound(keys[1..], entries, c);
      assert forall k :: k in keys <==> k == keys[0] || k in keys[1..];
    }
  }

  /** Whether some entry answers a call out of order, told from the recording alone. */
  ghost predicate Answerable(es: seq<Entry>, c: Call) {
    exists i: nat :: IsLast(es, i) && (Signature(es[i].call) == Signature(c) || (c.body.None? && Bodied(es[i], c)))
  }

  /**
   Out of order, a call is answered exactly when an indexed entry has its signature or, without a body, its method
   and URL.
   */
  lemma LooseLookupAnswers(es: seq<Entry>, c: Call)
    ensures Look(Fresh(false, es), c).1.Some? <==> Answerable(es, c)
  {
    var ix := IndexOf(es);
    IndexWellKeyed(es);
    FirstBodiedFound(ix.keys, ix.entries, c);
    if Answer(ix, c).Some? {
      if Signature(c) in ix.entries {
        var i := LastOf(es, Signature(c));
      } else {
        var k :| k in ix.keys && Bodied(ix.entries[k], c);
        var i := LastOf(es, k);
      }
      assert Answerable(es, c);
    }
    if Answerable(es, c) {
      var i: nat :| IsLast(es, i) && (Signature(es[i].call) == Signature(c) || (c.body.None? && Bodied(es[i], c)));
      IndexKeepsLast(es, i);
      assert Signature(es[i].call) in ix.keys;
    }
  }

  // ---- Strict answers against loose answers ----

  /** Strict mode answers this call at some place of the recording. */
  ghost predicate StrictAnswers(es: seq<Entry>, c: Call) {
    exists i: nat :: i < |es| && Look(Tape(true, es, i, []), c).1.Some?
  }

  /**
   Some indexed entry still serves a body-less call with the method and URL of a recorded entry: no later
   signature clash has hidden them all.
   */
  ghost predicate Survives(es: seq<Entry>, i: nat)
    requires i < |es|
  {
    Answerable(es, es[i].call.(body := None))
  }

  ghost predicate LooseCoversStrict(es: seq<Entry>) {
    forall c :: StrictAnswers(es, c) ==> Look(Fresh(false, es), c).1.Some?
  }

  ghost predicate AllSurvive(es: seq<Entry>) {
    forall i :: 0 <= i < |es| ==> Survives(es, i)
  }

  lemma SurvivalCovers(es: seq<Entry>, c: Call)
    requires AllSurvive(es) && StrictAnswers(es, c)
    ensures Look(Fresh(false, es), c).1.Some?
  {
    var i: nat :| i < |es| && Look(Tape(true, es, i, []), c).1.Some?;
    LooseLookupAnswers(es, c);
    if c.body == es[i].call.body {
      var j := SomeLast(es, i);
      assert Signature(es[j].call) == Signature(c);
    } else {
      var d := es[i].call.(body := None);
      assert Survives(es, i);
      var j: nat :| IsLast(es, j) && (Signature(es[j].call) == Signature(d) || (d.body.None? && Bodied(es[j], d)));
      assert Signature(d) == Signature(c);
    }
  }

  /**
   Whatever strict mode answers at some place is also answered out of order, exactly when every recorded
   method and URL survives in the index. A separator inside a URL can break this: `SeparatorHidesAnEntry`.
   */
  lemma StrictImpliesLoose(es: seq<Entry>)
    ensures LooseCoversStrict(es) <==> AllSurvive(es)
  {
    if AllSurvive(es) {
      forall c | StrictAnswers(es, c) ensures Look(Fresh(false, es), c).1.Some? {
        SurvivalCovers(es, c);
      }
    }
    if LooseCoversStrict(es) {
      forall i | 0 <= i < |es| ensures Survives(es, i) {
        var c := es[i].call.(body := None);
        assert Look(Tape(true, es, i, []), c).1.Some?;
        assert StrictAnswers(es, c);
        LooseLookupAnswers(es, c);
      }
    }
  }

  /** `GET a` with body `b` and `GET a|b` have one signature, so the later recording hides the earlier one. */
  lemma SeparatorHidesAnEntry(r: Reply)
    ensures var es := [Entry(Call("GET", "a", Some("b")), r), Entry(Call("GET", "a|b", None), r)];
      StrictAnswers(es, Call("GET", "a", None)) && Look(Fresh(false, es), Call("GET", "a", None)).1.None?
  {
    var es := [Entry(Call("GET", "a", Some("b")), r), Entry(Call("GET", "a|b", None), r)];
    var c := Call("GET", "a", None);
    assert Look(Tape(true, es, 0, []), c).1.Some?;
    assert |Signature(c)| == 5 && |Signature(es[1].call)| == 7;
    assert Signature(es[0].call) == Signature(es[1].call);
    LooseLookupAnswers(es, c);
    assert !Answerable(es, c);
  }

  ghost predicate PipeFree(c: Call) {
    '|' !in Upper(c.verb) && '|' !in c.url
  }

  lemma FirstPipe(a: string, b: string, x: string, y: string)
    requires '|' !in a && '|' !in b && (x == "" || x[0] == '|') && (y == "" || y[0] == '|')
    requires a + x == b + y
    ensures a == b && x == y
  {
    PipeAt(a, x);
    PipeAt(b, y);
    assert a == (a + x)[..|a|] && b == (b + y)[..|b|] && x == (a + x)[|a|..] && y == (b + y)[|b|..];
  }

  lemma PipeAt(a: string, x: string)
    requires '|' !in a && (x == "" || x[0] == '|')
    ensures var p := a + x; (forall i :: 0 <= i < |a| ==> p[i] != '|') && (|a| < |p| ==> p[|a|] == '|')
  {
    forall i | 0 <= i < |a| ensures (a + x)[i] != '|' {
      assert (a + x)[i] == a[i] && a[i] in a;
    }
  }

  /** The body part of a signature. */
  function BodyPart(c: Call): string {
    if c.body.Some? && c.body.value != "" then "|" + c.body.value else ""
  }

  /** Without separators in methods and URLs a signature decides method, URL and body up to an empty body. */
  lemma SignatureUnique(c: Call, d: Call)
    requires PipeFree(c) && PipeFree(d)
    ensures Signature(c) == Signature(d) <==>
      Upper(c.verb) == Upper(d.verb) && c.url == d.url && BodyPart(c) == BodyPart(d)
  {
    if Signature(c) == Signature(d) {
      var x, y := "|" + c.url + BodyPart(c), "|" + d.url + BodyPart(d);
      assert Signature(c) == Upper(c.verb) + x && Signature(d) == Upper(d.verb) + y;
      FirstPipe(Upper(c.verb), Upper(d.verb), x, y);
      assert x[1..] == c.url + BodyPart(c) && y[1..] == d.url + BodyPart(d);
      FirstPipe(c.url, d.url, BodyPart(c), BodyPart(d));
    }
  }

  ghost predicate PipeFreeRecording(es: seq<Entry>) {
    forall i :: 0 <= i < |es| ==> PipeFree(es[i].call)
  }

  /** Recordings without separators in methods and URLs keep the promise. */
  lemma PipeFreeSurvives(es: seq<Entry>, i: nat)
    requires PipeFreeRecording(es) && i < |es|
    ensures Survives(es, i)
  {
    var c := es[i].call.(body := None);
    var j := SomeLast(es, i);
    SignatureUnique(es[i].call, es[j].call);
    SignatureUnique(es[j].call, c);
    assert Signature(es[j].call) == Signature(c) || Bodied(es[j], c);
  }

  // ---- Runs in strict order ----

  function Run(t: Tape, calls: seq<Call>): (Tape, seq<Option<Reply>>)
    decreases calls
  {
    if calls == [] then (t, [])
    else
      var (t', r) := Look(t, calls[0]);
      var (t'', rs) := Run(t', calls[1..]);
      (t'', [r] + rs)
  }

  /** The replies of the answered lookups, in order. */
  function Hits(rs: seq<Option<Reply>>): seq<Reply> {
    if rs == [] then [] else (if rs[0].Some? then [rs[0].value] else []) + Hits(rs[1..])
  }

  function Replies(es: seq<Entry>): seq<Reply> {
    seq(|es|, i requires 0 <= i < |es| => es[i].reply)
  }

  lemma {:induction false} StrictRunFrom(t: Tape, calls: seq<Call>)
    requires t.strict && t.cursor <= |t.ordered|
    ensures var (u, rs) := Run(t, calls);
      && u.strict && u.ordered == t.ordered && t.cursor <= u.cursor <= |t.ordered|
      && u.cursor + |u.misses| == t.cursor + |t.misses| + |calls|
      && Hits(rs) == Replies(t.ordered[t.cursor..u.cursor])
    decreases calls
  {
    if calls != [] {
      var (t', r) := Look(t, calls[0]);
      StrictRunFrom(t', calls[1..]);
      var (u, rs) := Run(t', calls[1..]);
      assert ([r] + rs)[1..] == rs;
      if r.Some? {
        assert t.ordered[t.cursor..u.cursor] == [t.ordered[t.cursor]] + t.ordered[t'.cursor..u.cursor];
      }
    }
  }

  /** Every lookup advances the cursor or is a miss, and the i-th hit is the i-th recorded entry. */
  lemma StrictRunCounts(es: seq<Entry>, calls: seq<Call>)
    ensures var (u, rs) := Run(Fresh(true, es), calls);
      u.cursor + |u.misses| == |calls| && u.cursor <= |es| && Hits(rs) == Replies(es[..u.cursor])
  {
    StrictRunFrom(Fresh(true, es), calls);
    var u := Run(Fresh(true, es), calls).0;
    assert es[0..u.cursor] == es[..u.cursor];
  }

  /** The calls are the recorded entries, one for one. */
  ghost predicate Repeats(es: seq<Entry>, calls: seq<Call>) {
    |calls| == |es| && forall i :: 0 <= i < |es| ==> Matches(es[i], calls[i])
  }

  lemma RepeatsStep(es: seq<Entry>, calls: seq<Call>)
    requires es != [] && calls != []
    ensures Repeats(es, calls) <==> Matches(es[0], calls[0]) && Repeats(es[1..], calls[1..])
  {
    if Matches(es[0], calls[0]) && Repeats(es[1..], calls[1..]) {
      forall i | 0 <= i < |es| ensures Matches(es[i], calls[i]) {
        if i > 0 { assert Matches(es[1..][i - 1], calls[1..][i - 1]); }
      }
    }
  }

  lemma {:induction false} StrictCleanFrom(t: Tape, calls: seq<Call>)
    requires t.strict && t.cursor <= |t.ordered|
    ensures var u := Run(t, calls).0;
      (u.misses == t.misses && Unconsumed(u) == 0) <==> Repeats(t.ordered[t.cursor..], calls)
    decreases calls
  {
    StrictRunFrom(t, calls);
    if calls != [] {
      var (t', r) := Look(t, calls[0]);
      if r.Some? {
        StrictCleanFrom(t', calls[1..]);
        RepeatsStep(t.ordered[t.cursor..], calls);
        assert t.ordered[t.cursor..][1..] == t.ordered[t'.cursor..];
      } else {
        MissesGrow(t', calls[1..]);
        if t.cursor < |t.ordered| { RepeatsStep(t.ordered[t.cursor..], calls); }
      }
    }
  }

  lemma {:induction false} MissesGrow(t: Tape, calls: seq<Call>)
    ensures |t.misses| <= |Run(t, calls).0.misses|
    decreases calls
  {
    if calls != [] { MissesGrow(Look(t, calls[0]).0, calls[1..]); }
  }

  /** No miss and nothing left over: exactly when the calls are the recording, in order. */
  lemma StrictRunCleanIff(es: seq<Entry>, calls: seq<Call>)
    ensures var u := Run(Fresh(true, es), calls).0;
      (u.misses == [] && Unconsumed(u) == 0) <==> Repeats(es, calls)
  {
    StrictCleanFrom(Fresh(true, es), calls);
    assert es[0..] == es;
  }
}
