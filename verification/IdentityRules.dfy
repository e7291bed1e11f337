/**
 The precedence of identities, said of the stored links and recorded identities: which resource answers at which
 tier, and when a tier has no answer.
 */
module IdentityRules {
  import opened Json
  import opened Texts
  import opened Identity

  // ---- Links ----

  /** A confirmed link of the organization at this resource; for the DEP tier it must say that both are one decision. */
  predicate Binds(l: Link, org: string, rid: string, same: bool) {
    && l.org == org && l.status == Confirmed && (l.source == rid || l.target == rid)
    && (same ==> l.relationship in {"exact_match", "same_decision"})
  }

  /** The other end of a link; of a link from a resource to itself, the resource. */
  predicate IsOtherEnd(l: Link, rid: string, x: string) {
    (l.source == rid && l.target == x) || (l.source != rid && l.source == x)
  }

  /** The first link that binds the resource leads to the text. */
  ghost predicate LinkSays(links: seq<Link>, org: string, rid: string, same: bool, x: string) {
    exists k :: 0 <= k < |links| && Binds(links[k], org, rid, same) && IsOtherEnd(links[k], rid, x)
      && forall j :: 0 <= j < k ==> !Binds(links[j], org, rid, same)
  }

  /** The first link of a kind at the head of the list, or what the rest says. */
  lemma LinkSaysNext(links: seq<Link>, org: string, rid: string, same: bool, x: string)
    requires links != []
    ensures LinkSays(links, org, rid, same, x) <==>
      if Binds(links[0], org, rid, same) then IsOtherEnd(links[0], rid, x) else LinkSays(links[1..], org, rid, same, x)
  {
    if LinkSays(links, org, rid, same, x) && !Binds(links[0], org, rid, same) {
      var k :| 0 <= k < |links| && Binds(links[k], org, rid, same) && IsOtherEnd(links[k], rid, x)
        && forall j :: 0 <= j < k ==> !Binds(links[j], org, rid, same);
      assert links[1..][k - 1] == links[k] && forall j :: 0 <= j < k - 1 ==> links[1..][j] == links[j + 1];
    }
    if !Binds(links[0], org, rid, same) && LinkSays(links[1..], org, rid, same, x) {
      var rest := links[1..];
      var k :| 0 <= k < |rest| && Binds(rest[k], org, rid, same) && IsOtherEnd(rest[k], rid, x)
        && forall j :: 0 <= j < k ==> !Binds(rest[j], org, rid, same);
      assert links[k + 1] == rest[k] && forall j :: 0 < j <= k ==> links[j] == rest[j - 1];
    }
    if Binds(links[0], org, rid, same) && IsOtherEnd(links[0], rid, x) { assert LinkSays(links, org, rid, same, x); }
  }

  lemma {:induction false} LinkIs(links: seq<Link>, org: string, rid: string, x: string)
    requires x != ""
    ensures TryDepRelationship(Touching(links, rid, org), rid) == x <==> LinkSays(links, org, rid, true, x)
    ensures TryConfirmedLink(Touching(links, rid, org), rid) == x <==> LinkSays(links, org, rid, false, x)
  {
    if links != [] {
      LinkIs(links[1..], org, rid, x);
      LinkSaysNext(links, org, rid, true, x);
      LinkSaysNext(links, org, rid, false, x);
      var rest := Touching(links[1..], rid, org);
      if links[0].org == org && (links[0].source == rid || links[0].target == rid) {
        assert Touching(links, rid, org) == [links[0]] + rest && ([links[0]] + rest)[1..] == rest;
      } else {
        assert Touching(links, rid, org) == rest;
      }
    }
  }

  // ---- Mappings ----

  ghost predicate MapsTo(m: Mapping, rid: string, x: string) {
    exists rest :: rid == m.0 + rest && x == m.1 + rest
  }

  /** The first mapping that makes a recorded identity of the resource makes the text of it. */
  ghost predicate MapSays(mappings: seq<Mapping>, known: set<string>, rid: string, x: string) {
    exists k :: 0 <= k < |mappings| && MapsTo(mappings[k], rid, x) && x in known
      && forall j, y :: 0 <= j < k && MapsTo(mappings[j], rid, y) ==> y !in known
  }

  lemma MapsToIs(m: Mapping, rid: string, x: string)
    ensures MapsTo(m, rid, x) <==> StartsWith(rid, m.0) && m.1 + rid[|m.0|..] == x
  {
    if rest :| rid == m.0 + rest && x == m.1 + rest { assert rid[..|m.0|] == m.0 && rid[|m.0|..] == rest; }
    if StartsWith(rid, m.0) && m.1 + rid[|m.0|..] == x { assert rid == m.0 + rid[|m.0|..]; }
  }

  lemma MapSaysNext(mappings: seq<Mapping>, known: set<string>, rid: string, x: string)
    requires mappings != []
    ensures MapSays(mappings, known, rid, x) <==>
      if exists y :: MapsTo(mappings[0], rid, y) && y in known then MapsTo(mappings[0], rid, x)
      else MapSays(mappings[1..], known, rid, x)
  {
    forall y ensures MapsTo(mappings[0], rid, y) <==>
      StartsWith(rid, mappings[0].0) && mappings[0].1 + rid[|mappings[0].0|..] == y { MapsToIs(mappings[0], rid, y); }
    var hit := exists y :: MapsTo(mappings[0], rid, y) && y in known;
    var rest := mappings[1..];
    if MapSays(mappings, known, rid, x) {
      var k :| 0 <= k < |mappings| && MapsTo(mappings[k], rid, x) && x in known
        && forall j, y :: 0 <= j < k && MapsTo(mappings[j], rid, y) ==> y !in known;
      if !hit { assert rest[k - 1] == mappings[k] && forall j :: 0 <= j < k - 1 ==> rest[j] == mappings[j + 1]; }
    }
    if hit && MapsTo(mappings[0], rid, x) { assert MapSays(mappings, known, rid, x); }
    if !hit && MapSays(rest, known, rid, x) {
      var k :| 0 <= k < |rest| && MapsTo(rest[k], rid, x) && x in known
        && forall j, y :: 0 <= j < k && MapsTo(rest[j], rid, y) ==> y !in known;
      assert mappings[k + 1] == rest[k] && forall j :: 0 < j <= k ==> mappings[j] == rest[j - 1];
    }
  }

  lemma {:induction false} MapIs(mappings: seq<Mapping>, known: set<string>, rid: string, x: string)
    requires x != ""
    ensures TryNamespace(rid, mappings, known) == x <==> MapSays(mappings, known, rid, x)
  {
    if mappings != [] {
      MapIs(mappings[1..], known, rid, x);
      MapSaysNext(mappings, known, rid, x);
      forall y ensures MapsTo(mappings[0], rid, y) <==>
        StartsWith(rid, mappings[0].0) && mappings[0].1 + rid[|mappings[0].0|..] == y
      {
        MapsToIs(mappings[0], rid, y);
      }
    }
  }

  // ---- Composite keys ----

  /** The texts in their order, with a plus sign between them. */
  predicate IsJoin(x: string, ts: seq<string>) {
    if |ts| < 2 then ts != [] && x == ts[0]
    else StartsWith(x, ts[0] + "+") && IsJoin(x[|ts[0]| + 1..], ts[1..])
  }

  /** No text stands before a smaller one. */
  ghost predicate Ascends(ts: seq<string>) {
    forall i, j, k: nat :: 0 <= i < j < |ts| ==> !SmallerAt(ts[j], ts[i], k)
  }

  /** The resource ids sorted and joined. */
  ghost predicate IsKey(x: string, rids: seq<string>) {
    exists ts :: multiset(ts) == multiset(rids) && Ascends(ts) && IsJoin(x, ts)
  }

  lemma {:induction false} JoinIs(x: string, ts: seq<string>)
    requires ts != []
    ensures IsJoin(x, ts) <==> x == JoinPlus(ts)
    decreases |ts|
  {
    if |ts| >= 2 {
      var head := ts[0] + "+";
      JoinIs(JoinPlus(ts[1..]), ts[1..]);
      assert JoinPlus(ts) == head + JoinPlus(ts[1..]);
      if StartsWith(x, head) {
        JoinIs(x[|head|..], ts[1..]);
        assert x == head + x[|head|..];
      }
      assert JoinPlus(ts)[|head|..] == JoinPlus(ts[1..]) && StartsWith(JoinPlus(ts), head);
    }
  }

  lemma AscendsIs(ts: seq<string>)
    ensures Ascends(ts) <==> Ordered(ts)
  {
    forall i, j | 0 <= i < j < |ts| ensures Less(ts[j], ts[i]) <==> exists k: nat :: SmallerAt(ts[j], ts[i], k) {
      LessIff(ts[j], ts[i]);
    }
  }

  lemma KeyIs(x: string, rids: seq<string>)
    requires rids != []
    ensures IsKey(x, rids) <==> x == JoinPlus(SortTexts(rids))
  {
    SortOrdered(rids);
    var sorted := SortTexts(rids);
    AscendsIs(sorted);
    assert |multiset(sorted)| == |sorted| && |multiset(rids)| == |rids|;
    JoinIs(x, sorted);
    if ts :| multiset(ts) == multiset(rids) && Ascends(ts) && IsJoin(x, ts) {
      AscendsIs(ts);
      OrderedUnique(ts, sorted);
    }
  }

  // ---- The tiers ----

  /** What one resource answers at a tier; an empty text is no answer. */
  ghost predicate Says(
      t: Tier, rid: string, x: string, org: string, mappings: seq<Mapping>, known: set<string>, links: seq<Link>) {
    x != "" && match t
    case ExactId => rid == x && x in known
    case DepRelationship => LinkSays(links, org, rid, true, x)
    case Namespace => MapSays(mappings, known, rid, x)
    case LinkAssertion => LinkSays(links, org, rid, false, x)
    case _ => false
  }

  /** The first resource that answers at the tier answers with the text. */
  ghost predicate Speaks(
      t: Tier, rids: seq<string>, x: string, org: string, mappings: seq<Mapping>, known: set<string>,
      links: seq<Link>) {
    exists i :: 0 <= i < |rids| && Says(t, rids[i], x, org, mappings, known, links)
      && forall j, y :: 0 <= j < i ==> !Says(t, rids[j], y, org, mappings, known, links)
  }

  ghost predicate Silent(
      t: Tier, rids: seq<string>, org: string, mappings: seq<Mapping>, known: set<string>, links: seq<Link>) {
    forall i, y :: 0 <= i < |rids| ==> !Says(t, rids[i], y, org, mappings, known, links)
  }

  /** The sorted and joined resource ids are a recorded identity. */
  ghost predicate KeySpeaks(rids: seq<string>, known: set<string>, x: string) {
    rids != [] && x != "" && x in known && IsKey(x, rids)
  }

  /** A function of the resources that gives exactly the answers of a tier. */
  ghost predicate Gives(
      f: string -> string, t: Tier, org: string, mappings: seq<Mapping>, known: set<string>, links: seq<Link>) {
    forall rid, x :: Says(t, rid, x, org, mappings, known, links) <==> x != "" && f(rid) == x
  }

  lemma TiersGive(org: string, mappings: seq<Mapping>, known: set<string>, links: seq<Link>)
    ensures Gives(Exact(known), ExactId, org, mappings, known, links)
    ensures Gives(Dep(links, org), DepRelationship, org, mappings, known, links)
    ensures Gives(Mapped(mappings, known), Namespace, org, mappings, known, links)
    ensures Gives(Linked(links, org), LinkAssertion, org, mappings, known, links)
  {
    forall rid, x | x != ""
      ensures TryDepRelationship(Touching(links, rid, org), rid) == x <==> LinkSays(links, org, rid, true, x)
      ensures TryConfirmedLink(Touching(links, rid, org), rid) == x <==> LinkSays(links, org, rid, false, x)
      ensures TryNamespace(rid, mappings, known) == x <==> MapSays(mappings, known, rid, x)
    {
      LinkIs(links, org, rid, x);
      MapIs(mappings, known, rid, x);
    }
  }

  lemma {:induction false} FirstIs(rids: seq<string>, f: string -> string, x: string)
    requires x != ""
    ensures First(rids, f) == x <==>
      exists i :: 0 <= i < |rids| && f(rids[i]) == x && forall j :: 0 <= j < i ==> f(rids[j]) == ""
  {
    if rids != [] {
      FirstIs(rids[1..], f, x);
      var rest := rids[1..];
      if i :| 0 <= i < |rids| && f(rids[i]) == x && forall j :: 0 <= j < i ==> f(rids[j]) == "" {
        if i > 0 { assert rest[i - 1] == rids[i] && forall j :: 0 <= j < i - 1 ==> rest[j] == rids[j + 1]; }
      }
      if i :| 0 <= i < |rest| && f(rest[i]) == x && forall j :: 0 <= j < i ==> f(rest[j]) == "" {
        if f(rids[0]) == "" { assert rids[i + 1] == rest[i] && forall j :: 0 < j <= i ==> rids[j] == rest[j - 1]; }
      }
    }
  }

  lemma TierSpeaks(
      f: string -> string, t: Tier, rids: seq<string>, org: string, mappings: seq<Mapping>, known: set<string>,
      links: seq<Link>, x: string)
    requires Gives(f, t, org, mappings, known, links) && x != ""
    ensures First(rids, f) == x <==> Speaks(t, rids, x, org, mappings, known, links)
  {
    FirstIs(rids, f, x);
    forall rid ensures f(rid) == "" <==> forall y :: !Says(t, rid, y, org, mappings, known, links) {
      if f(rid) != "" { assert Says(t, rid, f(rid), org, mappings, known, links); }
    }
  }

  lemma TierSilent(
      f: string -> string, t: Tier, rids: seq<string>, org: string, mappings: seq<Mapping>, known: set<string>,
      links: seq<Link>)
    requires Gives(f, t, org, mappings, known, links)
    ensures First(rids, f) == "" <==> Silent(t, rids, org, mappings, known, links)
  {
    FirstHits(rids, f);
    if First(rids, f) == "" {
      forall i, y | 0 <= i < |rids| ensures !Says(t, rids[i], y, org, mappings, known, links) {
        assert rids[i] in rids;
      }
    } else {
      var rid :| rid in rids && f(rid) != "";
      var i :| 0 <= i < |rids| && rids[i] == rid;
      assert Says(t, rids[i], f(rid), org, mappings, known, links);
    }
  }

  // ---- The answer ----

  /** The precedence table: the tier is the first that answers, and the text is its answer. */
  ghost predicate Precedence(
      x: string, t: Tier, rids: seq<string>, org: string, mappings: seq<Mapping>, known: set<string>,
      links: seq<Link>) {
    && (t != ExactId ==> Silent(ExactId, rids, org, mappings, known, links))
    && (t !in {ExactId, DepRelationship} ==> Silent(DepRelationship, rids, org, mappings, known, links))
    && (t !in {ExactId, DepRelationship, Namespace} ==> Silent(Namespace, rids, org, mappings, known, links))
    && (t in {LinkAssertion, InferredId, UnknownId} ==> forall y :: !KeySpeaks(rids, known, y))
    && (t in {InferredId, UnknownId} ==> Silent(LinkAssertion, rids, org, mappings, known, links))
    && match t
       case CompositeKey => KeySpeaks(rids, known, x)
       case InferredId => rids != [] && x == rids[0]
       case UnknownId => rids == [] && x == ""
       case _ => Speaks(t, rids, x, org, mappings, known, links)
  }

  lemma CompositeIs(rids: seq<string>, known: set<string>)
    ensures TryComposite(rids, known) == "" <==> forall y :: !KeySpeaks(rids, known, y)
    ensures forall x :: x != "" ==> (TryComposite(rids, known) == x <==> KeySpeaks(rids, known, x))
  {
    if rids != [] {
      forall x ensures IsKey(x, rids) <==> x == JoinPlus(SortTexts(rids)) { KeyIs(x, rids); }
      if TryComposite(rids, known) != "" { assert KeySpeaks(rids, known, TryComposite(rids, known)); }
    }
  }

  /** The answers of the tiers decide each line of the table. */
  lemma TableIs(
      exact: string, dep: string, mapped: string, key: string, linked: string, rids: seq<string>, x: string, t: Tier)
    ensures Pick(exact, dep, mapped, key, linked, rids) == (x, t) <==>
      && (t != ExactId ==> exact == "")
      && (t !in {ExactId, DepRelationship} ==> dep == "")
      && (t !in {ExactId, DepRelationship, Namespace} ==> mapped == "")
      && (t in {LinkAssertion, InferredId, UnknownId} ==> key == "")
      && (t in {InferredId, UnknownId} ==> linked == "")
      && match t
         case ExactId => x == exact != ""
         case DepRelationship => x == dep != ""
         case Namespace => x == mapped != ""
         case CompositeKey => x == key != ""
         case LinkAssertion => x == linked != ""
         case InferredId => rids != [] && x == rids[0]
         case UnknownId => rids == [] && x == ""
  {
  }

  lemma LineIs(
      f: string -> string, t: Tier, rids: seq<string>, org: string, mappings: seq<Mapping>, known: set<string>,
      links: seq<Link>, x: string)
    requires Gives(f, t, org, mappings, known, links)
    ensures x == First(rids, f) != "" <==> Speaks(t, rids, x, org, mappings, known, links)
    ensures First(rids, f) == "" <==> Silent(t, rids, org, mappings, known, links)
  {
    TierSilent(f, t, rids, org, mappings, known, links);
    if x != "" { TierSpeaks(f, t, rids, org, mappings, known, links, x); }
  }

  /** An answer is the one the precedence table gives. */
  lemma AnswerIs(
      x: string, t: Tier, rids: seq<string>, org: string, mappings: seq<Mapping>, known: set<string>,
      links: seq<Link>)
    ensures Resolve(rids, org, mappings, known, links) == (x, t) <==>
      Precedence(x, t, rids, org, mappings, known, links)
  {
    TiersGive(org, mappings, known, links);
    LineIs(Exact(known), ExactId, rids, org, mappings, known, links, x);
    LineIs(Dep(links, org), DepRelationship, rids, org, mappings, known, links, x);
    LineIs(Mapped(mappings, known), Namespace, rids, org, mappings, known, links, x);
    LineIs(Linked(links, org), LinkAssertion, rids, org, mappings, known, links, x);
    CompositeIs(rids, known);
    ResolvePicks(rids, org, mappings, known, links);
    TableIs(First(rids, Exact(known)), First(rids, Dep(links, org)), First(rids, Mapped(mappings, known)),
            TryComposite(rids, known), First(rids, Linked(links, org)), rids, x, t);
  }

  /** What a store knows of an organization: the identities of the records built for it. */
  lemma BuiltIdentityIs(s: State, rids: seq<string>, org: string, mappings: seq<Mapping>)
    ensures var u := Build(s, rids, org, mappings);
      && u.links == s.links && |u.records| == |s.records| + 1 && u.records[..|s.records|] == s.records
      && var r := u.records[|s.records|];
        r.org == org && Precedence(r.identity, r.tier, rids, org, mappings,
          set i | 0 <= i < |s.records| && s.records[i].org == org :: s.records[i].identity, s.links)
  {
    var (x, t) := Resolve(rids, org, mappings, Known(s.records, org), s.links);
    AnswerIs(x, t, rids, org, mappings, Known(s.records, org), s.links);
  }

  // ---- Links through a run ----

  /** The state before the n-th step of a run from the empty store. */
  function Before(ops: seq<Op>, n: nat): State
    requires n <= |ops|
  {
    if n == 0 then State([], [], 0) else Step(Before(ops, n - 1), ops[n - 1])
  }

  lemma {:induction false} BeforeIsExec(ops: seq<Op>, n: nat)
    requires n <= |ops|
    ensures Exec(Before(ops, n), ops[n..]) == Exec(State([], [], 0), ops)
  {
    if n == 0 {
      assert ops[0..] == ops;
    } else {
      BeforeIsExec(ops, n - 1);
      assert ops[n - 1..][1..] == ops[n..];
    }
  }

  /** A confirmation or rejection of the link, by its id and its organization. */
  predicate Decides(op: Op, l: Link) {
    (op.Confirming? || op.Rejecting?) && op.id == l.id && op.org == l.org
  }

  /** The link before a step, as far as the step found it: only its status may have been another. */
  predicate Was(p: Link, l: Link, op: Op) {
    && p == l.(status := p.status)
    && l.status == if !Decides(op, l) then p.status else if op.Confirming? then Confirmed else Rejected
  }

  lemma LinkBefore(s: State, op: Op, l: Link)
    requires l in Step(s, op).links
    ensures (op.Suggesting? && l == Link(s.next, op.org, op.source, op.target, op.relationship, Inferred))
      || exists p :: p in s.links && Was(p, l, op)
  {
    if op.Confirming? || op.Rejecting? {
      var i :| 0 <= i < |s.links| && Step(s, op).links[i] == l;
      assert s.links[i] in s.links && Was(s.links[i], l, op);
    } else if l in s.links {
      assert Was(l, l, op);
    }
  }

  /** The m-th step suggested the link. */
  ghost predicate Suggested(ops: seq<Op>, m: nat, l: Link) {
    m < |ops| && ops[m].Suggesting? && l.id == Before(ops, m).next && l.org == ops[m].org
    && l.source == ops[m].source && l.target == ops[m].target && l.relationship == ops[m].relationship
  }

  /** The j-th step is the last of these that decides the link. */
  ghost predicate LastDecides(ops: seq<Op>, j: nat, n: nat, l: Link) {
    j < n <= |ops| && Decides(ops[j], l) && forall k :: j < k < n ==> !Decides(ops[k], l)
  }

  /** The status of a link is that of the last decision on it since it was suggested; inferred, if there is none. */
  ghost predicate StatusIs(ops: seq<Op>, m: nat, n: nat, l: Link)
    requires n <= |ops|
  {
    match l.status
    case Inferred => forall k :: m < k < n ==> !Decides(ops[k], l)
    case Confirmed => exists j: nat :: m < j && LastDecides(ops, j, n, l) && ops[j].Confirming?
    case Rejected => exists j: nat :: m < j && LastDecides(ops, j, n, l) && ops[j].Rejecting?
  }

  lemma StatusNext(ops: seq<Op>, m: nat, n: nat, p: Link, l: Link)
    requires m < n < |ops| && Was(p, l, ops[n]) && StatusIs(ops, m, n, p)
    ensures StatusIs(ops, m, n + 1, l)
  {
    forall k | 0 <= k <= n ensures Decides(ops[k], l) <==> Decides(ops[k], p) {}
    if Decides(ops[n], l) {
      assert LastDecides(ops, n, n + 1, l);
    } else if l.status != Inferred {
      var j: nat :| m < j && LastDecides(ops, j, n, p) && (ops[j].Confirming? <==> l.status == Confirmed);
      assert LastDecides(ops, j, n + 1, l);
    }
  }

  /** In every run each link was suggested by one step and has the status of the last decision on it since then. */
  lemma {:induction false} EveryLinkIsDecided(ops: seq<Op>, n: nat, l: Link)
    requires n <= |ops| && l in Before(ops, n).links
    ensures exists m: nat :: m < n && Suggested(ops, m, l) && StatusIs(ops, m, n, l)
    decreases n
  {
    if n > 0 {
      var s, op := Before(ops, n - 1), ops[n - 1];
      LinkBefore(s, op, l);
      if p :| p in s.links && Was(p, l, op) {
        EveryLinkIsDecided(ops, n - 1, p);
        var m: nat :| m < n - 1 && Suggested(ops, m, p) && StatusIs(ops, m, n - 1, p);
        StatusNext(ops, m, n - 1, p, l);
        assert Suggested(ops, m, l);
      } else {
        assert Suggested(ops, n - 1, l) && StatusIs(ops, n - 1, n, l);
      }
    }
  }
}
