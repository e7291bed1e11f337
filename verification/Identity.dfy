/**
 Decision identity: a search through six tiers of precedence, whose answer each built record writes back into
 the store the search reads. An empty text stands for every answer the program treats as false.
 */
module Identity {
  import opened Json
  import opened Texts

  datatype LinkStatus = Inferred | Confirmed | Rejected

  datatype Link = Link(id: nat, org: string, source: string, target: string, relationship: string, status: LinkStatus)

  datatype Record = Record(id: nat, org: string, identity: string, tier: Tier)

  datatype Tier = ExactId | DepRelationship | Namespace | CompositeKey | LinkAssertion | InferredId | UnknownId

  /** A prefix and what replaces it. */
  type Mapping = (string, string)

  function Touching(links: seq<Link>, rid: string, org: string): seq<Link> {
    if links == [] then []
    else
      (if links[0].org == org && (links[0].source == rid || links[0].target == rid) then [links[0]] else [])
      + Touching(links[1..], rid, org)
  }

  /** The identities recorded for an organization. */
  function Known(records: seq<Record>, org: string): set<string> {
    set i | 0 <= i < |records| && records[i].org == org :: records[i].identity
  }

  // ---- The tiers ----

  function TryExactId(rid: string, known: set<string>): string {
    if rid in known then rid else ""
  }

  function OtherEnd(l: Link, rid: string): string {
    if l.source == rid then l.target else l.source
  }

  predicate SameDecision(l: Link) {
    l.status == Confirmed && (l.relationship == "exact_match" || l.relationship == "same_decision")
  }

  function TryDepRelationship(links: seq<Link>, rid: string): string {
    if links == [] then ""
    else if SameDecision(links[0]) then OtherEnd(links[0], rid)
    else TryDepRelationship(links[1..], rid)
  }

  /** The first mapping whose image is a recorded identity; replacing the first occurrence replaces the prefix. */
  function TryNamespace(rid: string, mappings: seq<Mapping>, known: set<string>): string {
    if mappings == [] then ""
    else
      var (prefix, ns) := mappings[0];
      if StartsWith(rid, prefix) && ns + rid[|prefix|..] in known then ns + rid[|prefix|..]
      else TryNamespace(rid, mappings[1..], known)
  }

  function InsertText(t: string, ts: seq<string>): seq<string> {
    if ts == [] || !Less(ts[0], t) then [t] + ts else [ts[0]] + InsertText(t, ts[1..])
  }

  function SortTexts(ts: seq<string>): seq<string> {
    if ts == [] then [] else InsertText(ts[0], SortTexts(ts[1..]))
  }

  function JoinPlus(ts: seq<string>): string {
    if ts == [] then "" else if |ts| == 1 then ts[0] else ts[0] + "+" + JoinPlus(ts[1..])
  }

  function TryComposite(rids: seq<string>, known: set<string>): string {
    if rids == [] then "" else TryExactId(JoinPlus(SortTexts(rids)), known)
  }

  function TryConfirmedLink(links: seq<Link>, rid: string): string {
    if links == [] then ""
    else if links[0].status == Confirmed then OtherEnd(links[0], rid)
    else TryConfirmedLink(links[1..], rid)
  }

  /** The first answer that is not empty. */
  function First(rids: seq<string>, f: string -> string): string {
    if rids == [] then "" else if f(rids[0]) != "" then f(rids[0]) else First(rids[1..], f)
  }

  function Exact(known: set<string>): string -> string {
    rid => TryExactId(rid, known)
  }

  function Dep(links: seq<Link>, org: string): string -> string {
    rid => TryDepRelationship(Touching(links, rid, org), rid)
  }

  function Mapped(mappings: seq<Mapping>, known: set<string>): string -> string {
    rid => TryNamespace(rid, mappings, known)
  }

  function Linked(links: seq<Link>, org: string): string -> string {
    rid => TryConfirmedLink(Touching(links, rid, org), rid)
  }

  /** `resolve` on the identities recorded for the organization and the stored links. */
  function Resolve(
      rids: seq<string>, org: string, mappings: seq<Mapping>, known: set<string>, links: seq<Link>): (string, Tier) {
    if First(rids, Exact(known)) != "" then (First(rids, Exact(known)), ExactId)
    else if First(rids, Dep(links, org)) != "" then (First(rids, Dep(links, org)), DepRelationship)
    else if First(rids, Mapped(mappings, known)) != "" then (First(rids, Mapped(mappings, known)), Namespace)
    else if TryComposite(rids, known) != "" then (TryComposite(rids, known), CompositeKey)
    else if First(rids, Linked(links, org)) != "" then (First(rids, Linked(links, org)), LinkAssertion)
    else if rids != [] then (rids[0], InferredId)
    else ("", UnknownId)
  }

  // ---- The services as the code runs them ----

  datatype State = State(links: seq<Link>, records: seq<Record>, next: nat)

  /** `suggest_link` */
  function Suggest(s: State, source: string, target: string, relationship: string, org: string): State {
    s.(links := s.links + [Link(s.next, org, source, target, relationship, Inferred)], next := s.next + 1)
  }

  /** `confirm_link` and `reject_link`: nothing happens to a missing link or one of another organization. */
  function SetStatus(links: seq<Link>, id: nat, org: string, status: LinkStatus): seq<Link> {
    seq(|links|, i requires 0 <= i < |links| =>
      if links[i].id == id && links[i].org == org then links[i].(status := status) else links[i])
  }

  /** `build`, as far as identities go: the new record makes its own identity known. */
  function Build(s: State, rids: seq<string>, org: string, mappings: seq<Mapping>): State {
    var (identity, tier) := Resolve(rids, org, mappings, Known(s.records, org), s.links);
    s.(records := s.records + [Record(s.next, org, identity, tier)], next := s.next + 1)
  }

  class DiscoveryStore {
    var links: seq<Link>
    var records: seq<Record>
    var next: nat

    ghost function Abs(): State
      reads this
    {
      State(links, records, next)
    }

    constructor ()
      ensures Abs() == State([], [], 0)
    {
      links, records, next := [], [], 0;
    }

    /** The early-return loop over the resources. */
    method FirstOf(rids: seq<string>, f: string -> string) returns (r: string)
      ensures r == First(rids, f)
    {
      for i := 0 to |rids|
        invariant First(rids[i..], f) == First(rids, f)
      {
        if f(rids[i]) != "" {
          return f(rids[i]);
        }
      }
      return "";
    }

    method ResolveIdentity(
        rids: seq<string>, org: string, mappings: seq<Mapping>) returns (identity: string, tier: Tier)
      ensures (identity, tier) == Resolve(rids, org, mappings, Known(records, org), links)
    {
      var known := Known(records, org);
      var exact := FirstOf(rids, Exact(known));
      if exact != "" { return exact, ExactId; }
      var dep := FirstOf(rids, Dep(links, org));
      if dep != "" { return dep, DepRelationship; }
      var mapped := FirstOf(rids, Mapped(mappings, known));
      if mapped != "" { return mapped, Namespace; }
      var composite := TryComposite(rids, known);
      if composite != "" { return composite, CompositeKey; }
      var linked := FirstOf(rids, Linked(links, org));
      if linked != "" { return linked, LinkAssertion; }
      if rids != [] { return rids[0], InferredId; }
      return "", UnknownId;
    }

    method BuildRecord(rids: seq<string>, org: string, mappings: seq<Mapping>) returns (r: Record)
      modifies this
      ensures Abs() == Build(old(Abs()), rids, org, mappings) && records == old(records) + [r]
    {
      var identity, tier := ResolveIdentity(rids, org, mappings);
      r := Record(next, org, identity, tier);
      records, next := records + [r], next + 1;
    }

    method SuggestLink(source: string, target: string, relationship: string, org: string) returns (l: Link)
      modifies this
      ensures Abs() == Suggest(old(Abs()), source, target, relationship, org) && links == old(links) + [l]
      ensures l.org == org && l.source == source && l.target == target && l.relationship == relationship
      ensures l.status.Inferred? && records == old(records) && ConfirmedOnly(links) == ConfirmedOnly(old(links))
    {
      l := Link(next, org, source, target, relationship, Inferred);
      ConfirmedAppend(links, l);
      links, next := links + [l], next + 1;
    }

    method DecideLink(id: nat, org: string, confirm: bool)
      modifies this
      ensures Abs() == old(Abs()).(links := SetStatus(old(links), id, org, if confirm then Confirmed else Rejected))
      ensures |links| == |old(links)| && records == old(records)
      ensures forall l :: l in links && l.id == id && l.org == org ==>
        l.status == if confirm then Confirmed else Rejected
      ensures forall l :: l in old(links) && (l.id != id || l.org != org) ==> l in links
      ensures forall l :: l in links && (l.id != id || l.org != org) ==> l in old(links)
      ensures !confirm && (forall l :: l in old(links) && l.id == id && l.org == org ==> l.status != Confirmed) ==>
        ConfirmedOnly(links) == ConfirmedOnly(old(links))
    {
      ghost var before := links;
      links := SetStatus(links, id, org, if confirm then Confirmed else Rejected);
      forall l | l in before && (l.id != id || l.org != org) ensures l in links {
        var i :| 0 <= i < |before| && before[i] == l;
        assert links[i] == l;
      }
      if !confirm && forall l :: l in before && l.id == id && l.org == org ==> l.status != Confirmed {
        RejectKeepsConfirmed(before, id, org);
      }
    }
  }

  // ---- The tier is the first that any resource satisfies ----

  ghost predicate Any(rids: seq<string>, f: string -> string) {
    exists rid :: rid in rids && f(rid) != ""
  }

  lemma {:induction false} FirstHits(rids: seq<string>, f: string -> string)
    ensures First(rids, f) != "" <==> Any(rids, f)
    ensures First(rids, f) != "" ==> exists rid :: rid in rids && f(rid) == First(rids, f)
  {
    if rids != [] {
      FirstHits(rids[1..], f);
      assert forall rid :: rid in rids <==> rid == rids[0] || rid in rids[1..];
    }
  }

  /** The precedence table, without an order on the resources. */
  ghost function FirstTier(
      rids: seq<string>, org: string, mappings: seq<Mapping>, known: set<string>, links: seq<Link>): Tier {
    if Any(rids, Exact(known)) then ExactId
    else if Any(rids, Dep(links, org)) then DepRelationship
    else if Any(rids, Mapped(mappings, known)) then Namespace
    else if TryComposite(rids, known) != "" then CompositeKey
    else if Any(rids, Linked(links, org)) then LinkAssertion
    else if rids != [] then InferredId
    else UnknownId
  }

  lemma TierIsFirst(rids: seq<string>, org: string, mappings: seq<Mapping>, known: set<string>, links: seq<Link>)
    ensures Resolve(rids, org, mappings, known, links).1 == FirstTier(rids, org, mappings, known, links)
  {
    FirstHits(rids, Exact(known));
    FirstHits(rids, Dep(links, org));
    FirstHits(rids, Mapped(mappings, known));
    FirstHits(rids, Linked(links, org));
  }

  ghost predicate Ordered(ts: seq<string>) {
    forall i, j :: 0 <= i < j < |ts| ==> !Less(ts[j], ts[i])
  }

  lemma TextOrder(a: string, b: string, c: string)
    ensures a == b || Less(a, b) || Less(b, a)
    ensures !(Less(a, b) && Less(b, a)) && !Less(a, a)
    ensures !Less(b, a) && !Less(c, b) ==> !Less(c, a)
  {
    LessTotal(a, b);
    LessTotal(b, c);
    LessTotal(a, c);
    if Less(a, b) && Less(b, c) { LessTransitive(a, b, c); }
  }

  lemma {:induction false} InsertOrdered(t: string, ts: seq<string>)
    requires Ordered(ts)
    ensures Ordered(InsertText(t, ts)) && multiset(InsertText(t, ts)) == multiset(ts) + multiset{t}
  {
    if ts == [] {
    } else if Less(ts[0], t) {
      var rest := InsertText(t, ts[1..]);
      InsertOrdered(t, ts[1..]);
      assert ts == [ts[0]] + ts[1..];
      forall j | 0 <= j < |rest| ensures !Less(rest[j], ts[0]) {
        assert rest[j] in multiset(rest);
        TextOrder(ts[0], t, "");
        if rest[j] != t {
          assert rest[j] in ts[1..];
          var k :| 0 <= k < |ts[1..]| && ts[1..][k] == rest[j];
          assert ts[k + 1] == rest[j];
        }
      }
    } else {
      forall j | 0 <= j < |ts| ensures !Less(ts[j], t) {
        if j > 0 { TextOrder(t, ts[0], ts[j]); }
      }
    }
  }

  lemma {:induction false} SortOrdered(ts: seq<string>)
    ensures Ordered(SortTexts(ts)) && multiset(SortTexts(ts)) == multiset(ts)
  {
    if ts != [] {
      SortOrdered(ts[1..]);
      InsertOrdered(ts[0], SortTexts(ts[1..]));
      assert ts == [ts[0]] + ts[1..];
    }
  }

  lemma HeadIsLeast(ss: seq<string>, t: string)
    requires Ordered(ss) && t in ss
    ensures !Less(t, ss[0])
  {
    TextOrder(t, t, "");
    var k :| 0 <= k < |ss| && ss[k] == t;
  }

  lemma TailOf(ss: seq<string>)
    requires ss != []
    ensures multiset(ss[1..]) == multiset(ss) - multiset{ss[0]}
  {
    assert ss == [ss[0]] + ss[1..];
  }

  lemma {:induction false} OrderedUnique(ss: seq<string>, ts: seq<string>)
    requires Ordered(ss) && Ordered(ts) && multiset(ss) == multiset(ts)
    ensures ss == ts
  {
    assert |multiset(ss)| == |ss| && |multiset(ts)| == |ts|;
    if ss != [] {
      assert ss[0] in multiset(ts) && ts[0] in multiset(ss);
      HeadIsLeast(ts, ss[0]);
      HeadIsLeast(ss, ts[0]);
      TextOrder(ss[0], ts[0], "");
      TailOf(ss);
      TailOf(ts);
      OrderedUnique(ss[1..], ts[1..]);
      assert ss == [ss[0]] + ss[1..] && ts == [ts[0]] + ts[1..];
    }
  }

  lemma SortIgnoresOrder(ss: seq<string>, ts: seq<string>)
    requires multiset(ss) == multiset(ts)
    ensures SortTexts(ss) == SortTexts(ts) && (ss == [] <==> ts == [])
  {
    SortOrdered(ss);
    SortOrdered(ts);
    OrderedUnique(SortTexts(ss), SortTexts(ts));
    assert |multiset(ss)| == |ss| && |multiset(ts)| == |ts|;
  }

  lemma AnyIgnoresOrder(ss: seq<string>, ts: seq<string>, f: string -> string)
    requires multiset(ss) == multiset(ts)
    ensures Any(ss, f) == Any(ts, f)
  {
    assert forall t :: t in ss <==> t in multiset(ss);
    assert forall t :: t in ts <==> t in multiset(ts);
  }

  /** Permuting the resources never changes the tier. */
  lemma TierIgnoresOrder(
      rids: seq<string>, rids': seq<string>, org: string, mappings: seq<Mapping>, known: set<string>, links: seq<Link>)
    requires multiset(rids) == multiset(rids')
    ensures Resolve(rids, org, mappings, known, links).1 == Resolve(rids', org, mappings, known, links).1
  {
    TierIsFirst(rids, org, mappings, known, links);
    TierIsFirst(rids', org, mappings, known, links);
    SortIgnoresOrder(rids, rids');
    AnyIgnoresOrder(rids, rids', Exact(known));
    AnyIgnoresOrder(rids, rids', Dep(links, org));
    AnyIgnoresOrder(rids, rids', Mapped(mappings, known));
    AnyIgnoresOrder(rids, rids', Linked(links, org));
  }

  function Place(t: Tier): nat {
    match t
    case ExactId => 0
    case DepRelationship => 1
    case Namespace => 2
    case CompositeKey => 3
    case LinkAssertion => 4
    case InferredId => 5
    case UnknownId => 6
  }

  lemma {:induction false} NamespaceGrows(rid: string, mappings: seq<Mapping>, known: set<string>, more: set<string>)
    requires known <= more && TryNamespace(rid, mappings, known) != "" && "" !in more
    ensures TryNamespace(rid, mappings, more) != ""
  {
    if mappings != [] {
      var (prefix, ns) := mappings[0];
      if !(StartsWith(rid, prefix) && ns + rid[|prefix|..] in more) {
        NamespaceGrows(rid, mappings[1..], known, more);
      }
    }
  }

  lemma AnyExactGrows(rids: seq<string>, known: set<string>, more: set<string>)
    requires known <= more && Any(rids, Exact(known))
    ensures Any(rids, Exact(more))
  {
    var rid :| rid in rids && Exact(known)(rid) != "";
    assert Exact(more)(rid) != "";
  }

  lemma AnyMappedGrows(rids: seq<string>, mappings: seq<Mapping>, known: set<string>, more: set<string>)
    requires known <= more && "" !in more && Any(rids, Mapped(mappings, known))
    ensures Any(rids, Mapped(mappings, more))
  {
    var rid :| rid in rids && Mapped(mappings, known)(rid) != "";
    NamespaceGrows(rid, mappings, known, more);
    assert Mapped(mappings, more)(rid) != "";
  }

  lemma FirstTierPromotes(
      rids: seq<string>, org: string, mappings: seq<Mapping>, known: set<string>, more: set<string>, links: seq<Link>)
    requires known <= more && "" !in more
    ensures Place(FirstTier(rids, org, mappings, more, links)) <= Place(FirstTier(rids, org, mappings, known, links))
  {
    if Any(rids, Exact(known)) { AnyExactGrows(rids, known, more); }
    if Any(rids, Mapped(mappings, known)) { AnyMappedGrows(rids, mappings, known, more); }
  }

  /** New records never move the match to a later tier. */
  lemma RecordsOnlyPromote(
      rids: seq<string>, org: string, mappings: seq<Mapping>, known: set<string>, more: set<string>, links: seq<Link>)
    requires known <= more && "" !in more
    ensures Place(Resolve(rids, org, mappings, more, links).1) <= Place(Resolve(rids, org, mappings, known, links).1)
  {
    TierIsFirst(rids, org, mappings, known, links);
    TierIsFirst(rids, org, mappings, more, links);
    FirstTierPromotes(rids, org, mappings, known, more, links);
  }

  lemma {:induction false} NothingNamed(rid: string, mappings: seq<Mapping>, known: set<string>)
    requires known <= {""}
    ensures TryNamespace(rid, mappings, known) == ""
  {
    if mappings != [] { NothingNamed(rid, mappings[1..], known); }
  }

  /** Where only the empty identity is recorded the first four tiers reduce to links. */
  lemma NothingKnown(rids: seq<string>, mappings: seq<Mapping>, known: set<string>)
    requires known <= {""}
    ensures First(rids, Exact(known)) == "" && First(rids, Mapped(mappings, known)) == ""
    ensures TryComposite(rids, known) == ""
  {
    FirstHits(rids, Exact(known));
    FirstHits(rids, Mapped(mappings, known));
    forall rid ensures Mapped(mappings, known)(rid) == "" { NothingNamed(rid, mappings, known); }
  }

  ghost predicate Promotes(
      more: set<string>, rids: seq<string>, org: string, mappings: seq<Mapping>, known: set<string>, links: seq<Link>) {
    Place(Resolve(rids, org, mappings, more, links).1) <= Place(Resolve(rids, org, mappings, known, links).1)
  }

  /** However much was recorded before, what is recorded now never gives a later tier. */
  ghost predicate AlwaysPromotes(more: set<string>) {
    forall rids, org, mappings, known, links :: known <= more ==> Promotes(more, rids, org, mappings, known, links)
  }

  lemma {:induction false} LongerThan(texts: set<string>) returns (n: nat)
    ensures forall t :: t in texts ==> |t| < n
    decreases texts
  {
    n := 0;
    if texts != {} {
      var t :| t in texts;
      n := LongerThan(texts - {t});
      n := if |t| < n then n else |t| + 1;
    }
  }

  lemma OneComposite(rid: string)
    ensures SortTexts([rid]) == [rid] && JoinPlus([rid]) == rid
  {
    assert SortTexts([rid]) == InsertText(rid, SortTexts([rid][1..]));
  }

  lemma OneFirst(rid: string, f: string -> string)
    ensures First([rid], f) == f(rid)
  {
    assert [rid][1..] == [];
  }

  /** The first mapping blocks the second one where the empty identity is recorded. */
  lemma Blocks(p: string, z: string, known: set<string>)
    requires p != ""
    ensures TryNamespace(p + z, [(p + z, ""), (p, "")], known) == if "" !in known && z in known then z else ""
  {
    var r, second := p + z, [(p, "")];
    assert [(r, ""), (p, "")][1..] == second && second[1..] == [];
    assert r[..|r|] == r && "" + r[|r|..] == "" && r[..|p|] == p && "" + r[|p|..] == z;
    assert TryNamespace(r, second, known) == if z in known then z else "";
  }

  lemma WithoutLinks(r: string, mappings: seq<Mapping>, known: set<string>)
    requires r !in known && r != ""
    ensures Resolve([r], "", mappings, known, []) ==
      if TryNamespace(r, mappings, known) != "" then (TryNamespace(r, mappings, known), Namespace) else (r, InferredId)
  {
    OneFirst(r, Exact(known));
    OneFirst(r, Dep([], ""));
    OneFirst(r, Mapped(mappings, known));
    OneFirst(r, Linked([], ""));
    OneComposite(r);
  }

  /** A mapping to the empty text, with a fresh resource id that a shorter prefix maps to a recorded identity. */
  lemma DemotedByEmpty(p: string, z: string, known: set<string>)
    requires p != "" && z != "" && z in known && p + z !in known && "" !in known
    ensures var mappings := [(p + z, ""), (p, "")];
      && Resolve([p + z], "", mappings, known, []) == (z, Namespace)
      && Resolve([p + z], "", mappings, known + {""}, []) == (p + z, InferredId)
  {
    var mappings := [(p + z, ""), (p, "")];
    Blocks(p, z, known);
    Blocks(p, z, known + {""});
    WithoutLinks(p + z, mappings, known);
    WithoutLinks(p + z, mappings, known + {""});
  }

  /**
   Recording identities never moves any match to a later tier, exactly when the empty identity is not among them or
   is the only one: the program takes an empty mapped identity for no answer.
   */
  lemma PromotesIff(more: set<string>)
    ensures AlwaysPromotes(more) <==> "" !in more || more <= {""}
  {
    if "" !in more {
      forall rids, org, mappings, known, links | known <= more
        ensures Promotes(more, rids, org, mappings, known, links)
      {
        RecordsOnlyPromote(rids, org, mappings, known, more, links);
      }
    } else if more <= {""} {
      forall rids, org, mappings, known, links | known <= more
        ensures Promotes(more, rids, org, mappings, known, links)
      {
        NothingKnown(rids, mappings, known);
        NothingKnown(rids, mappings, more);
      }
    } else {
      var z :| z in more && z != "";
      var n := LongerThan(more);
      var p: string := seq(n + 1, (i: int) => 'p');
      var known := more - {""};
      assert p + z !in more && known + {""} == more;
      DemotedByEmpty(p, z, known);
      assert !Promotes(more, [p + z], "", [(p + z, ""), (p, "")], known, []);
    }
  }

  // ---- Only confirmed links count ----

  function ConfirmedOnly(links: seq<Link>): seq<Link> {
    if links == [] then [] else (if links[0].status == Confirmed then [links[0]] else []) + ConfirmedOnly(links[1..])
  }

  lemma {:induction false} TouchingConfirmed(links: seq<Link>, rid: string, org: string)
    ensures Touching(ConfirmedOnly(links), rid, org) == ConfirmedOnly(Touching(links, rid, org))
  {
    if links != [] {
      TouchingConfirmed(links[1..], rid, org);
      var rest, kept := Touching(links[1..], rid, org), ConfirmedOnly(links[1..]);
      if links[0].status == Confirmed {
        assert ConfirmedOnly(links)[1..] == kept;
      } else {
        assert ConfirmedOnly(links) == kept;
      }
      assert Touching(links, rid, org) == rest || Touching(links, rid, org)[1..] == rest;
    }
  }

  lemma {:induction false} ConfirmedFound(links: seq<Link>, rid: string)
    ensures TryDepRelationship(ConfirmedOnly(links), rid) == TryDepRelationship(links, rid)
    ensures TryConfirmedLink(ConfirmedOnly(links), rid) == TryConfirmedLink(links, rid)
  {
    if links != [] {
      ConfirmedFound(links[1..], rid);
      if links[0].status == Confirmed {
        assert ConfirmedOnly(links)[1..] == ConfirmedOnly(links[1..]);
      } else {
        assert ConfirmedOnly(links) == ConfirmedOnly(links[1..]);
      }
    }
  }

  lemma ConfirmedDecide(links: seq<Link>, rid: string, org: string)
    ensures Dep(ConfirmedOnly(links), org)(rid) == Dep(links, org)(rid)
    ensures Linked(ConfirmedOnly(links), org)(rid) == Linked(links, org)(rid)
  {
    TouchingConfirmed(links, rid, org);
    ConfirmedFound(Touching(links, rid, org), rid);
  }

  lemma {:induction false} FirstSame(rids: seq<string>, f: string -> string, g: string -> string)
    requires forall rid :: f(rid) == g(rid)
    ensures First(rids, f) == First(rids, g)
  {
    if rids != [] { FirstSame(rids[1..], f, g); }
  }

  /** Two stores with the same confirmed links answer alike: inferred and rejected links carry no weight. */
  lemma OnlyConfirmedLinksMatter(
      rids: seq<string>, org: string, mappings: seq<Mapping>, known: set<string>, links: seq<Link>, links': seq<Link>)
    requires ConfirmedOnly(links) == ConfirmedOnly(links')
    ensures Resolve(rids, org, mappings, known, links) == Resolve(rids, org, mappings, known, links')
  {
    forall rid
      ensures Dep(links, org)(rid) == Dep(links', org)(rid) && Linked(links, org)(rid) == Linked(links', org)(rid)
    {
      ConfirmedDecide(links, rid, org);
      ConfirmedDecide(links', rid, org);
    }
    FirstSame(rids, Dep(links, org), Dep(links', org));
    FirstSame(rids, Linked(links, org), Linked(links', org));
  }

  lemma {:induction false} ConfirmedAppend(links: seq<Link>, l: Link)
    ensures ConfirmedOnly(links + [l]) == ConfirmedOnly(links) + (if l.status == Confirmed then [l] else [])
  {
    if links != [] {
      assert (links + [l])[1..] == links[1..] + [l];
      ConfirmedAppend(links[1..], l);
    }
  }

  lemma {:induction false} RejectKeepsConfirmed(links: seq<Link>, id: nat, org: string)
    requires forall l :: l in links && l.id == id && l.org == org ==> l.status != Confirmed
    ensures ConfirmedOnly(SetStatus(links, id, org, Rejected)) == ConfirmedOnly(links)
  {
    if links != [] {
      assert SetStatus(links, id, org, Rejected)[1..] == SetStatus(links[1..], id, org, Rejected);
      assert links[0] in links && forall l :: l in links[1..] ==> l in links;
      RejectKeepsConfirmed(links[1..], id, org);
    }
  }

  // ---- What a newly recorded identity moves ----

  /** What a mapping makes of a resource id that has its prefix. */
  function Image(m: Mapping, rid: string): string
    requires StartsWith(rid, m.0)
  {
    m.1 + rid[|m.0|..]
  }

  /** Some mapping gives the text, and no earlier one gives a recorded identity. */
  ghost predicate MapsFirstTo(rid: string, mappings: seq<Mapping>, known: set<string>, v: string) {
    exists k :: 0 <= k < |mappings| && StartsWith(rid, mappings[k].0) && Image(mappings[k], rid) == v
      && forall j :: 0 <= j < k && StartsWith(rid, mappings[j].0) ==> Image(mappings[j], rid) !in known
  }

  /** The text is a resource id, and no earlier one is a recorded identity. */
  ghost predicate TakesExact(rids: seq<string>, known: set<string>, v: string) {
    exists i :: 0 <= i < |rids| && rids[i] == v && forall j :: 0 <= j < i ==> rids[j] == "" || rids[j] !in known
  }

  /** Some resource maps first to the text, and no earlier one has an answer by namespace. */
  ghost predicate TakesNamespace(rids: seq<string>, mappings: seq<Mapping>, known: set<string>, v: string) {
    exists i :: 0 <= i < |rids| && MapsFirstTo(rids[i], mappings, known, v)
      && forall j :: 0 <= j < i ==> TryNamespace(rids[j], mappings, known) == ""
  }

  predicate IsComposite(rids: seq<string>, v: string) {
    rids != [] && JoinPlus(SortTexts(rids)) == v
  }

  /** The namespace answers left when the empty identity is recorded. */
  ghost function Unblocked(mappings: seq<Mapping>, known: set<string>): string -> string {
    rid => if MapsFirstTo(rid, mappings, known, "") then "" else TryNamespace(rid, mappings, known)
  }

  /** Whether a text, once recorded, moves an answer: by tier and by position. */
  ghost predicate Moves(
      rids: seq<string>, org: string, mappings: seq<Mapping>, known: set<string>, links: seq<Link>, v: string) {
    var tier := Resolve(rids, org, mappings, known, links).1;
    v !in known &&
    if v == "" then tier == Namespace && First(rids, Unblocked(mappings, known)) != First(rids, Mapped(mappings, known))
    else
      || TakesExact(rids, known, v)
      || (Place(tier) >= Place(Namespace) && TakesNamespace(rids, mappings, known, v))
      || (Place(tier) > Place(CompositeKey) && IsComposite(rids, v))
  }

  lemma {:induction false} ExactWith(rids: seq<string>, known: set<string>, v: string)
    requires v !in known && v != ""
    ensures First(rids, Exact(known + {v})) == if TakesExact(rids, known, v) then v else First(rids, Exact(known))
  {
    if rids != [] {
      ExactWith(rids[1..], known, v);
      ExactStep(rids, known, v);
    }
  }

  lemma ExactStep(rids: seq<string>, known: set<string>, v: string)
    requires rids != []
    ensures TakesExact(rids, known, v) <==>
      rids[0] == v || ((rids[0] == "" || rids[0] !in known) && TakesExact(rids[1..], known, v))
  {
    var rest := rids[1..];
    if TakesExact(rest, known, v) && (rids[0] == "" || rids[0] !in known) {
      var i :| 0 <= i < |rest| && rest[i] == v && forall j :: 0 <= j < i ==> rest[j] == "" || rest[j] !in known;
      assert rids[i + 1] == v;
      forall j | 0 <= j < i + 1 ensures rids[j] == "" || rids[j] !in known {
        if j > 0 { assert rids[j] == rest[j - 1]; }
      }
    }
    if TakesExact(rids, known, v) && rids[0] != v {
      var i :| 0 <= i < |rids| && rids[i] == v && forall j :: 0 <= j < i ==> rids[j] == "" || rids[j] !in known;
      assert rest[i - 1] == v;
      forall j | 0 <= j < i - 1 ensures rest[j] == "" || rest[j] !in known { assert rest[j] == rids[j + 1]; }
    }
  }

  lemma MapsStep(rid: string, mappings: seq<Mapping>, known: set<string>, v: string)
    requires mappings != []
    ensures MapsFirstTo(rid, mappings, known, v) <==>
      || (StartsWith(rid, mappings[0].0) && Image(mappings[0], rid) == v)
      || (!(StartsWith(rid, mappings[0].0) && Image(mappings[0], rid) in known)
          && MapsFirstTo(rid, mappings[1..], known, v))
  {
    var rest := mappings[1..];
    if MapsFirstTo(rid, rest, known, v) && (StartsWith(rid, mappings[0].0) ==> Image(mappings[0], rid) !in known) {
      var k :| 0 <= k < |rest| && StartsWith(rid, rest[k].0) && Image(rest[k], rid) == v
        && forall j :: 0 <= j < k && StartsWith(rid, rest[j].0) ==> Image(rest[j], rid) !in known;
      assert mappings[k + 1] == rest[k];
      forall j | 0 <= j < k + 1 && StartsWith(rid, mappings[j].0) ensures Image(mappings[j], rid) !in known {
        if j > 0 { assert mappings[j] == rest[j - 1]; }
      }
    }
    if MapsFirstTo(rid, mappings, known, v) && !(StartsWith(rid, mappings[0].0) && Image(mappings[0], rid) == v) {
      var k :| 0 <= k < |mappings| && StartsWith(rid, mappings[k].0) && Image(mappings[k], rid) == v
        && forall j :: 0 <= j < k && StartsWith(rid, mappings[j].0) ==> Image(mappings[j], rid) !in known;
      assert rest[k - 1] == mappings[k];
      forall j | 0 <= j < k - 1 && StartsWith(rid, rest[j].0) ensures Image(rest[j], rid) !in known {
        assert rest[j] == mappings[j + 1];
      }
    }
  }

  lemma {:induction false} NamespaceWith(rid: string, mappings: seq<Mapping>, known: set<string>, v: string)
    requires v !in known
    ensures TryNamespace(rid, mappings, known + {v})
      == if MapsFirstTo(rid, mappings, known, v) then v else TryNamespace(rid, mappings, known)
  {
    if mappings != [] {
      NamespaceWith(rid, mappings[1..], known, v);
      MapsStep(rid, mappings, known, v);
    }
  }

  lemma NamespaceStep(rids: seq<string>, mappings: seq<Mapping>, known: set<string>, v: string)
    requires rids != []
    ensures TakesNamespace(rids, mappings, known, v) <==>
      || MapsFirstTo(rids[0], mappings, known, v)
      || (TryNamespace(rids[0], mappings, known) == "" && TakesNamespace(rids[1..], mappings, known, v))
  {
    var rest := rids[1..];
    if TakesNamespace(rest, mappings, known, v) && TryNamespace(rids[0], mappings, known) == "" {
      var i :| 0 <= i < |rest| && MapsFirstTo(rest[i], mappings, known, v)
        && forall j :: 0 <= j < i ==> TryNamespace(rest[j], mappings, known) == "";
      assert rids[i + 1] == rest[i];
      forall j | 0 <= j < i + 1 ensures TryNamespace(rids[j], mappings, known) == "" {
        if j > 0 { assert rids[j] == rest[j - 1]; }
      }
    }
    if TakesNamespace(rids, mappings, known, v) && !MapsFirstTo(rids[0], mappings, known, v) {
      var i :| 0 <= i < |rids| && MapsFirstTo(rids[i], mappings, known, v)
        && forall j :: 0 <= j < i ==> TryNamespace(rids[j], mappings, known) == "";
      assert rest[i - 1] == rids[i];
      forall j | 0 <= j < i - 1 ensures TryNamespace(rest[j], mappings, known) == "" { assert rest[j] == rids[j + 1]; }
    }
  }

  lemma {:induction false} MappedWith(rids: seq<string>, mappings: seq<Mapping>, known: set<string>, v: string)
    requires v !in known && v != ""
    ensures First(rids, Mapped(mappings, known + {v}))
      == if TakesNamespace(rids, mappings, known, v) then v else First(rids, Mapped(mappings, known))
  {
    if rids != [] {
      MappedWith(rids[1..], mappings, known, v);
      NamespaceWith(rids[0], mappings, known, v);
      NamespaceStep(rids, mappings, known, v);
    }
  }

  lemma CompositeWith(rids: seq<string>, known: set<string>, v: string)
    requires v !in known && v != ""
    ensures TryComposite(rids, known + {v}) == if IsComposite(rids, v) then v else TryComposite(rids, known)
    ensures IsComposite(rids, v) ==> TryComposite(rids, known) == ""
    ensures TryComposite(rids, known) != "" ==> TryComposite(rids, known) in known
  {
  }

  /** The precedence of the answers of the tiers. */
  function Pick(
      exact: string, dep: string, mapped: string, composite: string, linked: string,
      rids: seq<string>): (string, Tier) {
    if exact != "" then (exact, ExactId)
    else if dep != "" then (dep, DepRelationship)
    else if mapped != "" then (mapped, Namespace)
    else if composite != "" then (composite, CompositeKey)
    else if linked != "" then (linked, LinkAssertion)
    else if rids != [] then (rids[0], InferredId)
    else ("", UnknownId)
  }

  lemma ResolvePicks(rids: seq<string>, org: string, mappings: seq<Mapping>, known: set<string>, links: seq<Link>)
    ensures Resolve(rids, org, mappings, known, links) ==
      Pick(First(rids, Exact(known)), First(rids, Dep(links, org)), First(rids, Mapped(mappings, known)),
           TryComposite(rids, known), First(rids, Linked(links, org)), rids)
  {
  }

  /** A text that takes some of the tiers, and is none of their answers, decides as `Moves` says. */
  lemma PickWith(
      e: string, d: string, m: string, c: string, l: string, rids: seq<string>, v: string, te: bool, tm: bool, tc: bool)
    requires v != "" && v != e && v != m && v != c && (tc ==> c == "")
    ensures var before := Pick(e, d, m, c, l, rids);
      var after := Pick(if te then v else e, d, if tm then v else m, if tc then v else c, l, rids);
      var moves := te || (Place(before.1) >= Place(Namespace) && tm) || (Place(before.1) > Place(CompositeKey) && tc);
      if moves then after.0 == v && after != before else after == before
  {
  }

  lemma ExactKnown(rids: seq<string>, known: set<string>)
    ensures First(rids, Exact(known)) != "" ==> First(rids, Exact(known)) in known
  {
    FirstHits(rids, Exact(known));
  }

  /**
   The answer with one more recorded identity that is not empty: that identity where it takes a place, else as
   before.
   */
  lemma AnswerWith(
      rids: seq<string>, org: string, mappings: seq<Mapping>, known: set<string>, links: seq<Link>, v: string)
    requires v !in known && v != ""
    ensures var before := Resolve(rids, org, mappings, known, links);
      var after := Resolve(rids, org, mappings, known + {v}, links);
      if Moves(rids, org, mappings, known, links, v) then after.0 == v && after != before else after == before
  {
    ExactWith(rids, known, v);
    MappedWith(rids, mappings, known, v);
    CompositeWith(rids, known, v);
    ExactKnown(rids, known);
    MappedNotNew(rids, mappings, known);
    ResolvePicks(rids, org, mappings, known, links);
    ResolvePicks(rids, org, mappings, known + {v}, links);
    PickWith(
      First(rids, Exact(known)), First(rids, Dep(links, org)), First(rids, Mapped(mappings, known)),
      TryComposite(rids, known), First(rids, Linked(links, org)), rids, v,
      TakesExact(rids, known, v), TakesNamespace(rids, mappings, known, v), IsComposite(rids, v));
  }

  lemma UnblockedAnswers(rids: seq<string>, mappings: seq<Mapping>, known: set<string>)
    requires "" !in known
    ensures First(rids, Exact(known + {""})) == First(rids, Exact(known))
    ensures First(rids, Mapped(mappings, known + {""})) == First(rids, Unblocked(mappings, known))
    ensures First(rids, Mapped(mappings, known)) == "" ==> First(rids, Unblocked(mappings, known)) == ""
    ensures TryComposite(rids, known + {""}) == TryComposite(rids, known)
  {
    FirstSame(rids, Exact(known + {""}), Exact(known));
    forall rid ensures Mapped(mappings, known + {""})(rid) == Unblocked(mappings, known)(rid) {
      NamespaceWith(rid, mappings, known, "");
    }
    FirstSame(rids, Mapped(mappings, known + {""}), Unblocked(mappings, known));
    FirstHits(rids, Mapped(mappings, known));
    FirstHits(rids, Unblocked(mappings, known));
  }

  lemma PickUnblocked(e: string, d: string, m: string, c: string, l: string, rids: seq<string>, u: string)
    requires m == "" ==> u == ""
    ensures Pick(e, d, u, c, l, rids) != Pick(e, d, m, c, l, rids) <==>
      Pick(e, d, m, c, l, rids).1 == Namespace && u != m
  {
  }

  /** The answer once the empty identity is recorded. */
  ghost function AfterEmpty(
      rids: seq<string>, org: string, mappings: seq<Mapping>, known: set<string>, links: seq<Link>): (string, Tier) {
    Pick(First(rids, Exact(known)), First(rids, Dep(links, org)), First(rids, Unblocked(mappings, known)),
         TryComposite(rids, known), First(rids, Linked(links, org)), rids)
  }

  lemma EmptyWith(rids: seq<string>, org: string, mappings: seq<Mapping>, known: set<string>, links: seq<Link>)
    requires "" !in known
    ensures Resolve(rids, org, mappings, known + {""}, links) == AfterEmpty(rids, org, mappings, known, links)
    ensures AfterEmpty(rids, org, mappings, known, links) != Resolve(rids, org, mappings, known, links) <==>
      Moves(rids, org, mappings, known, links, "")
  {
    UnblockedAnswers(rids, mappings, known);
    ResolvePicks(rids, org, mappings, known, links);
    ResolvePicks(rids, org, mappings, known + {""}, links);
    PickUnblocked(
      First(rids, Exact(known)), First(rids, Dep(links, org)), First(rids, Mapped(mappings, known)),
      TryComposite(rids, known), First(rids, Linked(links, org)), rids, First(rids, Unblocked(mappings, known)));
  }

  /** A newly recorded identity changes an answer, identity or tier, exactly when it moves it. */
  lemma MovesIff(
      rids: seq<string>, org: string, mappings: seq<Mapping>, known: set<string>, links: seq<Link>, v: string)
    ensures Resolve(rids, org, mappings, known + {v}, links) != Resolve(rids, org, mappings, known, links) <==>
      Moves(rids, org, mappings, known, links, v)
    ensures v != "" ==>
      (Resolve(rids, org, mappings, known + {v}, links).0 != Resolve(rids, org, mappings, known, links).0 <==>
        Moves(rids, org, mappings, known, links, v) && v != Resolve(rids, org, mappings, known, links).0)
  {
    if v in known {
      assert known + {v} == known;
    } else if v == "" {
      EmptyWith(rids, org, mappings, known, links);
    } else {
      AnswerWith(rids, org, mappings, known, links, v);
    }
  }

  // ---- Runs ----

  datatype Op =
    | Suggesting(source: string, target: string, relationship: string, org: string)
    | Confirming(id: nat, org: string)
    | Rejecting(id: nat, org: string)
    | Building(rids: seq<string>, org: string, mappings: seq<Mapping>)

  function Step(s: State, op: Op): State {
    match op
    case Suggesting(source, target, relationship, org) => Suggest(s, source, target, relationship, org)
    case Confirming(id, org) => s.(links := SetStatus(s.links, id, org, Confirmed))
    case Rejecting(id, org) => s.(links := SetStatus(s.links, id, org, Rejected))
    case Building(rids, org, mappings) => Build(s, rids, org, mappings)
  }

  function Exec(s: State, ops: seq<Op>): State
    decreases ops
  {
    if ops == [] then s else Exec(Step(s, ops[0]), ops[1..])
  }

  function Answer(s: State, rids: seq<string>, org: string, mappings: seq<Mapping>): (string, Tier) {
    Resolve(rids, org, mappings, Known(s.records, org), s.links)
  }

  /**
   Nothing is confirmed, no confirmed link is rejected, and the organization builds nothing whose identity moves this
   answer: it may build this record again, and any other record whose identity takes none of the places above.
   */
  ghost predicate Quiet(s: State, op: Op, rids: seq<string>, org: string, mappings: seq<Mapping>) {
    match op
    case Suggesting(_, _, _, _) => true
    case Confirming(_, _) => false
    case Rejecting(id, o) => forall l :: l in s.links && l.id == id && l.org == o ==> l.status != Confirmed
    case Building(rids', o, mappings') =>
      var v := Answer(s, rids', o, mappings').0;
      || o != org || v == Answer(s, rids, org, mappings).0
      || !Moves(rids, org, mappings, Known(s.records, org), s.links, v)
  }

  ghost predicate QuietRun(s: State, ops: seq<Op>, rids: seq<string>, org: string, mappings: seq<Mapping>)
    decreases ops
  {
    ops == [] || (Quiet(s, ops[0], rids, org, mappings) && QuietRun(Step(s, ops[0]), ops[1..], rids, org, mappings))
  }

  lemma {:induction false} NamespaceAdds(rid: string, mappings: seq<Mapping>, known: set<string>, v: string)
    ensures var r := TryNamespace(rid, mappings, known + {v}); r == TryNamespace(rid, mappings, known) || r == v
  {
    if mappings != [] { NamespaceAdds(rid, mappings[1..], known, v); }
  }

  /** An identity made known answers an exact search that failed before with itself or not at all. */
  lemma ExactAfter(rids: seq<string>, known: set<string>, v: string)
    requires First(rids, Exact(known)) == ""
    ensures First(rids, Exact(known + {v})) == "" || First(rids, Exact(known + {v})) == v
  {
    FirstHits(rids, Exact(known));
    FirstHits(rids, Exact(known + {v}));
    if First(rids, Exact(known + {v})) != "" {
      var rid :| rid in rids && Exact(known + {v})(rid) == First(rids, Exact(known + {v}));
      assert Exact(known)(rid) == "";
    }
  }

  lemma MappedAfter(rids: seq<string>, mappings: seq<Mapping>, known: set<string>, v: string)
    requires First(rids, Mapped(mappings, known)) == ""
    ensures First(rids, Mapped(mappings, known + {v})) == "" || First(rids, Mapped(mappings, known + {v})) == v
  {
    FirstHits(rids, Mapped(mappings, known));
    FirstHits(rids, Mapped(mappings, known + {v}));
    if First(rids, Mapped(mappings, known + {v})) != "" {
      var rid :| rid in rids && Mapped(mappings, known + {v})(rid) == First(rids, Mapped(mappings, known + {v}));
      NamespaceAdds(rid, mappings, known, v);
      assert Mapped(mappings, known)(rid) == "";
    }
  }

  /**
   An answer that was not recorded comes from a link or a resource of its own: exact, mapped and composite tiers
   failed.
   */
  lemma NewAnswer(rids: seq<string>, org: string, mappings: seq<Mapping>, known: set<string>, links: seq<Link>)
    requires Resolve(rids, org, mappings, known, links).0 !in known
    ensures First(rids, Exact(known)) == ""
    ensures First(rids, Dep(links, org)) == "" ==>
      First(rids, Mapped(mappings, known)) == "" && TryComposite(rids, known) == ""
  {
    FirstHits(rids, Exact(known));
    MappedNotNew(rids, mappings, known);
  }

  /** Making the answer known does not change the answer, though the tier may move up. */
  lemma AnswerIsStable(rids: seq<string>, org: string, mappings: seq<Mapping>, known: set<string>, links: seq<Link>)
    ensures var v := Resolve(rids, org, mappings, known, links).0;
      Resolve(rids, org, mappings, known + {v}, links).0 == v
  {
    var v := Resolve(rids, org, mappings, known, links).0;
    if v in known {
      assert known + {v} == known;
    } else {
      NewAnswer(rids, org, mappings, known, links);
      ExactAfter(rids, known, v);
      if First(rids, Dep(links, org)) == "" {
        MappedAfter(rids, mappings, known, v);
        assert TryComposite(rids, known + {v}) == "" || TryComposite(rids, known + {v}) == v;
      }
    }
  }

  /** A namespace answer is always a recorded identity. */
  lemma {:induction false} MappedKnown(rid: string, mappings: seq<Mapping>, known: set<string>)
    ensures TryNamespace(rid, mappings, known) != "" ==> TryNamespace(rid, mappings, known) in known
  {
    if mappings != [] { MappedKnown(rid, mappings[1..], known); }
  }

  lemma MappedNotNew(rids: seq<string>, mappings: seq<Mapping>, known: set<string>)
    ensures First(rids, Mapped(mappings, known)) != "" ==> First(rids, Mapped(mappings, known)) in known
  {
    FirstHits(rids, Mapped(mappings, known));
    forall rid ensures TryNamespace(rid, mappings, known) != "" ==> TryNamespace(rid, mappings, known) in known {
      MappedKnown(rid, mappings, known);
    }
  }

  lemma KnownAppend(records: seq<Record>, r: Record, org: string)
    ensures Known(records + [r], org) == Known(records, org) + (if r.org == org then {r.identity} else {})
  {
    var all := records + [r];
    forall v ensures v in Known(all, org) <==> v in Known(records, org) + (if r.org == org then {r.identity} else {}) {
      if v in Known(records, org) {
        var i :| 0 <= i < |records| && records[i].org == org && records[i].identity == v;
        assert all[i] == records[i];
      }
      assert all[|records|] == r;
    }
  }

  /** A quiet step keeps the identity an organization's record resolves to. */
  lemma QuietStepKeeps(s: State, op: Op, rids: seq<string>, org: string, mappings: seq<Mapping>)
    requires Quiet(s, op, rids, org, mappings)
    ensures Answer(Step(s, op), rids, org, mappings).0 == Answer(s, rids, org, mappings).0
    ensures !op.Building? ==> Answer(Step(s, op), rids, org, mappings) == Answer(s, rids, org, mappings)
  {
    var u := Step(s, op);
    match op
    case Suggesting(source, target, relationship, o) =>
      ConfirmedAppend(s.links, Link(s.next, o, source, target, relationship, Inferred));
      assert ConfirmedOnly(u.links) == ConfirmedOnly(s.links);
      OnlyConfirmedLinksMatter(rids, org, mappings, Known(s.records, org), s.links, u.links);
    case Rejecting(id, o) =>
      RejectKeepsConfirmed(s.links, id, o);
      OnlyConfirmedLinksMatter(rids, org, mappings, Known(s.records, org), s.links, u.links);
    case Building(rids', o, mappings') =>
      var (identity, tier) := Resolve(rids', o, mappings', Known(s.records, o), s.links);
      KnownAppend(s.records, Record(s.next, o, identity, tier), org);
      if o == org && identity == Answer(s, rids, org, mappings).0 {
        AnswerIsStable(rids, org, mappings, Known(s.records, org), s.links);
      } else if o == org {
        MovesIff(rids, org, mappings, Known(s.records, org), s.links, identity);
      } else {
        assert Known(u.records, org) == Known(s.records, org);
      }
  }

  /**
   Rebuilding a record any number of times, among suggestions, rejections of unconfirmed links, the work of other
   organizations and builds that do not move it, always gives the identity of the first build.
   */
  lemma {:induction false} RebuildsAgree(s: State, ops: seq<Op>, rids: seq<string>, org: string, mappings: seq<Mapping>)
    requires QuietRun(s, ops, rids, org, mappings)
    ensures Answer(Exec(s, ops), rids, org, mappings).0 == Answer(s, rids, org, mappings).0
    decreases ops
  {
    if ops != [] {
      QuietStepKeeps(s, ops[0], rids, org, mappings);
      RebuildsAgree(Step(s, ops[0]), ops[1..], rids, org, mappings);
    }
  }

  /** Suggesting links and rejecting unconfirmed ones changes neither the identity nor the tier. */
  lemma {:induction false} UnconfirmedLinksCarryNoWeight(
      s: State, ops: seq<Op>, rids: seq<string>, org: string, mappings: seq<Mapping>)
    requires QuietRun(s, ops, rids, org, mappings) && forall op :: op in ops ==> !op.Building?
    ensures Answer(Exec(s, ops), rids, org, mappings) == Answer(s, rids, org, mappings)
    decreases ops
  {
    if ops != [] {
      assert ops[0] in ops && forall op :: op in ops[1..] ==> op in ops;
      QuietStepKeeps(s, ops[0], rids, org, mappings);
      UnconfirmedLinksCarryNoWeight(Step(s, ops[0]), ops[1..], rids, org, mappings);
    }
  }

  /** Whether recording a text gives an answer another identity. */
  ghost predicate MovesIdentity(
      rids: seq<string>, org: string, mappings: seq<Mapping>, known: set<string>, links: seq<Link>, v: string) {
    var identity := Resolve(rids, org, mappings, known, links).0;
    if v != "" then v != identity && Moves(rids, org, mappings, known, links, v)
    else v !in known && AfterEmpty(rids, org, mappings, known, links).0 != identity
  }

  /** A build of the organization changes the identity of a record exactly when what it writes moves it. */
  lemma BuildMovesIff(
      s: State, rids': seq<string>, mappings': seq<Mapping>, rids: seq<string>, org: string, mappings: seq<Mapping>)
    ensures Answer(Build(s, rids', org, mappings'), rids, org, mappings).0 != Answer(s, rids, org, mappings).0 <==>
      MovesIdentity(rids, org, mappings, Known(s.records, org), s.links, Answer(s, rids', org, mappings').0)
  {
    var (v, tier) := Answer(s, rids', org, mappings');
    var known := Known(s.records, org);
    KnownAppend(s.records, Record(s.next, org, v, tier), org);
    MovesIff(rids, org, mappings, known, s.links, v);
    if v == "" {
      if v in known { assert known + {v} == known; } else { EmptyWith(rids, org, mappings, known, s.links); }
    }
  }

  /** Any text that is no resource id, no composite key and no image of a resource moves nothing. */
  lemma ForeignNeverMoves(
      rids: seq<string>, org: string, mappings: seq<Mapping>, known: set<string>, links: seq<Link>, v: string)
    requires v !in rids && v != "" && !IsComposite(rids, v)
    requires forall rid, m :: rid in rids && m in mappings && StartsWith(rid, m.0) ==> Image(m, rid) != v
    ensures !Moves(rids, org, mappings, known, links, v)
  {
  }

  function TwoLinks(): seq<Link> {
    [Link(0, "o", "a", "t", "same_decision", Confirmed), Link(1, "o", "x", "a", "same_decision", Confirmed)]
  }

  /**
   Building another record of the organization can move an identity: here from a linked resource to the resource
   itself.
   */
  lemma OtherBuildsCanMoveIt()
    ensures var s := State(TwoLinks(), [], 2);
      && Answer(s, ["a"], "o", []) == ("t", DepRelationship)
      && Answer(Build(s, ["x"], "o", []), ["a"], "o", []) == ("a", ExactId)
  {
    var links := TwoLinks();
    var s := State(links, [], 2);
    assert links[1..] == [links[1]] && links[1..][1..] == [];
    assert Touching(links[1..], "x", "o") == [links[1]] + [] && Touching(links, "x", "o") == [] + [links[1]];
    assert Touching(links, "a", "o") == [links[0]] + Touching(links[1..], "a", "o");
    assert Dep(links, "o")("a") == "t" && Dep(links, "o")("x") == "a";
    assert Answer(s, ["x"], "o", []) == ("a", DepRelationship);
    KnownAppend([], Record(2, "o", "a", DepRelationship), "o");
    assert [] + [Record(2, "o", "a", DepRelationship)] == Build(s, ["x"], "o", []).records;
    assert "a" in Known(Build(s, ["x"], "o", []).records, "o");
  }

  lemma ExecOne(s: State, op: Op)
    ensures Exec(s, [op]) == Step(s, op)
  {
    assert Exec(s, [op]) == Exec(Step(s, op), [op][1..]);
  }

  /** The store after one build in an empty store. */
  function Built(): State {
    State([], [Record(0, "", "b", InferredId)], 1)
  }

  lemma FirstBuild()
    ensures Exec(State([], [], 0), [Building(["b"], "", [])]) == Built() && Known(Built().records, "") == {"b"}
  {
    var start := State([], [], 0);
    ExecOne(start, Building(["b"], "", []));
    KnownAppend([], Record(0, "", "b", InferredId), "");
    assert [] + [Record(0, "", "b", InferredId)] == Built().records && Known([], "") == {};
    WithoutLinks("b", [], {});
  }

  /** Building from no resources records the empty identity. */
  lemma EmptyBuild(s: State)
    ensures var u := Exec(s, [Building([], "", [])]);
      u.links == s.links && Known(u.records, "") == Known(s.records, "") + {""}
  {
    ExecOne(s, Building([], "", []));
    KnownAppend(s.records, Record(s.next, "", "", UnknownId), "");
  }

  /** A run that demotes: an identity is recorded, and then an empty one, by building from no resources. */
  lemma EmptyIdentityDemotes()
    ensures var mappings := [("ab", ""), ("a", "")];
      var s := Exec(State([], [], 0), [Building(["b"], "", [])]);
      && Answer(s, ["ab"], "", mappings) == ("b", Namespace)
      && Answer(Exec(s, [Building([], "", [])]), ["ab"], "", mappings) == ("ab", InferredId)
  {
    FirstBuild();
    EmptyBuild(Built());
    assert "a" + "b" == "ab" && |"ab"| != |"b"|;
    DemotedByEmpty("a", "b", {"b"});
  }

  // ---- Building again and again ----

  /** Building one record over and over is a quiet run. */
  lemma {:induction false} RebuildingIsQuiet(
      s: State, ops: seq<Op>, rids: seq<string>, org: string, mappings: seq<Mapping>)
    requires forall op :: op in ops ==> op == Building(rids, org, mappings)
    ensures QuietRun(s, ops, rids, org, mappings)
    ensures Answer(Exec(s, ops), rids, org, mappings).0 == Answer(s, rids, org, mappings).0
    decreases ops
  {
    if ops != [] {
      assert ops[0] in ops && forall op :: op in ops[1..] ==> op in ops;
      RebuildingIsQuiet(Step(s, ops[0]), ops[1..], rids, org, mappings);
      QuietStepKeeps(s, ops[0], rids, org, mappings);
    }
  }

  /** A list of resources and the mappings to build it with. */
  type Case = (seq<string>, seq<Mapping>)

  function Identify(s: State, org: string, c: Case): (string, Tier) {
    Answer(s, c.0, org, c.1)
  }

  /** Build every case of a family once, in order. */
  function Pass(s: State, org: string, family: seq<Case>): State
    decreases family
  {
    if family == [] then s else Pass(Build(s, family[0].0, org, family[0].1), org, family[1..])
  }

  function Passes(s: State, org: string, family: seq<Case>, n: nat): State {
    if n == 0 then s else Pass(Passes(s, org, family, n - 1), org, family)
  }

  /** Every answer of the family is a recorded identity. */
  ghost predicate Settled(s: State, org: string, family: seq<Case>) {
    forall i :: 0 <= i < |family| ==> Identify(s, org, family[i]).0 in Known(s.records, org)
  }

  lemma BuildRecords(s: State, org: string, c: Case)
    ensures var u := Build(s, c.0, org, c.1);
      u.links == s.links && Known(u.records, org) == Known(s.records, org) + {Identify(s, org, c).0}
  {
    var (v, tier) := Identify(s, org, c);
    KnownAppend(s.records, Record(s.next, org, v, tier), org);
  }

  lemma {:induction false} SettledPass(s: State, org: string, family: seq<Case>)
    requires Settled(s, org, family)
    ensures var u := Pass(s, org, family); u.links == s.links && Known(u.records, org) == Known(s.records, org)
    decreases family
  {
    if family != [] {
      BuildRecords(s, org, family[0]);
      var u := Build(s, family[0].0, org, family[0].1);
      assert Known(u.records, org) == Known(s.records, org);
      assert forall i :: 0 <= i < |family| - 1 ==> family[1..][i] == family[i + 1];
      SettledPass(u, org, family[1..]);
    }
  }

  /** A pass only records, and while some answer is new it records something new. */
  lemma {:induction false} PassRecords(s: State, org: string, family: seq<Case>)
    ensures var u := Pass(s, org, family);
      && u.links == s.links && Known(s.records, org) <= Known(u.records, org)
      && (!Settled(s, org, family) ==> Known(s.records, org) < Known(u.records, org))
    decreases family
  {
    if family != [] {
      BuildRecords(s, org, family[0]);
      var u := Build(s, family[0].0, org, family[0].1);
      PassRecords(u, org, family[1..]);
      assert forall i :: 0 <= i < |family| - 1 ==> family[1..][i] == family[i + 1];
      if Identify(s, org, family[0]).0 in Known(s.records, org) {
        assert Known(u.records, org) == Known(s.records, org);
        assert Settled(u, org, family[1..]) ==> Settled(s, org, family);
      } else {
        assert Identify(s, org, family[0]).0 in Known(u.records, org);
      }
    }
  }

  /** The texts an answer can be: resource ids, ends of links, recorded identities, or nothing. */
  function Answerable(family: seq<Case>, links: seq<Link>): set<string> {
    {""} + (set i | 0 <= i < |links| :: links[i].source) + (set i | 0 <= i < |links| :: links[i].target)
    + (set i, j | 0 <= i < |family| && 0 <= j < |family[i].0| :: family[i].0[j])
  }

  lemma {:induction false} TouchingIn(links: seq<Link>, rid: string, org: string)
    ensures forall l :: l in Touching(links, rid, org) ==> l in links
  {
    if links != [] { TouchingIn(links[1..], rid, org); }
  }

  lemma {:induction false} LinkEnds(links: seq<Link>, rid: string)
    ensures var dep, linked := TryDepRelationship(links, rid), TryConfirmedLink(links, rid);
      && (dep != "" ==> exists l :: l in links && (dep == l.source || dep == l.target))
      && (linked != "" ==> exists l :: l in links && (linked == l.source || linked == l.target))
  {
    if links != [] {
      LinkEnds(links[1..], rid);
      assert links[0] in links && forall l :: l in links[1..] ==> l in links;
    }
  }

  lemma EndIn(family: seq<Case>, links: seq<Link>, v: string)
    requires exists l :: l in links && (v == l.source || v == l.target)
    ensures v in Answerable(family, links)
  {
    var l :| l in links && (v == l.source || v == l.target);
    var i :| 0 <= i < |links| && links[i] == l;
  }

  lemma FoundEnds(family: seq<Case>, rids: seq<string>, org: string, links: seq<Link>)
    ensures First(rids, Dep(links, org)) in Answerable(family, links)
    ensures First(rids, Linked(links, org)) in Answerable(family, links)
  {
    FirstHits(rids, Dep(links, org));
    FirstHits(rids, Linked(links, org));
    var d, l := First(rids, Dep(links, org)), First(rids, Linked(links, org));
    if d != "" {
      var rid :| rid in rids && Dep(links, org)(rid) == d;
      TouchingIn(links, rid, org);
      LinkEnds(Touching(links, rid, org), rid);
      EndIn(family, links, d);
    }
    if l != "" {
      var rid :| rid in rids && Linked(links, org)(rid) == l;
      TouchingIn(links, rid, org);
      LinkEnds(Touching(links, rid, org), rid);
      EndIn(family, links, l);
    }
  }

  lemma AnswerIsText(s: State, org: string, family: seq<Case>, i: nat)
    requires i < |family|
    ensures Identify(s, org, family[i]).0 in Answerable(family, s.links) + Known(s.records, org)
  {
    var (rids, mappings) := family[i];
    var known := Known(s.records, org);
    ExactKnown(rids, known);
    MappedNotNew(rids, mappings, known);
    FoundEnds(family, rids, org, s.links);
    ResolvePicks(rids, org, mappings, known, s.links);
    assert rids != [] ==> rids[0] == family[i].0[0] && rids[0] in Answerable(family, s.links);
  }

  lemma {:induction false} PassWithin(s: State, org: string, all: seq<Case>, family: seq<Case>, bound: set<string>)
    requires Answerable(all, s.links) + Known(s.records, org) <= bound && forall c :: c in family ==> c in all
    ensures Known(Pass(s, org, family).records, org) <= bound
    decreases family
  {
    if family != [] {
      BuildRecords(s, org, family[0]);
      assert family[0] in family && forall c :: c in family[1..] ==> c in family;
      var k :| 0 <= k < |all| && all[k] == family[0];
      AnswerIsText(s, org, all, k);
      PassWithin(Build(s, family[0].0, org, family[0].1), org, all, family[1..], bound);
    }
  }

  lemma {:induction false} PassesFirst(s: State, org: string, family: seq<Case>, n: nat)
    ensures Passes(s, org, family, n + 1) == Passes(Pass(s, org, family), org, family, n)
  {
    if n > 0 { PassesFirst(s, org, family, n - 1); }
  }

  /** After a settled state further passes change no answer, identity or tier. */
  lemma {:induction false} SettledForever(s: State, org: string, family: seq<Case>, m: nat)
    requires Settled(s, org, family)
    ensures var u := Passes(s, org, family, m);
      u.links == s.links && Known(u.records, org) == Known(s.records, org) && Settled(u, org, family)
  {
    if m > 0 {
      SettledForever(s, org, family, m - 1);
      SettledPass(Passes(s, org, family, m - 1), org, family);
    }
  }

  /** Whatever is asked, two states of the store answer alike. */
  ghost predicate SameAnswers(t: State, u: State, org: string) {
    forall c: Case :: Identify(u, org, c) == Identify(t, org, c)
  }

  /** However often the family is built from here on, no answer changes. */
  ghost predicate Still(s: State, org: string, family: seq<Case>) {
    forall m: nat :: SameAnswers(s, Passes(s, org, family, m), org)
  }

  lemma SameKnownSameAnswer(s: State, u: State, org: string, c: Case)
    requires u.links == s.links && Known(u.records, org) == Known(s.records, org)
    ensures Identify(u, org, c) == Identify(s, org, c)
  {
  }

  lemma SettledIsStill(s: State, org: string, family: seq<Case>)
    requires Settled(s, org, family)
    ensures Still(s, org, family)
  {
    forall m: nat ensures SameAnswers(s, Passes(s, org, family, m), org) {
      var u := Passes(s, org, family, m);
      SettledForever(s, org, family, m);
      forall c: Case ensures Identify(u, org, c) == Identify(s, org, c) { SameKnownSameAnswer(s, u, org, c); }
    }
  }

  lemma {:induction false} SettlesWithin(s: State, org: string, family: seq<Case>, bound: set<string>) returns (n: nat)
    requires Answerable(family, s.links) + Known(s.records, org) <= bound
    ensures n <= |bound - Known(s.records, org)| && Settled(Passes(s, org, family, n), org, family)
    decreases |bound - Known(s.records, org)|
  {
    n := 0;
    if !Settled(s, org, family) {
      var u := Pass(s, org, family);
      PassRecords(s, org, family);
      PassWithin(s, org, family, family, bound);
      Shrinks(bound, Known(s.records, org), Known(u.records, org));
      n := SettlesWithin(u, org, family, bound);
      PassesFirst(s, org, family, n);
      n := n + 1;
    }
  }

  lemma Shrinks(bound: set<string>, before: set<string>, after: set<string>)
    requires before < after <= bound
    ensures |bound - after| < |bound - before|
  {
    var v :| v in after && v !in before;
    assert bound - after <= (bound - before) - {v};
    Smaller(bound - after, (bound - before) - {v});
  }

  lemma Smaller(a: set<string>, b: set<string>)
    requires a <= b
    ensures |a| <= |b|
  {
    assert b == a + (b - a);
  }

  /**
   Building a family of records over and over settles: after at most as many passes as there are resource ids and
   ends of links not yet recorded, and one for the empty identity, no answer changes any more.
   */
  lemma FamiliesSettle(s: State, org: string, family: seq<Case>)
    ensures exists n: nat ::
      && n <= |Answerable(family, s.links) - Known(s.records, org)|
      && Still(Passes(s, org, family, n), org, family)
  {
    var known := Known(s.records, org);
    var n := SettlesWithin(s, org, family, Answerable(family, s.links) + known);
    assert Answerable(family, s.links) + known - known == Answerable(family, s.links) - known;
    SettledIsStill(Passes(s, org, family, n), org, family);
  }
}
