/**
 Context resolution: which bindings applied at decision time, which superseded which, and where equal
 authorities disagree. Times are integers; an absent bound is no bound.
 */
module Context {
  import opened Texts
  import opened Wrappers

  datatype Binding = Binding(
    id: string, org: string, scope: string, selector: string, kind: string, artifact: string,
    from: Option<int>, until: Option<int>, authority: string, supersededBy: string)

  datatype Conflict = Conflict(recordId: string, key: string, a: Binding, b: Binding)

  datatype Trace = Trace(
    recordId: string, included: seq<string>, excluded: seq<string>, superseded: seq<string>,
    missing: seq<string>, redacted: seq<string>)

  /** What resolution reads besides the candidates: the stored bindings and the stored payloads. */
  datatype World = World(bindings: seq<Binding>, payloads: set<string>)

  function Rank(authority: string): nat {
    if authority == "customer_confirmed" then 4
    else if authority == "provider_declared" then 3
    else if authority == "dep_relationship" then 2
    else if authority == "inferred" then 1
    else 0
  }

  function Stored(bindings: seq<Binding>, id: string): Option<Binding> {
    if bindings == [] then None else if bindings[0].id == id then Some(bindings[0]) else Stored(bindings[1..], id)
  }

  lemma {:induction false} StoredIn(bindings: seq<Binding>, id: string)
    ensures Stored(bindings, id).Some? ==> Stored(bindings, id).value in bindings && Stored(bindings, id).value.id == id
    ensures Stored(bindings, id).None? <==> forall b :: b in bindings ==> b.id != id
  {
    if bindings != [] {
      StoredIn(bindings[1..], id);
      assert forall b :: b in bindings <==> b == bindings[0] || b in bindings[1..];
    }
  }

  const DEP := "dep://"

  /** `_artifact_available`: only `dep://` references are looked up. */
  predicate Available(artifact: string, payloads: set<string>) {
    artifact != "" && (DEP <= artifact ==> artifact in payloads)
  }

  // ---- Candidates ----

  function ForScope(bs: seq<Binding>, org: string, scope: string, selector: string): seq<Binding> {
    if bs == [] then []
    else
      (if bs[0].org == org && bs[0].scope == scope && bs[0].selector == selector then [bs[0]] else [])
      + ForScope(bs[1..], org, scope, selector)
  }

  function ForOrg(bs: seq<Binding>, org: string, scope: string): seq<Binding> {
    if bs == [] then []
    else
      (if bs[0].org == org && (bs[0].scope == scope || bs[0].scope == "") then [bs[0]] else [])
      + ForOrg(bs[1..], org, scope)
  }

  /** An exact scope and selector match, else everything of the organization in this scope or in none. */
  function Candidates(bs: seq<Binding>, org: string, scope: string, selector: string): seq<Binding> {
    var exact := ForScope(bs, org, scope, selector);
    if exact != [] then exact else ForOrg(bs, org, scope)
  }

  // ---- The fate of a candidate ----

  datatype Fate = Direct | SupersededBy(superseder: Binding) | TooEarly | TooLate | Redacted | Missing

  function Superseder(b: Binding, w: World, time: int): Option<Binding> {
    if b.supersededBy == "" then None
    else match Stored(w.bindings, b.supersededBy)
      case Some(s) => if s.from.Some? && s.from.value <= time then Some(s) else None
      case None => None
  }

  function FateOf(b: Binding, w: World, time: int): Fate {
    if b.from.Some? && time < b.from.value then TooEarly
    else if b.until.Some? && b.until.value <= time then TooLate
    else if Superseder(b, w, time).Some? then SupersededBy(Superseder(b, w, time).value)
    else if b.kind == "redacted" then Redacted
    else if b.artifact != "" && !Available(b.artifact, w.payloads) then Missing
    else Direct
  }

  datatype Collection = Directs | Supersededs | Excludeds | Missings | Redacteds

  /** Whether a candidate of this fate belongs to a collection. */
  predicate Belongs(f: Fate, c: Collection) {
    match c
    case Directs => f.Direct?
    case Supersededs => f.SupersededBy?
    case Excludeds => f.TooEarly? || f.TooLate? || f.Redacted? || f.Missing?
    case Missings => f.Missing?
    case Redacteds => f.Redacted?
  }

  /** What a candidate adds to the included bindings: itself, its superseder, or nothing. */
  function Contribution(b: Binding, w: World, time: int): seq<Binding> {
    match FateOf(b, w, time)
    case Direct => [b]
    case SupersededBy(s) => [s]
    case _ => []
  }

  function IncludedOf(cs: seq<Binding>, w: World, time: int): seq<Binding> {
    if cs == [] then [] else IncludedOf(cs[..|cs| - 1], w, time) + Contribution(cs[|cs| - 1], w, time)
  }

  /** The candidates of a collection, in order. */
  function Selected(cs: seq<Binding>, w: World, time: int, c: Collection): seq<Binding> {
    if cs == [] then []
    else
      var last := cs[|cs| - 1];
      Selected(cs[..|cs| - 1], w, time, c) + (if Belongs(FateOf(last, w, time), c) then [last] else [])
  }

  lemma OneMore(cs: seq<Binding>, i: nat, w: World, time: int)
    requires i < |cs|
    ensures IncludedOf(cs[..i + 1], w, time) == IncludedOf(cs[..i], w, time) + Contribution(cs[i], w, time)
    ensures forall c ::
      Selected(cs[..i + 1], w, time, c) ==
        Selected(cs[..i], w, time, c) + (if Belongs(FateOf(cs[i], w, time), c) then [cs[i]] else [])
  {
    assert cs[..i + 1][..i] == cs[..i] && cs[..i + 1][i] == cs[i];
  }

  function Ids(bs: seq<Binding>): (r: seq<string>)
    ensures |r| == |bs|
  {
    seq(|bs|, i requires 0 <= i < |bs| => bs[i].id)
  }

  function Artifacts(bs: seq<Binding>): seq<string> {
    seq(|bs|, i requires 0 <= i < |bs| => bs[i].artifact)
  }

  // ---- Groups ----

  function Key(b: Binding): string {
    b.scope + ":" + b.kind
  }

  function GroupOf(bs: seq<Binding>, key: string): seq<Binding> {
    if bs == [] then [] else GroupOf(bs[..|bs| - 1], key) + (if Key(bs[|bs| - 1]) == key then [bs[|bs| - 1]] else [])
  }

  /** The distinct keys in order of first appearance. */
  function KeysOf(bs: seq<Binding>): seq<string> {
    if bs == [] then []
    else
      var keys, key := KeysOf(bs[..|bs| - 1]), Key(bs[|bs| - 1]);
      if key in keys then keys else keys + [key]
  }

  function InsertDescending(b: Binding, bs: seq<Binding>): (r: seq<Binding>)
    ensures |r| == |bs| + 1
  {
    if bs == [] || Rank(bs[0].authority) <= Rank(b.authority) then [b] + bs else [bs[0]] + InsertDescending(b, bs[1..])
  }

  /** The stable sort by descending authority. */
  function SortDescending(bs: seq<Binding>): (r: seq<Binding>)
    ensures |r| == |bs|
  {
    if bs == [] then [] else InsertDescending(bs[0], SortDescending(bs[1..]))
  }

  function OfRank(bs: seq<Binding>, rank: nat): seq<Binding> {
    if bs == [] then []
    else (if Rank(bs[0].authority) == rank then [bs[0]] else []) + OfRank(bs[1..], rank)
  }

  datatype Verdict = Settled(top: Binding) | Disagreement(a: Binding, b: Binding)

  /** The body of the group loop. */
  function Decide(group: seq<Binding>): Verdict
    requires group != []
  {
    var sorted := SortDescending(group);
    var top := sorted[0];
    var ties := OfRank(sorted, Rank(top.authority));
    if |ties| > 1 && top.authority != "customer_confirmed" then Disagreement(ties[0], ties[1]) else Settled(top)
  }

  function FinalFor(bs: seq<Binding>, keys: seq<string>): seq<Binding>
    requires forall k :: k in keys ==> GroupOf(bs, k) != []
  {
    if keys == [] then []
    else
      var last := keys[|keys| - 1];
      FinalFor(bs, keys[..|keys| - 1])
      + (match Decide(GroupOf(bs, last)) case Settled(top) => [top] case Disagreement(_, _) => [])
  }

  function ConflictsFor(bs: seq<Binding>, keys: seq<string>, recordId: string): seq<Conflict>
    requires forall k :: k in keys ==> GroupOf(bs, k) != []
  {
    if keys == [] then []
    else
      var last := keys[|keys| - 1];
      ConflictsFor(bs, keys[..|keys| - 1], recordId)
      + (match Decide(GroupOf(bs, last))
         case Settled(_) => []
         case Disagreement(a, b) => [Conflict(recordId, last, a, b)])
  }

  lemma {:induction false} KeysHaveGroups(bs: seq<Binding>)
    ensures forall k :: k in KeysOf(bs) <==> GroupOf(bs, k) != []
    ensures forall i, j :: 0 <= i < j < |KeysOf(bs)| ==> KeysOf(bs)[i] != KeysOf(bs)[j]
  {
    if bs != [] { KeysHaveGroups(bs[..|bs| - 1]); }
  }

  function Final(bs: seq<Binding>): seq<Binding> {
    KeysHaveGroups(bs);
    FinalFor(bs, KeysOf(bs))
  }

  function Conflicts(bs: seq<Binding>, recordId: string): seq<Conflict> {
    KeysHaveGroups(bs);
    ConflictsFor(bs, KeysOf(bs), recordId)
  }

  function TraceOf(cs: seq<Binding>, w: World, time: int, recordId: string): Trace {
    Trace(
      recordId, Ids(Final(IncludedOf(cs, w, time))), Ids(Selected(cs, w, time, Excludeds)),
      Ids(Selected(cs, w, time, Supersededs)), Artifacts(Selected(cs, w, time, Missings)),
      Artifacts(Selected(cs, w, time, Redacteds)))
  }

  // ---- The resolver as the code runs it ----

  class TemporalContextResolver {
    var bindings: seq<Binding>
    var payloads: set<string>
    var conflicts: seq<Conflict>
    var traces: seq<Trace>

    constructor (bindings: seq<Binding>, payloads: set<string>)
      ensures this.bindings == bindings && this.payloads == payloads && conflicts == [] && traces == []
    {
      this.bindings, this.payloads, conflicts, traces := bindings, payloads, [], [];
    }

    /** The tests of the first loop. */
    method Inspect(cb: Binding, time: int) returns (fate: Fate)
      ensures fate == FateOf(cb, World(bindings, payloads), time)
      ensures fate.TooEarly? || fate.TooLate? <==> !InWindow(cb, time)
      ensures fate.SupersededBy? ==> fate.superseder in bindings && fate.superseder.id == cb.supersededBy
      ensures fate.Direct? ==> cb.artifact == "" || Available(cb.artifact, payloads)
    {
      if cb.from.Some? && time < cb.from.value {
        return TooEarly;
      }
      if cb.until.Some? && time >= cb.until.value {
        return TooLate;
      }
      if cb.supersededBy != "" {
        var superseder := Stored(bindings, cb.supersededBy);
        StoredIn(bindings, cb.supersededBy);
        if superseder.Some? && superseder.value.from.Some? && time >= superseder.value.from.value {
          return SupersededBy(superseder.value);
        }
      }
      if cb.kind == "redacted" {
        return Redacted;
      }
      if cb.artifact != "" && !Available(cb.artifact, payloads) {
        return Missing;
      }
      return Direct;
    }

    /** The first loop: sort the candidates into the collections. */
    method Classify(cs: seq<Binding>, time: int)
      returns (included: seq<Binding>, excluded: seq<Binding>, superseded: seq<Binding>, missing: seq<Binding>,
        redacted: seq<Binding>)
      ensures var w := World(bindings, payloads);
        && included == IncludedOf(cs, w, time) && excluded == Selected(cs, w, time, Excludeds)
        && superseded == Selected(cs, w, time, Supersededs) && missing == Selected(cs, w, time, Missings)
        && redacted == Selected(cs, w, time, Redacteds)
    {
      included, excluded, superseded, missing, redacted := [], [], [], [], [];
      ghost var w := World(bindings, payloads);
      for i := 0 to |cs|
        invariant included == IncludedOf(cs[..i], w, time)
        invariant excluded == Selected(cs[..i], w, time, Excludeds)
        invariant superseded == Selected(cs[..i], w, time, Supersededs)
        invariant missing == Selected(cs[..i], w, time, Missings)
        invariant redacted == Selected(cs[..i], w, time, Redacteds)
      {
        var cb := cs[i];
        var fate := Inspect(cb, time);
        OneMore(cs, i, w, time);
        match fate {
          case TooEarly => excluded := excluded + [cb];
          case TooLate => excluded := excluded + [cb];
          case SupersededBy(superseder) =>
            included := included + [superseder];
            superseded := superseded + [cb];
          case Redacted =>
            redacted := redacted + [cb];
            excluded := excluded + [cb];
          case Missing =>
            missing := missing + [cb];
            excluded := excluded + [cb];
          case Direct => included := included + [cb];
        }
      }
      assert cs[..|cs|] == cs;
    }

    /** The second loop: group by scope and kind. */
    method Group(included: seq<Binding>) returns (keys: seq<string>, grouped: map<string, seq<Binding>>)
      ensures keys == KeysOf(included)
      ensures forall k :: k in keys ==> k in grouped && grouped[k] == GroupOf(included, k)
    {
      keys, grouped := [], map[];
      for i := 0 to |included|
        invariant keys == KeysOf(included[..i])
        invariant forall k :: k in keys <==> k in grouped
        invariant forall k :: k in keys ==> grouped[k] == GroupOf(included[..i], k)
      {
        var cb := included[i];
        var key := Key(cb);
        assert included[..i + 1][..i] == included[..i];
        KeysHaveGroups(included[..i]);
        if key !in grouped {
          keys := keys + [key];
          grouped := grouped[key := [cb]];
        } else {
          grouped := grouped[key := grouped[key] + [cb]];
        }
      }
      assert included[..|included|] == included;
    }

    /** The third loop: settle each group or record its conflict. */
    method Settle(included: seq<Binding>, keys: seq<string>, grouped: map<string, seq<Binding>>, recordId: string)
      returns (final: seq<Binding>)
      requires forall k :: k in keys ==> k in grouped && grouped[k] == GroupOf(included, k) && grouped[k] != []
      modifies this`conflicts
      ensures final == FinalFor(included, keys)
      ensures conflicts == old(conflicts) + ConflictsFor(included, keys, recordId)
    {
      final := [];
      for i := 0 to |keys|
        invariant final == FinalFor(included, keys[..i])
        invariant conflicts == old(conflicts) + ConflictsFor(included, keys[..i], recordId)
      {
        assert keys[..i + 1][..i] == keys[..i];
        var group := SortDescending(grouped[keys[i]]);
        var top := group[0];
        var ties := OfRank(group, Rank(top.authority));
        if |ties| > 1 && top.authority != "customer_confirmed" {
          conflicts := conflicts + [Conflict(recordId, keys[i], ties[0], ties[1])];
        } else {
          final := final + [top];
        }
      }
      assert keys[..|keys|] == keys;
    }

    method Resolve(recordId: string, org: string, scope: string, selector: string, time: int) returns (trace: Trace)
      modifies this
      ensures bindings == old(bindings) && payloads == old(payloads)
      ensures trace == TraceOf(Candidates(bindings, org, scope, selector), World(bindings, payloads), time, recordId)
      ensures traces == old(traces) + [trace]
      ensures conflicts == old(conflicts)
        + Conflicts(IncludedOf(Candidates(bindings, org, scope, selector), World(bindings, payloads), time), recordId)
    {
      var cs := Candidates(bindings, org, scope, selector);
      var included, excluded, superseded, missing, redacted := Classify(cs, time);
      var keys, grouped := Group(included);
      KeysHaveGroups(included);
      var final := Settle(included, keys, grouped, recordId);
      trace := Trace(recordId, Ids(final), Ids(excluded), Ids(superseded), Artifacts(missing), Artifacts(redacted));
      traces := traces + [trace];
    }
  }

  // ---- Nothing is lost ----

  /** Every candidate is directly included, superseded or excluded, and each adds one binding or one exclusion. */
  lemma {:induction false} EveryCandidateCounted(cs: seq<Binding>, w: World, time: int)
    ensures |cs| ==
      |Selected(cs, w, time, Directs)| + |Selected(cs, w, time, Supersededs)| + |Selected(cs, w, time, Excludeds)|
    ensures |IncludedOf(cs, w, time)| + |Selected(cs, w, time, Excludeds)| == |cs|
  {
    if cs != [] { EveryCandidateCounted(cs[..|cs| - 1], w, time); }
  }

  ghost predicate InWindow(b: Binding, time: int) {
    (b.from.Some? ==> b.from.value <= time) && (b.until.Some? ==> time < b.until.value)
  }

  /** Where an included binding comes from: itself, within its window, or as the superseder of a candidate in force. */
  lemma {:induction false} IncludedOrigin(cs: seq<Binding>, w: World, time: int, b: Binding)
    ensures b in IncludedOf(cs, w, time) <==>
      exists c :: c in cs && InWindow(c, time) &&
        ((c == b && FateOf(c, w, time).Direct?) || FateOf(c, w, time) == SupersededBy(b))
  {
    if cs != [] {
      var init, last := cs[..|cs| - 1], cs[|cs| - 1];
      IncludedOrigin(init, w, time, b);
      assert cs == init + [last];
      assert b in Contribution(last, w, time) <==>
        (last == b && FateOf(last, w, time).Direct?) || FateOf(last, w, time) == SupersededBy(b);
      assert b in IncludedOf(cs, w, time) <==> b in IncludedOf(init, w, time) || b in Contribution(last, w, time);
    }
  }

  lemma {:induction false} OnePerKey(bs: seq<Binding>, keys: seq<string>, recordId: string)
    requires forall k :: k in keys ==> GroupOf(bs, k) != []
    ensures |FinalFor(bs, keys)| + |ConflictsFor(bs, keys, recordId)| == |keys|
  {
    if keys != [] { OnePerKey(bs, keys[..|keys| - 1], recordId); }
  }

  /** Every key gets a binding or raises a conflict, never both and never neither. */
  lemma FinalPlusConflicts(bs: seq<Binding>, recordId: string)
    ensures |Final(bs)| + |Conflicts(bs, recordId)| == |KeysOf(bs)|
  {
    KeysHaveGroups(bs);
    OnePerKey(bs, KeysOf(bs), recordId);
  }

  // ---- Authority ----

  lemma {:induction false} InsertKeeps(b: Binding, bs: seq<Binding>)
    ensures multiset(InsertDescending(b, bs)) == multiset(bs) + multiset{b}
  {
    if bs != [] {
      InsertKeeps(b, bs[1..]);
      assert bs == [bs[0]] + bs[1..];
    }
  }

  lemma {:induction false} InsertSorts(b: Binding, bs: seq<Binding>)
    requires Descending(bs)
    ensures Descending(InsertDescending(b, bs))
  {
    if bs != [] && !(Rank(bs[0].authority) <= Rank(b.authority)) {
      InsertSorts(b, bs[1..]);
      InsertKeeps(b, bs[1..]);
      var rest := InsertDescending(b, bs[1..]);
      forall j | 0 <= j < |rest| ensures Rank(rest[j].authority) <= Rank(bs[0].authority) {
        assert rest[j] in multiset(rest);
        if rest[j] != b {
          assert rest[j] in bs[1..];
          var k :| 0 <= k < |bs[1..]| && bs[1..][k] == rest[j];
          assert bs[k + 1] == rest[j];
        }
      }
    }
  }

  ghost predicate Descending(bs: seq<Binding>) {
    forall i, j :: 0 <= i < j < |bs| ==> Rank(bs[j].authority) <= Rank(bs[i].authority)
  }

  lemma {:induction false} SortSorts(bs: seq<Binding>)
    ensures Descending(SortDescending(bs)) && multiset(SortDescending(bs)) == multiset(bs)
  {
    if bs != [] {
      SortSorts(bs[1..]);
      InsertSorts(bs[0], SortDescending(bs[1..]));
      InsertKeeps(bs[0], SortDescending(bs[1..]));
      assert bs == [bs[0]] + bs[1..];
    }
  }

  ghost predicate IsTopRank(bs: seq<Binding>, rank: nat) {
    (exists b :: b in bs && Rank(b.authority) == rank) && forall b :: b in bs ==> Rank(b.authority) <= rank
  }

  lemma {:induction false} OfRankCount(bs: seq<Binding>, rank: nat)
    ensures forall b :: multiset(OfRank(bs, rank))[b] == if Rank(b.authority) == rank then multiset(bs)[b] else 0
  {
    if bs != [] {
      OfRankCount(bs[1..], rank);
      assert bs == [bs[0]] + bs[1..];
    }
  }

  lemma {:induction false} OfRankMembers(bs: seq<Binding>, rank: nat)
    ensures forall b :: b in OfRank(bs, rank) <==> b in bs && Rank(b.authority) == rank
  {
    if bs != [] { OfRankMembers(bs[1..], rank); }
  }

  lemma OfRankSize(bs: seq<Binding>, cs: seq<Binding>, rank: nat)
    requires multiset(bs) == multiset(cs)
    ensures |OfRank(bs, rank)| == |OfRank(cs, rank)|
  {
    OfRankCount(bs, rank);
    OfRankCount(cs, rank);
    assert multiset(OfRank(bs, rank)) == multiset(OfRank(cs, rank));
    assert |multiset(OfRank(bs, rank))| == |OfRank(bs, rank)| && |multiset(OfRank(cs, rank))| == |OfRank(cs, rank)|;
  }

  lemma SortedTop(group: seq<Binding>)
    requires group != []
    ensures SortDescending(group)[0] in group && IsTopRank(group, Rank(SortDescending(group)[0].authority))
  {
    SortSorts(group);
    var sorted := SortDescending(group);
    assert sorted[0] in multiset(sorted);
    forall b | b in group ensures Rank(b.authority) <= Rank(sorted[0].authority) {
      assert b in multiset(sorted);
      var k :| 0 <= k < |sorted| && sorted[k] == b;
    }
  }

  /** Sorting keeps the members of the highest rank, and the first of the sorted list has it. */
  lemma SortedTies(group: seq<Binding>, rank: nat)
    requires group != [] && IsTopRank(group, rank)
    ensures var sorted := SortDescending(group);
      && sorted[0] in group && Rank(sorted[0].authority) == rank
      && |OfRank(sorted, rank)| == |OfRank(group, rank)|
      && forall b :: b in OfRank(sorted, rank) ==> b in OfRank(group, rank)
  {
    SortSorts(group);
    SortedTop(group);
    var sorted := SortDescending(group);
    OfRankSize(sorted, group, rank);
    OfRankMembers(sorted, rank);
    OfRankMembers(group, rank);
    forall b | b in OfRank(sorted, rank) ensures b in OfRank(group, rank) {
      assert b in multiset(sorted);
      assert b in multiset(group);
    }
  }

  /**
   A group is settled by a member of highest rank, or disagrees through two of them; it disagrees exactly when
   the highest rank occurs twice and is not the customer's own.
   */
  lemma DecideByAuthority(group: seq<Binding>, rank: nat)
    requires group != [] && IsTopRank(group, rank)
    ensures Decide(group).Settled? ==> Decide(group).top in group && Rank(Decide(group).top.authority) == rank
    ensures Decide(group).Disagreement? <==> |OfRank(group, rank)| > 1 && rank != 4
    ensures Decide(group).Disagreement? ==>
      Decide(group).a in OfRank(group, rank) && Decide(group).b in OfRank(group, rank)
  {
    SortedTies(group, rank);
    var ties := OfRank(SortDescending(group), rank);
    if |ties| > 1 {
      assert ties[0] in ties && ties[1] in ties;
    }
  }

  // ---- How often a binding is included ----

  /** A candidate adds this binding: it is direct, or superseded by it. */
  predicate Contributes(c: Binding, w: World, time: int, b: Binding) {
    match FateOf(c, w, time)
    case Direct => c == b
    case SupersededBy(s) => s == b
    case _ => false
  }

  ghost predicate IncludedTwice(cs: seq<Binding>, w: World, time: int, b: Binding) {
    exists i, j :: 0 <= i < j < |cs| && Contributes(cs[i], w, time, b) && Contributes(cs[j], w, time, b)
  }

  ghost predicate IncludedOnce(cs: seq<Binding>, w: World, time: int, b: Binding) {
    exists i :: 0 <= i < |cs| && Contributes(cs[i], w, time, b)
  }

  lemma OneMoreOnce(cs: seq<Binding>, w: World, time: int, b: Binding)
    requires cs != []
    ensures IncludedOnce(cs, w, time, b) <==>
      IncludedOnce(cs[..|cs| - 1], w, time, b) || Contributes(cs[|cs| - 1], w, time, b)
  {
    var init := cs[..|cs| - 1];
    if IncludedOnce(init, w, time, b) {
      var i :| 0 <= i < |init| && Contributes(init[i], w, time, b);
      assert cs[i] == init[i];
    }
    if IncludedOnce(cs, w, time, b) && !Contributes(cs[|cs| - 1], w, time, b) {
      var i :| 0 <= i < |cs| && Contributes(cs[i], w, time, b);
      assert cs[i] == init[i];
    }
  }

  lemma TwiceStays(cs: seq<Binding>, w: World, time: int, b: Binding)
    requires cs != []
    requires var init := cs[..|cs| - 1];
      IncludedTwice(init, w, time, b) || (IncludedOnce(init, w, time, b) && Contributes(cs[|cs| - 1], w, time, b))
    ensures IncludedTwice(cs, w, time, b)
  {
    var init, last := cs[..|cs| - 1], |cs| - 1;
    var i, j;
    if IncludedTwice(init, w, time, b) {
      i, j :| 0 <= i < j < |init| && Contributes(init[i], w, time, b) && Contributes(init[j], w, time, b);
      assert cs[j] == init[j];
    } else {
      i :| 0 <= i < |init| && Contributes(init[i], w, time, b);
      j := last;
    }
    assert cs[i] == init[i];
  }

  lemma TwiceBefore(cs: seq<Binding>, w: World, time: int, b: Binding)
    requires cs != [] && IncludedTwice(cs, w, time, b)
    ensures var init := cs[..|cs| - 1];
      IncludedTwice(init, w, time, b) || (IncludedOnce(init, w, time, b) && Contributes(cs[|cs| - 1], w, time, b))
  {
    var init := cs[..|cs| - 1];
    var i, j :| 0 <= i < j < |cs| && Contributes(cs[i], w, time, b) && Contributes(cs[j], w, time, b);
    assert cs[i] == init[i];
    if j < |init| { assert cs[j] == init[j]; }
  }

  lemma OneMoreTwice(cs: seq<Binding>, w: World, time: int, b: Binding)
    requires cs != []
    ensures var init := cs[..|cs| - 1];
      IncludedTwice(cs, w, time, b) <==>
        IncludedTwice(init, w, time, b) || (IncludedOnce(init, w, time, b) && Contributes(cs[|cs| - 1], w, time, b))
  {
    var init, last := cs[..|cs| - 1], cs[|cs| - 1];
    if IncludedTwice(cs, w, time, b) {
      TwiceBefore(cs, w, time, b);
    } else if IncludedTwice(init, w, time, b) || (IncludedOnce(init, w, time, b) && Contributes(last, w, time, b)) {
      TwiceStays(cs, w, time, b);
    }
  }

  /** A binding is included once for every candidate that adds it. */
  lemma {:induction false} IncludedTwiceIff(cs: seq<Binding>, w: World, time: int, b: Binding)
    ensures multiset(IncludedOf(cs, w, time))[b] > 0 <==> IncludedOnce(cs, w, time, b)
    ensures multiset(IncludedOf(cs, w, time))[b] > 1 <==> IncludedTwice(cs, w, time, b)
  {
    if cs != [] {
      var init, last := cs[..|cs| - 1], cs[|cs| - 1];
      IncludedTwiceIff(init, w, time, b);
      OneMoreOnce(cs, w, time, b);
      OneMoreTwice(cs, w, time, b);
      assert multiset(IncludedOf(cs, w, time)) ==
        multiset(IncludedOf(init, w, time)) + multiset(Contribution(last, w, time));
      assert multiset(Contribution(last, w, time))[b] == if Contributes(last, w, time, b) then 1 else 0;
    }
  }

  /**
   Among different candidates a binding is included twice exactly when it is a direct candidate that also supersedes
   one, or supersedes two.
   */
  lemma TwiceThroughSupersession(cs: seq<Binding>, w: World, time: int, b: Binding)
    requires Different(cs)
    ensures IncludedTwice(cs, w, time, b) <==>
      || (b in cs && FateOf(b, w, time).Direct? && exists c :: c in cs && FateOf(c, w, time) == SupersededBy(b))
      || (exists c, d :: c in cs && d in cs && c != d && FateOf(c, w, time) == SupersededBy(b) == FateOf(d, w, time))
  {
    if IncludedTwice(cs, w, time, b) {
      var i, j :| 0 <= i < j < |cs| && Contributes(cs[i], w, time, b) && Contributes(cs[j], w, time, b);
      assert cs[i] != cs[j] && cs[i] in cs && cs[j] in cs;
    }
    if b in cs && FateOf(b, w, time).Direct? && exists c :: c in cs && FateOf(c, w, time) == SupersededBy(b) {
      var c :| c in cs && FateOf(c, w, time) == SupersededBy(b);
      TwoPlaces(cs, w, time, b, b, c);
    }
    if exists c, d :: c in cs && d in cs && c != d && FateOf(c, w, time) == SupersededBy(b) == FateOf(d, w, time) {
      var c, d :| c in cs && d in cs && c != d && FateOf(c, w, time) == SupersededBy(b) == FateOf(d, w, time);
      TwoPlaces(cs, w, time, b, c, d);
    }
  }

  lemma TwoPlaces(cs: seq<Binding>, w: World, time: int, b: Binding, c: Binding, d: Binding)
    requires c in cs && d in cs && c != d && Contributes(c, w, time, b) && Contributes(d, w, time, b)
    ensures IncludedTwice(cs, w, time, b)
  {
    var i :| 0 <= i < |cs| && cs[i] == c;
    var j :| 0 <= j < |cs| && cs[j] == d;
    if i < j {
      assert Contributes(cs[i], w, time, b) && Contributes(cs[j], w, time, b);
    } else {
      assert Contributes(cs[j], w, time, b) && Contributes(cs[i], w, time, b);
    }
  }

  lemma {:induction false} FiltersKeep(bs: seq<Binding>, org: string, scope: string, selector: string)
    requires forall i, j :: 0 <= i < j < |bs| ==> bs[i].id != bs[j].id
    ensures forall b :: b in ForScope(bs, org, scope, selector) ==> b in bs
    ensures forall b :: b in ForOrg(bs, org, scope) ==> b in bs
    ensures Different(ForScope(bs, org, scope, selector)) && Different(ForOrg(bs, org, scope))
  {
    if bs != [] {
      assert forall i :: 0 < i < |bs| ==> bs[i] == bs[1..][i - 1];
      FiltersKeep(bs[1..], org, scope, selector);
      assert bs[0] !in bs[1..];
    }
  }

  ghost predicate Different(bs: seq<Binding>) {
    forall i, j :: 0 <= i < j < |bs| ==> bs[i] != bs[j]
  }

  /** Candidates from a store with unique ids are different, so twice means by supersession. */
  lemma CandidatesTwice(bs: seq<Binding>, org: string, scope: string, selector: string, w: World, time: int, b: Binding)
    requires forall i, j :: 0 <= i < j < |bs| ==> bs[i].id != bs[j].id
    ensures var cs := Candidates(bs, org, scope, selector);
      IncludedTwice(cs, w, time, b) <==>
        || (b in cs && FateOf(b, w, time).Direct? && exists c :: c in cs && FateOf(c, w, time) == SupersededBy(b))
        || (exists c, d :: c in cs && d in cs && c != d && FateOf(c, w, time) == SupersededBy(b) == FateOf(d, w, time))
  {
    FiltersKeep(bs, org, scope, selector);
    TwiceThroughSupersession(Candidates(bs, org, scope, selector), w, time, b);
  }

  // ---- Conflicts and the rule of the design ----

  /** Of highest authority in a group. */
  ghost predicate IsTop(group: seq<Binding>, b: Binding) {
    b in group && forall c :: c in group ==> Rank(c.authority) <= Rank(b.authority)
  }

  /** The rule of the design: two different bindings of equal, highest authority disagree. */
  ghost predicate Disagree(group: seq<Binding>) {
    exists a, b :: IsTop(group, a) && IsTop(group, b) && a != b
  }

  /** A top binding that occurs more than once. */
  ghost predicate TopTwice(group: seq<Binding>, b: Binding) {
    IsTop(group, b) && multiset(group)[b] > 1
  }

  ghost predicate Differ(bs: seq<Binding>) {
    exists a, b :: a in bs && b in bs && a != b
  }

  ghost predicate Repeat(bs: seq<Binding>) {
    exists b :: multiset(bs)[b] > 1
  }

  lemma MoreThanOne(bs: seq<Binding>)
    ensures |bs| > 1 <==> Differ(bs) || Repeat(bs)
  {
    assert |multiset(bs)| == |bs|;
    if |bs| > 1 && bs[0] == bs[1] {
      assert bs == [bs[0], bs[1]] + bs[2..];
      assert multiset(bs)[bs[0]] > 1;
    } else if |bs| > 1 {
      assert bs[0] in bs && bs[1] in bs;
    }
    if |bs| == 1 { assert bs == [bs[0]]; }
  }

  lemma TopsAre(group: seq<Binding>, rank: nat)
    requires IsTopRank(group, rank)
    ensures forall b :: b in OfRank(group, rank) <==> IsTop(group, b)
    ensures forall b :: IsTop(group, b) ==>
      Rank(b.authority) == rank && multiset(OfRank(group, rank))[b] == multiset(group)[b]
  {
    OfRankCount(group, rank);
    forall b ensures b in OfRank(group, rank) <==> IsTop(group, b) {
      assert b in OfRank(group, rank) <==> b in multiset(OfRank(group, rank));
      assert b in group <==> b in multiset(group);
    }
  }

  lemma DifferIff(group: seq<Binding>, ties: seq<Binding>)
    requires forall b :: b in ties <==> IsTop(group, b)
    ensures Differ(ties) <==> Disagree(group)
  {
    if Differ(ties) {
      var a, b :| a in ties && b in ties && a != b;
      assert IsTop(group, a) && IsTop(group, b);
    }
    if Disagree(group) {
      var a, b :| IsTop(group, a) && IsTop(group, b) && a != b;
      assert a in ties && b in ties;
    }
  }

  lemma RepeatIff(group: seq<Binding>, ties: seq<Binding>)
    requires forall b :: b in ties <==> IsTop(group, b)
    requires forall b :: IsTop(group, b) ==> multiset(ties)[b] == multiset(group)[b]
    ensures Repeat(ties) <==> exists b :: TopTwice(group, b)
  {
    if Repeat(ties) {
      var b :| multiset(ties)[b] > 1;
      assert b in ties;
      assert TopTwice(group, b);
    }
    if exists b :: TopTwice(group, b) {
      var b :| TopTwice(group, b);
      assert multiset(ties)[b] > 1;
    }
  }

  lemma TwoTops(group: seq<Binding>, rank: nat)
    requires IsTopRank(group, rank)
    ensures |OfRank(group, rank)| > 1 <==> Disagree(group) || exists b :: TopTwice(group, b)
  {
    TopsAre(group, rank);
    MoreThanOne(OfRank(group, rank));
    DifferIff(group, OfRank(group, rank));
    RepeatIff(group, OfRank(group, rank));
  }

  /**
   A group raises a conflict when two of its bindings tie at the top, different ones or one twice, below the
   customer's.
   */
  lemma DisagreementIff(group: seq<Binding>, top: Binding)
    requires IsTop(group, top)
    ensures Decide(group).Disagreement? <==>
      top.authority != "customer_confirmed" && (Disagree(group) || exists b :: TopTwice(group, b))
  {
    DecideByAuthority(group, Rank(top.authority));
    TwoTops(group, Rank(top.authority));
  }

  lemma SomeTop(group: seq<Binding>) returns (top: Binding)
    requires group != []
    ensures IsTop(group, top)
  {
    SortedTop(group);
    top := SortDescending(group)[0];
  }

  ghost function GroupIn(cs: seq<Binding>, w: World, time: int, key: string): seq<Binding> {
    GroupOf(IncludedOf(cs, w, time), key)
  }

  /** Two different bindings confirmed by the customer tie under a key. */
  ghost predicate CustomerTie(group: seq<Binding>) {
    exists a, b :: IsTop(group, a) && IsTop(group, b) && a != b && a.authority == "customer_confirmed"
  }

  /** A binding below the customer's authority is alone at the top of its key, and included twice. */
  ghost predicate LoneTwice(cs: seq<Binding>, w: World, time: int, b: Binding) {
    && b.authority != "customer_confirmed" && IncludedTwice(cs, w, time, b)
    && IsTop(GroupIn(cs, w, time, Key(b)), b) && !Disagree(GroupIn(cs, w, time, Key(b)))
  }

  ghost predicate FollowsDesign(cs: seq<Binding>, w: World, time: int) {
    forall key :: RaisesConflict(cs, w, time, key) <==> Disagree(GroupIn(cs, w, time, key))
  }

  lemma GroupTimes(cs: seq<Binding>, w: World, time: int, b: Binding)
    ensures multiset(GroupIn(cs, w, time, Key(b)))[b] > 1 <==> IncludedTwice(cs, w, time, b)
    ensures forall key :: b in GroupIn(cs, w, time, key) ==> Key(b) == key
  {
    IncludedTwiceIff(cs, w, time, b);
    forall key ensures b in GroupIn(cs, w, time, key) ==> Key(b) == key {
      GroupCount(IncludedOf(cs, w, time), key);
      assert b in GroupIn(cs, w, time, key) <==> b in multiset(GroupIn(cs, w, time, key));
    }
    GroupCount(IncludedOf(cs, w, time), Key(b));
  }

  lemma SameAuthorityAtTop(group: seq<Binding>, a: Binding, b: Binding)
    requires IsTop(group, a) && IsTop(group, b)
    ensures a.authority == "customer_confirmed" <==> b.authority == "customer_confirmed"
  {
    assert a in group && b in group;
  }

  lemma TwiceInGroup(cs: seq<Binding>, w: World, time: int, key: string)
    ensures forall b :: TopTwice(GroupIn(cs, w, time, key), b) <==>
      IsTop(GroupIn(cs, w, time, key), b) && Key(b) == key && IncludedTwice(cs, w, time, b)
  {
    forall b ensures TopTwice(GroupIn(cs, w, time, key), b) <==>
      IsTop(GroupIn(cs, w, time, key), b) && Key(b) == key && IncludedTwice(cs, w, time, b)
    {
      GroupTimes(cs, w, time, b);
    }
  }

  lemma LoneIff(cs: seq<Binding>, w: World, time: int, key: string, top: Binding)
    requires IsTop(GroupIn(cs, w, time, key), top)
    ensures var g := GroupIn(cs, w, time, key);
      (exists b :: Key(b) == key && LoneTwice(cs, w, time, b)) <==>
        top.authority != "customer_confirmed" && !Disagree(g) && exists b :: TopTwice(g, b)
  {
    var g := GroupIn(cs, w, time, key);
    TwiceInGroup(cs, w, time, key);
    forall b | IsTop(g, b) ensures top.authority == "customer_confirmed" <==> b.authority == "customer_confirmed" {
      SameAuthorityAtTop(g, top, b);
    }
    if exists b :: Key(b) == key && LoneTwice(cs, w, time, b) {
      var b :| Key(b) == key && LoneTwice(cs, w, time, b);
      assert TopTwice(g, b);
    }
    if top.authority != "customer_confirmed" && !Disagree(g) && exists b :: TopTwice(g, b) {
      var b :| TopTwice(g, b);
      assert Key(b) == key && LoneTwice(cs, w, time, b);
    }
  }

  lemma TieIff(group: seq<Binding>, top: Binding)
    requires IsTop(group, top)
    ensures CustomerTie(group) <==> top.authority == "customer_confirmed" && Disagree(group)
  {
    if CustomerTie(group) {
      var a, b :| IsTop(group, a) && IsTop(group, b) && a != b && a.authority == "customer_confirmed";
      SameAuthorityAtTop(group, top, a);
    }
    if top.authority == "customer_confirmed" && Disagree(group) {
      var a, b :| IsTop(group, a) && IsTop(group, b) && a != b;
      SameAuthorityAtTop(group, top, a);
    }
  }

  /** One key follows the design unless customers tie under it, or a lone top of it is included twice. */
  lemma KeyFollowsIff(cs: seq<Binding>, w: World, time: int, key: string)
    ensures (RaisesConflict(cs, w, time, key) <==> Disagree(GroupIn(cs, w, time, key))) <==>
      && !CustomerTie(GroupIn(cs, w, time, key))
      && !(exists b :: Key(b) == key && LoneTwice(cs, w, time, b))
  {
    var g := GroupIn(cs, w, time, key);
    if g != [] {
      var top := SomeTop(g);
      DisagreementIff(g, top);
      TieIff(g, top);
      LoneIff(cs, w, time, key, top);
    } else {
      forall b | Key(b) == key ensures !LoneTwice(cs, w, time, b) { assert !IsTop(g, b); }
    }
  }

  /**
   Conflicts are raised exactly for the keys whose different bindings tie at the top, if and only if no two different
   bindings confirmed by the customer tie, and no binding below that is alone at the top of its key and included twice.
   */
  lemma FollowsDesignIff(cs: seq<Binding>, w: World, time: int)
    ensures FollowsDesign(cs, w, time) <==>
      && (forall key :: !CustomerTie(GroupIn(cs, w, time, key)))
      && (forall b :: !LoneTwice(cs, w, time, b))
  {
    forall key ensures
      (RaisesConflict(cs, w, time, key) <==> Disagree(GroupIn(cs, w, time, key))) <==>
        !CustomerTie(GroupIn(cs, w, time, key)) && !(exists b :: Key(b) == key && LoneTwice(cs, w, time, b))
    {
      KeyFollowsIff(cs, w, time, key);
    }
    if FollowsDesign(cs, w, time) {
      forall b ensures !LoneTwice(cs, w, time, b) {
        assert RaisesConflict(cs, w, time, Key(b)) <==> Disagree(GroupIn(cs, w, time, Key(b)));
      }
    }
  }

  /**
   A candidate below the customer's authority that is directly included, supersedes another candidate and is top of its
   key loses the key: a conflict is raised and no binding of the key is among the final ones.
   */
  lemma SupersederConflictsWithItself(cs: seq<Binding>, w: World, time: int, older: Binding, fresher: Binding)
    requires older in cs && fresher in cs
    requires FateOf(older, w, time) == SupersededBy(fresher) && FateOf(fresher, w, time).Direct?
    requires fresher.authority != "customer_confirmed" && IsTop(GroupIn(cs, w, time, Key(fresher)), fresher)
    ensures RaisesConflict(cs, w, time, Key(fresher))
    ensures forall b :: b in Final(IncludedOf(cs, w, time)) ==> Key(b) != Key(fresher)
  {
    var bs, g := IncludedOf(cs, w, time), GroupIn(cs, w, time, Key(fresher));
    TwoPlaces(cs, w, time, fresher, older, fresher);
    GroupTimes(cs, w, time, fresher);
    assert TopTwice(g, fresher);
    assert g != [] by { assert fresher in g; }
    DisagreementIff(g, fresher);
    KeysHaveGroups(bs);
    FinalAt(bs, KeysOf(bs));
  }

  /**
   Two bindings are grouped together exactly when scope and kind agree, or one scope continues the other's into its
   kind.
   */
  lemma KeysMeetIff(b: Binding, c: Binding)
    ensures Key(b) == Key(c) <==> Meets(b.scope, b.kind, c.scope, c.kind, ":")
  {
    JoinIff(b.scope, b.kind, c.scope, c.kind, ":");
  }

  /** So bindings of different scopes can conflict: when they meet and tie at the top below the customer's authority. */
  lemma UnrelatedBindingsConflict(cs: seq<Binding>, w: World, time: int, b: Binding, c: Binding)
    requires b.scope != c.scope && Meets(b.scope, b.kind, c.scope, c.kind, ":") && b.authority != "customer_confirmed"
    requires IsTop(GroupIn(cs, w, time, Key(b)), b) && IsTop(GroupIn(cs, w, time, Key(c)), c)
    ensures RaisesConflict(cs, w, time, Key(b))
    ensures forall x :: x in Final(IncludedOf(cs, w, time)) ==> Key(x) != Key(b)
  {
    KeysMeetIff(b, c);
    var g := GroupIn(cs, w, time, Key(b));
    assert IsTop(g, b) && IsTop(g, c) && g != [];
    DisagreementIff(g, b);
    KeysHaveGroups(IncludedOf(cs, w, time));
    FinalAt(IncludedOf(cs, w, time), KeysOf(IncludedOf(cs, w, time)));
  }

  lemma GroupTwice(b: Binding)
    ensures GroupOf([b, b], Key(b)) == [b, b] && KeysOf([b, b]) == [Key(b)]
  {
    assert [b, b][..1] == [b] && [b][..0] == [];
    assert GroupOf([b], Key(b)) == GroupOf([], Key(b)) + [b];
    assert KeysOf([b]) == KeysOf([]) + [Key(b)];
  }

  lemma DecideTwice(b: Binding)
    requires b.authority != "customer_confirmed"
    ensures Decide([b, b]) == Disagreement(b, b)
  {
    var rank := Rank(b.authority);
    assert [b, b][1..] == [b] && [b][1..] == [];
    assert SortDescending([b]) == [b] && SortDescending([b, b]) == [b, b];
    assert OfRank([b], rank) == [b] + OfRank([], rank) && OfRank([b, b], rank) == [b] + [b];
  }

  /** Included twice below the customer's own authority, a binding conflicts with itself and is dropped. */
  lemma ConflictsWithItself(b: Binding, recordId: string)
    requires b.authority != "customer_confirmed"
    ensures Final([b, b]) == [] && Conflicts([b, b], recordId) == [Conflict(recordId, Key(b), b, b)]
  {
    GroupTwice(b);
    DecideTwice(b);
    KeysHaveGroups([b, b]);
    var k := Key(b);
    assert [k][..0] == [];
    assert FinalFor([b, b], [k]) == FinalFor([b, b], []) + [];
    assert ConflictsFor([b, b], [k], recordId) == ConflictsFor([b, b], [], recordId) + [Conflict(recordId, k, b, b)];
  }

  lemma BothCandidates(older: Binding, fresher: Binding, org: string, scope: string, selector: string)
    requires older.org == fresher.org == org && older.scope == fresher.scope == scope
    requires older.selector == fresher.selector == selector
    ensures Candidates([older, fresher], org, scope, selector) == [older, fresher]
  {
    assert [older, fresher][1..] == [fresher] && [fresher][1..] == [];
    assert ForScope([fresher], org, scope, selector) == [fresher];
  }

  /**
   A store of just a binding and its superseder of the same scope and selector: when the superseder is in force and
   usable, nothing is settled and it conflicts with itself.
   */
  lemma NothingIsSettled(
      older: Binding, fresher: Binding, payloads: set<string>, org: string, scope: string, selector: string, time: int,
      recordId: string)
    requires older.org == fresher.org == org && older.scope == fresher.scope == scope
    requires older.selector == fresher.selector == selector && older.id != fresher.id
    requires older.supersededBy == fresher.id != "" && InWindow(older, time) && fresher.from.Some?
    requires FateOf(fresher, World([older, fresher], payloads), time).Direct?
    requires fresher.authority != "customer_confirmed"
    ensures var w := World([older, fresher], payloads);
      var cs := Candidates(w.bindings, org, scope, selector);
      && TraceOf(cs, w, time, recordId).included == []
      && Conflicts(IncludedOf(cs, w, time), recordId) == [Conflict(recordId, Key(fresher), fresher, fresher)]
  {
    var w := World([older, fresher], payloads);
    BothCandidates(older, fresher, org, scope, selector);
    BothIncluded(older, fresher, w, time);
    ConflictsWithItself(fresher, recordId);
    NoIds(Final(IncludedOf([older, fresher], w, time)));
  }

  lemma NoIds(bs: seq<Binding>)
    ensures bs == [] ==> Ids(bs) == []
  {
  }

  lemma BothIncluded(older: Binding, fresher: Binding, w: World, time: int)
    requires w.bindings == [older, fresher] && older.id != fresher.id
    requires older.supersededBy == fresher.id != "" && InWindow(older, time) && fresher.from.Some?
    requires FateOf(fresher, w, time).Direct?
    ensures IncludedOf([older, fresher], w, time) == [fresher, fresher]
  {
    assert [older, fresher][1..] == [fresher] && Stored([fresher], fresher.id) == Some(fresher);
    assert FateOf(older, w, time) == SupersededBy(fresher);
    assert [older, fresher][..1] == [older] && [older][..0] == [];
    assert IncludedOf([older], w, time) == IncludedOf([], w, time) + [fresher];
    assert IncludedOf([older, fresher], w, time) == [fresher] + [fresher];
  }

  // ---- Order does not matter to what is settled ----

  lemma {:induction false} IncludedAppend(xs: seq<Binding>, ys: seq<Binding>, w: World, time: int)
    ensures IncludedOf(xs + ys, w, time) == IncludedOf(xs, w, time) + IncludedOf(ys, w, time)
  {
    if ys == [] {
      assert xs + ys == xs;
    } else {
      assert (xs + ys)[..|xs + ys| - 1] == xs + ys[..|ys| - 1];
      IncludedAppend(xs, ys[..|ys| - 1], w, time);
    }
  }

  /** Taking one candidate out takes its contribution out, wherever it stood. */
  lemma IncludedWithout(x: seq<Binding>, b: Binding, y: seq<Binding>, w: World, time: int)
    ensures multiset(IncludedOf(x + [b] + y, w, time)) ==
      multiset(IncludedOf(x + y, w, time)) + multiset(Contribution(b, w, time))
  {
    IncludedAppend(x, y, w, time);
    IncludedAppend(x + [b], y, w, time);
    assert (x + [b])[..|x|] == x;
  }

  lemma SplitAt(bs: seq<Binding>, k: nat)
    requires k < |bs|
    ensures bs == bs[..k] + [bs[k]] + bs[k + 1..]
  {
  }

  lemma Without(x: seq<Binding>, b: Binding, y: seq<Binding>, init: seq<Binding>)
    requires multiset(init + [b]) == multiset(x + [b] + y)
    ensures multiset(init) == multiset(x + y)
  {
    assert multiset(init) == multiset(init + [b]) - multiset{b};
    assert multiset(x + y) == multiset(x + [b] + y) - multiset{b};
  }

  lemma {:induction false} IncludedPermutes(cs: seq<Binding>, ds: seq<Binding>, w: World, time: int)
    requires multiset(cs) == multiset(ds)
    ensures multiset(IncludedOf(cs, w, time)) == multiset(IncludedOf(ds, w, time))
  {
    assert |multiset(cs)| == |cs| && |multiset(ds)| == |ds|;
    if cs != [] {
      var init, last := cs[..|cs| - 1], cs[|cs| - 1];
      assert cs == init + [last];
      assert last in multiset(cs);
      assert last in multiset(ds);
      var k :| 0 <= k < |ds| && ds[k] == last;
      var x, y := ds[..k], ds[k + 1..];
      SplitAt(ds, k);
      Without(x, last, y, init);
      IncludedPermutes(init, x + y, w, time);
      IncludedWithout(x, last, y, w, time);
      IncludedWithout(init, last, [], w, time);
      assert init + [last] + [] == cs && init + [] == init;
    }
  }

  lemma {:induction false} GroupCount(bs: seq<Binding>, key: string)
    ensures forall b :: multiset(GroupOf(bs, key))[b] == if Key(b) == key then multiset(bs)[b] else 0
  {
    if bs != [] {
      GroupCount(bs[..|bs| - 1], key);
      assert bs == bs[..|bs| - 1] + [bs[|bs| - 1]];
    }
  }

  lemma GroupPermutes(bs: seq<Binding>, cs: seq<Binding>, key: string)
    requires multiset(bs) == multiset(cs)
    ensures multiset(GroupOf(bs, key)) == multiset(GroupOf(cs, key))
  {
    GroupCount(bs, key);
    GroupCount(cs, key);
  }

  lemma DecidePermutes(g: seq<Binding>, h: seq<Binding>)
    requires g != [] && h != [] && multiset(g) == multiset(h)
    ensures Decide(g).Disagreement? == Decide(h).Disagreement?
  {
    SortedTop(g);
    var rank := Rank(SortDescending(g)[0].authority);
    assert forall b :: b in g <==> b in multiset(g);
    assert forall b :: b in h <==> b in multiset(h);
    assert IsTopRank(h, rank);
    DecideByAuthority(g, rank);
    DecideByAuthority(h, rank);
    OfRankSize(g, h, rank);
  }

  ghost predicate GetsBinding(cs: seq<Binding>, w: World, time: int, key: string) {
    var g := GroupOf(IncludedOf(cs, w, time), key);
    g != [] && Decide(g).Settled?
  }

  ghost predicate RaisesConflict(cs: seq<Binding>, w: World, time: int, key: string) {
    var g := GroupOf(IncludedOf(cs, w, time), key);
    g != [] && Decide(g).Disagreement?
  }

  /** Reordering the candidates changes neither the keys that get a binding nor the keys that raise a conflict. */
  lemma SettlementIgnoresOrder(cs: seq<Binding>, ds: seq<Binding>, w: World, time: int, key: string)
    requires multiset(cs) == multiset(ds)
    ensures GetsBinding(cs, w, time, key) == GetsBinding(ds, w, time, key)
    ensures RaisesConflict(cs, w, time, key) == RaisesConflict(ds, w, time, key)
  {
    IncludedPermutes(cs, ds, w, time);
    GroupPermutes(IncludedOf(cs, w, time), IncludedOf(ds, w, time), key);
    var g, h := GroupOf(IncludedOf(cs, w, time), key), GroupOf(IncludedOf(ds, w, time), key);
    assert |multiset(g)| == |g| && |multiset(h)| == |h|;
    if g != [] { DecidePermutes(g, h); }
  }

  lemma {:induction false} FinalAt(bs: seq<Binding>, keys: seq<string>)
    requires forall k :: k in keys ==> GroupOf(bs, k) != []
    requires forall i, j :: 0 <= i < j < |keys| ==> keys[i] != keys[j]
    ensures forall b :: b in FinalFor(bs, keys) ==> Key(b) in keys && Decide(GroupOf(bs, Key(b))) == Settled(b)
    ensures forall i, j :: 0 <= i < j < |FinalFor(bs, keys)| ==>
      Key(FinalFor(bs, keys)[i]) != Key(FinalFor(bs, keys)[j])
    ensures forall k :: k in keys && Decide(GroupOf(bs, k)).Settled? ==>
      Decide(GroupOf(bs, k)).top in FinalFor(bs, keys)
  {
    if keys != [] {
      var init, last := keys[..|keys| - 1], keys[|keys| - 1];
      FinalAt(bs, init);
      assert keys == init + [last];
      assert last !in init;
      var d := Decide(GroupOf(bs, last));
      if d.Settled? {
        SortedTop(GroupOf(bs, last));
        DecideByAuthority(GroupOf(bs, last), Rank(SortDescending(GroupOf(bs, last))[0].authority));
        GroupCount(bs, last);
        assert d.top in multiset(GroupOf(bs, last));
        assert Key(d.top) == last;
      }
    }
  }

  /** The final bindings: one per settled key, of the highest rank among the included bindings of its key. */
  lemma FinalIsHighest(bs: seq<Binding>, b: Binding)
    requires b in Final(bs)
    ensures b in bs && forall c :: c in bs && Key(c) == Key(b) ==> Rank(c.authority) <= Rank(b.authority)
    ensures forall i, j :: 0 <= i < j < |Final(bs)| ==> Key(Final(bs)[i]) != Key(Final(bs)[j])
  {
    KeysHaveGroups(bs);
    FinalAt(bs, KeysOf(bs));
    var g := GroupOf(bs, Key(b));
    SortedTop(g);
    DecideByAuthority(g, Rank(SortDescending(g)[0].authority));
    GroupCount(bs, Key(b));
    assert b in multiset(g);
    forall c | c in bs && Key(c) == Key(b) ensures Rank(c.authority) <= Rank(b.authority) {
      assert c in multiset(bs);
      assert c in multiset(g);
    }
  }
}
