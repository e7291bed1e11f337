/**
 Context resolution said of the stored fields and of positions alone: the list of authorities, the fate of a
 candidate, which included binding wins its scope and type, and which two are reported as a conflict.
 */
module ContextRules {
  import opened Wrappers
  import opened Texts
  import opened Context

  // ---- The authorities ----

  const AUTHORITIES := ["customer_confirmed", "provider_declared", "dep_relationship", "inferred"]

  /** The first authority comes before the second in the list; one that is not in the list comes after all of it. */
  ghost predicate Outranks(a: string, b: string) {
    exists i :: 0 <= i < |AUTHORITIES| && AUTHORITIES[i] == a && forall j :: 0 <= j <= i ==> AUTHORITIES[j] != b
  }

  lemma OutranksIff(a: string, b: string)
    ensures Outranks(a, b) <==> Rank(b) < Rank(a)
  {
    assert AUTHORITIES[0] != AUTHORITIES[1] && AUTHORITIES[0] != AUTHORITIES[2] && AUTHORITIES[0] != AUTHORITIES[3];
    assert AUTHORITIES[1] != AUTHORITIES[2] && AUTHORITIES[1] != AUTHORITIES[3] && AUTHORITIES[2] != AUTHORITIES[3];
    if Rank(b) < Rank(a) {
      var i := 4 - Rank(a);
      assert AUTHORITIES[i] == a;
    }
  }

  // ---- The fate of a candidate ----

  predicate InTime(c: Binding, time: int) {
    !(c.from.Some? && time < c.from.value) && !(c.until.Some? && c.until.value <= time)
  }

  /** The stored binding a candidate names, the first of that id, when it has begun. */
  ghost predicate Supersedes(s: Binding, c: Binding, w: World, time: int) {
    && c.supersededBy != "" && s.id == c.supersededBy && s.from.Some? && s.from.value <= time
    && exists k :: 0 <= k < |w.bindings| && w.bindings[k] == s && forall j :: 0 <= j < k ==> w.bindings[j].id != s.id
  }

  ghost predicate IsSuperseded(c: Binding, w: World, time: int) {
    exists s :: Supersedes(s, c, w, time)
  }

  /** A stored artifact is there; one that is not a `dep://` reference always is. */
  predicate Usable(c: Binding, w: World) {
    |c.artifact| < 6 || c.artifact[..6] != "dep://" || c.artifact in w.payloads
  }

  lemma {:induction false} StoredAt(bs: seq<Binding>, id: string, s: Binding)
    ensures Stored(bs, id) == Some(s) <==>
      s.id == id && exists k :: 0 <= k < |bs| && bs[k] == s && forall j :: 0 <= j < k ==> bs[j].id != s.id
  {
    if bs != [] {
      StoredAt(bs[1..], id, s);
      if bs[0].id == id {
        if k :| 0 <= k < |bs| && bs[k] == s && forall j :: 0 <= j < k ==> bs[j].id != s.id {
          assert k > 0 ==> bs[0].id != s.id;
        }
      } else if s.id == id {
        if k :| 0 <= k < |bs| && bs[k] == s && forall j :: 0 <= j < k ==> bs[j].id != s.id {
          assert bs[1..][k - 1] == s && forall j :: 0 <= j < k - 1 ==> bs[1..][j] == bs[j + 1];
        }
        if k :| 0 <= k < |bs[1..]| && bs[1..][k] == s && forall j :: 0 <= j < k ==> bs[1..][j].id != s.id {
          assert bs[k + 1] == s && forall j :: 0 < j <= k ==> bs[j] == bs[1..][j - 1];
        }
      }
    }
  }

  lemma SupersederIs(c: Binding, w: World, time: int)
    ensures forall s :: Superseder(c, w, time) == Some(s) <==> Supersedes(s, c, w, time)
    ensures Superseder(c, w, time).Some? <==> IsSuperseded(c, w, time)
  {
    forall s ensures Superseder(c, w, time) == Some(s) <==> Supersedes(s, c, w, time) {
      StoredAt(w.bindings, c.supersededBy, s);
    }
    if Superseder(c, w, time).Some? { assert Supersedes(Superseder(c, w, time).value, c, w, time); }
  }

  /** Each fate has its own condition, and a candidate meets exactly one of them. */
  lemma FateIs(c: Binding, w: World, time: int)
    ensures FateOf(c, w, time).TooEarly? <==> c.from.Some? && time < c.from.value
    ensures FateOf(c, w, time).TooEarly? || FateOf(c, w, time).TooLate? <==> !InTime(c, time)
    ensures forall s :: FateOf(c, w, time) == SupersededBy(s) <==> InTime(c, time) && Supersedes(s, c, w, time)
    ensures FateOf(c, w, time).SupersededBy? <==> InTime(c, time) && IsSuperseded(c, w, time)
    ensures FateOf(c, w, time).Redacted? <==>
      InTime(c, time) && !IsSuperseded(c, w, time) && c.kind == "redacted"
    ensures FateOf(c, w, time).Missing? <==>
      InTime(c, time) && !IsSuperseded(c, w, time) && c.kind != "redacted" && !Usable(c, w)
    ensures FateOf(c, w, time).Direct? <==>
      InTime(c, time) && !IsSuperseded(c, w, time) && c.kind != "redacted" && Usable(c, w)
  {
    SupersederIs(c, w, time);
    assert DEP <= c.artifact <==> |c.artifact| >= 6 && c.artifact[..6] == "dep://";
  }

  // ---- The candidates ----

  /** An exact match if there is one, else the organization's bindings of this scope and of none. */
  ghost predicate Applicable(b: Binding, bs: seq<Binding>, org: string, scope: string, selector: string) {
    b.org == org &&
    if exists x :: x in bs && x.org == org && x.scope == scope && x.selector == selector
    then b.scope == scope && b.selector == selector
    else b.scope == scope || b.scope == ""
  }

  lemma {:induction false} FiltersCount(bs: seq<Binding>, org: string, scope: string, selector: string)
    ensures forall b ::
      multiset(ForScope(bs, org, scope, selector))[b]
        == if b.org == org && b.scope == scope && b.selector == selector then multiset(bs)[b] else 0
    ensures forall b ::
      multiset(ForOrg(bs, org, scope))[b]
        == if b.org == org && (b.scope == scope || b.scope == "") then multiset(bs)[b] else 0
  {
    if bs != [] {
      FiltersCount(bs[1..], org, scope, selector);
      assert bs == [bs[0]] + bs[1..];
    }
  }

  /** The candidates are the applicable bindings of the store, each as often as it is stored. */
  lemma CandidatesAre(bs: seq<Binding>, org: string, scope: string, selector: string, b: Binding)
    ensures multiset(Candidates(bs, org, scope, selector))[b] ==
      if Applicable(b, bs, org, scope, selector) then multiset(bs)[b] else 0
  {
    FiltersCount(bs, org, scope, selector);
    var exact := ForScope(bs, org, scope, selector);
    if exact != [] {
      assert exact[0] in multiset(exact);
      assert exact[0] in multiset(bs);
    }
    if x :| x in bs && x.org == org && x.scope == scope && x.selector == selector {
      assert x in multiset(bs);
      assert x in multiset(exact);
    }
  }

  // ---- What is settled, by position ----

  predicate SameSlot(b: Binding, c: Binding) {
    b.scope + ":" + b.kind == c.scope + ":" + c.kind
  }

  /** Nothing included of its scope and type has an authority that outranks it. */
  ghost predicate AtTop(bs: seq<Binding>, i: nat) {
    i < |bs| && forall j :: 0 <= j < |bs| && SameSlot(bs[j], bs[i]) ==> !Outranks(bs[j].authority, bs[i].authority)
  }

  ghost predicate Rivals(bs: seq<Binding>, i: nat, j: nat) {
    i != j && AtTop(bs, i) && AtTop(bs, j) && SameSlot(bs[i], bs[j])
  }

  /** At the top without a rival, or the first of several that the customer confirmed. */
  ghost predicate Wins(bs: seq<Binding>, i: nat) {
    AtTop(bs, i) && forall j: nat :: Rivals(bs, i, j) ==> bs[i].authority == "customer_confirmed" && i < j
  }

  /** The first two rivals of a scope and type, below the customer's authority. */
  ghost predicate Clash(bs: seq<Binding>, i: nat, j: nat) {
    && Rivals(bs, i, j) && i < j && bs[i].authority != "customer_confirmed"
    && forall k: nat :: Rivals(bs, i, k) ==> j <= k
  }

  /** The bindings of one key and rank, in order. */
  function Ranked(bs: seq<Binding>, key: string, rank: nat): seq<Binding> {
    OfRank(GroupOf(bs, key), rank)
  }

  lemma RankedSnoc(init: seq<Binding>, last: Binding, key: string, rank: nat)
    ensures Ranked(init + [last], key, rank)
      == Ranked(init, key, rank) + (if Key(last) == key && Rank(last.authority) == rank then [last] else [])
  {
    var bs := init + [last];
    assert bs[..|bs| - 1] == init;
    if Key(last) == key {
      OfRankSnoc(GroupOf(init, key), last, rank);
    } else {
      assert GroupOf(bs, key) == GroupOf(init, key);
    }
  }

  /** The places of one key and rank, in order. */
  lemma {:induction false} Places(bs: seq<Binding>, key: string, rank: nat) returns (ps: seq<nat>)
    ensures |ps| == |Ranked(bs, key, rank)|
    ensures forall m :: 0 <= m < |ps| ==> ps[m] < |bs| && bs[ps[m]] == Ranked(bs, key, rank)[m]
    ensures forall m :: 0 <= m < |ps| ==> Key(bs[ps[m]]) == key && Rank(bs[ps[m]].authority) == rank
    ensures forall m, n :: 0 <= m < n < |ps| ==> ps[m] < ps[n]
    ensures forall i :: 0 <= i < |bs| && Key(bs[i]) == key && Rank(bs[i].authority) == rank ==> i in ps
  {
    ps := [];
    if bs != [] {
      var init, last := bs[..|bs| - 1], bs[|bs| - 1];
      ps := Places(init, key, rank);
      assert bs == init + [last];
      RankedSnoc(init, last, key, rank);
      if Key(last) == key && Rank(last.authority) == rank { ps := ps + [|bs| - 1]; }
    }
  }

  lemma {:induction false} OfRankSnoc(bs: seq<Binding>, b: Binding, rank: nat)
    ensures OfRank(bs + [b], rank) == OfRank(bs, rank) + (if Rank(b.authority) == rank then [b] else [])
  {
    if bs == [] {
      assert [b][1..] == [];
    } else {
      assert (bs + [b])[1..] == bs[1..] + [b];
      OfRankSnoc(bs[1..], b, rank);
    }
  }

  lemma OfRankHead(b: Binding, bs: seq<Binding>, rank: nat)
    ensures OfRank([b] + bs, rank) == (if Rank(b.authority) == rank then [b] else []) + OfRank(bs, rank)
  {
    assert ([b] + bs)[1..] == bs;
  }

  /** Sorting keeps the order of equals. */
  lemma {:induction false} InsertStable(b: Binding, bs: seq<Binding>, rank: nat)
    ensures OfRank(InsertDescending(b, bs), rank) == (if Rank(b.authority) == rank then [b] else []) + OfRank(bs, rank)
  {
    if bs == [] || Rank(bs[0].authority) <= Rank(b.authority) {
      OfRankHead(b, bs, rank);
    } else {
      var head, rest := bs[0], bs[1..];
      InsertStable(b, rest, rank);
      OfRankHead(head, InsertDescending(b, rest), rank);
      OfRankHead(head, rest, rank);
      assert bs == [head] + rest;
    }
  }

  lemma {:induction false} SortStable(bs: seq<Binding>, rank: nat)
    ensures OfRank(SortDescending(bs), rank) == OfRank(bs, rank)
  {
    if bs != [] {
      SortStable(bs[1..], rank);
      InsertStable(bs[0], SortDescending(bs[1..]), rank);
    }
  }

  /** A group is decided by its first members of highest rank. */
  lemma DecideFirst(group: seq<Binding>, rank: nat)
    requires group != [] && IsTopRank(group, rank)
    ensures var ties := OfRank(group, rank);
      && ties != []
      && Decide(group) == if |ties| > 1 && ties[0].authority != "customer_confirmed"
        then Disagreement(ties[0], ties[1]) else Settled(ties[0])
  {
    SortedTies(group, rank);
    SortStable(group, rank);
    var sorted := SortDescending(group);
    assert OfRank(sorted, rank)[0] == sorted[0];
  }

  /** The places at the top of one key are those of its highest rank. */
  lemma TopPlaces(bs: seq<Binding>, key: string, rank: nat, ps: seq<nat>)
    requires GroupOf(bs, key) != [] && IsTopRank(GroupOf(bs, key), rank)
    requires forall m :: 0 <= m < |ps| ==> ps[m] < |bs| && Key(bs[ps[m]]) == key && Rank(bs[ps[m]].authority) == rank
    requires forall i :: 0 <= i < |bs| && Key(bs[i]) == key && Rank(bs[i].authority) == rank ==> i in ps
    ensures forall i: nat :: i in ps <==> AtTop(bs, i) && Key(bs[i]) == key
  {
    var g := GroupOf(bs, key);
    GroupCount(bs, key);
    var top :| top in g && Rank(top.authority) == rank;
    assert top in multiset(g);
    assert top in multiset(bs);
    var t :| 0 <= t < |bs| && bs[t] == top;
    forall i | 0 <= i < |bs| && Key(bs[i]) == key ensures Rank(bs[i].authority) <= rank {
      assert bs[i] in multiset(bs);
      assert bs[i] in multiset(g);
    }
    forall i: nat ensures i in ps <==> AtTop(bs, i) && Key(bs[i]) == key {
      if i in ps {
        forall j | 0 <= j < |bs| && SameSlot(bs[j], bs[i]) ensures !Outranks(bs[j].authority, bs[i].authority) {
          OutranksIff(bs[j].authority, bs[i].authority);
        }
      }
      if AtTop(bs, i) && Key(bs[i]) == key {
        assert SameSlot(bs[t], bs[i]);
        OutranksIff(bs[t].authority, bs[i].authority);
      }
    }
  }

  lemma TopOf(bs: seq<Binding>, key: string) returns (rank: nat, ps: seq<nat>)
    requires GroupOf(bs, key) != []
    ensures IsTopRank(GroupOf(bs, key), rank) && ps != []
    ensures forall i: nat :: i in ps <==> AtTop(bs, i) && Key(bs[i]) == key
    ensures forall m, n :: 0 <= m < n < |ps| ==> ps[m] < ps[n]
    ensures forall m :: 0 <= m < |ps| ==> ps[m] < |bs|
    ensures Decide(GroupOf(bs, key)) ==
      if |ps| > 1 && bs[ps[0]].authority != "customer_confirmed" then Disagreement(bs[ps[0]], bs[ps[1]])
      else Settled(bs[ps[0]])
  {
    var g := GroupOf(bs, key);
    SortedTop(g);
    rank := Rank(SortDescending(g)[0].authority);
    ps := Places(bs, key, rank);
    DecideFirst(g, rank);
    TopPlaces(bs, key, rank, ps);
  }

  lemma WinnerIsSettled(bs: seq<Binding>, i: nat)
    requires Wins(bs, i) && GroupOf(bs, Key(bs[i])) != []
    ensures Decide(GroupOf(bs, Key(bs[i]))) == Settled(bs[i])
  {
    var rank, ps := TopOf(bs, Key(bs[i]));
    assert i in ps;
    assert ps[0] in ps;
    if ps[0] != i { assert Rivals(bs, i, ps[0]); }
    if |ps| > 1 { assert ps[1] in ps && Rivals(bs, i, ps[1]); }
  }

  lemma SettledIsWinner(bs: seq<Binding>, key: string) returns (i: nat)
    requires GroupOf(bs, key) != [] && Decide(GroupOf(bs, key)).Settled?
    ensures Wins(bs, i) && Decide(GroupOf(bs, key)).top == bs[i]
  {
    var rank, ps := TopOf(bs, key);
    i := ps[0];
    assert i in ps;
    forall j: nat | Rivals(bs, i, j) ensures bs[i].authority == "customer_confirmed" && i < j {
      assert j in ps;
      var m :| 0 <= m < |ps| && ps[m] == j;
    }
  }

  /** A binding is final exactly when it wins its scope and type. */
  lemma FinalIs(bs: seq<Binding>, b: Binding)
    ensures b in Final(bs) <==> exists i: nat :: Wins(bs, i) && bs[i] == b
  {
    KeysHaveGroups(bs);
    FinalAt(bs, KeysOf(bs));
    if b in Final(bs) {
      var i := SettledIsWinner(bs, Key(b));
    }
    if i: nat :| Wins(bs, i) && bs[i] == b {
      GroupCount(bs, Key(b));
      assert b in multiset(bs);
      assert b in multiset(GroupOf(bs, Key(b)));
      WinnerIsSettled(bs, i);
    }
  }

  lemma {:induction false} ConflictAt(bs: seq<Binding>, keys: seq<string>, recordId: string, c: Conflict)
    requires forall k :: k in keys ==> GroupOf(bs, k) != []
    ensures c in ConflictsFor(bs, keys, recordId) <==>
      c.recordId == recordId && c.key in keys && Decide(GroupOf(bs, c.key)) == Disagreement(c.a, c.b)
  {
    if keys != [] {
      var init, last := keys[..|keys| - 1], keys[|keys| - 1];
      ConflictAt(bs, init, recordId, c);
      assert keys == init + [last];
    }
  }

  /** A conflict names the first two rivals of its scope and type, in the order they were included. */
  lemma ConflictsAre(bs: seq<Binding>, recordId: string, c: Conflict)
    ensures c in Conflicts(bs, recordId) <==>
      exists i: nat, j: nat :: Clash(bs, i, j)
        && c == Conflict(recordId, bs[i].scope + ":" + bs[i].kind, bs[i], bs[j])
  {
    KeysHaveGroups(bs);
    ConflictAt(bs, KeysOf(bs), recordId, c);
    if c in Conflicts(bs, recordId) {
      var rank, ps := TopOf(bs, c.key);
      var i, j := ps[0], ps[1];
      assert i in ps && j in ps;
      forall k: nat | Rivals(bs, i, k) ensures j <= k {
        assert k in ps;
        var m :| 0 <= m < |ps| && ps[m] == k;
      }
      assert Clash(bs, i, j);
    }
    if i: nat, j: nat :| Clash(bs, i, j) && c == Conflict(recordId, bs[i].scope + ":" + bs[i].kind, bs[i], bs[j]) {
      GroupCount(bs, c.key);
      assert bs[i] in multiset(bs);
      assert bs[i] in multiset(GroupOf(bs, c.key));
      ClashDecides(bs, i, j);
    }
  }

  lemma ClashDecides(bs: seq<Binding>, i: nat, j: nat)
    requires Clash(bs, i, j) && GroupOf(bs, Key(bs[i])) != []
    ensures Decide(GroupOf(bs, Key(bs[i]))) == Disagreement(bs[i], bs[j])
  {
    var rank, ps := TopOf(bs, Key(bs[i]));
    assert i in ps && j in ps;
    var m :| 0 <= m < |ps| && ps[m] == i;
    var n :| 0 <= n < |ps| && ps[n] == j;
    if m > 0 { assert ps[0] in ps && Rivals(bs, i, ps[0]); }
    assert ps[1] in ps && Rivals(bs, i, ps[1]);
  }

  /** Down the list: what a final binding's authority excludes among the included ones of its scope and type. */
  lemma FinalDownTheList(bs: seq<Binding>, b: Binding, c: Binding)
    requires b in Final(bs) && c in bs && SameSlot(b, c)
    ensures b.authority != "customer_confirmed" ==> c.authority != "customer_confirmed"
    ensures b.authority !in ["customer_confirmed", "provider_declared"] ==> c.authority != "provider_declared"
    ensures b.authority !in ["customer_confirmed", "provider_declared", "dep_relationship"] ==>
      c.authority != "dep_relationship"
    ensures b.authority !in AUTHORITIES ==> c.authority !in AUTHORITIES
  {
    FinalIs(bs, b);
    var i: nat :| Wins(bs, i) && bs[i] == b;
    var j :| 0 <= j < |bs| && bs[j] == c;
    assert !Outranks(bs[j].authority, bs[i].authority);
    OutranksIff(c.authority, b.authority);
    assert AUTHORITIES[0] == "customer_confirmed" && AUTHORITIES[1] == "provider_declared"
      && AUTHORITIES[2] == "dep_relationship" && AUTHORITIES[3] == "inferred";
  }

  lemma Listed(a: string)
    ensures a in AUTHORITIES <==> Rank(a) > 0
  {
    assert AUTHORITIES[0] == "customer_confirmed" && AUTHORITIES[1] == "provider_declared"
      && AUTHORITIES[2] == "dep_relationship" && AUTHORITIES[3] == "inferred";
  }

  lemma EqualRank(a: string, b: string)
    requires !Outranks(a, b) && !Outranks(b, a)
    ensures a == b || (a !in AUTHORITIES && b !in AUTHORITIES)
  {
    OutranksIff(a, b);
    OutranksIff(b, a);
    Listed(a);
    Listed(b);
  }

  /** Only bindings of one authority can tie; authorities outside the list count as one. */
  lemma RivalsAreEquals(bs: seq<Binding>, i: nat, j: nat)
    requires Rivals(bs, i, j)
    ensures bs[i].authority == bs[j].authority || (bs[i].authority !in AUTHORITIES && bs[j].authority !in AUTHORITIES)
  {
    assert SameSlot(bs[j], bs[i]);
    EqualRank(bs[i].authority, bs[j].authority);
  }

  // ---- What the trace lists ----

  lemma {:induction false} SelectedAre(cs: seq<Binding>, w: World, time: int, col: Collection, b: Binding)
    ensures b in Selected(cs, w, time, col) <==> b in cs && Belongs(FateOf(b, w, time), col)
  {
    if cs != [] {
      SelectedAre(cs[..|cs| - 1], w, time, col, b);
      assert cs == cs[..|cs| - 1] + [cs[|cs| - 1]];
    }
  }

  lemma IdsAre(bs: seq<Binding>)
    ensures forall id :: id in Ids(bs) <==> exists b :: b in bs && b.id == id
    ensures forall a :: a in Artifacts(bs) <==> exists b :: b in bs && b.artifact == a
  {
    forall id | exists b :: b in bs && b.id == id ensures id in Ids(bs) {
      var i :| 0 <= i < |bs| && bs[i].id == id;
      assert Ids(bs)[i] == id;
    }
    forall a | exists b :: b in bs && b.artifact == a ensures a in Artifacts(bs) {
      var i :| 0 <= i < |bs| && bs[i].artifact == a;
      assert Artifacts(bs)[i] == a;
    }
    forall id | id in Ids(bs) ensures exists b :: b in bs && b.id == id {
      var i :| 0 <= i < |Ids(bs)| && Ids(bs)[i] == id;
      assert bs[i] in bs;
    }
    forall a | a in Artifacts(bs) ensures exists b :: b in bs && b.artifact == a {
      var i :| 0 <= i < |Artifacts(bs)| && Artifacts(bs)[i] == a;
      assert bs[i] in bs;
    }
  }

  /** The identifiers and the artifacts of the candidates of one collection. */
  lemma ListIs(cs: seq<Binding>, w: World, time: int, col: Collection)
    ensures forall id :: id in Ids(Selected(cs, w, time, col)) <==>
      exists b :: b in cs && Belongs(FateOf(b, w, time), col) && b.id == id
    ensures forall a :: a in Artifacts(Selected(cs, w, time, col)) <==>
      exists b :: b in cs && Belongs(FateOf(b, w, time), col) && b.artifact == a
  {
    IdsAre(Selected(cs, w, time, col));
    forall b ensures b in Selected(cs, w, time, col) <==> b in cs && Belongs(FateOf(b, w, time), col) {
      SelectedAre(cs, w, time, col, b);
    }
  }

  ghost predicate IsWinner(bs: seq<Binding>, id: string) {
    exists i: nat :: Wins(bs, i) && bs[i].id == id
  }

  lemma IncludedIs(bs: seq<Binding>)
    ensures forall id :: id in Ids(Final(bs)) <==> IsWinner(bs, id)
  {
    IdsAre(Final(bs));
    forall b ensures b in Final(bs) <==> exists i: nat :: Wins(bs, i) && bs[i] == b { FinalIs(bs, b); }
    forall id | IsWinner(bs, id) ensures id in Ids(Final(bs)) {
      var i: nat :| Wins(bs, i) && bs[i].id == id;
      assert bs[i] in Final(bs);
    }
  }

  /** The five lists of a trace, by the fates of the candidates and the winners among the included bindings. */
  lemma TraceIs(cs: seq<Binding>, w: World, time: int, recordId: string)
    ensures var t, bs := TraceOf(cs, w, time, recordId), IncludedOf(cs, w, time);
      && t.recordId == recordId
      && (forall id :: id in t.included <==> IsWinner(bs, id))
      && (forall id :: id in t.superseded <==> exists b :: b in cs && FateOf(b, w, time).SupersededBy? && b.id == id)
      && (forall id :: id in t.excluded <==> exists b :: b in cs && Excluded(FateOf(b, w, time)) && b.id == id)
      && (forall a :: a in t.missing <==> exists b :: b in cs && FateOf(b, w, time).Missing? && b.artifact == a)
      && (forall a :: a in t.redacted <==> exists b :: b in cs && FateOf(b, w, time).Redacted? && b.artifact == a)
  {
    var bs := IncludedOf(cs, w, time);
    IncludedIs(bs);
    ListIs(cs, w, time, Excludeds);
    ListIs(cs, w, time, Supersededs);
    ListIs(cs, w, time, Missings);
    ListIs(cs, w, time, Redacteds);
  }

  predicate Excluded(f: Fate) {
    !f.Direct? && !f.SupersededBy?
  }
}
