/**
 When references can be inlined at all. Expansion moves between places, a schema and a key: a place passes on to the
 schema referred to when its schema does not define the key, and otherwise to the places its definition uses. A key set
 beside a reference hides the place it overrides, so a cycle of references need not be a cycle of places.
 */
module SchemaTermination {
  import opened Wrappers
  import opened Json
  import opened SchemaRegistry

  function RefTo(ms: seq<Member>): Option<string> {
    match Get(ms, "$ref")
    case Some(Str(ref)) => RefName(ref)
    case _ => None
  }

  /** The dictionary leaves the key to what it refers to; its own `$ref` always is. */
  predicate Inherits(ms: seq<Member>, key: string) {
    key == "$ref" || Get(ms, key).None?
  }

  /** Expanding the value expands what the schema holds under the key. */
  predicate Uses(x: Json, name: string, key: string) {
    match x
    case Arr(items) => exists i :: 0 <= i < |items| && Uses(items[i], name, key)
    case Obj(ms) =>
      || (RefTo(ms) == Some(name) && Inherits(ms, key))
      || (exists i :: 0 <= i < |ms| && ms[i].key != "$ref" && Uses(ms[i].value, name, key))
    case _ => false
  }

  /** One place leads to another. */
  predicate Leads(reg: Registry, n: string, k: string, t: string, l: string)
    requires n in reg
  {
    if Inherits(reg[n], k) then RefTo(reg[n]) == Some(t) && l == k else Uses(Get(reg[n], k).value, t, l)
  }

  ghost predicate PlacesRanked(reg: Registry, rank: (string, string) -> nat) {
    forall n, k, t, l :: n in reg && t in reg && Leads(reg, n, k, t, l) ==> rank(t, l) < rank(n, k)
  }

  /** No place leads back to itself: the places can be ranked. */
  ghost predicate PlacesAcyclic(reg: Registry) {
    exists rank: (string, string) -> nat :: PlacesRanked(reg, rank)
  }

  /** Every reference in the value names a stored schema. */
  predicate RefsStored(x: Json, reg: Registry) {
    match x
    case Arr(items) => forall i :: 0 <= i < |items| ==> RefsStored(items[i], reg)
    case Obj(ms) =>
      && (Get(ms, "$ref").Some? ==> ResolveRef(Get(ms, "$ref").value, reg).Some?)
      && forall i :: 0 <= i < |ms| ==> ms[i].key == "$ref" || RefsStored(ms[i].value, reg)
    case _ => true
  }

  ghost predicate AllDict(reg: Registry) {
    forall n :: n in reg ==> Dict(Obj(reg[n]))
  }

  ghost predicate AllStored(reg: Registry) {
    forall n :: n in reg ==> RefsStored(Obj(reg[n]), reg)
  }

  ghost predicate Expands(x: Json, reg: Registry) {
    exists d: nat :: Resolve(x, reg, d).Done?
  }

  ghost predicate AllExpand(reg: Registry) {
    forall n :: n in reg ==> Expands(Obj(reg[n]), reg)
  }

  lemma {:induction false} GetAt(ms: seq<Member>, i: nat)
    requires UniqueKeys(ms) && i < |ms|
    ensures Get(ms, ms[i].key) == Some(ms[i].value)
  {
    var r := Get(ms, ms[i].key);
    var j :| 0 <= j < |ms| && ms[j] == Member(ms[i].key, r.value);
    assert j == i;
  }

  lemma StoredTarget(ms: seq<Member>, reg: Registry)
    requires Get(ms, "$ref").Some? && ResolveRef(Get(ms, "$ref").value, reg).Some?
    ensures RefTo(ms).Some? && RefTo(ms).value in reg
    ensures ResolveRef(Get(ms, "$ref").value, reg) == Some(reg[RefTo(ms).value])
  {
  }

  // ---- What an expanded dictionary says of places ----

  lemma MergedInherits(schema: seq<Member>, ms: seq<Member>, key: string)
    requires UniqueKeys(ms) && Inherits(ms, key)
    ensures RefTo(Merged(schema, ms)) == RefTo(schema)
    ensures Inherits(schema, key) ==> Inherits(Merged(schema, ms), key)
    ensures !Inherits(schema, key) ==> key != "$ref" && Get(Merged(schema, ms), key) == Get(schema, key)
  {
    MergedMembers(schema, ms);
    if key != "$ref" { MergedGet(schema, ms, key); }
  }

  /** One step of an expansion through a reference: what is set beside it stays, the rest is taken over. */
  lemma ReferenceStep(ms: seq<Member>, reg: Registry, d: nat, key: string) returns (merged: seq<Member>)
    requires UniqueKeys(ms) && UniqueEverywhere(reg) && Get(ms, "$ref").Some? && Resolve(Obj(ms), reg, d).Done?
    ensures d > 0 && RefTo(ms).Some? && RefTo(ms).value in reg
    ensures UniqueKeys(merged) && Resolve(Obj(merged), reg, d - 1).Done?
    ensures !Inherits(ms, key) ==> Get(merged, key) == Get(ms, key)
    ensures Inherits(ms, key) ==>
      var schema := reg[RefTo(ms).value];
      if Inherits(schema, key) then Inherits(merged, key) && RefTo(merged) == RefTo(schema)
      else Get(merged, key) == Get(schema, key)
  {
    StoredTarget(ms, reg);
    var schema := reg[RefTo(ms).value];
    merged := Merged(schema, ms);
    ReferenceExpands(ms, schema, reg, d);
    MergedUnique(schema, ms);
    if Inherits(ms, key) { MergedInherits(schema, ms, key); } else { MergedGet(schema, ms, key); }
  }

  lemma OwnValue(ms: seq<Member>, reg: Registry, d: nat, key: string)
    requires Get(ms, "$ref").None? && Get(ms, key).Some? && Resolve(Obj(ms), reg, d).Done?
    ensures d > 0 && Resolve(Get(ms, key).value, reg, d - 1).Done?
  {
    var i :| 0 <= i < |ms| && ms[i] == Member(key, Get(ms, key).value);
    MembersAllDone(ms, reg, d - 1, i);
  }

  lemma KeptStep(ms: seq<Member>, reg: Registry, d: nat, key: string) returns (merged: seq<Member>)
    requires UniqueKeys(ms) && UniqueEverywhere(reg) && Get(ms, "$ref").Some? && !Inherits(ms, key)
    requires Resolve(Obj(ms), reg, d).Done?
    ensures d > 1 && UniqueKeys(merged) && Get(merged, key) == Get(ms, key) && Resolve(Obj(merged), reg, d - 1).Done?
  {
    merged := ReferenceStep(ms, reg, d, key);
  }

  /** A key set in a dictionary survives every merge, so its value was expanded. */
  lemma {:induction false} KeptValue(ms: seq<Member>, reg: Registry, d: nat, key: string, v: Json)
    requires UniqueKeys(ms) && UniqueEverywhere(reg) && key != "$ref" && Get(ms, key) == Some(v)
    requires Resolve(Obj(ms), reg, d).Done?
    ensures d > 0 && Resolve(v, reg, d - 1).Done?
    decreases d
  {
    if Get(ms, "$ref").None? {
      OwnValue(ms, reg, d, key);
    } else {
      var merged := KeptStep(ms, reg, d, key);
      KeptValue(merged, reg, d - 1, key, v);
      DepthIrrelevant(v, reg, d - 2, d - 1);
    }
  }

  /** What a place holds expands within a depth. */
  ghost predicate Within(reg: Registry, n: string, k: string, e: nat)
    requires n in reg
    decreases e
  {
    e > 0 &&
    if !Inherits(reg[n], k) then Resolve(Get(reg[n], k).value, reg, e - 1).Done?
    else RefTo(reg[n]).Some? && RefTo(reg[n]).value in reg ==> Within(reg, RefTo(reg[n]).value, k, e - 1)
  }

  lemma {:induction false} WithinMore(reg: Registry, n: string, k: string, e: nat, f: nat)
    requires n in reg && e <= f && Within(reg, n, k, e)
    ensures Within(reg, n, k, f)
    decreases e
  {
    if !Inherits(reg[n], k) {
      DepthIrrelevant(Get(reg[n], k).value, reg, e - 1, f - 1);
    } else if RefTo(reg[n]).Some? && RefTo(reg[n]).value in reg {
      WithinMore(reg, RefTo(reg[n]).value, k, e - 1, f - 1);
    }
  }

  lemma WithinByValue(reg: Registry, t: string, l: string, e: nat, v: Json)
    requires t in reg && !Inherits(reg[t], l) && Get(reg[t], l) == Some(v) && e > 0 && Resolve(v, reg, e - 1).Done?
    ensures Within(reg, t, l, e)
  {
  }

  lemma WithinByReference(reg: Registry, t: string, l: string, e: nat)
    requires t in reg && Inherits(reg[t], l) && RefTo(reg[t]).Some? && RefTo(reg[t]).value in reg
    requires e > 0 && Within(reg, RefTo(reg[t]).value, l, e - 1)
    ensures Within(reg, t, l, e)
  {
  }

  lemma KeptWithin(merged: seq<Member>, reg: Registry, e: nat, t: string, l: string)
    requires UniqueKeys(merged) && UniqueEverywhere(reg) && Resolve(Obj(merged), reg, e).Done?
    requires t in reg && !Inherits(reg[t], l) && Get(merged, l) == Get(reg[t], l)
    ensures Within(reg, t, l, e)
  {
    var v := Get(reg[t], l).value;
    KeptValue(merged, reg, e, l, v);
    WithinByValue(reg, t, l, e, v);
  }

  /** An expanded reference settles every place it leads to. */
  lemma {:induction false} ReferenceWithin(ms: seq<Member>, reg: Registry, d: nat, t: string, l: string)
    requires UniqueKeys(ms) && UniqueEverywhere(reg) && t in reg && RefTo(ms) == Some(t) && Inherits(ms, l)
    requires Resolve(Obj(ms), reg, d).Done?
    ensures d > 0 && Within(reg, t, l, d - 1)
    decreases d
  {
    var merged := ReferenceStep(ms, reg, d, l);
    if !Inherits(reg[t], l) {
      KeptWithin(merged, reg, d - 1, t, l);
    } else if RefTo(reg[t]).Some? && RefTo(reg[t]).value in reg {
      ReferenceWithin(merged, reg, d - 1, RefTo(reg[t]).value, l);
      WithinByReference(reg, t, l, d - 1);
    }
  }

  lemma MemberDone(ms: seq<Member>, reg: Registry, d: nat, i: nat)
    requires Dict(Obj(ms)) && UniqueEverywhere(reg) && Resolve(Obj(ms), reg, d).Done?
    requires i < |ms| && ms[i].key != "$ref"
    ensures d > 0 && Dict(ms[i].value) && Resolve(ms[i].value, reg, d - 1).Done?
  {
    GetAt(ms, i);
    KeptValue(ms, reg, d, ms[i].key, ms[i].value);
  }

  lemma ItemDone(items: seq<Json>, reg: Registry, d: nat, i: nat)
    requires Dict(Arr(items)) && Resolve(Arr(items), reg, d).Done? && i < |items|
    ensures d > 0 && Dict(items[i]) && Resolve(items[i], reg, d - 1).Done?
  {
    ItemsAllDone(items, reg, d - 1, i);
  }

  predicate Refers(x: Json, t: string, l: string) {
    x.Obj? && RefTo(x.members) == Some(t) && Inherits(x.members, l)
  }

  /** Inside an expanded value that uses a place, below it, stands another. */
  lemma UsesStep(x: Json, reg: Registry, d: nat, t: string, l: string) returns (y: Json)
    requires Dict(x) && UniqueEverywhere(reg) && Uses(x, t, l) && !Refers(x, t, l) && Resolve(x, reg, d).Done?
    ensures d > 0 && Dict(y) && Uses(y, t, l) && Resolve(y, reg, d - 1).Done?
  {
    match x
    case Arr(items) =>
      var i :| 0 <= i < |items| && Uses(items[i], t, l);
      ItemDone(items, reg, d, i);
      y := items[i];
    case Obj(ms) =>
      var i :| 0 <= i < |ms| && ms[i].key != "$ref" && Uses(ms[i].value, t, l);
      MemberDone(ms, reg, d, i);
      y := ms[i].value;
  }

  /** An expanded value settles every place it uses. */
  lemma {:induction false} UsesWithin(x: Json, reg: Registry, d: nat, t: string, l: string)
    requires Dict(x) && UniqueEverywhere(reg) && t in reg && Uses(x, t, l) && Resolve(x, reg, d).Done?
    ensures Within(reg, t, l, d)
    decreases d
  {
    if Refers(x, t, l) {
      ReferenceWithin(x.members, reg, d, t, l);
    } else {
      var y := UsesStep(x, reg, d, t, l);
      UsesWithin(y, reg, d - 1, t, l);
    }
    WithinMore(reg, t, l, d - 1, d);
  }

  lemma DictAt(ms: seq<Member>, key: string)
    requires Dict(Obj(ms)) && Get(ms, key).Some?
    ensures Dict(Get(ms, key).value)
  {
    var i :| 0 <= i < |ms| && ms[i] == Member(key, Get(ms, key).value);
  }

  /** A place settled within a depth leads to places settled within less. */
  lemma LeadsWithin(reg: Registry, n: string, k: string, t: string, l: string, e: nat)
    requires AllDict(reg) && n in reg && t in reg && Leads(reg, n, k, t, l) && Within(reg, n, k, e)
    ensures e > 0 && Within(reg, t, l, e - 1)
  {
    if !Inherits(reg[n], k) {
      DictAt(reg[n], k);
      UsesWithin(Get(reg[n], k).value, reg, e - 1, t, l);
    }
  }

  // ---- Expansion needs ranked places ----

  lemma SchemaWithin(reg: Registry, n: string, k: string, d: nat)
    requires AllDict(reg) && n in reg && Resolve(Obj(reg[n]), reg, d).Done?
    ensures Within(reg, n, k, d)
  {
    if !Inherits(reg[n], k) {
      KeptValue(reg[n], reg, d, k, Get(reg[n], k).value);
    } else if RefTo(reg[n]).Some? && RefTo(reg[n]).value in reg {
      ReferenceWithin(reg[n], reg, d, RefTo(reg[n]).value, k);
    }
  }

  lemma NotBefore(reg: Registry, n: string, k: string, e: nat)
    requires n in reg && e > 0 && !Within(reg, n, k, e - 1)
    ensures forall f: nat :: f < e ==> !Within(reg, n, k, f)
  {
    forall f: nat | f < e ensures !Within(reg, n, k, f) {
      if Within(reg, n, k, f) { WithinMore(reg, n, k, f, e - 1); }
    }
  }

  /** The least depth within which a place is settled. */
  ghost function Height(reg: Registry, n: string, k: string, e: nat): (h: nat)
    requires n in reg && Within(reg, n, k, e)
    ensures h <= e && Within(reg, n, k, h)
    ensures forall f: nat :: f < h ==> !Within(reg, n, k, f)
  {
    if Within(reg, n, k, e - 1) then Height(reg, n, k, e - 1)
    else
      NotBefore(reg, n, k, e);
      e
  }

  lemma {:induction false} CommonDepth(names: set<string>, reg: Registry) returns (d: nat)
    requires names <= reg.Keys && AllExpand(reg)
    ensures forall n :: n in names ==> Resolve(Obj(reg[n]), reg, d).Done?
    decreases names
  {
    d := 0;
    if names != {} {
      var n :| n in names;
      var a := CommonDepth(names - {n}, reg);
      var b: nat :| Resolve(Obj(reg[n]), reg, b).Done?;
      d := if a < b then b else a;
      forall m | m in names ensures Resolve(Obj(reg[m]), reg, d).Done? {
        DepthIrrelevant(Obj(reg[m]), reg, if m == n then b else a, d);
      }
    }
  }

  lemma ExpansionRanks(reg: Registry)
    requires AllDict(reg) && AllExpand(reg)
    ensures PlacesAcyclic(reg)
  {
    var d := CommonDepth(reg.Keys, reg);
    forall n, k | n in reg ensures Within(reg, n, k, d) { SchemaWithin(reg, n, k, d); }
    var rank: (string, string) -> nat := (n, k) => if n in reg && Within(reg, n, k, d) then Height(reg, n, k, d) else 0;
    forall n, k, t, l | n in reg && t in reg && Leads(reg, n, k, t, l) ensures rank(t, l) < rank(n, k) {
      LeadsWithin(reg, n, k, t, l, Height(reg, n, k, d));
    }
    assert PlacesRanked(reg, rank);
  }

  /** Everything in an expanded document was expanded, so all its references are stored. */
  lemma {:induction false} ExpansionStores(x: Json, reg: Registry, d: nat)
    requires Dict(x) && UniqueEverywhere(reg) && Resolve(x, reg, d).Done?
    ensures RefsStored(x, reg)
    decreases x
  {
    match x
    case Arr(items) =>
      forall i | 0 <= i < |items| ensures RefsStored(items[i], reg) {
        ItemDone(items, reg, d, i);
        ExpansionStores(items[i], reg, d - 1);
      }
    case Obj(ms) =>
      forall i | 0 <= i < |ms| && ms[i].key != "$ref" ensures RefsStored(ms[i].value, reg) {
        MemberDone(ms, reg, d, i);
        ExpansionStores(ms[i].value, reg, d - 1);
      }
    case _ =>
  }

  // ---- Ranked places suffice ----

  /** A finite set of keys that holds every key a schema defines, and `$ref`. */
  ghost predicate HasKeys(reg: Registry, keys: set<string>) {
    "$ref" in keys && forall n, i :: n in reg && 0 <= i < |reg[n]| ==> reg[n][i].key in keys
  }

  lemma {:induction false} KeysOf(names: set<string>, reg: Registry) returns (keys: set<string>)
    requires names <= reg.Keys
    ensures "$ref" in keys && forall n, i :: n in names && 0 <= i < |reg[n]| ==> reg[n][i].key in keys
    decreases names
  {
    keys := {"$ref"};
    if names != {} {
      var n :| n in names;
      keys := KeysOf(names - {n}, reg);
      keys := keys + set i | 0 <= i < |reg[n]| :: reg[n][i].key;
    }
  }

  ghost predicate UsesBelow(x: Json, reg: Registry, rank: (string, string) -> nat, keys: set<string>, h: nat) {
    forall t, l :: t in reg && l in keys && Uses(x, t, l) ==> rank(t, l) < h
  }

  /** A registry whose schemas can be expanded, as far as its shape goes. */
  ghost predicate Sound(reg: Registry, rank: (string, string) -> nat, keys: set<string>) {
    AllDict(reg) && AllStored(reg) && PlacesRanked(reg, rank) && HasKeys(reg, keys)
  }

  lemma {:induction false} MembersExpand(ms: seq<Member>, reg: Registry) returns (d: nat)
    requires forall i :: 0 <= i < |ms| ==> Expands(ms[i].value, reg)
    ensures ResolveMembers(ms, reg, d).Done?
  {
    d := 0;
    if ms != [] {
      var a: nat :| Resolve(ms[0].value, reg, a).Done?;
      var b := MembersExpand(ms[1..], reg);
      d := if a < b then b else a;
      DepthIrrelevant(ms[0].value, reg, a, d);
      MembersDepth(ms[1..], reg, b, d);
    }
  }

  lemma {:induction false} ItemsExpand(items: seq<Json>, reg: Registry) returns (d: nat)
    requires forall i :: 0 <= i < |items| ==> Expands(items[i], reg)
    ensures ResolveItems(items, reg, d).Done?
  {
    d := 0;
    if items != [] {
      var a: nat :| Resolve(items[0], reg, a).Done?;
      var b := ItemsExpand(items[1..], reg);
      d := if a < b then b else a;
      DepthIrrelevant(items[0], reg, a, d);
      ItemsDepth(items[1..], reg, b, d);
    }
  }

  /** A reference expands when what is set beside it does, and the places it leads to rank below. */
  lemma {:induction false} ReferenceExpanded(
      ms: seq<Member>, reg: Registry, rank: (string, string) -> nat, keys: set<string>, h: nat, t: string)
    requires Sound(reg, rank, keys) && UniqueKeys(ms) && t in reg && RefTo(ms) == Some(t)
    requires forall i :: 0 <= i < |ms| && ms[i].key != "$ref" ==> Expands(ms[i].value, reg)
    requires forall l :: l in keys && Inherits(ms, l) ==> rank(t, l) < h
    ensures Expands(Obj(ms), reg)
    decreases h, 0, rank(t, "$ref")
  {
    var schema, merged := reg[t], Merged(reg[t], ms);
    MergedUnique(schema, ms);
    MergedMembers(schema, ms);
    forall i | 0 <= i < |merged| && merged[i].key != "$ref" ensures Expands(merged[i].value, reg) {
      var k := merged[i].key;
      GetAt(merged, i);
      MergedGet(schema, ms, k);
      if Get(ms, k).Some? {
        var j :| 0 <= j < |ms| && ms[j] == Member(k, Get(ms, k).value);
      } else {
        PlaceExpanded(reg, rank, keys, t, k, h);
      }
    }
    if Get(schema, "$ref").None? {
      var d := MembersExpand(merged, reg);
      assert Resolve(Obj(merged), reg, d + 1).Done?;
    } else {
      StoredTarget(schema, reg);
      var u := RefTo(schema).value;
      forall l | l in keys && Inherits(merged, l) ensures rank(u, l) < h {
        if l != "$ref" { MergedGet(schema, ms, l); }
        assert Leads(reg, t, l, u, l);
      }
      assert Leads(reg, t, "$ref", u, "$ref");
      ReferenceExpanded(merged, reg, rank, keys, h, u);
    }
    var d: nat :| Resolve(Obj(merged), reg, d).Done?;
    ReferenceExpands(ms, schema, reg, d + 1);
  }

  lemma PlaceFits(reg: Registry, rank: (string, string) -> nat, keys: set<string>, t: string, k: string)
    requires Sound(reg, rank, keys) && t in reg && !Inherits(reg[t], k)
    ensures var x := Get(reg[t], k).value; Dict(x) && RefsStored(x, reg) && UsesBelow(x, reg, rank, keys, rank(t, k))
  {
    DictAt(reg[t], k);
    var x := Get(reg[t], k).value;
    assert RefsStored(Obj(reg[t]), reg);
    var i :| 0 <= i < |reg[t]| && reg[t][i] == Member(k, x);
    forall u, l | u in reg && l in keys && Uses(x, u, l) ensures rank(u, l) < rank(t, k) {
      assert Leads(reg, t, k, u, l);
    }
  }

  lemma {:induction false} PlaceExpanded(
      reg: Registry, rank: (string, string) -> nat, keys: set<string>, t: string, k: string, h: nat)
    requires Sound(reg, rank, keys) && t in reg && !Inherits(reg[t], k) && rank(t, k) < h
    ensures Expands(Get(reg[t], k).value, reg)
    decreases rank(t, k), 2
  {
    PlaceFits(reg, rank, keys, t, k);
    NodeExpanded(Get(reg[t], k).value, reg, rank, keys, rank(t, k));
  }

  lemma {:induction false} NodeExpanded(
      x: Json, reg: Registry, rank: (string, string) -> nat, keys: set<string>, h: nat)
    requires Sound(reg, rank, keys) && Dict(x) && RefsStored(x, reg) && UsesBelow(x, reg, rank, keys, h)
    ensures Expands(x, reg)
    decreases h, 1, x
  {
    match x
    case Arr(items) =>
      forall i | 0 <= i < |items| ensures Expands(items[i], reg) { NodeExpanded(items[i], reg, rank, keys, h); }
      var d := ItemsExpand(items, reg);
      assert Resolve(x, reg, d + 1).Done?;
    case Obj(ms) =>
      forall i | 0 <= i < |ms| && ms[i].key != "$ref" ensures Expands(ms[i].value, reg) {
        NodeExpanded(ms[i].value, reg, rank, keys, h);
      }
      if Get(ms, "$ref").None? {
        var d := MembersExpand(ms, reg);
        assert Resolve(x, reg, d + 1).Done?;
      } else {
        StoredTarget(ms, reg);
        ReferenceExpanded(ms, reg, rank, keys, h, RefTo(ms).value);
      }
    case _ =>
      assert Resolve(x, reg, 1).Done?;
  }

  lemma {:induction false} KeyBound(keys: set<string>, t: string, rank: (string, string) -> nat) returns (h: nat)
    ensures forall l :: l in keys ==> rank(t, l) < h
    decreases keys
  {
    h := 0;
    if keys != {} {
      var l :| l in keys;
      h := KeyBound(keys - {l}, t, rank);
      h := if rank(t, l) < h then h else rank(t, l) + 1;
    }
  }

  lemma {:induction false} PlaceBound(names: set<string>, keys: set<string>, rank: (string, string) -> nat)
    returns (h: nat)
    ensures forall t, l :: t in names && l in keys ==> rank(t, l) < h
    decreases names
  {
    h := 0;
    if names != {} {
      var t :| t in names;
      h := PlaceBound(names - {t}, keys, rank);
      var b := KeyBound(keys, t, rank);
      h := if b < h then h else b;
    }
  }

  /** On such a registry every document expands whose references are stored. */
  lemma DocumentExpands(x: Json, reg: Registry)
    requires AllDict(reg) && AllStored(reg) && PlacesAcyclic(reg) && Dict(x) && RefsStored(x, reg)
    ensures Expands(x, reg)
  {
    var rank: (string, string) -> nat :| PlacesRanked(reg, rank);
    var keys := KeysOf(reg.Keys, reg);
    var h := PlaceBound(reg.Keys, keys, rank);
    NodeExpanded(x, reg, rank, keys, h);
  }

  // ---- The exact condition ----

  /** Every schema of a registry expands, exactly when its references are stored and no place leads back to itself. */
  lemma SchemasExpandIff(reg: Registry)
    requires AllDict(reg)
    ensures AllExpand(reg) <==> AllStored(reg) && PlacesAcyclic(reg)
  {
    if AllExpand(reg) {
      ExpansionRanks(reg);
      forall n | n in reg ensures RefsStored(Obj(reg[n]), reg) {
        var d: nat :| Resolve(Obj(reg[n]), reg, d).Done?;
        ExpansionStores(Obj(reg[n]), reg, d);
      }
    }
    if AllStored(reg) && PlacesAcyclic(reg) {
      forall n | n in reg ensures Expands(Obj(reg[n]), reg) { DocumentExpands(Obj(reg[n]), reg); }
    }
  }

  /** Where the schemas expand, any other document does exactly when its references are stored. */
  lemma DocumentExpandsIff(x: Json, reg: Registry)
    requires AllDict(reg) && AllExpand(reg) && Dict(x)
    ensures Expands(x, reg) <==> RefsStored(x, reg)
  {
    SchemasExpandIff(reg);
    if Expands(x, reg) {
      var d: nat :| Resolve(x, reg, d).Done?;
      ExpansionStores(x, reg, d);
    }
    if RefsStored(x, reg) { DocumentExpands(x, reg); }
  }

  // ---- Cycles of places ----

  /** Every one of these places leads to one of them. */
  ghost predicate PlaceCycle(places: iset<(string, string)>, reg: Registry) {
    forall p {:trigger LeadsInto(p, places, reg)} :: p in places ==> LeadsInto(p, places, reg)
  }

  ghost predicate LeadsInto(p: (string, string), places: iset<(string, string)>, reg: Registry) {
    p.0 in reg && exists q :: q in places && q.0 in reg && Leads(reg, p.0, p.1, q.0, q.1)
  }

  lemma {:induction false} CycleNeverWithin(places: iset<(string, string)>, reg: Registry, p: (string, string), e: nat)
    requires AllDict(reg) && PlaceCycle(places, reg) && p in places
    ensures p.0 in reg && !Within(reg, p.0, p.1, e)
    decreases e
  {
    assert LeadsInto(p, places, reg);
    if Within(reg, p.0, p.1, e) {
      var q :| q in places && q.0 in reg && Leads(reg, p.0, p.1, q.0, q.1);
      LeadsWithin(reg, p.0, p.1, q.0, q.1, e);
      CycleNeverWithin(places, reg, q, e - 1);
    }
  }

  /** Nothing that uses a place of a cycle expands, at any depth. */
  lemma CycleNeverDone(places: iset<(string, string)>, reg: Registry, x: Json, p: (string, string), d: nat)
    requires AllDict(reg) && PlaceCycle(places, reg) && p in places && Dict(x) && Uses(x, p.0, p.1)
    ensures !Resolve(x, reg, d).Done?
  {
    assert LeadsInto(p, places, reg);
    if Resolve(x, reg, d).Done? {
      UsesWithin(x, reg, d, p.0, p.1);
      CycleNeverWithin(places, reg, p, d);
    }
  }

  /** A list schema whose items are of its own kind: whatever stands beside the reference, unless it sets the items. */
  predicate ListOf(name: string, schema: seq<Member>, beside: seq<Member>) {
    schema == [Member("items", Obj(beside))] && RefTo(beside) == Some(name) && Dict(Obj(beside))
  }

  lemma RecursiveSchemaNeverDone(name: string, reg: Registry, beside: seq<Member>, d: nat)
    requires AllDict(reg) && name in reg && ListOf(name, reg[name], beside) && Get(beside, "items").None?
    ensures !Resolve(Obj(reg[name]), reg, d).Done?
  {
    var p := (name, "items");
    assert Get(reg[name], "items") == Some(Obj(beside));
    assert Leads(reg, name, "items", name, "items");
    assert reg[name][0].key != "$ref" && Uses(reg[name][0].value, name, "items");
    assert LeadsInto(p, iset{p}, reg);
    CycleNeverDone(iset{p}, reg, Obj(reg[name]), p, d);
  }

  /** The same schema with its items set beside the reference refers to itself, and yet expands. */
  lemma OverrideEndsTheCycle(name: string, reg: Registry, ref: string)
    requires name in reg && RefName(ref) == Some(name)
    requires reg[name] == [Member("items", Obj([Member("$ref", Str(ref)), Member("items", Null)]))]
    ensures !Acyclic(reg) && Expands(Obj(reg[name]), reg)
  {
    var beside := [Member("$ref", Str(ref)), Member("items", Null)];
    RefsOfMember(beside, 0);
    RefsOfMember(reg[name], 0);
    assert name in OwnRef(beside[0]);
    assert name in RefsMembers(reg[name]);
    assert beside[..2] == beside && beside[..1] == [beside[0]] && beside[..1][..0] == [];
    assert Merged(reg[name], beside[..1]) == reg[name];
    assert Merged(reg[name], beside) == [Member("items", Null)];
    assert Resolve(Obj(Merged(reg[name], beside)), reg, 2).Done? by {
      assert [Member("items", Null)][1..] == [];
    }
    ReferenceExpands(beside, reg[name], reg, 3);
    assert reg[name][1..] == [];
    assert ResolveMembers(reg[name], reg, 3).Done?;
    assert Resolve(Obj(reg[name]), reg, 4).Done?;
  }
}
