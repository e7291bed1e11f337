/**
 Inlining `dep://schema/` references. The recursion of the program is bounded by the interpreter's stack, so
 expansion takes a depth; a registry without reference cycles never meets that bound once it is large enough.
 */
module SchemaRegistry {
  import opened Wrappers
  import opened Json

  type Registry = map<string, seq<Member>>

  // BadRef is the exception of an unsupported or unknown reference, TooDeep the RecursionError.
  datatype Expanded = Done(value: Json) | BadRef | TooDeep

  predicate IsWordChar(c: char) {
    'a' <= c <= 'z' || 'A' <= c <= 'Z' || '0' <= c <= '9' || c == '_' || c == '-'
  }

  function WordPrefix(s: string): string {
    if s == "" || !IsWordChar(s[0]) then "" else [s[0]] + WordPrefix(s[1..])
  }

  const PREFIX := "dep://schema/"

  /** `_REF_PATTERN.match`: the name after the prefix; whatever follows the name is ignored. */
  function RefName(ref: string): Option<string> {
    if |PREFIX| < |ref| && ref[..|PREFIX|] == PREFIX && IsWordChar(ref[|PREFIX|])
    then Some(WordPrefix(ref[|PREFIX|..]))
    else None
  }

  /** `resolve_ref` on the value of a `$ref` key; a value that is not a string raises too. */
  function ResolveRef(ref: Json, reg: Registry): Option<seq<Member>> {
    if !ref.Str? then None
    else match RefName(ref.s)
      case None => None
      case Some(name) => if name in reg then Some(reg[name]) else None
  }

  /** `d[key] = value`: in place when the key is there, appended otherwise. */
  function SetKey(ms: seq<Member>, key: string, value: Json): seq<Member> {
    if ms == [] then [Member(key, value)]
    else if ms[0].key == key then [Member(key, value)] + ms[1..]
    else [ms[0]] + SetKey(ms[1..], key, value)
  }

  /** A copy of the referenced schema with the siblings of `$ref` set over it. */
  function Merged(schema: seq<Member>, ms: seq<Member>): seq<Member> {
    if ms == [] then schema
    else
      var m := ms[|ms| - 1];
      var merged := Merged(schema, ms[..|ms| - 1]);
      if m.key == "$ref" then merged else SetKey(merged, m.key, m.value)
  }

  /** The merging loop of `_resolve_refs_inner`. */
  method MergeSiblings(schema: seq<Member>, ms: seq<Member>) returns (merged: seq<Member>)
    ensures merged == Merged(schema, ms)
  {
    merged := schema;
    for i := 0 to |ms|
      invariant merged == Merged(schema, ms[..i])
    {
      assert ms[..i + 1][..i] == ms[..i];
      if ms[i].key != "$ref" {
        merged := SetKey(merged, ms[i].key, ms[i].value);
      }
    }
    assert ms[..|ms|] == ms;
  }

  /** `_resolve_refs_inner` */
  function Resolve(node: Json, reg: Registry, depth: nat): Expanded
    decreases depth, 0
  {
    if depth == 0 then TooDeep
    else match node
      case Obj(ms) => (
        match Get(ms, "$ref")
        case None => ResolveMembers(ms, reg, depth - 1)
        case Some(ref) =>
          match ResolveRef(ref, reg)
          case None => BadRef
          case Some(schema) => Resolve(Obj(Merged(schema, ms)), reg, depth - 1))
      case Arr(items) => ResolveItems(items, reg, depth - 1)
      case _ => Done(node)
  }

  /** The dictionary comprehension: the first failing value decides. */
  function ResolveMembers(ms: seq<Member>, reg: Registry, depth: nat): (r: Expanded)
    ensures r.Done? ==> r.value.Obj?
    decreases depth, |ms| + 1
  {
    if ms == [] then Done(Obj([]))
    else match Resolve(ms[0].value, reg, depth)
      case Done(v) => (
        match ResolveMembers(ms[1..], reg, depth)
        case Done(rest) => Done(Obj([Member(ms[0].key, v)] + rest.members))
        case failed => failed)
      case failed => failed
  }

  function ResolveItems(items: seq<Json>, reg: Registry, depth: nat): (r: Expanded)
    ensures r.Done? ==> r.value.Arr?
    decreases depth, |items| + 1
  {
    if items == [] then Done(Arr([]))
    else match Resolve(items[0], reg, depth)
      case Done(v) => (
        match ResolveItems(items[1..], reg, depth)
        case Done(rest) => Done(Arr([v] + rest.items))
        case failed => failed)
      case failed => failed
  }

  // ---- What the depth means ----

  /** A larger stack changes nothing once expansion came to an end. */
  lemma {:induction false} DepthIrrelevant(node: Json, reg: Registry, d: nat, e: nat)
    requires d <= e && !Resolve(node, reg, d).TooDeep?
    ensures Resolve(node, reg, e) == Resolve(node, reg, d)
    decreases d, 0
  {
    match node
    case Obj(ms) =>
      match Get(ms, "$ref") {
        case None => MembersDepth(ms, reg, d - 1, e - 1);
        case Some(ref) =>
          match ResolveRef(ref, reg)
          case None =>
          case Some(schema) => DepthIrrelevant(Obj(Merged(schema, ms)), reg, d - 1, e - 1);
      }
    case Arr(items) => ItemsDepth(items, reg, d - 1, e - 1);
    case _ =>
  }

  lemma {:induction false} MembersDepth(ms: seq<Member>, reg: Registry, d: nat, e: nat)
    requires d <= e && !ResolveMembers(ms, reg, d).TooDeep?
    ensures ResolveMembers(ms, reg, e) == ResolveMembers(ms, reg, d)
    decreases d, |ms| + 1
  {
    if ms != [] {
      DepthIrrelevant(ms[0].value, reg, d, e);
      if Resolve(ms[0].value, reg, d).Done? { MembersDepth(ms[1..], reg, d, e); }
    }
  }

  lemma {:induction false} ItemsDepth(items: seq<Json>, reg: Registry, d: nat, e: nat)
    requires d <= e && !ResolveItems(items, reg, d).TooDeep?
    ensures ResolveItems(items, reg, e) == ResolveItems(items, reg, d)
    decreases d, |items| + 1
  {
    if items != [] {
      DepthIrrelevant(items[0], reg, d, e);
      if Resolve(items[0], reg, d).Done? { ItemsDepth(items[1..], reg, d, e); }
    }
  }

  // ---- Acyclic registries ----

  /** The schema names referred to at any depth. */
  function Refs(j: Json): set<string> {
    match j
    case Arr(items) => RefsEach(items)
    case Obj(ms) => RefsMembers(ms)
    case _ => {}
  }

  function RefsEach(items: seq<Json>): set<string> {
    if items == [] then {} else Refs(items[0]) + RefsEach(items[1..])
  }

  function RefsMembers(ms: seq<Member>): set<string> {
    if ms == [] then {}
    else Refs(ms[0].value) + OwnRef(ms[0]) + RefsMembers(ms[1..])
  }

  function OwnRef(m: Member): set<string> {
    if m.key == "$ref" && m.value.Str? && RefName(m.value.s).Some? then {RefName(m.value.s).value} else {}
  }

  ghost predicate Ranked(reg: Registry, rank: string -> nat) {
    forall n, t :: n in reg && t in RefsMembers(reg[n]) && t in reg ==> rank(t) < rank(n)
  }

  /** No schema reaches itself through references: the names can be ranked. */
  ghost predicate Acyclic(reg: Registry) {
    exists rank: string -> nat :: Ranked(reg, rank)
  }

  ghost predicate Below(refs: set<string>, reg: Registry, rank: string -> nat, h: nat) {
    forall t :: t in refs && t in reg ==> rank(t) < h
  }

  ghost predicate Ends(node: Json, reg: Registry) {
    exists d: nat :: !Resolve(node, reg, d).TooDeep?
  }

  ghost predicate AllEnd(ms: seq<Member>, reg: Registry) {
    forall i :: 0 <= i < |ms| && ms[i].key != "$ref" ==> Ends(ms[i].value, reg)
  }

  lemma {:induction false} MembersEnd(ms: seq<Member>, reg: Registry) returns (d: nat)
    requires forall i :: 0 <= i < |ms| ==> Ends(ms[i].value, reg)
    ensures !ResolveMembers(ms, reg, d).TooDeep?
  {
    d := 0;
    if ms != [] {
      var a: nat :| !Resolve(ms[0].value, reg, a).TooDeep?;
      var b := MembersEnd(ms[1..], reg);
      d := if a < b then b else a;
      DepthIrrelevant(ms[0].value, reg, a, d);
      MembersDepth(ms[1..], reg, b, d);
    }
  }

  lemma {:induction false} ItemsEnd(items: seq<Json>, reg: Registry) returns (d: nat)
    requires forall i :: 0 <= i < |items| ==> Ends(items[i], reg)
    ensures !ResolveItems(items, reg, d).TooDeep?
  {
    d := 0;
    if items != [] {
      var a: nat :| !Resolve(items[0], reg, a).TooDeep?;
      var b := ItemsEnd(items[1..], reg);
      d := if a < b then b else a;
      DepthIrrelevant(items[0], reg, a, d);
      ItemsDepth(items[1..], reg, b, d);
    }
  }

  lemma {:induction false} SetKeyMembers(ms: seq<Member>, key: string, value: Json)
    ensures forall m :: m in SetKey(ms, key, value) ==> m in ms || m == Member(key, value)
    ensures forall k :: k != key ==> Get(SetKey(ms, key, value), k) == Get(ms, k)
    ensures Get(SetKey(ms, key, value), key) == Some(value)
  {
    if ms != [] {
      SetKeyMembers(ms[1..], key, value);
      assert ms == [ms[0]] + ms[1..];
    }
  }

  lemma {:induction false} MergedMembers(schema: seq<Member>, ms: seq<Member>)
    ensures forall m :: m in Merged(schema, ms) ==> m in schema || (m in ms && m.key != "$ref")
    ensures Get(Merged(schema, ms), "$ref") == Get(schema, "$ref")
  {
    if ms != [] {
      var m := ms[|ms| - 1];
      var init := ms[..|ms| - 1];
      MergedMembers(schema, init);
      assert ms == init + [m];
      if m.key != "$ref" { SetKeyMembers(Merged(schema, init), m.key, m.value); }
    }
  }

  lemma {:induction false} RefsOfMember(ms: seq<Member>, i: nat)
    requires i < |ms|
    ensures Refs(ms[i].value) <= RefsMembers(ms) && OwnRef(ms[i]) <= RefsMembers(ms)
  {
    if i > 0 { RefsOfMember(ms[1..], i - 1); }
  }

  lemma {:induction false} RefsOfItem(items: seq<Json>, i: nat)
    requires i < |items|
    ensures Refs(items[i]) <= RefsEach(items)
  {
    if i > 0 { RefsOfItem(items[1..], i - 1); }
  }

  /** A reference ends when its siblings do: along a chain of references the rank falls. */
  lemma {:induction false} ReferenceEnds(name: string, ms: seq<Member>, reg: Registry, rank: string -> nat)
    requires Ranked(reg, rank) && name in reg && AllEnd(ms, reg)
    ensures Ends(Obj(Merged(reg[name], ms)), reg)
    decreases rank(name), 1
  {
    var schema := reg[name];
    var merged := Merged(schema, ms);
    MergedMembers(schema, ms);
    forall i | 0 <= i < |merged| && merged[i].key != "$ref" ensures Ends(merged[i].value, reg) {
      assert merged[i] in merged;
      if merged[i] in schema {
        var k :| 0 <= k < |schema| && schema[k] == merged[i];
        RefsOfMember(schema, k);
        NodeEnds(schema[k].value, reg, rank, rank(name));
      }
    }
    match Get(schema, "$ref")
    case None =>
      var d := MembersEnd(merged, reg);
      assert !Resolve(Obj(merged), reg, d + 1).TooDeep?;
    case Some(ref) =>
      if ResolveRef(ref, reg).None? {
        assert !Resolve(Obj(merged), reg, 1).TooDeep?;
      } else {
        var next := RefName(ref.s).value;
        var k :| 0 <= k < |schema| && schema[k] == Member("$ref", ref);
        RefsOfMember(schema, k);
        assert next in OwnRef(schema[k]);
        ReferenceEnds(next, merged, reg, rank);
        var d: nat :| !Resolve(Obj(Merged(reg[next], merged)), reg, d).TooDeep?;
        assert !Resolve(Obj(merged), reg, d + 1).TooDeep?;
      }
  }

  lemma {:induction false} NodeEnds(node: Json, reg: Registry, rank: string -> nat, h: nat)
    requires Ranked(reg, rank) && Below(Refs(node), reg, rank, h)
    ensures Ends(node, reg)
    decreases h, 0, node
  {
    match node
    case Obj(ms) =>
      forall i | 0 <= i < |ms| ensures Ends(ms[i].value, reg) {
        RefsOfMember(ms, i);
        NodeEnds(ms[i].value, reg, rank, h);
      }
      match Get(ms, "$ref") {
        case None =>
          var d := MembersEnd(ms, reg);
          assert !Resolve(node, reg, d + 1).TooDeep?;
        case Some(ref) =>
          if ResolveRef(ref, reg).None? {
            assert !Resolve(node, reg, 1).TooDeep?;
          } else {
            var name := RefName(ref.s).value;
            var k :| 0 <= k < |ms| && ms[k] == Member("$ref", ref);
            RefsOfMember(ms, k);
            assert name in OwnRef(ms[k]);
            ReferenceEnds(name, ms, reg, rank);
            var d: nat :| !Resolve(Obj(Merged(reg[name], ms)), reg, d).TooDeep?;
            assert !Resolve(node, reg, d + 1).TooDeep?;
          }
      }
    case Arr(items) =>
      forall i | 0 <= i < |items| ensures Ends(items[i], reg) {
        RefsOfItem(items, i);
        NodeEnds(items[i], reg, rank, h);
      }
      var d := ItemsEnd(items, reg);
      assert !Resolve(node, reg, d + 1).TooDeep?;
    case _ =>
      assert !Resolve(node, reg, 1).TooDeep?;
  }

  lemma {:induction false} Bound(names: set<string>, rank: string -> nat) returns (h: nat)
    ensures forall t :: t in names ==> rank(t) < h
    decreases names
  {
    h := 0;
    if names != {} {
      var n :| n in names;
      h := Bound(names - {n}, rank);
      h := if rank(n) < h then h else rank(n) + 1;
    }
  }

  /** On an acyclic registry every document expands, and from some depth on the answer is settled. */
  lemma AcyclicTerminates(node: Json, reg: Registry)
    requires Acyclic(reg)
    ensures exists d: nat :: forall e: nat :: d <= e ==>
      Resolve(node, reg, e) == Resolve(node, reg, d) && !Resolve(node, reg, e).TooDeep?
  {
    var rank: string -> nat :| Ranked(reg, rank);
    var h := Bound(Refs(node), rank);
    NodeEnds(node, reg, rank, h);
    var d: nat :| !Resolve(node, reg, d).TooDeep?;
    forall e: nat | d <= e ensures Resolve(node, reg, e) == Resolve(node, reg, d) && !Resolve(node, reg, e).TooDeep? {
      DepthIrrelevant(node, reg, d, e);
    }
  }

  // ---- Cycles ----

  predicate RefersTo(ms: seq<Member>, names: set<string>) {
    match Get(ms, "$ref")
    case Some(Str(ref)) => RefName(ref).Some? && RefName(ref).value in names
    case _ => false
  }

  /** Every schema of these names refers, with its own `$ref`, to one of these names. */
  ghost predicate ReferenceCycle(names: set<string>, reg: Registry) {
    names <= reg.Keys && forall n {:trigger RefersTo(reg[n], names)} :: n in names ==> RefersTo(reg[n], names)
  }

  lemma ReferenceExpands(ms: seq<Member>, schema: seq<Member>, reg: Registry, d: nat)
    requires d > 0 && Get(ms, "$ref").Some? && ResolveRef(Get(ms, "$ref").value, reg) == Some(schema)
    ensures Resolve(Obj(ms), reg, d) == Resolve(Obj(Merged(schema, ms)), reg, d - 1)
  {
  }

  function Target(ms: seq<Member>, names: set<string>): string
    requires RefersTo(ms, names)
  {
    RefName(Get(ms, "$ref").value.s).value
  }

  lemma MergedRefersTo(schema: seq<Member>, ms: seq<Member>, names: set<string>)
    requires RefersTo(schema, names)
    ensures RefersTo(Merged(schema, ms), names)
  {
    MergedMembers(schema, ms);
  }

  /** A cycle of references expands at no depth, whatever is set beside the references. */
  lemma {:induction false} ReferenceCycleNeverEnds(names: set<string>, ms: seq<Member>, reg: Registry, d: nat)
    requires ReferenceCycle(names, reg) && RefersTo(ms, names)
    ensures Resolve(Obj(ms), reg, d).TooDeep?
    decreases d
  {
    if d > 0 {
      var schema := reg[Target(ms, names)];
      assert RefersTo(schema, names);
      ReferenceExpands(ms, schema, reg, d);
      MergedRefersTo(schema, ms, names);
      ReferenceCycleNeverEnds(names, Merged(schema, ms), reg, d - 1);
    }
  }

  lemma {:induction false} MembersAllDone(ms: seq<Member>, reg: Registry, d: nat, i: nat)
    requires ResolveMembers(ms, reg, d).Done? && i < |ms|
    ensures Resolve(ms[i].value, reg, d).Done?
  {
    if i > 0 { MembersAllDone(ms[1..], reg, d, i - 1); }
  }

  lemma {:induction false} ItemsAllDone(items: seq<Json>, reg: Registry, d: nat, i: nat)
    requires ResolveItems(items, reg, d).Done? && i < |items|
    ensures Resolve(items[i], reg, d).Done?
  {
    if i > 0 { ItemsAllDone(items[1..], reg, d, i - 1); }
  }

  // ---- What the result is ----

  predicate NoRefs(j: Json) {
    match j
    case Arr(items) => forall i :: 0 <= i < |items| ==> NoRefs(items[i])
    case Obj(ms) => forall i :: 0 <= i < |ms| ==> ms[i].key != "$ref" && NoRefs(ms[i].value)
    case _ => true
  }

  /** No `$ref` key is left at any depth, and expanding the result again gives the result. */
  lemma {:induction false} ResultIsClosed(node: Json, reg: Registry, d: nat)
    requires Resolve(node, reg, d).Done?
    ensures NoRefs(Resolve(node, reg, d).value)
    ensures Resolve(Resolve(node, reg, d).value, reg, d) == Resolve(node, reg, d)
    decreases d, 0
  {
    match node
    case Obj(ms) =>
      match Get(ms, "$ref") {
        case None => MembersClosed(ms, reg, d - 1);
        case Some(ref) =>
          var merged := Obj(Merged(ResolveRef(ref, reg).value, ms));
          ResultIsClosed(merged, reg, d - 1);
          DepthIrrelevant(Resolve(merged, reg, d - 1).value, reg, d - 1, d);
      }
    case Arr(items) => ItemsClosed(items, reg, d - 1);
    case _ =>
  }

  lemma {:induction false} MembersClosed(ms: seq<Member>, reg: Registry, d: nat)
    requires ResolveMembers(ms, reg, d).Done? && Get(ms, "$ref").None?
    ensures var v := ResolveMembers(ms, reg, d).value;
      NoRefs(v) && Get(v.members, "$ref").None? && ResolveMembers(v.members, reg, d) == Done(v)
    decreases d, |ms| + 1
  {
    if ms != [] {
      ResultIsClosed(ms[0].value, reg, d);
      MembersClosed(ms[1..], reg, d);
      var v, rest := ResolveMembers(ms, reg, d).value, ResolveMembers(ms[1..], reg, d).value;
      assert v.members[1..] == rest.members;
    }
  }

  lemma {:induction false} ItemsClosed(items: seq<Json>, reg: Registry, d: nat)
    requires ResolveItems(items, reg, d).Done?
    ensures var v := ResolveItems(items, reg, d).value; NoRefs(v) && ResolveItems(v.items, reg, d) == Done(v)
    decreases d, |items| + 1
  {
    if items != [] {
      ResultIsClosed(items[0], reg, d);
      ItemsClosed(items[1..], reg, d);
      var v, rest := ResolveItems(items, reg, d).value, ResolveItems(items[1..], reg, d).value;
      assert v.items[1..] == rest.items;
    }
  }

  lemma {:induction false} MergedGet(schema: seq<Member>, ms: seq<Member>, key: string)
    requires UniqueKeys(ms) && key != "$ref"
    ensures Get(Merged(schema, ms), key) == if Get(ms, key).Some? then Get(ms, key) else Get(schema, key)
  {
    if ms != [] {
      var m := ms[|ms| - 1];
      var init := ms[..|ms| - 1];
      assert ms == init + [m];
      MergedGet(schema, init, key);
      SetKeyMembers(Merged(schema, init), m.key, m.value);
      GetSnoc(init, m, key);
    }
  }

  lemma {:induction false} GetSnoc(ms: seq<Member>, m: Member, key: string)
    ensures Get(ms + [m], key) ==
      if Get(ms, key).Some? then Get(ms, key) else if m.key == key then Some(m.value) else None
  {
    if ms != [] {
      assert (ms + [m])[1..] == ms[1..] + [m];
      GetSnoc(ms[1..], m, key);
    }
  }

  lemma {:induction false} SetKeyUnique(ms: seq<Member>, key: string, value: Json)
    requires UniqueKeys(ms)
    ensures UniqueKeys(SetKey(ms, key, value))
  {
    if ms != [] && ms[0].key != key {
      assert forall i :: 0 < i < |ms| ==> ms[i] == ms[1..][i - 1];
      SetKeyUnique(ms[1..], key, value);
      SetKeyMembers(ms[1..], key, value);
      var rest := SetKey(ms[1..], key, value);
      forall i | 0 <= i < |rest| ensures rest[i].key != ms[0].key {
        assert rest[i] in rest;
        if rest[i] in ms[1..] { var k :| 0 <= k < |ms[1..]| && ms[1..][k] == rest[i]; assert ms[k + 1] == rest[i]; }
      }
    }
  }

  lemma {:induction false} MergedUnique(schema: seq<Member>, ms: seq<Member>)
    requires UniqueKeys(schema)
    ensures UniqueKeys(Merged(schema, ms))
  {
    if ms != [] {
      var m, init := ms[|ms| - 1], ms[..|ms| - 1];
      MergedUnique(schema, init);
      SetKeyUnique(Merged(schema, init), m.key, m.value);
    }
  }

  ghost predicate UniqueEverywhere(reg: Registry) {
    forall n :: n in reg ==> UniqueKeys(reg[n])
  }

  /** The definition of a key nearest to a dictionary: its own, else that of the schema it refers to, and so on. */
  function Nearest(ms: seq<Member>, reg: Registry, depth: nat, key: string): Option<Json>
    decreases depth
  {
    if Get(ms, key).Some? then Get(ms, key)
    else if depth == 0 || Get(ms, "$ref").None? then None
    else match ResolveRef(Get(ms, "$ref").value, reg)
      case None => None
      case Some(schema) => Nearest(schema, reg, depth - 1, key)
  }

  /** What the expanded dictionary holds under a key: its nearest definition, expanded. */
  ghost predicate HoldsNearest(v: Json, near: Option<Json>, reg: Registry, d: nat, key: string) {
    v.Obj? && match near
      case None => Get(v.members, key).None?
      case Some(x) => Get(v.members, key).Some? && Resolve(x, reg, d) == Done(Get(v.members, key).value)
  }

  lemma HoldsDeeper(v: Json, near: Option<Json>, reg: Registry, d: nat, key: string)
    requires HoldsNearest(v, near, reg, d, key)
    ensures HoldsNearest(v, near, reg, d + 1, key)
  {
    if near.Some? { DepthIrrelevant(near.value, reg, d, d + 1); }
  }

  lemma {:induction false} MembersGet(ms: seq<Member>, reg: Registry, d: nat, key: string)
    requires ResolveMembers(ms, reg, d).Done?
    ensures HoldsNearest(ResolveMembers(ms, reg, d).value, Get(ms, key), reg, d, key)
  {
    if ms != [] {
      MembersGet(ms[1..], reg, d, key);
      var v, rest := ResolveMembers(ms, reg, d).value, ResolveMembers(ms[1..], reg, d).value;
      assert v.members[1..] == rest.members;
    }
  }

  /**
   Sibling keys override the referenced schema, inherited keys survive and nothing else appears: the expanded
   dictionary holds exactly the keys that have a nearest definition, each with that definition expanded.
   */
  lemma {:induction false} NearestDefinitionWins(ms: seq<Member>, reg: Registry, d: nat, key: string)
    requires UniqueKeys(ms) && UniqueEverywhere(reg) && key != "$ref"
    requires Resolve(Obj(ms), reg, d).Done?
    ensures HoldsNearest(Resolve(Obj(ms), reg, d).value, Nearest(ms, reg, d, key), reg, d, key)
    decreases d
  {
    if Get(ms, "$ref").None? {
      OwnDefinitionWins(ms, reg, d, key);
    } else {
      var schema := ResolveRef(Get(ms, "$ref").value, reg).value;
      ReferenceExpands(ms, schema, reg, d);
      MergedUnique(schema, ms);
      NearestDefinitionWins(Merged(schema, ms), reg, d - 1, key);
      ReferenceHolds(schema, ms, reg, d, key, Resolve(Obj(ms), reg, d).value);
    }
  }

  lemma OwnDefinitionWins(ms: seq<Member>, reg: Registry, d: nat, key: string)
    requires Get(ms, "$ref").None? && Resolve(Obj(ms), reg, d).Done?
    ensures HoldsNearest(Resolve(Obj(ms), reg, d).value, Nearest(ms, reg, d, key), reg, d, key)
  {
    MembersGet(ms, reg, d - 1, key);
    HoldsDeeper(Resolve(Obj(ms), reg, d).value, Get(ms, key), reg, d - 1, key);
  }

  lemma ReferenceHolds(schema: seq<Member>, ms: seq<Member>, reg: Registry, d: nat, key: string, v: Json)
    requires d > 0 && UniqueKeys(ms) && key != "$ref"
    requires Get(ms, "$ref").Some? && ResolveRef(Get(ms, "$ref").value, reg) == Some(schema)
    requires HoldsNearest(v, Nearest(Merged(schema, ms), reg, d - 1, key), reg, d - 1, key)
    ensures HoldsNearest(v, Nearest(ms, reg, d, key), reg, d, key)
  {
    HoldsDeeper(v, Nearest(Merged(schema, ms), reg, d - 1, key), reg, d - 1, key);
    NearestOfMerged(schema, ms, reg, d, key);
  }

  lemma NearestOfMerged(schema: seq<Member>, ms: seq<Member>, reg: Registry, d: nat, key: string)
    requires d > 0 && UniqueKeys(ms) && key != "$ref"
    requires Get(ms, "$ref").Some? && ResolveRef(Get(ms, "$ref").value, reg) == Some(schema)
    ensures Nearest(Merged(schema, ms), reg, d - 1, key) == Nearest(ms, reg, d, key)
  {
    MergedMembers(schema, ms);
    MergedGet(schema, ms, key);
  }
}
