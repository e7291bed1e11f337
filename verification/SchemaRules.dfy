/**
 What reference expansion does to the parts of a document, said of the parts alone: names, scalars, lists and
 dictionaries.
 */
module SchemaRules {
  import opened Wrappers
  import opened Json
  import opened SchemaRegistry

  // ---- References ----

  /** Digits, capitals, small letters, the hyphen and the underscore, by code point. */
  predicate Wordy(c: char) {
    var n := c as int;
    48 <= n <= 57 || 65 <= n <= 90 || 97 <= n <= 122 || n == 45 || n == 95
  }

  /** A run of word characters that what follows does not continue. */
  ghost predicate IsWord(name: string, tail: string) {
    name != "" && (forall i :: 0 <= i < |name| ==> Wordy(name[i])) && (tail != "" ==> !Wordy(tail[0]))
  }

  lemma WordChars(c: char)
    ensures IsWordChar(c) <==> Wordy(c)
  {
    assert 'a' as int == 97 && 'A' as int == 65 && '0' as int == 48 && '_' as int == 95 && '-' as int == 45;
  }

  lemma {:induction false} WordPrefixIs(s: string, name: string, tail: string)
    requires s == name + tail && (forall i :: 0 <= i < |name| ==> Wordy(name[i])) && (tail != "" ==> !Wordy(tail[0]))
    ensures WordPrefix(s) == name
  {
    if s != "" {
      WordChars(s[0]);
      if name != "" {
        assert s[0] == name[0] && s[1..] == name[1..] + tail;
        WordPrefixIs(s[1..], name[1..], tail);
      }
    }
  }

  lemma {:induction false} WordPrefixSplits(s: string) returns (tail: string)
    ensures s == WordPrefix(s) + tail && (tail != "" ==> !Wordy(tail[0]))
    ensures forall i :: 0 <= i < |WordPrefix(s)| ==> Wordy(WordPrefix(s)[i])
  {
    tail := s;
    if s != "" {
      WordChars(s[0]);
      if IsWordChar(s[0]) {
        tail := WordPrefixSplits(s[1..]);
        assert s == [s[0]] + s[1..];
      }
    }
  }

  /** A reference names what stands between the prefix and the first character that is no word character. */
  lemma RefNameIs(ref: string, name: string)
    ensures RefName(ref) == Some(name) <==> exists tail :: ref == "dep://schema/" + name + tail && IsWord(name, tail)
  {
    if RefName(ref) == Some(name) {
      var rest := ref[|PREFIX|..];
      assert ref == PREFIX + rest;
      var tail := WordPrefixSplits(rest);
      WordChars(rest[0]);
      assert ref == "dep://schema/" + name + tail && IsWord(name, tail);
    }
    if tail :| ref == "dep://schema/" + name + tail && IsWord(name, tail) {
      assert ref[..|PREFIX|] == PREFIX && ref[|PREFIX|..] == name + tail;
      WordPrefixIs(name + tail, name, tail);
      assert ref[|PREFIX|] == name[0];
      WordChars(name[0]);
    }
  }

  // ---- Lists and dictionaries ----

  /** A list expands item by item. */
  lemma {:induction false} ItemsInPlace(items: seq<Json>, reg: Registry, d: nat)
    requires ResolveItems(items, reg, d).Done?
    ensures var vs := ResolveItems(items, reg, d).value.items;
      |vs| == |items| && forall i :: 0 <= i < |items| ==> Resolve(items[i], reg, d) == Done(vs[i])
  {
    if items != [] { ItemsInPlace(items[1..], reg, d); }
  }

  lemma ListExpands(items: seq<Json>, reg: Registry, d: nat)
    requires Resolve(Arr(items), reg, d).Done?
    ensures var v := Resolve(Arr(items), reg, d).value;
      && d > 0 && v.Arr? && |v.items| == |items|
      && forall i :: 0 <= i < |items| ==> Resolve(items[i], reg, d - 1) == Done(v.items[i])
  {
    ItemsInPlace(items, reg, d - 1);
  }

  lemma {:induction false} MembersInPlace(ms: seq<Member>, reg: Registry, d: nat)
    requires ResolveMembers(ms, reg, d).Done?
    ensures var vs := ResolveMembers(ms, reg, d).value.members;
      |vs| == |ms| && forall i :: 0 <= i < |ms| ==>
        vs[i].key == ms[i].key && Resolve(ms[i].value, reg, d) == Done(vs[i].value)
  {
    if ms != [] { MembersInPlace(ms[1..], reg, d); }
  }

  /** A dictionary without a reference keeps its keys, in their order, and expands value by value. */
  lemma DictionaryExpands(ms: seq<Member>, reg: Registry, d: nat)
    requires Resolve(Obj(ms), reg, d).Done? && forall i :: 0 <= i < |ms| ==> ms[i].key != "$ref"
    ensures var v := Resolve(Obj(ms), reg, d).value;
      && d > 0 && v.Obj? && |v.members| == |ms|
      && forall i :: 0 <= i < |ms| ==>
        v.members[i].key == ms[i].key && Resolve(ms[i].value, reg, d - 1) == Done(v.members[i].value)
  {
    MembersInPlace(ms, reg, d - 1);
  }

  // ---- Scalars ----

  predicate Scalar(j: Json) {
    !j.Arr? && !j.Obj?
  }

  /** How deep a document is nested. */
  function Nesting(j: Json): nat {
    match j
    case Arr(items) => 1 + Deepest(items)
    case Obj(ms) => 1 + DeepestMember(ms)
    case _ => 1
  }

  function Deepest(items: seq<Json>): nat {
    if items == [] then 0
    else if Nesting(items[0]) < Deepest(items[1..]) then Deepest(items[1..])
    else Nesting(items[0])
  }

  function DeepestMember(ms: seq<Member>): nat {
    if ms == [] then 0
    else if Nesting(ms[0].value) < DeepestMember(ms[1..]) then DeepestMember(ms[1..])
    else Nesting(ms[0].value)
  }

  /** A document without references is left as it is, every text, number and truth value of it. */
  lemma {:induction false} WithoutReferences(j: Json, reg: Registry, d: nat)
    requires NoRefs(j) && Nesting(j) <= d
    ensures Resolve(j, reg, d) == Done(j)
    decreases j
  {
    match j
    case Arr(items) => ItemsUnchanged(items, reg, d - 1);
    case Obj(ms) => MembersUnchanged(ms, reg, d - 1);
    case _ =>
  }

  lemma {:induction false} ItemsUnchanged(items: seq<Json>, reg: Registry, d: nat)
    requires NoRefs(Arr(items)) && Deepest(items) <= d
    ensures ResolveItems(items, reg, d) == Done(Arr(items))
    decreases items
  {
    if items != [] {
      WithoutReferences(items[0], reg, d);
      ItemsUnchanged(items[1..], reg, d);
    }
  }

  lemma {:induction false} MembersUnchanged(ms: seq<Member>, reg: Registry, d: nat)
    requires NoRefs(Obj(ms)) && DeepestMember(ms) <= d
    ensures ResolveMembers(ms, reg, d) == Done(Obj(ms))
    decreases ms
  {
    if ms != [] {
      WithoutReferences(ms[0].value, reg, d);
      MembersUnchanged(ms[1..], reg, d);
    }
  }

  /** So it is whenever expansion ends at all. */
  lemma UnchangedWhenDone(j: Json, reg: Registry, d: nat)
    requires NoRefs(j) && Resolve(j, reg, d).Done?
    ensures Resolve(j, reg, d).value == j
  {
    var e := if d < Nesting(j) then Nesting(j) else d;
    DepthIrrelevant(j, reg, d, e);
    WithoutReferences(j, reg, e);
  }

  // ---- Definitions along a chain of references ----

  /** Each dictionary refers to the next one. */
  ghost predicate Chain(chain: seq<seq<Member>>, reg: Registry) {
    chain != [] && forall i :: 0 <= i < |chain| - 1 ==> Refers(chain[i], chain[i + 1], reg)
  }

  ghost predicate Refers(ms: seq<Member>, schema: seq<Member>, reg: Registry) {
    exists ref, name :: Get(ms, "$ref") == Some(Str(ref)) && RefName(ref) == Some(name)
      && name in reg && reg[name] == schema
  }

  /** The last dictionary of the chain defines the key, and none before it does. */
  ghost predicate Defines(chain: seq<seq<Member>>, key: string, x: Json)
    requires chain != []
  {
    Get(chain[|chain| - 1], key) == Some(x) && forall i :: 0 <= i < |chain| - 1 ==> Get(chain[i], key).None?
  }

  lemma {:induction false} ChainNearest(chain: seq<seq<Member>>, reg: Registry, d: nat, key: string, x: Json)
    requires Chain(chain, reg) && Defines(chain, key, x) && |chain| <= d + 1
    ensures Nearest(chain[0], reg, d, key) == Some(x)
    decreases |chain|
  {
    if |chain| > 1 {
      assert Refers(chain[0], chain[1], reg);
      ChainNearest(chain[1..], reg, d - 1, key, x);
    }
  }

  /** The expanded dictionary holds what the chain defines, expanded; a scalar as it stands. */
  lemma DefinitionHolds(chain: seq<seq<Member>>, reg: Registry, d: nat, key: string, x: Json)
    requires Chain(chain, reg) && Defines(chain, key, x) && key != "$ref"
    requires UniqueKeys(chain[0]) && UniqueEverywhere(reg) && Resolve(Obj(chain[0]), reg, d).Done?
    ensures var v := Resolve(Obj(chain[0]), reg, d).value;
      && v.Obj? && Get(v.members, key).Some?
      && (exists e: nat :: Resolve(x, reg, e) == Done(Get(v.members, key).value))
      && (Scalar(x) ==> Get(v.members, key) == Some(x))
  {
    var e := if d < |chain| then |chain| else d;
    DepthIrrelevant(Obj(chain[0]), reg, d, e);
    NearestDefinitionWins(chain[0], reg, e, key);
    ChainNearest(chain, reg, e, key, x);
    var v := Resolve(Obj(chain[0]), reg, d).value;
    assert Resolve(x, reg, e) == Done(Get(v.members, key).value);
  }

  /** And nothing else: a key of the expanded dictionary is defined somewhere along its references. */
  lemma {:induction false} HeldIsDefined(ms: seq<Member>, reg: Registry, d: nat, key: string)
    returns (chain: seq<seq<Member>>)
    requires Nearest(ms, reg, d, key).Some?
    ensures Chain(chain, reg) && chain[0] == ms && Defines(chain, key, Nearest(ms, reg, d, key).value)
    decreases d
  {
    chain := [ms];
    if Get(ms, key).None? {
      var schema := ResolveRef(Get(ms, "$ref").value, reg).value;
      var rest := HeldIsDefined(schema, reg, d - 1, key);
      chain := [ms] + rest;
      assert Refers(ms, schema, reg);
      forall i | 0 <= i < |chain| - 1 ensures Refers(chain[i], chain[i + 1], reg) {
        if i > 0 { assert chain[i] == rest[i - 1] && chain[i + 1] == rest[i]; }
      }
    }
  }

  /** The keys of an expanded dictionary are exactly those some chain of references from it defines. */
  lemma HeldIff(ms: seq<Member>, reg: Registry, d: nat, key: string)
    requires UniqueKeys(ms) && UniqueEverywhere(reg) && key != "$ref" && Resolve(Obj(ms), reg, d).Done?
    ensures var v := Resolve(Obj(ms), reg, d).value;
      v.Obj? && (Get(v.members, key).Some? <==>
        exists chain, x :: Chain(chain, reg) && chain[0] == ms && Defines(chain, key, x))
  {
    NearestDefinitionWins(ms, reg, d, key);
    if Get(Resolve(Obj(ms), reg, d).value.members, key).Some? {
      var chain := HeldIsDefined(ms, reg, d, key);
    }
    if chain, x :| Chain(chain, reg) && chain[0] == ms && Defines(chain, key, x) {
      DefinitionHolds(chain, reg, d, key, x);
    }
  }
}
