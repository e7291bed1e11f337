/**
 What a seal and a root cover: every seal the texts up to its element, in order, and the root every seal from the
 first to the last.
 */
module SnapshotRules {
  import opened Wrappers
  import opened Json
  import opened CanonicalJson
  import opened JsonReading
  import opened Snapshot
  import Sealing = Snapshot

  /** The texts a seal was computed over, the first one first. */
  function History(d: Digest): seq<string> {
    if d.Hmac? then History(d.prev) + [d.data] else []
  }

  /** Every step of the chain used the key, and it began with the zero bytes. */
  predicate KeyedBy(d: Digest, key: Key) {
    d == Zero || (d.Hmac? && d.key == key && KeyedBy(d.prev, key))
  }

  /** The i-th seal covers the first i + 1 texts, and nothing else went into it but the key. */
  lemma {:induction false} SealCovers(key: Key, texts: seq<string>, i: nat)
    requires i < |texts|
    ensures History(Leaf(key, texts, i)) == texts[..i + 1] && KeyedBy(Leaf(key, texts, i), key)
  {
    if i > 0 { SealCovers(key, texts, i - 1); }
    assert texts[..i + 1] == texts[..i] + [texts[i]];
  }

  /** The seals under a node of the tree, from left to right. */
  function Frontier(d: Digest): seq<Digest> {
    if d.Sha? then Frontier(d.left) + Frontier(d.right) else [d]
  }

  function Frontiers(hs: seq<Digest>): seq<Digest> {
    if hs == [] then [] else Frontier(hs[0]) + Frontiers(hs[1..])
  }

  /** A round keeps the seals in their order; only padding can follow. */
  lemma {:induction false} RoundKeeps(hs: seq<Digest>)
    ensures Frontiers(hs) <= Frontiers(NextRound(hs))
    ensures |hs| % 2 == 0 ==> Frontiers(hs) == Frontiers(NextRound(hs))
    decreases |hs|
  {
    if |hs| == 1 {
      assert hs[1..] == [] && NextRound(hs)[1..] == [];
    } else if |hs| > 1 {
      RoundKeeps(hs[2..]);
      var r := NextRound(hs);
      assert r[1..] == NextRound(hs[2..]) && hs[1..][1..] == hs[2..] && hs[1..][0] == hs[1];
      var a, b := Frontier(hs[0]), Frontier(hs[1]);
      assert Frontiers(hs) == a + (b + Frontiers(hs[2..])) == (a + b) + Frontiers(hs[2..]);
      assert Frontiers(r) == (a + b) + Frontiers(NextRound(hs[2..]));
      Prefixes(a + b, Frontiers(hs[2..]), Frontiers(NextRound(hs[2..])));
    }
  }

  lemma Prefixes(a: seq<Digest>, b: seq<Digest>, c: seq<Digest>)
    requires b <= c
    ensures a + b <= a + c
  {
    assert c == b + c[|b|..];
    assert a + c == a + b + c[|b|..];
  }

  lemma {:induction false} RootKeeps(hs: seq<Digest>)
    requires hs != []
    ensures Frontiers(hs) <= Frontier(Root(hs))
    ensures forall d :: d in Frontier(Root(hs)) ==> d in Frontiers(hs)
    decreases |hs|
  {
    if |hs| == 1 {
      assert hs[1..] == [] && Frontiers(hs) == Frontier(hs[0]) + [];
    } else {
      RoundKeeps(hs);
      RoundAddsNothing(hs);
      RootKeeps(NextRound(hs));
    }
  }

  lemma {:induction false} RoundAddsNothing(hs: seq<Digest>)
    ensures forall d :: d in Frontiers(NextRound(hs)) <==> d in Frontiers(hs)
    decreases |hs|
  {
    if |hs| == 1 {
      assert hs[1..] == [] && NextRound(hs)[1..] == [];
    } else if |hs| > 1 {
      RoundAddsNothing(hs[2..]);
      assert NextRound(hs)[1..] == NextRound(hs[2..]) && hs[1..][1..] == hs[2..] && hs[1..][0] == hs[1];
    }
  }

  lemma {:induction false} SealsAreFrontier(hs: seq<Digest>)
    requires forall i :: 0 <= i < |hs| ==> !hs[i].Sha?
    ensures Frontiers(hs) == hs
  {
    if hs != [] { SealsAreFrontier(hs[1..]); }
  }

  /** Under the root of a chain stand its seals, from left to right; what follows them repeats some of them. */
  lemma RootCovers(key: Key, texts: seq<string>)
    requires texts != []
    ensures var f := Frontier(Root(Leaves(key, texts)));
      && |texts| <= |f|
      && (forall i :: 0 <= i < |texts| ==> History(f[i]) == texts[..i + 1] && KeyedBy(f[i], key))
      && forall d :: d in f ==> d in Leaves(key, texts)
  {
    var hs := Leaves(key, texts);
    forall i | 0 <= i < |hs| ensures !hs[i].Sha? { assert hs[i] == Leaf(key, texts, i); }
    SealsAreFrontier(hs);
    RootKeeps(hs);
    var f := Frontier(Root(hs));
    forall i | 0 <= i < |texts| ensures History(f[i]) == texts[..i + 1] && KeyedBy(f[i], key) {
      assert f[i] == hs[i] == Leaf(key, texts, i);
      SealCovers(key, texts, i);
    }
  }

  /** The text of an element, read as JSON, is a dictionary of its kind and its payload. */
  lemma TextReads(kind: string, payload: seq<Member>) returns (v: Json)
    requires Dict(Obj(payload))
    ensures ReadValue(CanonicalText(kind, payload)) == Some((v, ""))
    ensures Meaning(v) == MObj(map["kind" := MStr(kind), "payload" := MObj(MeaningFields(payload))])
  {
    var ms := [Member("kind", Str(kind)), Member("payload", Obj(payload))];
    assert ms[0].key != ms[1].key by { assert "kind"[0] != "payload"[0]; }
    v := ReadsBack(Obj(ms), false);
    ElementMeans(kind, payload);
  }

  lemma ElementMeans(kind: string, payload: seq<Member>)
    ensures MeaningFields([Member("kind", Str(kind)), Member("payload", Obj(payload))])
      == map["kind" := MStr(kind), "payload" := MObj(MeaningFields(payload))]
  {
    var k, p := Member("kind", Str(kind)), Member("payload", Obj(payload));
    assert [k, p][1..] == [p] && [p][1..] == [];
    assert MeaningFields([]) == map[];
    assert Meaning(Obj(payload)) == MObj(MeaningFields(payload));
    assert MeaningFields([p]) == map["payload" := MObj(MeaningFields(payload))];
  }

  lemma {:induction false} SealIs(key: Key, texts: seq<string>, i: nat, d: Digest)
    requires i < |texts|
    ensures d == Leaf(key, texts, i) <==> d.Hmac? && KeyedBy(d, key) && History(d) == texts[..i + 1]
  {
    SealCovers(key, texts, i);
    if d.Hmac? && KeyedBy(d, key) && History(d) == texts[..i + 1] {
      var h := History(d);
      assert h[|h| - 1] == d.data && h[..|h| - 1] == History(d.prev);
      assert texts[..i + 1][..i] == texts[..i];
      if i > 0 {
        assert d.prev.Hmac? by { assert History(d.prev) != []; }
        SealIs(key, texts, i - 1, d.prev);
      } else {
        assert History(d.prev) == [];
        assert !d.prev.Hmac?;
      }
    }
  }

  /** Each stored hash is a seal of the texts up to its element. */
  ghost predicate SealsInOrder(es: seq<Element>, key: Key) {
    forall i :: 0 <= i < |es| ==>
      && es[i].elementHash.Hex? && es[i].elementHash.digest.Hmac? && KeyedBy(es[i].elementHash.digest, key)
      && History(es[i].elementHash.digest) == Sealing.Texts(es)[..i + 1]
  }

  /** The stored hashes, decoded. */
  function Stored(es: seq<Element>): seq<Digest>
    requires forall i :: 0 <= i < |es| ==> es[i].elementHash.Hex?
  {
    seq(|es|, i requires 0 <= i < |es| => es[i].elementHash.digest)
  }

  /**
   A snapshot verifies exactly when there is a key and some element, each stored hash is the seal of the texts up to
   its element, and the root hash is the text of the root of the stored hashes.
   */
  lemma VerifiesIs(s: Snapshot, key: Key)
    ensures Verifies(s, key) <==>
      && key != "" && s.elements != [] && SealsInOrder(s.elements, key)
      && s.rootHash == Hex(Root(Stored(s.elements)), true)
  {
    var es, texts := s.elements, Sealing.Texts(s.elements);
    forall i | 0 <= i < |es| && es[i].elementHash.Hex?
      ensures es[i].elementHash.digest == Leaf(key, texts, i) <==>
        es[i].elementHash.digest.Hmac? && KeyedBy(es[i].elementHash.digest, key)
        && History(es[i].elementHash.digest) == texts[..i + 1]
    {
      SealIs(key, texts, i, es[i].elementHash.digest);
    }
    if SealsInOrder(es, key) { assert Stored(es) == Leaves(key, texts); }
    if Verifies(s, key) { assert Stored(es) == Leaves(key, texts); }
  }
}
