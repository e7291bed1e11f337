/**
 Sealed snapshots: an HMAC chain (section 2 of RFC 2104) over the elements, folded pairwise into one root.
 Hashes are symbolic, so two digests are equal only when they were computed from equal inputs.
 */
module Snapshot {
  import opened Wrappers
  import opened Json
  import opened CanonicalJson

  type Key = string

  // Zero is the 32 zero bytes the chain starts from.
  datatype Digest = Zero | Hmac(key: Key, prev: Digest, data: string) | Sha(left: Digest, right: Digest)

  /**
   A stored hash as text. `Hex` decodes to 32 bytes; it is `lower` when it is the very text `bytes.hex()`
   writes. `NotAscii` text makes `hmac.compare_digest` raise when it is compared as text.
   */
  datatype HashText = Empty | Malformed | WrongLength | NotAscii | Hex(digest: Digest, lower: bool)

  datatype Element = Element(kind: string, payload: seq<Member>, elementHash: HashText)

  datatype Snapshot = Snapshot(elements: seq<Element>, rootHash: HashText)

  datatype Verdict = Valid | Invalid | Raised

  /** `CapturedElement.canonical_bytes`: it covers kind and payload, not the stored hash. */
  function CanonicalText(kind: string, payload: seq<Member>): string {
    Text(Obj([Member("kind", Str(kind)), Member("payload", Obj(payload))]), false)
  }

  function Texts(es: seq<Element>): seq<string> {
    seq(|es|, i requires 0 <= i < |es| => CanonicalText(es[i].kind, es[i].payload))
  }

  /** `_seal_element` applied along the list: each seal covers the previous one. */
  function Leaf(key: Key, texts: seq<string>, i: nat): Digest
    requires i < |texts|
  {
    Hmac(key, if i == 0 then Zero else Leaf(key, texts, i - 1), texts[i])
  }

  function Leaves(key: Key, texts: seq<string>): seq<Digest> {
    seq(|texts|, i requires 0 <= i < |texts| => Leaf(key, texts, i))
  }

  /** One level of the fold; an odd last node is paired with itself. */
  function NextRound(hs: seq<Digest>): (r: seq<Digest>)
    ensures |r| == (|hs| + 1) / 2
  {
    if hs == [] then []
    else if |hs| == 1 then [Sha(hs[0], hs[0])]
    else [Sha(hs[0], hs[1])] + NextRound(hs[2..])
  }

  function Root(hs: seq<Digest>): Digest
    requires hs != []
    decreases |hs|
  {
    if |hs| == 1 then hs[0] else Root(NextRound(hs))
  }

  // ---- The code ----

  /** The inner loop of `_compute_root_hash`. */
  method FoldOnce(current: seq<Digest>) returns (nextRound: seq<Digest>)
    ensures nextRound == NextRound(current)
  {
    nextRound := [];
    var i := 0;
    while i < |current|
      invariant 0 <= i <= |current| + 1 && i == 2 * |nextRound|
      invariant forall k :: 0 <= k < |nextRound| ==>
        nextRound[k] == Sha(current[2 * k], if 2 * k + 1 < |current| then current[2 * k + 1] else current[2 * k])
    {
      var left := current[i];
      var right := if i + 1 < |current| then current[i + 1] else current[i];
      nextRound := nextRound + [Sha(left, right)];
      i := i + 2;
    }
    forall k | 0 <= k < |nextRound| ensures nextRound[k] == NextRound(current)[k] {
      NextRoundAt(current, k);
    }
  }

  /** `_compute_root_hash`; nothing stands for the `ValueError` of an empty list. */
  method ComputeRootHash(hashes: seq<Digest>) returns (r: Option<Digest>)
    ensures r == if hashes == [] then None else Some(Root(hashes))
  {
    if hashes == [] {
      return None;
    }
    var current := hashes;
    while |current| > 1
      invariant current != [] && Root(current) == Root(hashes)
      decreases |current|
    {
      current := FoldOnce(current);
    }
    return Some(current[0]);
  }

  /** Every stored hash decodes to the seal at its place. */
  ghost predicate Chained(es: seq<Element>, texts: seq<string>, key: Key)
    requires |es| == |texts|
  {
    forall i {:trigger es[i]} :: 0 <= i < |es| ==>
      es[i].elementHash.Hex? && es[i].elementHash.digest == Leaf(key, texts, i)
  }

  ghost predicate ChainHolds(s: Snapshot, key: Key) {
    key != "" && s.elements != [] && Chained(s.elements, Texts(s.elements), key)
  }

  /** What a valid snapshot is. */
  ghost predicate Verifies(s: Snapshot, key: Key) {
    ChainHolds(s, key) && s.rootHash == Hex(Root(Leaves(key, Texts(s.elements))), true)
  }

  /** Each seal covers the one before it. */
  ghost predicate IsChain(key: Key, texts: seq<string>, hs: seq<Digest>) {
    |hs| <= |texts| && forall k {:trigger texts[k]} :: 0 <= k < |hs| ==>
      hs[k] == Hmac(key, if k == 0 then Zero else hs[k - 1], texts[k])
  }

  lemma {:induction false} ChainIsLeaf(key: Key, texts: seq<string>, hs: seq<Digest>, i: nat)
    requires IsChain(key, texts, hs) && i < |hs|
    ensures hs[i] == Leaf(key, texts, i)
  {
    assert hs[i] == Hmac(key, if i == 0 then Zero else hs[i - 1], texts[i]);
    if i > 0 { ChainIsLeaf(key, texts, hs, i - 1); }
  }

  lemma ChainIsLeaves(key: Key, texts: seq<string>, hs: seq<Digest>)
    requires IsChain(key, texts, hs) && |hs| == |texts|
    ensures hs == Leaves(key, texts)
  {
    forall i | 0 <= i < |hs| ensures hs[i] == Leaf(key, texts, i) {
      ChainIsLeaf(key, texts, hs, i);
    }
  }

  /** The loop of `verify_snapshot`: the recomputed seals, or nothing when a stored hash differs. */
  method RecomputeChain(es: seq<Element>, texts: seq<string>, key: Key) returns (r: Option<seq<Digest>>)
    requires |es| == |texts|
    ensures r == if Chained(es, texts, key) then Some(Leaves(key, texts)) else None
  {
    var prev := Zero;
    var recomputed: seq<Digest> := [];
    for i := 0 to |es|
      invariant |recomputed| == i && IsChain(key, texts, recomputed)
      invariant prev == if i == 0 then Zero else recomputed[i - 1]
      invariant forall k :: 0 <= k < i ==> es[k].elementHash.Hex? && es[k].elementHash.digest == recomputed[k]
    {
      var h := Hmac(key, prev, texts[i]);
      recomputed := recomputed + [h];
      var stored := es[i].elementHash;
      if !stored.Hex? || stored.digest != h {
        ChainIsLeaf(key, texts, recomputed, i);
        return None;
      }
      prev := h;
    }
    ChainIsLeaves(key, texts, recomputed);
    return Some(recomputed);
  }

  /** `verify_snapshot` */
  method VerifySnapshot(s: Snapshot, key: Key) returns (v: Verdict)
    ensures v == Valid <==> Verifies(s, key)
    ensures v == Raised <==> ChainHolds(s, key) && s.rootHash == NotAscii
  {
    if key == "" || s.elements == [] {
      return Invalid;
    }
    var recomputed := RecomputeChain(s.elements, Texts(s.elements), key);
    if recomputed.None? || s.rootHash == Empty {
      return Invalid;
    }
    var root := ComputeRootHash(recomputed.value);
    if s.rootHash == NotAscii {
      return Raised;
    }
    return if s.rootHash == Hex(root.value, true) then Valid else Invalid;
  }

  /** The sealing loop of `build_snapshot`: the sealed elements and their seals. */
  method SealChain(elements: seq<(string, seq<Member>)>, texts: seq<string>, secret: Key)
    returns (sealed: seq<Element>, hashes: seq<Digest>)
    requires |texts| == |elements|
    ensures hashes == Leaves(secret, texts) && |sealed| == |elements|
    ensures forall k :: 0 <= k < |elements| ==> sealed[k] == Element(elements[k].0, elements[k].1, Hex(hashes[k], true))
  {
    var prev := Zero;
    hashes, sealed := [], [];
    for i := 0 to |elements|
      invariant |hashes| == |sealed| == i && IsChain(secret, texts, hashes)
      invariant forall k :: 0 <= k < i ==> sealed[k] == Element(elements[k].0, elements[k].1, Hex(hashes[k], true))
      invariant prev == if i == 0 then Zero else hashes[i - 1]
    {
      var h := Hmac(secret, prev, texts[i]);
      hashes := hashes + [h];
      sealed := sealed + [Element(elements[i].0, elements[i].1, Hex(h, true))];
      prev := h;
    }
    ChainIsLeaves(secret, texts, hashes);
  }

  /** The end of `build_snapshot`; nothing stands for the `ValueError` of a scenario without nodes. */
  method SealElements(elements: seq<(string, seq<Member>)>, secret: Key) returns (r: Option<Snapshot>)
    ensures r.None? <==> elements == []
    ensures r.Some? ==>
      && |r.value.elements| == |elements|
      && (forall i :: 0 <= i < |elements| ==> (r.value.elements[i].kind, r.value.elements[i].payload) == elements[i])
      && (secret != "" ==> Verifies(r.value, secret))
  {
    var texts := seq(|elements|, i requires 0 <= i < |elements| => CanonicalText(elements[i].0, elements[i].1));
    var sealed, hashes := SealChain(elements, texts, secret);
    var root := ComputeRootHash(hashes);
    if root.None? {
      return None;
    }
    assert Texts(sealed) == texts;
    return Some(Snapshot(sealed, Hex(root.value, true)));
  }

  /** Sealing and then verifying under the same key always succeeds. */
  method SealThenVerify(elements: seq<(string, seq<Member>)>, secret: Key) returns (v: Verdict)
    requires elements != [] && secret != ""
    ensures v == Valid
  {
    var s := SealElements(elements, secret);
    v := VerifySnapshot(s.value, secret);
  }

  // ---- What a root decides ----

  function Height(d: Digest): nat {
    if d.Sha? then 1 + Height(d.left) else 0
  }

  ghost predicate Level(hs: seq<Digest>, h: nat) {
    forall i :: 0 <= i < |hs| ==> Height(hs[i]) == h
  }

  ghost predicate Distinct(hs: seq<Digest>) {
    forall i, j :: 0 <= i < j < |hs| ==> hs[i] != hs[j]
  }

  lemma {:induction false} NextRoundAt(hs: seq<Digest>, k: nat)
    requires k < |NextRound(hs)|
    ensures NextRound(hs)[k] == Sha(hs[2 * k], if 2 * k + 1 < |hs| then hs[2 * k + 1] else hs[2 * k])
  {
    if |hs| > 1 && k > 0 {
      NextRoundAt(hs[2..], k - 1);
    }
  }

  lemma NextRoundLevel(hs: seq<Digest>, h: nat)
    requires Level(hs, h)
    ensures Level(NextRound(hs), h + 1)
  {
    forall k | 0 <= k < |NextRound(hs)| ensures Height(NextRound(hs)[k]) == h + 1 {
      NextRoundAt(hs, k);
    }
  }

  lemma NextRoundDistinct(hs: seq<Digest>)
    requires Distinct(hs)
    ensures Distinct(NextRound(hs))
  {
    forall i, j | 0 <= i < j < |NextRound(hs)| ensures NextRound(hs)[i] != NextRound(hs)[j] {
      NextRoundAt(hs, i);
      NextRoundAt(hs, j);
    }
  }

  /** The root of a longer list lies higher than its leaves. */
  lemma {:induction false} RootHeight(hs: seq<Digest>, h: nat)
    requires hs != [] && Level(hs, h)
    ensures Height(Root(hs)) >= h && (|hs| > 1 <==> Height(Root(hs)) > h)
    decreases |hs|
  {
    if |hs| > 1 {
      NextRoundLevel(hs, h);
      RootHeight(NextRound(hs), h + 1);
    }
  }

  /** Padding cannot be mistaken for a node when no node occurs twice. */
  lemma NextRoundUnique(a: seq<Digest>, b: seq<Digest>)
    requires Distinct(a) && Distinct(b) && NextRound(a) == NextRound(b)
    ensures a == b
  {
    var n := |NextRound(a)|;
    if n > 0 {
      NextRoundAt(a, n - 1);
      NextRoundAt(b, n - 1);
      assert |a| == |b|;
      forall i | 0 <= i < |a| ensures a[i] == b[i] {
        NextRoundAt(a, i / 2);
        NextRoundAt(b, i / 2);
      }
    }
  }

  /** The fold is injective on lists of one level without duplicates, even across lengths. */
  lemma {:induction false} RootUnique(a: seq<Digest>, b: seq<Digest>, h: nat)
    requires a != [] && b != [] && Level(a, h) && Level(b, h) && Distinct(a) && Distinct(b)
    requires Root(a) == Root(b)
    ensures a == b
    decreases |a|
  {
    RootHeight(a, h);
    RootHeight(b, h);
    if |a| > 1 {
      NextRoundLevel(a, h);
      NextRoundLevel(b, h);
      NextRoundDistinct(a);
      NextRoundDistinct(b);
      RootUnique(NextRound(a), NextRound(b), h + 1);
      NextRoundUnique(a, b);
    }
  }

  /** With repeated nodes the padding is ambiguous: two different lists fold to one root. */
  lemma PaddingIsAmbiguous(x: Digest, y: Digest, z: Digest)
    ensures Root([x, y, z]) == Root([x, y, z, z]) && [x, y, z] != [x, y, z, z]
  {
    assert [x, y, z][2..] == [z] && [x, y, z, z][2..] == [z, z];
    assert [z, z][2..] == [] && [z][..] == [z];
    assert NextRound([x, y, z]) == [Sha(x, y), Sha(z, z)];
    assert NextRound([x, y, z, z]) == [Sha(x, y), Sha(z, z)];
  }

  function ChainLength(d: Digest): nat {
    if d.Hmac? then 1 + ChainLength(d.prev) else 0
  }

  lemma {:induction false} LeafLength(key: Key, texts: seq<string>, i: nat)
    requires i < |texts|
    ensures ChainLength(Leaf(key, texts, i)) == i + 1
  {
    if i > 0 { LeafLength(key, texts, i - 1); }
  }

  /** Chaining makes every leaf different, equal elements included. */
  lemma LeavesDistinct(key: Key, texts: seq<string>)
    ensures Distinct(Leaves(key, texts)) && Level(Leaves(key, texts), 0)
  {
    forall i, j | 0 <= i < j < |texts| ensures Leaf(key, texts, i) != Leaf(key, texts, j) {
      LeafLength(key, texts, i);
      LeafLength(key, texts, j);
    }
  }

  /** Under one key, one root stands for one list of texts of one length in one order. */
  lemma RootDecidesTexts(key: Key, s: seq<string>, t: seq<string>)
    requires s != [] && t != [] && Root(Leaves(key, s)) == Root(Leaves(key, t))
    ensures s == t
  {
    LeavesDistinct(key, s);
    LeavesDistinct(key, t);
    RootUnique(Leaves(key, s), Leaves(key, t), 0);
    assert |Leaves(key, s)| == |Leaves(key, t)|;
    forall i | 0 <= i < |s| ensures s[i] == t[i] {
      assert Leaves(key, s)[i].data == s[i] && Leaves(key, t)[i].data == t[i];
    }
  }

  predicate DictSnapshot(s: Snapshot) {
    forall i :: 0 <= i < |s.elements| ==> Dict(Obj(s.elements[i].payload))
  }

  /** Two snapshots that verify under one key and share a root hold the same kinds and payloads in the same order. */
  lemma RootDecidesElements(s: Snapshot, t: Snapshot, key: Key)
    requires DictSnapshot(s) && DictSnapshot(t)
    requires Verifies(s, key) && Verifies(t, key) && s.rootHash == t.rootHash
    ensures |s.elements| == |t.elements|
    ensures forall i :: 0 <= i < |s.elements| ==>
      && s.elements[i].kind == t.elements[i].kind
      && MeaningFields(s.elements[i].payload) == MeaningFields(t.elements[i].payload)
  {
    RootDecidesTexts(key, Texts(s.elements), Texts(t.elements));
    assert |Texts(s.elements)| == |Texts(t.elements)|;
    forall i | 0 <= i < |s.elements|
      ensures s.elements[i].kind == t.elements[i].kind
      ensures MeaningFields(s.elements[i].payload) == MeaningFields(t.elements[i].payload)
    {
      assert Texts(s.elements)[i] == Texts(t.elements)[i];
      CanonicalTextUnique(s.elements[i].kind, s.elements[i].payload, t.elements[i].kind, t.elements[i].payload);
    }
  }

  lemma CanonicalTextUnique(kind: string, payload: seq<Member>, kind': string, payload': seq<Member>)
    requires Dict(Obj(payload)) && Dict(Obj(payload'))
    requires CanonicalText(kind, payload) == CanonicalText(kind', payload')
    ensures kind == kind' && MeaningFields(payload) == MeaningFields(payload')
  {
    var a := [Member("kind", Str(kind)), Member("payload", Obj(payload))];
    var b := [Member("kind", Str(kind')), Member("payload", Obj(payload'))];
    assert a[0].key != a[1].key && b[0].key != b[1].key by { assert "kind"[0] != "payload"[0]; }
    TextDecidesMeaning(Obj(a), Obj(b), false);
    FieldsAt(a);
    FieldsAt(b);
    assert MeaningFields(a)[a[0].key] == MStr(kind) && MeaningFields(b)[b[0].key] == MStr(kind');
    assert MeaningFields(a)[a[1].key] == MObj(MeaningFields(payload))
      && MeaningFields(b)[b[1].key] == MObj(MeaningFields(payload'));
  }

  /** Changing one element's content breaks verification of the sealed root. */
  lemma TamperingIsDetected(s: Snapshot, i: nat, kind: string, payload: seq<Member>, h: HashText, key: Key)
    requires DictSnapshot(s) && Verifies(s, key) && i < |s.elements| && Dict(Obj(payload))
    requires s.elements[i].kind != kind || MeaningFields(s.elements[i].payload) != MeaningFields(payload)
    ensures !Verifies(s.(elements := s.elements[i := Element(kind, payload, h)]), key)
  {
    var t := s.(elements := s.elements[i := Element(kind, payload, h)]);
    assert t.elements[i] == Element(kind, payload, h);
    if Verifies(t, key) {
      RootDecidesElements(s, t, key);
      assert false;
    }
  }
}
