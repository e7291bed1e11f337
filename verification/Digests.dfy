/**
 DEP digests: an algorithm name, a colon, and the unpadded base64url of the hash of the canonical text.
 The hash is a parameter that answers nothing for an algorithm it does not know.
 */
module Digests {
  import opened Wrappers
  import opened Json
  import opened CanonicalJson

  type Byte = b: int | 0 <= b < 0x100

  /** From an algorithm name and a text to a hash; nothing for an unknown algorithm. */
  type Hash = (string, string) -> Option<seq<Byte>>

  ghost predicate Injective(h: Hash) {
    forall alg, s, t :: h(alg, s).Some? && h(alg, s) == h(alg, t) ==> s == t
  }

  // ---- base64url (section 5 of RFC 4648) ----

  function Sextet(n: int): char
    requires 0 <= n < 64
  {
    if n < 26 then 'A' + n as char
    else if n < 52 then 'a' + (n - 26) as char
    else if n < 62 then '0' + (n - 52) as char
    else if n == 62 then '-'
    else '_'
  }

  /** `base64.urlsafe_b64encode` */
  function UrlsafeB64(bs: seq<Byte>): string {
    if bs == [] then ""
    else if |bs| == 1 then [Sextet(bs[0] / 4), Sextet(bs[0] % 4 * 16), '=', '=']
    else if |bs| == 2 then [Sextet(bs[0] / 4), Sextet(bs[0] % 4 * 16 + bs[1] / 16), Sextet(bs[1] % 16 * 4), '=']
    else
      [Sextet(bs[0] / 4), Sextet(bs[0] % 4 * 16 + bs[1] / 16), Sextet(bs[1] % 16 * 4 + bs[2] / 64), Sextet(bs[2] % 64)]
      + UrlsafeB64(bs[3..])
  }

  /** `s.rstrip("=")` */
  function StripPadding(s: string): string {
    if s != "" && s[|s| - 1] == '=' then StripPadding(s[..|s| - 1]) else s
  }

  lemma SextetUnique(n: int, m: int)
    requires 0 <= n < 64 && 0 <= m < 64 && Sextet(n) == Sextet(m)
    ensures n == m
  {
    assert Sextet(n) as int == SextetCode(n) && Sextet(m) as int == SextetCode(m);
  }

  function SextetCode(n: int): int {
    if n < 26 then 65 + n else if n < 52 then 71 + n else if n < 62 then n - 4 else if n == 62 then 45 else 95
  }

  lemma SextetPlain(n: int)
    requires 0 <= n < 64
    ensures Sextet(n) != '=' && Sextet(n) != ':'
  {
    assert Sextet(n) as int == SextetCode(n);
  }

  function Head(bs: seq<Byte>): string
    requires |bs| >= 3
  {
    [Sextet(bs[0] / 4), Sextet(bs[0] % 4 * 16 + bs[1] / 16), Sextet(bs[1] % 16 * 4 + bs[2] / 64), Sextet(bs[2] % 64)]
  }

  lemma HeadUnique(a: seq<Byte>, b: seq<Byte>)
    requires |a| >= 3 && |b| >= 3 && Head(a) == Head(b)
    ensures a[..3] == b[..3]
  {
    var s, t := Head(a), Head(b);
    assert s[0] == t[0] && s[1] == t[1] && s[2] == t[2] && s[3] == t[3];
    SextetUnique(a[0] / 4, b[0] / 4);
    SextetUnique(a[0] % 4 * 16 + a[1] / 16, b[0] % 4 * 16 + b[1] / 16);
    SextetUnique(a[1] % 16 * 4 + a[2] / 64, b[1] % 16 * 4 + b[2] / 64);
    SextetUnique(a[2] % 64, b[2] % 64);
  }

  /** The encoding without its padding. */
  function Unpadded(bs: seq<Byte>): string {
    if bs == [] then ""
    else if |bs| == 1 then [Sextet(bs[0] / 4), Sextet(bs[0] % 4 * 16)]
    else if |bs| == 2 then [Sextet(bs[0] / 4), Sextet(bs[0] % 4 * 16 + bs[1] / 16), Sextet(bs[1] % 16 * 4)]
    else Head(bs) + Unpadded(bs[3..])
  }

  lemma {:induction false} StripMiddle(s: string, t: string)
    requires t == "" || StripPadding(t) != ""
    ensures StripPadding(s + t) == if t == "" then StripPadding(s) else s + StripPadding(t)
    decreases |t|
  {
    if t == "" {
      assert s + t == s;
    } else if t[|t| - 1] == '=' {
      assert (s + t)[..|s + t| - 1] == s + t[..|t| - 1];
      StripMiddle(s, t[..|t| - 1]);
    }
  }

  lemma {:induction false} StripsToUnpadded(bs: seq<Byte>)
    ensures StripPadding(UrlsafeB64(bs)) == Unpadded(bs)
    ensures bs != [] ==> Unpadded(bs) != ""
  {
    if |bs| == 1 {
      StripTwo(Sextet(bs[0] / 4), Sextet(bs[0] % 4 * 16));
    } else if |bs| == 2 {
      SextetPlain(bs[1] % 16 * 4);
      StripOne(UrlsafeB64(bs), Unpadded(bs));
    } else if |bs| > 2 {
      StripsToUnpadded(bs[3..]);
      assert UrlsafeB64(bs) == Head(bs) + UrlsafeB64(bs[3..]);
      StripMiddle(Head(bs), UrlsafeB64(bs[3..]));
      SextetPlain(bs[2] % 64);
      if |bs| == 3 {
        assert Head(bs) + "" == Head(bs);
      }
    }
  }

  lemma StripOne(s: string, t: string)
    requires t != "" && t[|t| - 1] != '=' && s == t + "="
    ensures StripPadding(s) == t
  {
    assert s[..|s| - 1] == t;
  }

  lemma StripTwo(c: char, d: char)
    requires d != '='
    ensures StripPadding([c, d, '=', '=']) == [c, d]
  {
    StripOne([c, d, '='], [c, d]);
    assert [c, d, '=', '='][..3] == [c, d, '='];
  }

  lemma {:induction false} UnpaddedLength(bs: seq<Byte>)
    ensures |Unpadded(bs)| == |bs| / 3 * 4 + (if |bs| % 3 == 0 then 0 else |bs| % 3 + 1)
  {
    if |bs| > 2 { UnpaddedLength(bs[3..]); }
  }

  /** Dropping the padding loses nothing: the length of the text decides it. */
  lemma {:induction false} UnpaddedUnique(a: seq<Byte>, b: seq<Byte>)
    requires Unpadded(a) == Unpadded(b)
    ensures a == b
  {
    UnpaddedLength(a);
    UnpaddedLength(b);
    assert |a| == |b|;
    var s, t := Unpadded(a), Unpadded(b);
    if |a| > 2 {
      assert Head(a) == s[..4] == t[..4] == Head(b);
      assert Unpadded(a[3..]) == s[4..] == t[4..] == Unpadded(b[3..]);
      HeadUnique(a, b);
      UnpaddedUnique(a[3..], b[3..]);
      assert a == a[..3] + a[3..] && b == b[..3] + b[3..];
    } else if |a| == 2 {
      assert s[0] == t[0] && s[1] == t[1] && s[2] == t[2];
      TwoUnique(a, b);
    } else if |a| == 1 {
      assert s[0] == t[0] && s[1] == t[1];
      SextetUnique(a[0] / 4, b[0] / 4);
      SextetUnique(a[0] % 4 * 16, b[0] % 4 * 16);
    }
  }

  lemma TwoUnique(a: seq<Byte>, b: seq<Byte>)
    requires |a| == |b| == 2 && Unpadded(a) == Unpadded(b)
    ensures a == b
  {
    var s, t := Unpadded(a), Unpadded(b);
    assert s[0] == t[0] && s[1] == t[1] && s[2] == t[2];
    SextetUnique(a[0] / 4, b[0] / 4);
    SextetUnique(a[0] % 4 * 16 + a[1] / 16, b[0] % 4 * 16 + b[1] / 16);
    SextetUnique(a[1] % 16 * 4, b[1] % 16 * 4);
  }

  // ---- compute_digest and verify_digest ----

  /** The envelope without the two fields a digest cannot cover. */
  function Covered(ms: seq<Member>): seq<Member> {
    if ms == [] then []
    else if ms[0].key == "digest" || ms[0].key == "signature" then Covered(ms[1..])
    else [ms[0]] + Covered(ms[1..])
  }

  /** What an envelope says apart from `digest` and `signature`, whatever the order of its keys. */
  function Content(ms: seq<Member>): map<string, Meant> {
    MeaningFields(ms) - {"digest", "signature"}
  }

  /** Nothing stands for the `ValueError` an unknown algorithm raises. */
  function ComputeDigest(ms: seq<Member>, algorithm: string, h: Hash): Option<string> {
    match h(algorithm, Canonical(Obj(Covered(ms))))
    case None => None
    case Some(bytes) => Some(algorithm + ":" + StripPadding(UrlsafeB64(bytes)))
  }

  lemma {:induction false} CoveredMembers(ms: seq<Member>)
    ensures forall m :: m in Covered(ms) <==> m in ms && m.key != "digest" && m.key != "signature"
  {
    if ms != [] {
      CoveredMembers(ms[1..]);
      assert ms == [ms[0]] + ms[1..];
    }
  }

  lemma {:induction false} CoveredUniqueKeys(ms: seq<Member>)
    requires UniqueKeys(ms)
    ensures UniqueKeys(Covered(ms))
  {
    if ms != [] {
      assert forall i :: 0 < i < |ms| ==> ms[i] == ms[1..][i - 1];
      CoveredUniqueKeys(ms[1..]);
      CoveredMembers(ms[1..]);
      var rest := Covered(ms[1..]);
      forall i | 0 <= i < |rest| ensures rest[i].key != ms[0].key {
        assert rest[i] in rest;
        var k :| 0 <= k < |ms[1..]| && ms[1..][k] == rest[i];
        assert ms[k + 1] == rest[i];
      }
    }
  }

  lemma CoveredDict(ms: seq<Member>)
    requires Dict(Obj(ms))
    ensures Dict(Obj(Covered(ms)))
  {
    CoveredUniqueKeys(ms);
    CoveredMembers(ms);
    forall i | 0 <= i < |Covered(ms)| ensures Dict(Covered(ms)[i].value) {
      assert Covered(ms)[i] in ms;
    }
  }

  lemma {:induction false} CoveredMeaning(ms: seq<Member>)
    ensures MeaningFields(Covered(ms)) == Content(ms)
  {
    if ms != [] {
      CoveredMeaning(ms[1..]);
    }
  }

  lemma ColonAt(a: string, x: string)
    requires ':' !in a
    ensures var p := a + ":" + x; p[|a|] == ':' && forall i :: 0 <= i < |a| ==> p[i] != ':'
  {
    forall i | 0 <= i < |a| ensures (a + ":" + x)[i] != ':' {
      assert (a + ":" + x)[i] == a[i] && a[i] in a;
    }
  }

  lemma FirstColon(a: string, b: string, x: string, y: string)
    requires ':' !in a && ':' !in b && a + ":" + x == b + ":" + y
    ensures a == b && x == y
  {
    var p, q := a + ":" + x, b + ":" + y;
    ColonAt(a, x);
    ColonAt(b, y);
    assert a == p[..|a|] && b == q[..|b|] && x == p[|a| + 1..] && y == q[|b| + 1..];
  }

  /** Under an injective hash a digest names one algorithm and one content, and only those. */
  lemma DigestDecidesContent(a: seq<Member>, alg: string, b: seq<Member>, alg': string, h: Hash)
    requires Injective(h) && Dict(Obj(a)) && Dict(Obj(b)) && ':' !in alg && ':' !in alg'
    requires ComputeDigest(a, alg, h).Some? && ComputeDigest(b, alg', h).Some?
    ensures ComputeDigest(a, alg, h) == ComputeDigest(b, alg', h) <==> alg == alg' && Content(a) == Content(b)
  {
    CoveredDict(a);
    CoveredDict(b);
    CoveredMeaning(a);
    CoveredMeaning(b);
    var s, t := Canonical(Obj(Covered(a))), Canonical(Obj(Covered(b)));
    TextDecidesMeaning(Obj(Covered(a)), Obj(Covered(b)), true);
    var x, y := h(alg, s).value, h(alg', t).value;
    StripsToUnpadded(x);
    StripsToUnpadded(y);
    if ComputeDigest(a, alg, h) == ComputeDigest(b, alg', h) {
      FirstColon(alg, alg', Unpadded(x), Unpadded(y));
      UnpaddedUnique(x, y);
      assert h(alg, s) == h(alg, t);
    }
  }

  datatype Check = Verdict(matches: bool) | Raised

  /** `d.get(key, default)` where the program goes on to use the answer as a string. */
  function GetString(ms: seq<Member>, key: string, default: string): Option<string> {
    match Get(ms, key)
    case None => Some(default)
    case Some(Str(s)) => Some(s)
    case _ => None
  }

  /** `d.get(key, {})` where the program goes on to use the answer as a dictionary. */
  function GetObject(ms: seq<Member>, key: string): Option<seq<Member>> {
    match Get(ms, key)
    case None => Some([])
    case Some(Obj(inner)) => Some(inner)
    case _ => None
  }

  /** `verify_digest`: compare the declared value with a recomputation under the declared algorithm. */
  function VerifyDigest(ms: seq<Member>, h: Hash): Check {
    match GetObject(ms, "digest")
    case None => Raised
    case Some(declared) =>
      match GetString(declared, "algorithm", "sha256")
      case None => Raised
      case Some(algorithm) =>
        match ComputeDigest(ms, algorithm, h)
        case None => Raised
        case Some(expected) => Verdict(Get(declared, "value") == Some(Str(expected)))
  }

  /** Two envelopes that verify and declare the same digest value hold the same content. */
  lemma VerifiedSameDigestSameContent(a: seq<Member>, b: seq<Member>, h: Hash)
    requires Injective(h) && Dict(Obj(a)) && Dict(Obj(b))
    requires VerifyDigest(a, h) == Verdict(true) && VerifyDigest(b, h) == Verdict(true)
    requires forall alg, s :: h(alg, s).Some? ==> ':' !in alg
    requires Get(GetObject(a, "digest").value, "value") == Get(GetObject(b, "digest").value, "value")
    ensures Content(a) == Content(b)
  {
    var alg := GetString(GetObject(a, "digest").value, "algorithm", "sha256").value;
    var alg' := GetString(GetObject(b, "digest").value, "algorithm", "sha256").value;
    assert h(alg, Canonical(Obj(Covered(a)))).Some? && h(alg', Canonical(Obj(Covered(b)))).Some?;
    DigestDecidesContent(a, alg, b, alg', h);
  }
}
