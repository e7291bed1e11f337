/**
 What a digest text says: a decoder for base64url (section 5 of RFC 4648) reads the hash back, and an envelope
 verifies exactly when it declares the digest of everything else in it.
 */
module DigestRules {
  import opened Wrappers
  import opened Json
  import opened CanonicalJson
  import opened Digests

  // ---- A decoder ----

  /** The value of a character of the alphabet, by code point: capitals, small letters, digits, `-` and `_`. */
  function SextetValue(c: char): Option<int> {
    var n := c as int;
    if 65 <= n <= 90 then Some(n - 65)
    else if 97 <= n <= 122 then Some(n - 71)
    else if 48 <= n <= 57 then Some(n + 4)
    else if n == 45 then Some(62)
    else if n == 95 then Some(63)
    else None
  }

  /** The first byte of two sextets, the second of the last two of three, the third of the last two of four. */
  function FirstByte(a: int, b: int): int { a * 4 + b / 16 }

  function SecondByte(b: int, c: int): int { b % 16 * 16 + c / 4 }

  function ThirdByte(c: int, d: int): int { c % 4 * 64 + d }

  /** Four characters to three bytes; two or three at the end to one or two. */
  function Decode(t: string): Option<seq<int>> {
    if t == "" then Some([])
    else if |t| == 1 then None
    else match (SextetValue(t[0]), SextetValue(t[1]))
      case (Some(a), Some(b)) =>
        if |t| == 2 then Some([FirstByte(a, b)])
        else (
          match SextetValue(t[2])
          case None => None
          case Some(c) =>
            if |t| == 3 then Some([FirstByte(a, b), SecondByte(b, c)])
            else match (SextetValue(t[3]), Decode(t[4..]))
              case (Some(d), Some(rest)) => Some([FirstByte(a, b), SecondByte(b, c), ThirdByte(c, d)] + rest)
              case _ => None)
      case _ => None
  }

  lemma SextetRead(n: int)
    requires 0 <= n < 64
    ensures SextetValue(Sextet(n)) == Some(n)
  {
    assert Sextet(n) as int == SextetCode(n);
  }

  lemma FourRead(a: int, b: int, c: int, d: int, t: string)
    requires 0 <= a < 64 && 0 <= b < 64 && 0 <= c < 64 && 0 <= d < 64 && Decode(t).Some?
    ensures Decode([Sextet(a), Sextet(b), Sextet(c), Sextet(d)] + t)
      == Some([FirstByte(a, b), SecondByte(b, c), ThirdByte(c, d)] + Decode(t).value)
  {
    SextetRead(a);
    SextetRead(b);
    SextetRead(c);
    SextetRead(d);
    assert ([Sextet(a), Sextet(b), Sextet(c), Sextet(d)] + t)[4..] == t;
  }

  lemma ThreeBytes(x: Byte, y: Byte, z: Byte)
    ensures var a, b, c, d := x / 4, x % 4 * 16 + y / 16, y % 16 * 4 + z / 64, z % 64;
      FirstByte(a, b) == x && SecondByte(b, c) == y && ThirdByte(c, d) == z
  {
  }

  lemma HeadRead(bs: seq<Byte>, t: string)
    requires |bs| >= 3 && Decode(t).Some?
    ensures Decode(Head(bs) + t) == Some([bs[0], bs[1], bs[2]] + Decode(t).value)
  {
    FourRead(bs[0] / 4, bs[0] % 4 * 16 + bs[1] / 16, bs[1] % 16 * 4 + bs[2] / 64, bs[2] % 64, t);
    ThreeBytes(bs[0], bs[1], bs[2]);
  }

  lemma OneRead(x: Byte)
    ensures Decode([Sextet(x / 4), Sextet(x % 4 * 16)]) == Some([x])
  {
    SextetRead(x / 4);
    SextetRead(x % 4 * 16);
    assert FirstByte(x / 4, x % 4 * 16) == x;
  }

  lemma TwoRead(x: Byte, y: Byte)
    ensures Decode([Sextet(x / 4), Sextet(x % 4 * 16 + y / 16), Sextet(y % 16 * 4)]) == Some([x, y])
  {
    var a, b, c := x / 4, x % 4 * 16 + y / 16, y % 16 * 4;
    SextetRead(a);
    SextetRead(b);
    SextetRead(c);
    assert FirstByte(a, b) == x && SecondByte(b, c) == y;
  }

  /** The unpadded encoding decodes to the bytes it was made from. */
  lemma {:induction false} DecodesBack(bs: seq<Byte>)
    ensures Decode(Unpadded(bs)) == Some(bs)
  {
    if |bs| == 1 {
      OneRead(bs[0]);
      assert bs == [bs[0]];
    } else if |bs| == 2 {
      TwoRead(bs[0], bs[1]);
      assert bs == [bs[0], bs[1]];
    } else if |bs| > 2 {
      DecodesBack(bs[3..]);
      HeadRead(bs, Unpadded(bs[3..]));
      assert bs == [bs[0], bs[1], bs[2]] + bs[3..];
    }
  }

  /** A digest names its algorithm, and after the colon decodes to the hash of the canonical text of what it covers. */
  lemma DigestReads(ms: seq<Member>, algorithm: string, h: Hash)
    requires ComputeDigest(ms, algorithm, h).Some?
    ensures exists t, bytes: seq<Byte> ::
      && ComputeDigest(ms, algorithm, h) == Some(algorithm + ":" + t) && Decode(t) == Some(bytes)
      && h(algorithm, Canonical(Obj(Covered(ms)))) == Some(bytes)
    ensures Content(Covered(ms)) == Content(ms)
  {
    var bytes := h(algorithm, Canonical(Obj(Covered(ms)))).value;
    StripsToUnpadded(bytes);
    DecodesBack(bytes);
    assert ComputeDigest(ms, algorithm, h) == Some(algorithm + ":" + Unpadded(bytes));
    CoveredMeaning(ms);
    CoveredMembers(ms);
    CoveredHasNone(ms);
  }

  lemma {:induction false} NoSuchKey(ms: seq<Member>, key: string)
    requires forall m :: m in ms ==> m.key != key
    ensures key !in MeaningFields(ms)
  {
    if ms != [] {
      assert ms[0] in ms && forall m :: m in ms[1..] ==> m in ms;
      NoSuchKey(ms[1..], key);
    }
  }

  lemma CoveredHasNone(ms: seq<Member>)
    ensures Content(Covered(ms)) == MeaningFields(Covered(ms))
  {
    CoveredMembers(ms);
    NoSuchKey(Covered(ms), "digest");
    NoSuchKey(Covered(ms), "signature");
  }

  // ---- Verification ----

  /** The envelope declares this algorithm, or none and it is SHA-256. */
  ghost predicate Declares(declared: seq<Member>, algorithm: string) {
    Get(declared, "algorithm") == Some(Str(algorithm))
    || (Get(declared, "algorithm") == None && algorithm == "sha256")
  }

  /** What the `digest` field holds; nothing, if there is none. */
  ghost predicate Holds(ms: seq<Member>, declared: seq<Member>) {
    Get(ms, "digest") == Some(Obj(declared)) || (Get(ms, "digest") == None && declared == [])
  }

  lemma VerdictIs(ms: seq<Member>, h: Hash, declared: seq<Member>, algorithm: string)
    requires Holds(ms, declared) && Declares(declared, algorithm)
    ensures ComputeDigest(ms, algorithm, h) == None ==> VerifyDigest(ms, h) == Raised
    ensures forall value :: ComputeDigest(ms, algorithm, h) == Some(value) ==>
      VerifyDigest(ms, h) == Verdict(Get(declared, "value") == Some(Str(value)))
  {
    assert GetObject(ms, "digest") == Some(declared);
    assert GetString(declared, "algorithm", "sha256") == Some(algorithm);
  }

  lemma VerdictRests(ms: seq<Member>, h: Hash) returns (declared: seq<Member>, algorithm: string, value: string)
    requires VerifyDigest(ms, h).Verdict?
    ensures Holds(ms, declared) && Declares(declared, algorithm) && ComputeDigest(ms, algorithm, h) == Some(value)
  {
    declared := GetObject(ms, "digest").value;
    algorithm := GetString(declared, "algorithm", "sha256").value;
    value := ComputeDigest(ms, algorithm, h).value;
  }

  /** The digest of the content under the declared algorithm, which is known. */
  ghost predicate IsDigest(value: string, ms: seq<Member>, h: Hash, declared: seq<Member>, algorithm: string) {
    Holds(ms, declared) && Declares(declared, algorithm) && ComputeDigest(ms, algorithm, h) == Some(value)
  }

  /** An envelope verifies exactly when its `digest` holds the digest of its content under the declared algorithm. */
  lemma VerifiesIff(ms: seq<Member>, h: Hash)
    ensures VerifyDigest(ms, h) == Verdict(true) <==>
      exists declared, algorithm, value ::
        IsDigest(value, ms, h, declared, algorithm) && Get(declared, "value") == Some(Str(value))
  {
    if VerifyDigest(ms, h).Verdict? {
      var declared, algorithm, value := VerdictRests(ms, h);
      VerdictIs(ms, h, declared, algorithm);
      assert IsDigest(value, ms, h, declared, algorithm);
    }
    if declared, algorithm, value :|
      IsDigest(value, ms, h, declared, algorithm) && Get(declared, "value") == Some(Str(value))
    {
      VerdictIs(ms, h, declared, algorithm);
    }
  }

  /** It is refused, and nothing raised, exactly when the algorithm is known and the declared value is another one. */
  lemma RefusesIff(ms: seq<Member>, h: Hash)
    ensures VerifyDigest(ms, h) == Verdict(false) <==>
      exists declared, algorithm, value ::
        IsDigest(value, ms, h, declared, algorithm) && Get(declared, "value") != Some(Str(value))
  {
    if VerifyDigest(ms, h).Verdict? {
      var declared, algorithm, value := VerdictRests(ms, h);
      VerdictIs(ms, h, declared, algorithm);
      assert IsDigest(value, ms, h, declared, algorithm);
    }
    if declared, algorithm, value :|
      IsDigest(value, ms, h, declared, algorithm) && Get(declared, "value") != Some(Str(value))
    {
      VerdictIs(ms, h, declared, algorithm);
    }
  }

  lemma {:induction false} CoveredSnoc(ms: seq<Member>, m: Member)
    ensures Covered(ms + [m]) == Covered(ms) + (if m.key in {"digest", "signature"} then [] else [m])
  {
    if ms == [] {
      assert [m][1..] == [];
    } else {
      assert (ms + [m])[1..] == ms[1..] + [m];
      CoveredSnoc(ms[1..], m);
    }
  }

  /** Stamping an envelope with its digest makes it verify; the stamp is not part of what it covers. */
  lemma StampedVerifies(ms: seq<Member>, algorithm: string, h: Hash)
    requires Get(ms, "digest") == None && ComputeDigest(ms, algorithm, h).Some?
    ensures var value := ComputeDigest(ms, algorithm, h).value;
      var stamp := [Member("algorithm", Str(algorithm)), Member("value", Str(value))];
      VerifyDigest(ms + [Member("digest", Obj(stamp))], h) == Verdict(true)
  {
    var value := ComputeDigest(ms, algorithm, h).value;
    var stamp := [Member("algorithm", Str(algorithm)), Member("value", Str(value))];
    var stamped := ms + [Member("digest", Obj(stamp))];
    CoveredSnoc(ms, Member("digest", Obj(stamp)));
    assert Covered(ms) + [] == Covered(ms);
    GetLast(ms, Member("digest", Obj(stamp)));
    assert Get(stamp, "algorithm") == Some(Str(algorithm));
    assert "algorithm"[0] != "value"[0] && stamp[1..] == [Member("value", Str(value))];
    assert Get(stamp, "value") == Some(Str(value));
    assert IsDigest(value, stamped, h, stamp, algorithm);
    VerifiesIff(stamped, h);
  }

  lemma {:induction false} GetLast(ms: seq<Member>, m: Member)
    requires Get(ms, m.key) == None
    ensures Get(ms + [m], m.key) == Some(m.value)
  {
    if ms != [] {
      assert (ms + [m])[1..] == ms[1..] + [m];
      GetLast(ms[1..], m);
    }
  }
}
