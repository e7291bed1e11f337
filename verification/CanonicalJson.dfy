/**
 The canonical form decides content: two values print the same text exactly when they mean the same,
 whatever order their dictionaries were filled in. The proof reads printed text from the left: no
 printed value is a proper prefix of another continued by a separator.
 */
module CanonicalJson {
  import opened Wrappers
  import opened Json

  /** `canonical_json`: every character outside printable ASCII is escaped, so encoding it is the identity. */
  function Canonical(j: Json): string {
    Text(j, true)
  }

  // ---- Strings ----

  lemma HexDigitUnique(a: int, b: int)
    requires 0 <= a < 16 && 0 <= b < 16 && HexDigit(a) == HexDigit(b)
    ensures a == b
  {
    assert HexDigit(a) as int == (if a < 10 then 48 + a else 87 + a);
    assert HexDigit(b) as int == (if b < 10 then 48 + b else 87 + b);
  }

  lemma Hex4Value(a: int)
    requires 0 <= a < 0x10000
    ensures a == a / 0x1000 * 0x1000 + a / 0x100 % 0x10 * 0x100 + a / 0x10 % 0x10 * 0x10 + a % 0x10
  {
    assert a / 0x100 == a / 0x1000 * 0x10 + a / 0x100 % 0x10;
    assert a / 0x10 == a / 0x100 * 0x10 + a / 0x10 % 0x10;
  }

  lemma Hex4Unique(a: int, b: int)
    requires 0 <= a < 0x10000 && 0 <= b < 0x10000 && Hex4(a) == Hex4(b)
    ensures a == b
  {
    var s, t := Hex4(a), Hex4(b);
    assert s[0] == t[0] && s[1] == t[1] && s[2] == t[2] && s[3] == t[3];
    HexDigitUnique(a / 0x1000, b / 0x1000);
    HexDigitUnique(a / 0x100 % 0x10, b / 0x100 % 0x10);
    HexDigitUnique(a / 0x10 % 0x10, b / 0x10 % 0x10);
    HexDigitUnique(a % 0x10, b % 0x10);
    Hex4Value(a);
    Hex4Value(b);
  }

  /** The first UTF-16 unit of an escaped character, and the number of escapes it needs. */
  function Unit(c: char): int {
    if c as int < 0x10000 then c as int else 0xD800 + (c as int - 0x10000) / 0x400
  }

  predicate IsLong(c: char, ascii: bool) {
    c !in "\"\\\n\r\t\U{0C}\U{08}" && (c < ' ' || (ascii && '~' < c))
  }

  lemma LongForm(c: char, ascii: bool)
    requires IsLong(c, ascii)
    ensures 0 <= Unit(c) < 0x10000 && |Escape(c, ascii)| >= 6
    ensures Escape(c, ascii)[..2] == "\\u" && Escape(c, ascii)[2..6] == Hex4(Unit(c))
    ensures c as int < 0x10000 ==> |Escape(c, ascii)| == 6
    ensures c as int >= 0x10000 ==>
      && |Escape(c, ascii)| == 12
      && 0 <= (c as int - 0x10000) % 0x400 < 0x400
      && Escape(c, ascii)[8..12] == Hex4(0xDC00 + (c as int - 0x10000) % 0x400)
  {
  }

  lemma ShortForm(c: char, ascii: bool)
    requires !IsLong(c, ascii)
    ensures c in "\"\\\n\r\t\U{0C}\U{08}" ==>
      |Escape(c, ascii)| == 2 && Escape(c, ascii)[0] == '\\' && Escape(c, ascii)[1] != 'u'
    ensures c !in "\"\\\n\r\t\U{0C}\U{08}" ==> Escape(c, ascii) == [c] && c != '\\'
  {
  }

  predicate Agree(a: string, b: string) {
    forall i :: 0 <= i < |a| && i < |b| ==> a[i] == b[i]
  }

  lemma AgreeWhenContinued(a: string, b: string, u: string, v: string)
    requires a + u == b + v
    ensures Agree(a, b)
  {
    forall i | 0 <= i < |a| && i < |b| ensures a[i] == b[i] {
      assert (a + u)[i] == (b + v)[i];
    }
  }

  lemma Cancel(a: string, u: string, v: string)
    requires a + u == a + v
    ensures u == v
  {
    assert u == (a + u)[|a|..] && v == (a + v)[|a|..];
  }

  lemma LongAgree(c: char, d: char, ascii: bool)
    requires IsLong(c, ascii) && IsLong(d, ascii) && Agree(Escape(c, ascii), Escape(d, ascii))
    ensures c == d
  {
    LongForm(c, ascii);
    LongForm(d, ascii);
    var p, q := Escape(c, ascii), Escape(d, ascii);
    assert p[2..6] == q[2..6];
    Hex4Unique(Unit(c), Unit(d));
    if c as int >= 0x10000 && d as int >= 0x10000 {
      assert p[8..12] == q[8..12];
      Hex4Unique(0xDC00 + (c as int - 0x10000) % 0x400, 0xDC00 + (d as int - 0x10000) % 0x400);
    }
    assert c as int == d as int;
  }

  /** No escaped character is a prefix of another. */
  lemma EscapePrefixFree(c: char, d: char, ascii: bool)
    requires Agree(Escape(c, ascii), Escape(d, ascii))
    ensures c == d
  {
    var p, q := Escape(c, ascii), Escape(d, ascii);
    if IsLong(c, ascii) {
      LongForm(c, ascii);
      assert p[0] == p[..2][0] && p[1] == p[..2][1];
    } else {
      ShortForm(c, ascii);
    }
    if IsLong(d, ascii) {
      LongForm(d, ascii);
      assert q[0] == q[..2][0] && q[1] == q[..2][1];
    } else {
      ShortForm(d, ascii);
    }
    assert p[0] == q[0];
    assert |p| > 1 && |q| > 1 ==> p[1] == q[1];
    if IsLong(c, ascii) && IsLong(d, ascii) {
      LongAgree(c, d, ascii);
    }
  }

  lemma EscapeHead(c: char, ascii: bool)
    ensures |Escape(c, ascii)| > 0 && Escape(c, ascii)[0] != '\"'
  {
    if IsLong(c, ascii) { LongForm(c, ascii); } else { ShortForm(c, ascii); }
  }

  lemma StringSplit(s: string, x: string, ascii: bool)
    requires s != ""
    ensures EscapeAll(s, ascii) + ("\"" + x) == Escape(s[0], ascii) + (EscapeAll(s[1..], ascii) + ("\"" + x))
  {
    var e, p := Escape(s[0], ascii), EscapeAll(s[1..], ascii);
    assert EscapeAll(s, ascii) == e + p;
    assert e + p + ("\"" + x) == e + (p + ("\"" + x));
  }

  /** A literal's characters followed by its closing quote never start with that quote early. */
  lemma StringHead(s: string, x: string, ascii: bool)
    ensures var p := EscapeAll(s, ascii) + ("\"" + x); |p| > 0 && (p[0] == '\"' <==> s == "")
  {
    if s != "" {
      EscapeHead(s[0], ascii);
      StringSplit(s, x, ascii);
    }
  }

  /** A literal's characters followed by its closing quote decide the string. */
  lemma {:induction false} StringUnique(s: string, t: string, x: string, y: string, ascii: bool)
    requires EscapeAll(s, ascii) + ("\"" + x) == EscapeAll(t, ascii) + ("\"" + y)
    ensures s == t && x == y
  {
    StringHead(s, x, ascii);
    StringHead(t, y, ascii);
    if s == "" {
      assert "" + ("\"" + x) == "\"" + x && "" + ("\"" + y) == "\"" + y;
      Cancel("\"", x, y);
    } else {
      StringSplit(s, x, ascii);
      StringSplit(t, y, ascii);
      StringStep(s[0], t[0], EscapeAll(s[1..], ascii) + ("\"" + x), EscapeAll(t[1..], ascii) + ("\"" + y), ascii);
      StringUnique(s[1..], t[1..], x, y, ascii);
      assert s == [s[0]] + s[1..] && t == [t[0]] + t[1..];
    }
  }

  lemma StringStep(c: char, d: char, u: string, v: string, ascii: bool)
    requires Escape(c, ascii) + u == Escape(d, ascii) + v
    ensures c == d && u == v
  {
    AgreeWhenContinued(Escape(c, ascii), Escape(d, ascii), u, v);
    EscapePrefixFree(c, d, ascii);
    Cancel(Escape(c, ascii), u, v);
  }

  // ---- Numbers ----

  predicate IsDigit(c: char) { '0' <= c <= '9' }

  lemma {:induction false} DigitsOnly(n: nat)
    ensures |Digits(n)| > 0 && forall i :: 0 <= i < |Digits(n)| ==> IsDigit(Digits(n)[i])
  {
    if n >= 10 { DigitsOnly(n / 10); }
  }

  lemma {:induction false} DigitsInjective(n: nat, m: nat)
    requires Digits(n) == Digits(m)
    ensures n == m
  {
    DigitsOnly(n / 10);
    DigitsOnly(m / 10);
    var a, b := Digits(n), Digits(m);
    assert a[|a| - 1] as int == 48 + n % 10 && b[|b| - 1] as int == 48 + m % 10;
    if n >= 10 && m >= 10 {
      assert Digits(n / 10) == a[..|a| - 1] == b[..|b| - 1] == Digits(m / 10);
      DigitsInjective(n / 10, m / 10);
    }
  }

  /** What can follow a printed value: nothing, or a separator or closing bracket. */
  predicate Ends(x: string) {
    x == "" || x[0] == ',' || x[0] == ']' || x[0] == '}'
  }

  lemma At(a: string, b: string)
    ensures forall i :: 0 <= i < |a| + |b| ==> (a + b)[i] == if i < |a| then a[i] else b[i - |a|]
  {
  }

  lemma DigitsNotLonger(n: nat, m: nat, x: string, y: string)
    requires Digits(n) + x == Digits(m) + y && Ends(x)
    ensures |Digits(m)| <= |Digits(n)|
  {
    DigitsOnly(m);
    At(Digits(n), x);
    At(Digits(m), y);
    var p, a := Digits(n) + x, |Digits(n)|;
    assert x != "" ==> p[a] == x[0];
    assert a < |Digits(m)| ==> IsDigit(p[a]);
  }

  lemma DigitsUnique(n: nat, m: nat, x: string, y: string)
    requires Digits(n) + x == Digits(m) + y && Ends(x) && Ends(y)
    ensures n == m && x == y
  {
    DigitsNotLonger(n, m, x, y);
    DigitsNotLonger(m, n, y, x);
    AgreeWhenContinued(Digits(n), Digits(m), x, y);
    assert Digits(n) == Digits(m);
    DigitsInjective(n, m);
    Cancel(Digits(n), x, y);
  }

  lemma IntUnique(n: int, m: int, x: string, y: string)
    requires IntText(n) + x == IntText(m) + y && Ends(x) && Ends(y)
    ensures n == m && x == y
  {
    AgreeWhenContinued(IntText(n), IntText(m), x, y);
    if n >= 0 { DigitsOnly(n); }
    if m >= 0 { DigitsOnly(m); }
    assert IntText(n)[0] == IntText(m)[0];
    if n >= 0 && m >= 0 {
      DigitsUnique(n, m, x, y);
    } else if n < 0 && m < 0 {
      assert "-" + Digits(-n) + x == "-" + (Digits(-n) + x);
      assert "-" + Digits(-m) + y == "-" + (Digits(-m) + y);
      Cancel("-", Digits(-n) + x, Digits(-m) + y);
      DigitsUnique(-n, -m, x, y);
    }
  }

  // ---- Values ----

  /** The first character of a printed value gives away its kind. */
  lemma TextHead(j: Json, ascii: bool)
    ensures var t := Text(j, ascii);
      && |t| > 0 && t[0] != ']' && t[0] != '}' && t[0] != ','
      && (j.Null? <==> t[0] == 'n') && (j.Bool? <==> t[0] == 't' || t[0] == 'f')
      && (j.Num? <==> t[0] == '-' || IsDigit(t[0])) && (j.Str? <==> t[0] == '\"')
      && (j.Arr? <==> t[0] == '[') && (j.Obj? <==> t[0] == '{')
  {
    if j.Num? {
      if j.n < 0 { DigitsOnly(-j.n); } else { DigitsOnly(j.n); }
    }
  }

  /** What follows the first of several joined texts. */
  function Following(texts: seq<string>, z: string): string
    requires texts != []
  {
    if |texts| == 1 then z else "," + (Join(texts[1..]) + z)
  }

  lemma JoinSplit(texts: seq<string>, z: string)
    requires texts != []
    ensures Join(texts) + z == texts[0] + Following(texts, z)
  {
    if |texts| > 1 {
      var t, r := texts[0], Join(texts[1..]);
      assert t + "," + r + z == t + ("," + (r + z));
    }
  }

  /** Equal continuations after equal first texts: both lists end here, or both go on. */
  lemma FollowingUnique(ts: seq<string>, us: seq<string>, z: string, w: string)
    requires ts != [] && us != [] && z != "" && w != "" && z[0] != ',' && w[0] != ','
    requires Following(ts, z) == Following(us, w)
    ensures |ts| == 1 <==> |us| == 1
    ensures |ts| == 1 ==> z == w
    ensures |ts| > 1 ==> Join(ts[1..]) + z == Join(us[1..]) + w
  {
    assert Following(ts, z)[0] == ',' <==> |ts| > 1;
    assert Following(us, w)[0] == ',' <==> |us| > 1;
    if |ts| > 1 {
      Cancel(",", Join(ts[1..]) + z, Join(us[1..]) + w);
    }
  }

  lemma JoinHead(texts: seq<string>, z: string)
    requires z != "" && (texts != [] ==> texts[0] != "" && texts[0][0] != z[0])
    ensures Join(texts) + z != "" && ((Join(texts) + z)[0] == z[0] <==> texts == [])
  {
    if texts != [] { JoinSplit(texts, z); }
  }

  lemma {:induction false} ItemsUnique(xs: seq<Json>, ys: seq<Json>, x: string, y: string, ascii: bool)
    requires DictEach(xs) && DictEach(ys)
    requires Join(TextEach(xs, ascii)) + ("]" + x) == Join(TextEach(ys, ascii)) + ("]" + y)
    ensures MeaningEach(xs) == MeaningEach(ys) && x == y
    decreases xs, 0
  {
    var ts, us, z, w := TextEach(xs, ascii), TextEach(ys, ascii), "]" + x, "]" + y;
    if xs != [] { TextHead(xs[0], ascii); }
    if ys != [] { TextHead(ys[0], ascii); }
    JoinHead(ts, z);
    JoinHead(us, w);
    if xs == [] {
      assert Join([]) + z == z && Join([]) + w == w;
      Cancel("]", x, y);
    } else {
      JoinSplit(ts, z);
      JoinSplit(us, w);
      Unique(xs[0], ys[0], Following(ts, z), Following(us, w), ascii);
      FollowingUnique(ts, us, z, w);
      if |xs| == 1 {
        Cancel("]", x, y);
        assert xs[1..] == ys[1..];
      } else {
        ItemsUnique(xs[1..], ys[1..], x, y, ascii);
      }
    }
  }

  lemma EntrySplit(e: KeyText, z: string, ascii: bool)
    ensures EntryText(e, ascii) + z == "\"" + (EscapeAll(e.0, ascii) + ("\"" + (":" + (e.1 + z))))
  {
    var k := EscapeAll(e.0, ascii);
    assert "\"" + k + "\":" + e.1 + z == "\"" + (k + ("\"" + (":" + (e.1 + z))));
  }

  lemma EntryUnique(e: KeyText, f: KeyText, z: string, w: string, ascii: bool)
    requires EntryText(e, ascii) + z == EntryText(f, ascii) + w
    ensures e.0 == f.0 && e.1 + z == f.1 + w
  {
    EntrySplit(e, z, ascii);
    EntrySplit(f, w, ascii);
    Cancel(
      "\"", EscapeAll(e.0, ascii) + ("\"" + (":" + (e.1 + z))), EscapeAll(f.0, ascii) + ("\"" + (":" + (f.1 + w))));
    StringUnique(e.0, f.0, ":" + (e.1 + z), ":" + (f.1 + w), ascii);
    Cancel(":", e.1 + z, f.1 + w);
  }

  lemma SuffixCancel(a: string, b: string, z: string)
    requires a + z == b + z
    ensures a == b
  {
    assert a == (a + z)[..|a|] && b == (b + z)[..|b|];
  }

  ghost predicate IsMember(e: KeyText, ms: seq<Member>, ascii: bool) {
    exists k :: 0 <= k < |ms| && e == (ms[k].key, Text(ms[k].value, ascii))
  }

  lemma {:induction false} EntryDecides(
    e: KeyText, f: KeyText, ms: seq<Member>, ns: seq<Member>, u: string, v: string, ascii: bool)
    requires DictMembers(ms) && DictMembers(ns) && IsMember(e, ms, ascii) && IsMember(f, ns, ascii)
    requires Ends(u) && Ends(v) && EntryText(e, ascii) + u == EntryText(f, ascii) + v
    ensures e == f && u == v
    decreases ms, 0, 0
  {
    EntryUnique(e, f, u, v, ascii);
    var k :| 0 <= k < |ms| && e == (ms[k].key, Text(ms[k].value, ascii));
    var l :| 0 <= l < |ns| && f == (ns[l].key, Text(ns[l].value, ascii));
    Unique(ms[k].value, ns[l].value, u, v, ascii);
    SuffixCancel(e.1, f.1, u);
  }

  lemma {:induction false} EntriesUnique(
    es: seq<KeyText>, fs: seq<KeyText>, ms: seq<Member>, ns: seq<Member>, x: string, y: string, ascii: bool)
    requires DictMembers(ms) && DictMembers(ns)
    requires forall i :: 0 <= i < |es| ==> IsMember(es[i], ms, ascii)
    requires forall i :: 0 <= i < |fs| ==> IsMember(fs[i], ns, ascii)
    requires Join(EntryTexts(es, ascii)) + ("}" + x) == Join(EntryTexts(fs, ascii)) + ("}" + y)
    ensures es == fs && x == y
    decreases ms, 1, |es|
  {
    var ts, us, z, w := EntryTexts(es, ascii), EntryTexts(fs, ascii), "}" + x, "}" + y;
    JoinHead(ts, z);
    JoinHead(us, w);
    if es == [] {
      assert Join([]) + z == z && Join([]) + w == w;
      Cancel("}", x, y);
    } else {
      JoinSplit(ts, z);
      JoinSplit(us, w);
      EntryDecides(es[0], fs[0], ms, ns, Following(ts, z), Following(us, w), ascii);
      FollowingUnique(ts, us, z, w);
      if |es| == 1 {
        Cancel("}", x, y);
      } else {
        EntriesUnique(es[1..], fs[1..], ms, ns, x, y, ascii);
        assert es == [es[0]] + es[1..] && fs == [fs[0]] + fs[1..];
      }
    }
  }

  // ---- Sorting ----

  lemma {:induction false} InsertKeeps(e: KeyText, es: seq<KeyText>)
    ensures forall f :: f in Insert(e, es) <==> f == e || f in es
    ensures |Insert(e, es)| == |es| + 1
  {
    if es != [] && Less(es[0].0, e.0) {
      InsertKeeps(e, es[1..]);
      assert es == [es[0]] + es[1..];
    }
  }

  lemma {:induction false} SortKeeps(es: seq<KeyText>)
    ensures forall f :: f in SortByKey(es) <==> f in es
    ensures |SortByKey(es)| == |es|
  {
    if es != [] {
      SortKeeps(es[1..]);
      InsertKeeps(es[0], SortByKey(es[1..]));
      assert es == [es[0]] + es[1..];
    }
  }

  ghost predicate Increasing(es: seq<KeyText>) {
    forall i, j :: 0 <= i < j < |es| ==> Less(es[i].0, es[j].0)
  }

  lemma {:induction false} InsertIncreasing(e: KeyText, es: seq<KeyText>)
    requires Increasing(es) && forall f :: f in es ==> f.0 != e.0
    ensures Increasing(Insert(e, es))
  {
    if es == [] {
    } else if Less(es[0].0, e.0) {
      var rest := Insert(e, es[1..]);
      InsertIncreasing(e, es[1..]);
      InsertKeeps(e, es[1..]);
      forall j | 0 <= j < |rest| ensures Less(es[0].0, rest[j].0) {
        assert rest[j] in rest;
        if rest[j] != e { var k :| 0 <= k < |es[1..]| && es[1..][k] == rest[j]; assert es[k + 1] == rest[j]; }
      }
    } else {
      LessTotal(e.0, es[0].0);
      forall j | 0 <= j < |es| ensures Less(e.0, es[j].0) {
        if j > 0 { LessTransitive(e.0, es[0].0, es[j].0); }
      }
    }
  }

  lemma {:induction false} SortIncreasing(es: seq<KeyText>)
    requires forall i, j :: 0 <= i < j < |es| ==> es[i].0 != es[j].0
    ensures Increasing(SortByKey(es))
  {
    if es != [] {
      SortIncreasing(es[1..]);
      SortKeeps(es[1..]);
      forall f | f in SortByKey(es[1..]) ensures f.0 != es[0].0 {
        var k :| 0 <= k < |es[1..]| && es[1..][k] == f;
        assert es[k + 1] == f;
      }
      InsertIncreasing(es[0], SortByKey(es[1..]));
    }
  }

  /** An increasing list is decided by its elements. */
  lemma {:induction false} IncreasingUnique(es: seq<KeyText>, fs: seq<KeyText>)
    requires Increasing(es) && Increasing(fs) && forall e :: e in es <==> e in fs
    ensures es == fs
  {
    assert fs != [] ==> fs[0] in fs;
    if es != [] {
      assert es[0] in es;
      var k :| 0 <= k < |fs| && fs[k] == es[0];
      assert fs[0] in fs;
      var l :| 0 <= l < |es| && es[l] == fs[0];
      LessTotal(es[0].0, fs[0].0);
      assert es[0] == fs[0];
      forall e ensures e in es[1..] <==> e in fs[1..] {
        LessTotal(es[0].0, es[0].0);
        if e in es[1..] { assert e in es; assert e != es[0]; }
        if e in fs[1..] { assert e in fs; assert e != fs[0]; }
      }
      IncreasingUnique(es[1..], fs[1..]);
      assert es == [es[0]] + es[1..] && fs == [fs[0]] + fs[1..];
    }
  }

  // ---- Dictionaries ----

  lemma {:induction false} FieldsAt(ms: seq<Member>)
    requires UniqueKeys(ms)
    ensures forall k :: k in MeaningFields(ms) <==> exists i :: 0 <= i < |ms| && ms[i].key == k
    ensures forall i :: 0 <= i < |ms| ==> MeaningFields(ms)[ms[i].key] == Meaning(ms[i].value)
  {
    if ms != [] {
      FieldsAt(ms[1..]);
      assert forall i :: 0 < i < |ms| ==> ms[i] == ms[1..][i - 1];
    }
  }

  lemma {:induction false} FieldsIncluded(ms: seq<Member>, ns: seq<Member>, ascii: bool)
    requires UniqueKeys(ms) && UniqueKeys(ns) && DictMembers(ms) && DictMembers(ns)
    requires forall e :: e in TextMembers(ms, ascii) ==> e in TextMembers(ns, ascii)
    ensures forall k :: k in MeaningFields(ms) ==>
      k in MeaningFields(ns) && MeaningFields(ns)[k] == MeaningFields(ms)[k]
    decreases ms, 0
  {
    FieldsAt(ms);
    FieldsAt(ns);
    forall k | k in MeaningFields(ms) ensures k in MeaningFields(ns) && MeaningFields(ns)[k] == MeaningFields(ms)[k] {
      var i :| 0 <= i < |ms| && ms[i].key == k;
      assert TextMembers(ms, ascii)[i] in TextMembers(ns, ascii);
      var j :| 0 <= j < |ns| && TextMembers(ns, ascii)[j] == TextMembers(ms, ascii)[i];
      assert Text(ms[i].value, ascii) + "" == Text(ns[j].value, ascii) + "";
      Unique(ms[i].value, ns[j].value, "", "", ascii);
    }
  }

  function Sorted(ms: seq<Member>, ascii: bool): seq<KeyText> {
    SortByKey(TextMembers(ms, ascii))
  }

  lemma ObjectText(ms: seq<Member>, x: string, ascii: bool)
    ensures Text(Obj(ms), ascii) + x == "{" + (Join(EntryTexts(Sorted(ms, ascii), ascii)) + ("}" + x))
  {
    var p := Join(EntryTexts(Sorted(ms, ascii), ascii));
    assert Text(Obj(ms), ascii) == "{" + p + "}";
    assert "{" + p + "}" + x == "{" + (p + ("}" + x));
  }

  lemma SortedMembers(ms: seq<Member>, ascii: bool)
    ensures forall i :: 0 <= i < |Sorted(ms, ascii)| ==> IsMember(Sorted(ms, ascii)[i], ms, ascii)
    ensures forall e :: e in Sorted(ms, ascii) <==> e in TextMembers(ms, ascii)
  {
    SortKeeps(TextMembers(ms, ascii));
    forall i | 0 <= i < |Sorted(ms, ascii)| ensures IsMember(Sorted(ms, ascii)[i], ms, ascii) {
      var e := Sorted(ms, ascii)[i];
      assert e in Sorted(ms, ascii);
      var k :| 0 <= k < |TextMembers(ms, ascii)| && TextMembers(ms, ascii)[k] == e;
      assert e == (ms[k].key, Text(ms[k].value, ascii));
    }
  }

  lemma {:induction false} ObjectUnique(ms: seq<Member>, ns: seq<Member>, x: string, y: string, ascii: bool)
    requires UniqueKeys(ms) && UniqueKeys(ns) && DictMembers(ms) && DictMembers(ns)
    requires Text(Obj(ms), ascii) + x == Text(Obj(ns), ascii) + y
    ensures MeaningFields(ms) == MeaningFields(ns) && x == y
    decreases ms, 2
  {
    var es, fs := Sorted(ms, ascii), Sorted(ns, ascii);
    SortedMembers(ms, ascii);
    SortedMembers(ns, ascii);
    ObjectText(ms, x, ascii);
    ObjectText(ns, y, ascii);
    Cancel("{", Join(EntryTexts(es, ascii)) + ("}" + x), Join(EntryTexts(fs, ascii)) + ("}" + y));
    EntriesUnique(es, fs, ms, ns, x, y, ascii);
    FieldsIncluded(ms, ns, ascii);
    KeysIncluded(ns, ms, ascii);
  }

  lemma KeysIncluded(ms: seq<Member>, ns: seq<Member>, ascii: bool)
    requires UniqueKeys(ms) && UniqueKeys(ns)
    requires forall e :: e in TextMembers(ms, ascii) ==> e in TextMembers(ns, ascii)
    ensures MeaningFields(ms).Keys <= MeaningFields(ns).Keys
  {
    FieldsAt(ms);
    FieldsAt(ns);
    forall k | k in MeaningFields(ms) ensures k in MeaningFields(ns) {
      var j :| 0 <= j < |ms| && ms[j].key == k;
      assert TextMembers(ms, ascii)[j] in TextMembers(ns, ascii);
    }
  }

  lemma StringValueUnique(s: string, t: string, x: string, y: string, ascii: bool)
    requires Text(Str(s), ascii) + x == Text(Str(t), ascii) + y
    ensures s == t && x == y
  {
    var p, q := EscapeAll(s, ascii), EscapeAll(t, ascii);
    assert "\"" + p + "\"" + x == "\"" + (p + ("\"" + x));
    assert "\"" + q + "\"" + y == "\"" + (q + ("\"" + y));
    Cancel("\"", p + ("\"" + x), q + ("\"" + y));
    StringUnique(s, t, x, y, ascii);
  }

  lemma {:induction false} ArrayUnique(xs: seq<Json>, ys: seq<Json>, x: string, y: string, ascii: bool)
    requires DictEach(xs) && DictEach(ys) && Text(Arr(xs), ascii) + x == Text(Arr(ys), ascii) + y
    ensures MeaningEach(xs) == MeaningEach(ys) && x == y
    decreases xs, 1
  {
    var p, q := Join(TextEach(xs, ascii)), Join(TextEach(ys, ascii));
    assert "[" + p + "]" + x == "[" + (p + ("]" + x));
    assert "[" + q + "]" + y == "[" + (q + ("]" + y));
    Cancel("[", p + ("]" + x), q + ("]" + y));
    ItemsUnique(xs, ys, x, y, ascii);
  }

  /** Reading from the left: two printed values continued alike mean the same and end at the same place. */
  lemma {:induction false} Unique(a: Json, b: Json, x: string, y: string, ascii: bool)
    requires Dict(a) && Dict(b) && Ends(x) && Ends(y)
    requires Text(a, ascii) + x == Text(b, ascii) + y
    ensures Meaning(a) == Meaning(b) && x == y
    decreases a
  {
    TextHead(a, ascii);
    TextHead(b, ascii);
    AgreeWhenContinued(Text(a, ascii), Text(b, ascii), x, y);
    assert Text(a, ascii)[0] == Text(b, ascii)[0];
    match a
    case Null => Cancel("null", x, y);
    case Bool(p) => Cancel(Text(a, ascii), x, y);
    case Num(n) => IntUnique(n, b.n, x, y);
    case Str(s) => StringValueUnique(s, b.s, x, y, ascii);
    case Arr(items) => ArrayUnique(items, b.items, x, y, ascii);
    case Obj(ms) => ObjectUnique(ms, b.members, x, y, ascii);
  }

  // ---- The other direction ----

  lemma {:induction false} SameMeaningSameEntry(ms: seq<Member>, ns: seq<Member>, ascii: bool)
    requires UniqueKeys(ms) && UniqueKeys(ns) && DictMembers(ms) && DictMembers(ns)
    requires forall k :: k in MeaningFields(ms) ==>
      k in MeaningFields(ns) && MeaningFields(ns)[k] == MeaningFields(ms)[k]
    ensures forall e :: e in TextMembers(ms, ascii) ==> e in TextMembers(ns, ascii)
    decreases ms, 0
  {
    FieldsAt(ms);
    FieldsAt(ns);
    var es, fs := TextMembers(ms, ascii), TextMembers(ns, ascii);
    forall i | 0 <= i < |ms| ensures es[i] in fs {
      var k := ms[i].key;
      assert k in MeaningFields(ms);
      var j :| 0 <= j < |ns| && ns[j].key == k;
      SameMeaningSameText(ms[i].value, ns[j].value, ascii);
      assert fs[j] == es[i];
    }
  }

  lemma EntriesBack(ms: seq<Member>, ns: seq<Member>, ascii: bool)
    requires UniqueKeys(ms) && UniqueKeys(ns) && MeaningFields(ms) == MeaningFields(ns)
    requires forall e :: e in TextMembers(ms, ascii) ==> e in TextMembers(ns, ascii)
    ensures forall e :: e in TextMembers(ns, ascii) ==> e in TextMembers(ms, ascii)
  {
    FieldsAt(ms);
    FieldsAt(ns);
    var es, fs := TextMembers(ms, ascii), TextMembers(ns, ascii);
    forall j | 0 <= j < |ns| ensures fs[j] in es {
      assert ns[j].key in MeaningFields(ms);
      var i :| 0 <= i < |ms| && ms[i].key == ns[j].key;
      assert es[i] in fs;
      var l :| 0 <= l < |ns| && fs[l] == es[i];
      assert l == j;
    }
  }

  lemma {:induction false} SameMeaningSameItems(xs: seq<Json>, ys: seq<Json>, ascii: bool)
    requires DictEach(xs) && DictEach(ys) && MeaningEach(xs) == MeaningEach(ys)
    ensures TextEach(xs, ascii) == TextEach(ys, ascii)
    decreases xs
  {
    if xs != [] {
      assert ys != [];
      assert MeaningEach(xs)[0] == MeaningEach(ys)[0] && MeaningEach(xs)[1..] == MeaningEach(ys)[1..];
      SameMeaningSameText(xs[0], ys[0], ascii);
      SameMeaningSameItems(xs[1..], ys[1..], ascii);
    }
  }

  lemma {:induction false} SameMeaningSameText(a: Json, b: Json, ascii: bool)
    requires Dict(a) && Dict(b) && Meaning(a) == Meaning(b)
    ensures Text(a, ascii) == Text(b, ascii)
    decreases a
  {
    match a
    case Arr(items) => SameMeaningSameItems(items, b.items, ascii);
    case Obj(ms) =>
      SameMeaningSameEntry(ms, b.members, ascii);
      EntriesBack(ms, b.members, ascii);
      SortSame(TextMembers(ms, ascii), TextMembers(b.members, ascii));
    case _ =>
  }

  lemma SortSame(es: seq<KeyText>, fs: seq<KeyText>)
    requires forall i, j :: 0 <= i < j < |es| ==> es[i].0 != es[j].0
    requires forall i, j :: 0 <= i < j < |fs| ==> fs[i].0 != fs[j].0
    requires forall e :: e in es <==> e in fs
    ensures SortByKey(es) == SortByKey(fs)
  {
    SortKeeps(es);
    SortKeeps(fs);
    SortIncreasing(es);
    SortIncreasing(fs);
    IncreasingUnique(SortByKey(es), SortByKey(fs));
  }

  /** Two values print the same text exactly when they mean the same, in either escaping mode. */
  lemma TextDecidesMeaning(a: Json, b: Json, ascii: bool)
    requires Dict(a) && Dict(b)
    ensures Text(a, ascii) == Text(b, ascii) <==> Meaning(a) == Meaning(b)
  {
    if Text(a, ascii) == Text(b, ascii) {
      assert Text(a, ascii) + "" == Text(b, ascii) + "";
      Unique(a, b, "", "", ascii);
    }
    if Meaning(a) == Meaning(b) {
      SameMeaningSameText(a, b, ascii);
    }
  }
}
