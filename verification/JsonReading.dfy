/**
 A reader for JSON text, written from the grammar (RFC 8259) and not from the printer: what is printed is read back
 with the same meaning, and its dictionaries come out in code point order.
 */
module JsonReading {
  import opened Wrappers
  import opened Json
  import opened CanonicalJson
  import opened Texts

  // ---- Strings (section 7) ----

  function HexValue(c: char): Option<int> {
    if '0' <= c <= '9' then Some(c as int - 48)
    else if 'a' <= c <= 'f' then Some(c as int - 87)
    else if 'A' <= c <= 'F' then Some(c as int - 55)
    else None
  }

  /** The code unit of four hexadecimal digits. */
  function ReadUnit(t: string): (r: Option<int>)
    ensures r.Some? ==> |t| >= 4
  {
    if |t| < 4 then None
    else match (HexValue(t[0]), HexValue(t[1]), HexValue(t[2]), HexValue(t[3]))
      case (Some(a), Some(b), Some(c), Some(d)) => Some(a * 0x1000 + b * 0x100 + c * 0x10 + d)
      case _ => None
  }

  /** What follows `\u`: a code unit, or a surrogate pair of two, and the rest. */
  function ReadEscaped(t: string): (r: Option<(char, string)>)
    ensures r.Some? ==> |r.value.1| < |t|
  {
    match ReadUnit(t)
    case None => None
    case Some(u) =>
      if 0 <= u < 0xD800 || 0xE000 <= u < 0x10000 then Some((u as char, t[4..]))
      else if 0xD800 <= u < 0xDC00 && StartsWith(t[4..], "\\u") then
        match ReadUnit(t[6..])
        case None => None
        case Some(v) =>
          if 0xDC00 <= v < 0xE000
          then Some(((0x10000 + (u - 0xD800) * 0x400 + (v - 0xDC00)) as char, t[10..]))
          else None
      else None
  }

  /** One character inside a string, and the rest. */
  function ReadChar(t: string): (r: Option<(char, string)>)
    ensures r.Some? ==> |r.value.1| < |t|
  {
    if t == "" || t[0] < ' ' || t[0] == '\"' then None
    else if t[0] != '\\' then Some((t[0], t[1..]))
    else if |t| < 2 then None
    else match t[1]
      case '\"' => Some(('\"', t[2..]))
      case '\\' => Some(('\\', t[2..]))
      case '/' => Some(('/', t[2..]))
      case 'b' => Some(('\U{08}', t[2..]))
      case 'f' => Some(('\U{0C}', t[2..]))
      case 'n' => Some(('\n', t[2..]))
      case 'r' => Some(('\r', t[2..]))
      case 't' => Some(('\t', t[2..]))
      case 'u' => ReadEscaped(t[2..])
      case _ => None
  }

  /** The characters up to the closing quote, and what follows it. */
  function ReadString(t: string): (r: Option<(string, string)>)
    ensures r.Some? ==> |r.value.1| < |t|
    decreases |t|
  {
    if t != "" && t[0] == '\"' then Some(("", t[1..]))
    else match ReadChar(t)
      case None => None
      case Some((c, rest)) =>
        match ReadString(rest)
        case None => None
        case Some((s, x)) => Some(([c] + s, x))
  }

  // ---- Numbers (section 6), as far as integers go ----

  function DigitRun(t: string): string {
    if t == "" || !IsDigit(t[0]) then "" else [t[0]] + DigitRun(t[1..])
  }

  function Decimal(ds: string): int {
    if ds == "" then 0 else Decimal(ds[..|ds| - 1]) * 10 + (ds[|ds| - 1] as int - 48)
  }

  function ReadNumber(t: string): (r: Option<(int, string)>)
    ensures r.Some? ==> |r.value.1| < |t|
  {
    var minus := t != "" && t[0] == '-';
    var u := if minus then t[1..] else t;
    var ds := DigitRun(u);
    DigitRunLength(u);
    if ds == "" then None else Some((if minus then -Decimal(ds) else Decimal(ds), u[|ds|..]))
  }

  lemma {:induction false} DigitRunLength(t: string)
    ensures |DigitRun(t)| <= |t|
  {
    if t != "" && IsDigit(t[0]) { DigitRunLength(t[1..]); }
  }

  // ---- Values (sections 3 to 5) ----

  function ReadValue(t: string): (r: Option<(Json, string)>)
    ensures r.Some? ==> |r.value.1| < |t|
    decreases |t|, 2
  {
    if t == "" then None
    else match t[0]
      case 'n' => if StartsWith(t, "null") then Some((Null, t[4..])) else None
      case 't' => if StartsWith(t, "true") then Some((Bool(true), t[4..])) else None
      case 'f' => if StartsWith(t, "false") then Some((Bool(false), t[5..])) else None
      case '\"' => (
        match ReadString(t[1..])
        case None => None
        case Some((s, x)) => Some((Str(s), x)))
      case '[' => ReadArray(t[1..])
      case '{' => ReadObject(t[1..])
      case _ =>
        match ReadNumber(t)
        case None => None
        case Some((n, x)) => Some((Num(n), x))
  }

  /** What follows an opening bracket. */
  function ReadArray(t: string): (r: Option<(Json, string)>)
    ensures r.Some? ==> |r.value.1| < |t|
    decreases |t|, 4
  {
    if t != "" && t[0] == ']' then Some((Arr([]), t[1..]))
    else match ReadItems(t)
      case None => None
      case Some((items, x)) => Some((Arr(items), x))
  }

  /** What follows an opening brace. */
  function ReadObject(t: string): (r: Option<(Json, string)>)
    ensures r.Some? ==> |r.value.1| < |t|
    decreases |t|, 4
  {
    if t != "" && t[0] == '}' then Some((Obj([]), t[1..]))
    else match ReadMembers(t)
      case None => None
      case Some((ms, x)) => Some((Obj(ms), x))
  }

  function ReadItems(t: string): (r: Option<(seq<Json>, string)>)
    ensures r.Some? ==> |r.value.1| < |t|
    decreases |t|, 3
  {
    match ReadValue(t)
    case None => None
    case Some((v, x)) =>
      if StartsWith(x, "]") then Some(([v], x[1..]))
      else if !StartsWith(x, ",") then None
      else match ReadItems(x[1..])
        case None => None
        case Some((vs, y)) => Some(([v] + vs, y))
  }

  function ReadMember(t: string): (r: Option<(Member, string)>)
    ensures r.Some? ==> |r.value.1| < |t|
    decreases |t|, 2
  {
    if !StartsWith(t, "\"") then None
    else match ReadString(t[1..])
      case None => None
      case Some((key, x)) =>
        if !StartsWith(x, ":") then None
        else match ReadValue(x[1..])
          case None => None
          case Some((v, y)) => Some((Member(key, v), y))
  }

  function ReadMembers(t: string): (r: Option<(seq<Member>, string)>)
    ensures r.Some? ==> |r.value.1| < |t|
    decreases |t|, 3
  {
    match ReadMember(t)
    case None => None
    case Some((m, x)) =>
      if StartsWith(x, "}") then Some(([m], x[1..]))
      else if !StartsWith(x, ",") then None
      else match ReadMembers(x[1..])
        case None => None
        case Some((ms, y)) => Some(([m] + ms, y))
  }

  // ---- Printed strings are read back ----

  lemma HexRead(d: int)
    requires 0 <= d < 16
    ensures HexValue(HexDigit(d)) == Some(d)
  {
    assert HexDigit(d) as int == (if d < 10 then 48 + d else 87 + d);
  }

  lemma UnitRead(u: int, x: string)
    requires 0 <= u < 0x10000
    ensures ReadUnit(Hex4(u) + x) == Some(u) && (Hex4(u) + x)[4..] == x
  {
    HexRead(u / 0x1000);
    HexRead(u / 0x100 % 0x10);
    HexRead(u / 0x10 % 0x10);
    HexRead(u % 0x10);
    Hex4Value(u);
    var t, h := Hex4(u) + x, Hex4(u);
    assert t[0] == h[0] && t[1] == h[1] && t[2] == h[2] && t[3] == h[3];
  }

  lemma UnitEscapeRead(n: int, x: string)
    requires 0 <= n < 0xD800 || 0xE000 <= n < 0x10000
    ensures ReadChar("\\u" + Hex4(n) + x) == Some((n as char, x))
  {
    var t := "\\u" + Hex4(n) + x;
    assert t[2..] == Hex4(n) + x;
    UnitRead(n, x);
  }

  lemma PairRead(hi: int, lo: int, x: string)
    requires 0xD800 <= hi < 0xDC00 && 0xDC00 <= lo < 0xE000
    ensures ReadEscaped(Hex4(hi) + ("\\u" + (Hex4(lo) + x)))
      == Some(((0x10000 + (hi - 0xD800) * 0x400 + (lo - 0xDC00)) as char, x))
  {
    var tail := "\\u" + (Hex4(lo) + x);
    var t := Hex4(hi) + tail;
    UnitRead(hi, tail);
    UnitRead(lo, x);
    assert t[4..] == tail && StartsWith(tail, "\\u");
    assert t[6..] == t[4..][2..] == Hex4(lo) + x;
    assert t[10..] == t[6..][4..] == x;
  }

  lemma PairEscapeRead(n: int, x: string)
    requires 0x10000 <= n <= 0x10FFFF
    ensures var hi, lo := 0xD800 + (n - 0x10000) / 0x400, 0xDC00 + (n - 0x10000) % 0x400;
      ReadChar("\\u" + Hex4(hi) + "\\u" + Hex4(lo) + x) == Some((n as char, x))
  {
    var hi, lo := 0xD800 + (n - 0x10000) / 0x400, 0xDC00 + (n - 0x10000) % 0x400;
    var rest := Hex4(hi) + ("\\u" + (Hex4(lo) + x));
    var t := "\\u" + Hex4(hi) + "\\u" + Hex4(lo) + x;
    PairRead(hi, lo, x);
    assert t == "\\u" + rest && t[2..] == rest;
  }

  lemma LongText(c: char, ascii: bool)
    requires IsLong(c, ascii)
    ensures c as int < 0x10000 ==> Escape(c, ascii) == "\\u" + Hex4(c as int)
    ensures c as int >= 0x10000 ==>
      Escape(c, ascii) == "\\u" + Hex4(0xD800 + (c as int - 0x10000) / 0x400)
        + "\\u" + Hex4(0xDC00 + (c as int - 0x10000) % 0x400)
  {
  }

  lemma LongReadAs(e: string, n: int, x: string)
    requires 0 <= n < 0xD800 || 0xE000 <= n <= 0x10FFFF
    requires n < 0x10000 ==> e == "\\u" + Hex4(n)
    requires n >= 0x10000 ==>
      e == "\\u" + Hex4(0xD800 + (n - 0x10000) / 0x400) + "\\u" + Hex4(0xDC00 + (n - 0x10000) % 0x400)
    ensures ReadChar(e + x) == Some((n as char, x))
  {
    if n < 0x10000 { UnitEscapeRead(n, x); } else { PairEscapeRead(n, x); }
  }

  lemma LongRead(c: char, x: string, ascii: bool)
    requires IsLong(c, ascii)
    ensures ReadChar(Escape(c, ascii) + x) == Some((c, x))
  {
    LongText(c, ascii);
    LongReadAs(Escape(c, ascii), c as int, x);
  }

  lemma CharRead(c: char, x: string, ascii: bool)
    ensures ReadChar(Escape(c, ascii) + x) == Some((c, x))
    ensures Escape(c, ascii) != "" && Escape(c, ascii)[0] != '\"'
  {
    EscapeHead(c, ascii);
    var t := Escape(c, ascii) + x;
    if IsLong(c, ascii) {
      LongRead(c, x, ascii);
    } else {
      ShortForm(c, ascii);
      if c in "\"\\\n\r\t\U{0C}\U{08}" {
        assert t[0] == '\\' && t[1] == Escape(c, ascii)[1] && t[2..] == x;
      } else {
        assert t[0] == c && t[1..] == x;
      }
    }
  }

  lemma {:induction false} StringRead(s: string, x: string, ascii: bool)
    ensures ReadString(EscapeAll(s, ascii) + ("\"" + x)) == Some((s, x))
  {
    if s == "" {
      assert "" + ("\"" + x) == "\"" + x && ("\"" + x)[1..] == x;
    } else {
      var rest := EscapeAll(s[1..], ascii) + ("\"" + x);
      StringSplit(s, x, ascii);
      CharRead(s[0], rest, ascii);
      StringRead(s[1..], x, ascii);
      assert s == [s[0]] + s[1..];
    }
  }

  // ---- Printed numbers are read back ----

  lemma {:induction false} RunRead(ds: string, x: string)
    requires (forall i :: 0 <= i < |ds| ==> IsDigit(ds[i])) && Ends(x)
    ensures DigitRun(ds + x) == ds
  {
    if ds == "" {
      assert ds + x == x;
    } else {
      assert (ds + x)[1..] == ds[1..] + x;
      RunRead(ds[1..], x);
    }
  }

  lemma {:induction false} DecimalOf(n: nat)
    ensures Decimal(Digits(n)) == n
  {
    var ds := Digits(n);
    if n >= 10 {
      DecimalOf(n / 10);
      assert ds[..|ds| - 1] == Digits(n / 10);
    } else {
      assert ds[..0] == "";
    }
  }

  lemma NaturalRead(n: nat, x: string)
    requires Ends(x)
    ensures var t := Digits(n) + x;
      && DigitRun(t) == Digits(n) && t[|Digits(n)|..] == x && t != "" && IsDigit(t[0])
      && Digits(n) != "" && Decimal(Digits(n)) == n
  {
    DigitsOnly(n);
    RunRead(Digits(n), x);
    DecimalOf(n);
    assert (Digits(n) + x)[0] == Digits(n)[0];
  }

  lemma PositiveRead(t: string, ds: string, x: string)
    requires t != "" && IsDigit(t[0]) && DigitRun(t) == ds && |ds| <= |t| && t[|ds|..] == x
    ensures ReadNumber(t) == Some((Decimal(ds), x))
  {
  }

  lemma NegativeRead(u: string, ds: string, x: string)
    requires DigitRun(u) == ds != "" && |ds| <= |u| && u[|ds|..] == x
    ensures ReadNumber("-" + u) == Some((-Decimal(ds), x))
  {
    assert ("-" + u)[1..] == u;
  }

  lemma NumberRead(n: int, x: string)
    requires Ends(x)
    ensures ReadNumber(IntText(n) + x) == Some((n, x))
  {
    if n < 0 {
      NaturalRead(-n, x);
      NegativeRead(Digits(-n) + x, Digits(-n), x);
      assert IntText(n) + x == "-" + (Digits(-n) + x);
    } else {
      NaturalRead(n, x);
      PositiveRead(Digits(n) + x, Digits(n), x);
    }
  }

  // ---- Printed values are read back ----

  /** Dictionaries, at any depth, have their keys in code point order: each key stands before greater ones only. */
  ghost predicate KeysAscend(j: Json) {
    match j
    case Arr(items) => forall i :: 0 <= i < |items| ==> KeysAscend(items[i])
    case Obj(ms) =>
      && (forall i :: 0 <= i < |ms| ==> KeysAscend(ms[i].value))
      && forall i, k :: 0 <= i < k < |ms| ==> Precedes(ms[i].key, ms[k].key)
    case _ => true
  }

  ghost predicate Precedes(a: string, b: string) {
    exists k: nat :: SmallerAt(a, b, k)
  }

  lemma Starts(a: string, x: string)
    ensures StartsWith(a + x, a) && (a + x)[|a|..] == x
  {
  }

  lemma {:induction false} ItemsRead(items: seq<Json>, x: string, ascii: bool) returns (vs: seq<Json>)
    requires items != [] && DictEach(items)
    ensures ReadItems(Join(TextEach(items, ascii)) + ("]" + x)) == Some((vs, x))
    ensures MeaningEach(vs) == MeaningEach(items) && forall i :: 0 <= i < |vs| ==> KeysAscend(vs[i])
    decreases items, 0
  {
    var ts, z := TextEach(items, ascii), "]" + x;
    JoinSplit(ts, z);
    var v := ValueRead(items[0], Following(ts, z), ascii);
    if |items| == 1 {
      Starts("]", x);
      vs := [v];
      assert items[1..] == [] && vs[1..] == [];
    } else {
      var rest := ItemsRead(items[1..], x, ascii);
      Starts(",", Join(ts[1..]) + z);
      vs := [v] + rest;
      assert vs[1..] == rest;
    }
  }

  /** A printed entry is read back as its key with what its value meant. */
  lemma {:induction false} EntryRead(e: KeyText, ms: seq<Member>, k: nat, x: string, ascii: bool) returns (v: Json)
    requires DictMembers(ms) && k < |ms| && e == (ms[k].key, Text(ms[k].value, ascii)) && Ends(x)
    ensures ReadMember(EntryText(e, ascii) + x) == Some((Member(e.0, v), x))
    ensures Meaning(v) == Meaning(ms[k].value) && KeysAscend(v)
    decreases ms, 0, 0
  {
    v := ValueRead(ms[k].value, x, ascii);
    EntrySplit(e, x, ascii);
    var body := EscapeAll(e.0, ascii) + ("\"" + (":" + (e.1 + x)));
    Starts("\"", body);
    StringRead(e.0, ":" + (e.1 + x), ascii);
    Starts(":", e.1 + x);
  }

  /** The member a sorted entry was printed from. */
  ghost predicate ComesFrom(m: Member, e: KeyText, ms: seq<Member>) {
    m.key == e.0 && KeysAscend(m.value)
    && exists k :: 0 <= k < |ms| && ms[k].key == e.0 && Meaning(m.value) == Meaning(ms[k].value)
  }

  lemma {:induction false} MembersRead(es: seq<KeyText>, ms: seq<Member>, x: string, ascii: bool)
    returns (vs: seq<Member>)
    requires es != [] && DictMembers(ms) && forall i :: 0 <= i < |es| ==> IsMember(es[i], ms, ascii)
    ensures ReadMembers(Join(EntryTexts(es, ascii)) + ("}" + x)) == Some((vs, x))
    ensures |vs| == |es| && forall i :: 0 <= i < |es| ==> ComesFrom(vs[i], es[i], ms)
    decreases ms, 1, |es|
  {
    var ts, z := EntryTexts(es, ascii), "}" + x;
    JoinSplit(ts, z);
    assert IsMember(es[0], ms, ascii);
    var k :| 0 <= k < |ms| && es[0] == (ms[k].key, Text(ms[k].value, ascii));
    var v := EntryRead(es[0], ms, k, Following(ts, z), ascii);
    vs := [Member(es[0].0, v)];
    if |es| == 1 {
      Starts("}", x);
    } else {
      var rest := MembersRead(es[1..], ms, x, ascii);
      Starts(",", Join(ts[1..]) + z);
      vs := vs + rest;
    }
  }

  ghost predicate AllComeFrom(vs: seq<Member>, es: seq<KeyText>, ms: seq<Member>) {
    |vs| == |es| && forall i :: 0 <= i < |es| ==> ComesFrom(vs[i], es[i], ms)
  }

  lemma SortedAscend(vs: seq<Member>, es: seq<KeyText>, ms: seq<Member>)
    requires Increasing(es) && AllComeFrom(vs, es, ms)
    ensures KeysAscend(Obj(vs)) && UniqueKeys(vs)
  {
    forall i, k | 0 <= i < k < |vs|
      ensures vs[i].key != vs[k].key && Precedes(vs[i].key, vs[k].key)
    {
      assert ComesFrom(vs[i], es[i], ms) && ComesFrom(vs[k], es[k], ms);
      LessIff(vs[i].key, vs[k].key);
      LessTotal(vs[i].key, vs[k].key);
    }
    forall i | 0 <= i < |vs| ensures KeysAscend(vs[i].value) { assert ComesFrom(vs[i], es[i], ms); }
  }

  lemma SameFields(vs: seq<Member>, es: seq<KeyText>, ms: seq<Member>)
    requires UniqueKeys(ms) && UniqueKeys(vs) && AllComeFrom(vs, es, ms)
    requires forall k :: 0 <= k < |ms| ==> exists n :: 0 <= n < |es| && es[n].0 == ms[k].key
    ensures MeaningFields(vs) == MeaningFields(ms)
  {
    FieldsAt(vs);
    FieldsAt(ms);
    forall k | k in MeaningFields(vs) ensures k in MeaningFields(ms) && MeaningFields(ms)[k] == MeaningFields(vs)[k] {
      var i :| 0 <= i < |vs| && vs[i].key == k;
      assert ComesFrom(vs[i], es[i], ms);
    }
    forall k | k in MeaningFields(ms) ensures k in MeaningFields(vs) {
      var i :| 0 <= i < |ms| && ms[i].key == k;
      var n :| 0 <= n < |es| && es[n].0 == ms[i].key;
      assert ComesFrom(vs[n], es[n], ms);
    }
  }

  /** Members that come from all entries of a dictionary, sorted, mean the dictionary. */
  lemma MembersMean(vs: seq<Member>, ms: seq<Member>, ascii: bool)
    requires UniqueKeys(ms) && AllComeFrom(vs, Sorted(ms, ascii), ms)
    ensures MeaningFields(vs) == MeaningFields(ms) && KeysAscend(Obj(vs))
  {
    var es := Sorted(ms, ascii);
    SortedMembers(ms, ascii);
    SortIncreasing(TextMembers(ms, ascii));
    SortedAscend(vs, es, ms);
    forall k | 0 <= k < |ms| ensures exists n :: 0 <= n < |es| && es[n].0 == ms[k].key {
      assert TextMembers(ms, ascii)[k] in es;
    }
    SameFields(vs, es, ms);
  }

  lemma StringValueRead(s: string, x: string, ascii: bool)
    ensures ReadValue(Text(Str(s), ascii) + x) == Some((Str(s), x))
  {
    var p := EscapeAll(s, ascii);
    var t := Text(Str(s), ascii) + x;
    assert t == "\"" + (p + ("\"" + x));
    assert t[1..] == p + ("\"" + x);
    StringRead(s, x, ascii);
  }

  lemma NumberValueRead(n: int, x: string)
    requires Ends(x)
    ensures ReadValue(IntText(n) + x) == Some((Num(n), x))
  {
    TextHead(Num(n), true);
    var t := IntText(n) + x;
    assert t[0] == IntText(n)[0];
    NumberRead(n, x);
  }

  lemma ScalarRead(j: Json, x: string, ascii: bool)
    requires Ends(x) && !j.Arr? && !j.Obj?
    ensures ReadValue(Text(j, ascii) + x) == Some((j, x))
  {
    match j
    case Null => Starts("null", x);
    case Bool(b) =>
      Starts(if b then "true" else "false", x);
    case Num(n) => NumberValueRead(n, x);
    case Str(s) => StringValueRead(s, x, ascii);
  }

  lemma BracketRead(rest: string)
    ensures ReadValue("[" + rest) == ReadArray(rest)
  {
    assert ("[" + rest)[1..] == rest;
  }

  lemma BraceRead(rest: string)
    ensures ReadValue("{" + rest) == ReadObject(rest)
  {
    assert ("{" + rest)[1..] == rest;
  }

  lemma EmptyRead(x: string, ascii: bool)
    ensures ReadValue(Text(Arr([]), ascii) + x) == Some((Arr([]), x))
    ensures ReadValue(Text(Obj([]), ascii) + x) == Some((Obj([]), x))
  {
    Starts("]", x);
    Starts("}", x);
    assert Text(Arr([]), ascii) + x == "[" + ("]" + x) && Text(Obj([]), ascii) + x == "{" + ("}" + x);
    BracketRead("]" + x);
    BraceRead("}" + x);
  }

  lemma ArrayText(items: seq<Json>, x: string, ascii: bool)
    requires items != []
    ensures var rest := Join(TextEach(items, ascii)) + ("]" + x);
      Text(Arr(items), ascii) + x == "[" + rest && rest != "" && rest[0] != ']'
  {
    var p := Join(TextEach(items, ascii));
    assert "[" + p + "]" + x == "[" + (p + ("]" + x));
    TextHead(items[0], ascii);
    JoinSplit(TextEach(items, ascii), "]" + x);
  }

  lemma {:induction false} ArrayRead(items: seq<Json>, x: string, ascii: bool) returns (v: Json)
    requires items != [] && DictEach(items)
    ensures ReadValue(Text(Arr(items), ascii) + x) == Some((v, x))
    ensures Meaning(v) == Meaning(Arr(items)) && KeysAscend(v)
    decreases items, 1
  {
    ArrayText(items, x, ascii);
    var vs := ItemsRead(items, x, ascii);
    BracketRead(Join(TextEach(items, ascii)) + ("]" + x));
    v := Arr(vs);
  }

  lemma MembersText(ms: seq<Member>, x: string, ascii: bool)
    requires ms != []
    ensures var es := Sorted(ms, ascii);
      var rest := Join(EntryTexts(es, ascii)) + ("}" + x);
      Text(Obj(ms), ascii) + x == "{" + rest && es != [] && rest != "" && rest[0] != '}'
  {
    var es := Sorted(ms, ascii);
    ObjectText(ms, x, ascii);
    SortKeeps(TextMembers(ms, ascii));
    JoinSplit(EntryTexts(es, ascii), "}" + x);
    assert EntryText(es[0], ascii)[0] == '\"';
  }

  lemma {:induction false} ObjectRead(ms: seq<Member>, x: string, ascii: bool) returns (v: Json)
    requires ms != [] && UniqueKeys(ms) && DictMembers(ms)
    ensures ReadValue(Text(Obj(ms), ascii) + x) == Some((v, x))
    ensures Meaning(v) == Meaning(Obj(ms)) && KeysAscend(v)
    decreases ms, 2
  {
    var es := Sorted(ms, ascii);
    MembersText(ms, x, ascii);
    SortedMembers(ms, ascii);
    var vs := MembersRead(es, ms, x, ascii);
    BraceRead(Join(EntryTexts(es, ascii)) + ("}" + x));
    MembersMean(vs, ms, ascii);
    v := Obj(vs);
  }

  /** A printed value is read back, up to what follows it, with the same meaning and its keys in order. */
  lemma {:induction false} ValueRead(j: Json, x: string, ascii: bool) returns (v: Json)
    requires Dict(j) && Ends(x)
    ensures ReadValue(Text(j, ascii) + x) == Some((v, x))
    ensures Meaning(v) == Meaning(j) && KeysAscend(v)
    decreases j
  {
    match j
    case Arr(items) =>
      EmptyRead(x, ascii);
      if items == [] { v := j; } else { v := ArrayRead(items, x, ascii); }
    case Obj(ms) =>
      EmptyRead(x, ascii);
      if ms == [] { v := j; } else { v := ObjectRead(ms, x, ascii); }
    case _ =>
      ScalarRead(j, x, ascii);
      v := j;
  }

  /** What is printed is JSON text: read by the grammar it gives the value back, keys sorted, with nothing left. */
  lemma ReadsBack(j: Json, ascii: bool) returns (v: Json)
    requires Dict(j)
    ensures ReadValue(Text(j, ascii)) == Some((v, "")) && Meaning(v) == Meaning(j) && KeysAscend(v)
  {
    assert Text(j, ascii) + "" == Text(j, ascii);
    v := ValueRead(j, "", ascii);
  }

  // ---- Among the texts that read the same, the printed one ----

  predicate Printable(c: char) {
    32 <= c as int <= 126
  }

  ghost predicate Plain(t: string) {
    forall c :: c in t ==> Printable(c)
  }

  /** No text for a character is shorter, or none in printable ASCII where that is asked for. */
  lemma EscapeShortest(c: char, ascii: bool, e: string)
    requires ReadChar(e) == Some((c, "")) && (ascii ==> Plain(e))
    ensures |Escape(c, ascii)| <= |e|
  {
    if IsLong(c, ascii) {
      LongForm(c, ascii);
      assert e[0] in e;
      if e[0] == '\\' && e[1] == 'u' && c as int >= 0x10000 { PairIsLong(e[2..], c); }
    } else {
      ShortForm(c, ascii);
    }
  }

  lemma PairIsLong(t: string, c: char)
    requires ReadEscaped(t) == Some((c, "")) && c as int >= 0x10000
    ensures |t| >= 10
  {
    var u := ReadUnit(t).value;
    assert t[6..] == t[4..][2..];
    assert |t[6..]| >= 4;
  }

  lemma HexPlain(u: int)
    requires 0 <= u < 0x10000
    ensures forall d :: d in Hex4(u) ==> '0' <= d <= '9' || 'a' <= d <= 'f'
  {
    DigitPlain(u / 0x1000);
    DigitPlain(u / 0x100 % 0x10);
    DigitPlain(u / 0x10 % 0x10);
    DigitPlain(u % 0x10);
  }

  lemma DigitPlain(d: int)
    requires 0 <= d < 16
    ensures '0' <= HexDigit(d) <= '9' || 'a' <= HexDigit(d) <= 'f'
  {
    assert HexDigit(d) as int == (if d < 10 then 48 + d else 87 + d);
  }

  lemma EscapePlain(c: char)
    ensures Plain(Escape(c, true))
  {
    if IsLong(c, true) {
      LongText(c, true);
      if c as int < 0x10000 {
        HexPlain(c as int);
      } else {
        HexPlain(0xD800 + (c as int - 0x10000) / 0x400);
        HexPlain(0xDC00 + (c as int - 0x10000) % 0x400);
      }
    } else {
      ShortForm(c, true);
    }
  }

  lemma {:induction false} StringPlain(s: string)
    ensures Plain(EscapeAll(s, true))
  {
    if s != "" {
      EscapePlain(s[0]);
      StringPlain(s[1..]);
    }
  }

  lemma {:induction false} JoinPlain(ts: seq<string>)
    requires forall t :: t in ts ==> Plain(t)
    ensures Plain(Join(ts))
  {
    if ts != [] {
      assert ts[0] in ts && forall t :: t in ts[1..] ==> t in ts;
      if |ts| > 1 { JoinPlain(ts[1..]); }
    }
  }

  lemma {:induction false} EntriesPlain(es: seq<KeyText>)
    requires forall e :: e in es ==> Plain(e.1)
    ensures forall t :: t in EntryTexts(es, true) ==> Plain(t)
  {
    if es != [] {
      assert es[0] in es && forall e :: e in es[1..] ==> e in es;
      StringPlain(es[0].0);
      EntriesPlain(es[1..]);
    }
  }

  lemma NumberPlain(n: int)
    ensures Plain(IntText(n))
  {
    var m := if n < 0 then -n else n;
    DigitsOnly(m);
    assert forall c :: c in Digits(m) ==> IsDigit(c);
  }

  /** Canonical text is printable ASCII throughout, so encoding it changes nothing. */
  lemma {:induction false} CanonicalPlain(j: Json)
    ensures Plain(Canonical(j))
    decreases j
  {
    match j
    case Null =>
    case Bool(_) =>
    case Num(n) => NumberPlain(n);
    case Str(s) => StringPlain(s);
    case Arr(items) =>
      ItemsPlain(items);
      JoinPlain(TextEach(items, true));
    case Obj(ms) =>
      var es := TextMembers(ms, true);
      forall e | e in es ensures Plain(e.1) {
        var i :| 0 <= i < |es| && es[i] == e;
        CanonicalPlain(ms[i].value);
      }
      SortKeeps(es);
      EntriesPlain(SortByKey(es));
      JoinPlain(EntryTexts(SortByKey(es), true));
  }

  lemma {:induction false} ItemsPlain(items: seq<Json>)
    ensures forall t :: t in TextEach(items, true) ==> Plain(t)
    decreases items
  {
    if items != [] {
      CanonicalPlain(items[0]);
      ItemsPlain(items[1..]);
    }
  }
}
