/** JSON values as Python holds them, and the text `json.dumps` prints with sorted keys and no spaces. */
module Json {
  import opened Wrappers

  // A dictionary keeps its insertion order. Floating point numbers are not part of the model.
  datatype Json =
    | Null
    | Bool(b: bool)
    | Num(n: int)
    | Str(s: string)
    | Arr(items: seq<Json>)
    | Obj(members: seq<Member>)

  datatype Member = Member(key: string, value: Json)

  predicate UniqueKeys(ms: seq<Member>) {
    forall i, j :: 0 <= i < j < |ms| ==> ms[i].key != ms[j].key
  }

  /** Every dictionary, at any depth, has unique keys: what a Python dictionary guarantees. */
  predicate Dict(j: Json) {
    match j
    case Arr(items) => DictEach(items)
    case Obj(ms) => UniqueKeys(ms) && DictMembers(ms)
    case _ => true
  }

  predicate DictEach(items: seq<Json>) {
    forall i :: 0 <= i < |items| ==> Dict(items[i])
  }

  predicate DictMembers(ms: seq<Member>) {
    forall i :: 0 <= i < |ms| ==> Dict(ms[i].value)
  }

  // ---- What a value means: dictionaries compare without their order ----

  datatype Meant =
    | MNull
    | MBool(b: bool)
    | MNum(n: int)
    | MStr(s: string)
    | MArr(items: seq<Meant>)
    | MObj(fields: map<string, Meant>)

  function Meaning(j: Json): Meant {
    match j
    case Null => MNull
    case Bool(b) => MBool(b)
    case Num(n) => MNum(n)
    case Str(s) => MStr(s)
    case Arr(items) => MArr(MeaningEach(items))
    case Obj(ms) => MObj(MeaningFields(ms))
  }

  function MeaningEach(items: seq<Json>): seq<Meant> {
    if items == [] then [] else [Meaning(items[0])] + MeaningEach(items[1..])
  }

  function MeaningFields(ms: seq<Member>): map<string, Meant> {
    if ms == [] then map[] else MeaningFields(ms[1..])[ms[0].key := Meaning(ms[0].value)]
  }

  // ---- Dictionary access ----

  /** `d.get(key)` for a present key, nothing for an absent one. */
  function Get(ms: seq<Member>, key: string): (r: Option<Json>)
    ensures r.Some? ==> exists i :: 0 <= i < |ms| && ms[i] == Member(key, r.value)
    ensures r.None? <==> forall i :: 0 <= i < |ms| ==> ms[i].key != key
  {
    if ms == [] then None
    else if ms[0].key == key then Some(ms[0].value)
    else
      var r := Get(ms[1..], key);
      assert r.Some? ==> exists i :: 0 <= i < |ms[1..]| && ms[1..][i] == Member(key, r.value);
      assert forall i :: 0 < i < |ms| ==> ms[i] == ms[1..][i - 1];
      r
  }

  // ---- Printing ----

  /** Code point order, the order Python sorts strings in. */
  predicate Less(a: string, b: string) {
    b != "" && (a == "" || a[0] < b[0] || (a[0] == b[0] && Less(a[1..], b[1..])))
  }

  lemma {:induction false} LessTotal(a: string, b: string)
    ensures a == b || Less(a, b) || Less(b, a)
    ensures !(Less(a, b) && Less(b, a)) && !Less(a, a)
  {
    if a != "" && b != "" {
      LessTotal(a[1..], b[1..]);
      LessTotal(a[1..], a[1..]);
      assert a == [a[0]] + a[1..] && b == [b[0]] + b[1..];
    } else if a != "" {
      LessTotal(a[1..], a[1..]);
    }
  }

  lemma {:induction false} LessTransitive(a: string, b: string, c: string)
    requires Less(a, b) && Less(b, c)
    ensures Less(a, c)
  {
    if a != "" && a[0] == b[0] == c[0] {
      LessTransitive(a[1..], b[1..], c[1..]);
    }
  }

  /** The texts agree up to a place where the first one ends, or has the smaller character. */
  ghost predicate SmallerAt(a: string, b: string, k: nat) {
    k <= |a| && k < |b| && a[..k] == b[..k] && (k < |a| ==> a[k] < b[k])
  }

  /** Code point order, said of positions. */
  lemma LessIff(a: string, b: string)
    ensures Less(a, b) <==> exists k: nat :: SmallerAt(a, b, k)
  {
    if Less(a, b) { var k := LessAt(a, b); }
    if k: nat :| SmallerAt(a, b, k) { SmallerIsLess(a, b, k); }
  }

  lemma {:induction false} LessAt(a: string, b: string) returns (k: nat)
    requires Less(a, b)
    ensures SmallerAt(a, b, k)
  {
    k := 0;
    if a != "" && a[0] == b[0] {
      k := LessAt(a[1..], b[1..]);
      assert a[..k + 1] == [a[0]] + a[1..][..k] && b[..k + 1] == [b[0]] + b[1..][..k];
      k := k + 1;
    }
  }

  lemma {:induction false} SmallerIsLess(a: string, b: string, k: nat)
    requires SmallerAt(a, b, k)
    ensures Less(a, b)
    decreases k
  {
    if k > 0 {
      assert a[0] == a[..k][0] == b[..k][0] == b[0];
      assert a[1..][..k - 1] == a[..k][1..] && b[1..][..k - 1] == b[..k][1..];
      SmallerIsLess(a[1..], b[1..], k - 1);
    }
  }

  function HexDigit(d: int): char
    requires 0 <= d < 16
  {
    if d < 10 then '0' + d as char else 'a' + (d - 10) as char
  }

  function Hex4(u: int): string
    requires 0 <= u < 0x10000
  {
    [HexDigit(u / 0x1000), HexDigit(u / 0x100 % 0x10), HexDigit(u / 0x10 % 0x10), HexDigit(u % 0x10)]
  }

  /** One character inside a string literal; `ascii` is `ensure_ascii`. */
  function Escape(c: char, ascii: bool): string {
    if c == '\"' then "\\\""
    else if c == '\\' then "\\\\"
    else if c == '\n' then "\\n"
    else if c == '\r' then "\\r"
    else if c == '\t' then "\\t"
    else if c == '\U{0C}' then "\\f"
    else if c == '\U{08}' then "\\b"
    else if c < ' ' then "\\u" + Hex4(c as int)
    else if ascii && '~' < c then
      if c as int < 0x10000 then "\\u" + Hex4(c as int)
      else
        var v := c as int - 0x10000;
        "\\u" + Hex4(0xD800 + v / 0x400) + "\\u" + Hex4(0xDC00 + v % 0x400)
    else [c]
  }

  function EscapeAll(s: string, ascii: bool): string {
    if s == "" then "" else Escape(s[0], ascii) + EscapeAll(s[1..], ascii)
  }

  function Digits(n: nat): string {
    if n < 10 then ['0' + n as char] else Digits(n / 10) + ['0' + (n % 10) as char]
  }

  function IntText(n: int): string {
    if n < 0 then "-" + Digits(-n) else Digits(n)
  }

  function Join(texts: seq<string>): string {
    if texts == [] then ""
    else if |texts| == 1 then texts[0]
    else texts[0] + "," + Join(texts[1..])
  }

  type KeyText = (string, string)  // a key and the text of its value

  function Insert(e: KeyText, es: seq<KeyText>): (r: seq<KeyText>)
  {
    if es == [] || !Less(es[0].0, e.0) then [e] + es else [es[0]] + Insert(e, es[1..])
  }

  /** `sorted(d.items())`: keys are unique, so values never decide. */
  function SortByKey(es: seq<KeyText>): seq<KeyText> {
    if es == [] then [] else Insert(es[0], SortByKey(es[1..]))
  }

  function EntryText(e: KeyText, ascii: bool): string {
    "\"" + EscapeAll(e.0, ascii) + "\":" + e.1
  }

  function EntryTexts(es: seq<KeyText>, ascii: bool): (r: seq<string>)
    ensures |r| == |es|
  {
    if es == [] then [] else [EntryText(es[0], ascii)] + EntryTexts(es[1..], ascii)
  }

  /** `json.dumps(j, sort_keys=True, separators=(",", ":"), ensure_ascii=ascii)` */
  function Text(j: Json, ascii: bool): string {
    match j
    case Null => "null"
    case Bool(b) => if b then "true" else "false"
    case Num(n) => IntText(n)
    case Str(s) => "\"" + EscapeAll(s, ascii) + "\""
    case Arr(items) => "[" + Join(TextEach(items, ascii)) + "]"
    case Obj(ms) => "{" + Join(EntryTexts(SortByKey(TextMembers(ms, ascii)), ascii)) + "}"
  }

  function TextEach(items: seq<Json>, ascii: bool): (r: seq<string>)
    ensures |r| == |items|
  {
    if items == [] then [] else [Text(items[0], ascii)] + TextEach(items[1..], ascii)
  }

  function TextMembers(ms: seq<Member>, ascii: bool): (r: seq<KeyText>)
    ensures |r| == |ms|
    ensures forall i :: 0 <= i < |ms| ==> r[i] == (ms[i].key, Text(ms[i].value, ascii))
  {
    if ms == [] then [] else [(ms[0].key, Text(ms[0].value, ascii))] + TextMembers(ms[1..], ascii)
  }
}
