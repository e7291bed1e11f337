/** Texts joined by a separator, and when two of them are the same text. */
module Texts {
  predicate StartsWith(s: string, prefix: string) {
    |prefix| <= |s| && s[..|prefix|] == prefix
  }

  /** The ways in which `a`, `sep`, `x` and `b`, `sep`, `y` can be one text. */
  predicate Meets(a: string, x: string, b: string, y: string, sep: string)
    requires |sep| == 1
  {
    || (a == b && x == y)
    || (StartsWith(b, a + sep) && x == b[|a| + 1..] + sep + y)
    || (StartsWith(a, b + sep) && y == a[|b| + 1..] + sep + x)
  }

  lemma ShorterMeets(a: string, x: string, b: string, y: string, sep: string)
    requires |sep| == 1 && |a| <= |b| && a + sep + x == b + sep + y
    ensures Meets(a, x, b, y, sep) && (a == b || StartsWith(b, a + sep))
  {
    var text := a + sep + x;
    assert x == text[|a| + 1..] && y == text[|b| + 1..] && a == text[..|a|] && b == text[..|b|];
    if |a| < |b| {
      assert b[..|a| + 1] == text[..|a| + 1] == a + sep;
      assert x == b[|a| + 1..] + (sep + y);
    }
  }

  lemma LongerJoins(a: string, b: string, y: string, sep: string)
    requires |sep| == 1 && StartsWith(b, a + sep)
    ensures a + sep + (b[|a| + 1..] + sep + y) == b + sep + y
  {
    assert b == (a + sep) + b[|a| + 1..];
  }

  lemma JoinIff(a: string, x: string, b: string, y: string, sep: string)
    requires |sep| == 1
    ensures a + sep + x == b + sep + y <==> Meets(a, x, b, y, sep)
  {
    if a + sep + x == b + sep + y {
      if |a| <= |b| { ShorterMeets(a, x, b, y, sep); } else { ShorterMeets(b, y, a, x, sep); }
    }
    if StartsWith(b, a + sep) { LongerJoins(a, b, y, sep); }
    if StartsWith(a, b + sep) { LongerJoins(b, a, x, sep); }
  }
}
