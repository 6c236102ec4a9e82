/** Texts joined by a separator that one side does not hold. */
module Separators {
  lemma SeparatorInside(sep: char, a: string, r: string, b: string, s: string)
    requires a + [sep] + r == b + [sep] + s && |a| < |b|
    ensures sep in b && sep in r
  {
    var (whole, other) := (a + [sep] + r, b + [sep] + s);
    assert b[|a|] == whole[|a|] == sep;
    assert sep == other[|b|] == whole[|b|] == r[|b| - |a| - 1];
  }

  /** A joined text splits one way at its first separator, and one way at its last. */
  lemma SplitsOneWay(sep: char, a: string, r: string, b: string, s: string)
    requires a + [sep] + r == b + [sep] + s
    requires (sep !in a && sep !in b) || (sep !in r && sep !in s)
    ensures a == b && r == s
  {
    if |a| < |b| {
      SeparatorInside(sep, a, r, b, s);
    } else if |b| < |a| {
      SeparatorInside(sep, b, s, a, r);
    }
    var (whole, other) := (a + [sep] + r, b + [sep] + s);
    assert a == whole[..|a|] == other[..|b|] == b;
    assert r == whole[|a| + 1..] == other[|b| + 1..] == s;
  }
}
