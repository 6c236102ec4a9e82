/** The letters of ASCII and their two cases. */
module AsciiCase {
  const UPPER := "ABCDEFGHIJKLMNOPQRSTUVWXYZ"
  const LOWER := "abcdefghijklmnopqrstuvwxyz"

  lemma UpperAt(v: nat)
    requires v < 26
    ensures |UPPER| == 26 && UPPER[v] == 'A' + v as char
  {}

  lemma LowerAt(v: nat)
    requires v < 26
    ensures |LOWER| == 26 && LOWER[v] == 'a' + v as char
  {}

  lemma Lengths()
    ensures |UPPER| == |LOWER| == 26
  {}

  predicate IsCapital(c: char) {
    exists k :: 0 <= k < |UPPER| && c == UPPER[k]
  }

  /** `c` is the lower-case form of the capital `d`. */
  predicate IsLowerOf(c: char, d: char) {
    Lengths();
    exists k :: 0 <= k < 26 && c == LOWER[k] && d == UPPER[k]
  }

  /** The same character, or the two cases of one letter. */
  predicate SameLetter(c: char, d: char) {
    c == d || IsLowerOf(c, d) || IsLowerOf(d, c)
  }

  /** `to_ascii_uppercase`. */
  function Upper(c: char): char {
    if 'a' <= c <= 'z' then c - 32 as char else c
  }

  /** `to_ascii_lowercase`. */
  function Lower(c: char): char {
    if 'A' <= c <= 'Z' then c + 32 as char else c
  }

  lemma LowerOfIff(c: char, d: char)
    ensures IsLowerOf(c, d) <==> 'a' <= c <= 'z' && d == c - 32 as char
  {
    hide UPPER, LOWER;
    if 'a' <= c <= 'z' {
      var k := (c - 'a') as nat;
      LowerAt(k);
      UpperAt(k);
    }
    Lengths();
    if IsLowerOf(c, d) {
      var k :| 0 <= k < 26 && c == LOWER[k] && d == UPPER[k];
      LowerAt(k);
      UpperAt(k);
    }
  }

  lemma CapitalIff(c: char)
    ensures IsCapital(c) <==> 'A' <= c <= 'Z'
  {
    hide UPPER, LOWER;
    Lengths();
    if 'A' <= c <= 'Z' {
      UpperAt((c - 'A') as nat);
    }
    if IsCapital(c) {
      var k :| 0 <= k < |UPPER| && c == UPPER[k];
      UpperAt(k);
    }
  }

  /** Folding to one case finds the same letters, compared with a text that has no letter of the other case. */
  lemma FoldIff(c: char, d: char)
    ensures !IsCapital(d) ==> (Lower(c) == d <==> SameLetter(c, d))
    ensures Upper(d) == d ==> (Upper(c) == d <==> SameLetter(c, d))
  {
    hide IsCapital, IsLowerOf;
    CapitalIff(d);
    LowerOfIff(c, d);
    LowerOfIff(d, c);
  }
}
