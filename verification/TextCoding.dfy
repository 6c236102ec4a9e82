/** RFC 4648 text codings without padding: base32 (section 6) in either case and base64url (section 5). */
module TextCoding {
  import opened AsciiCase
  import opened Octets
  import opened Wrappers

  type Bits = seq<bool>

  datatype Alphabet = Base32Upper | Base32Lower | Base64Url

  function Width(a: Alphabet): nat {
    if a == Base64Url then 6 else 5
  }

  function Size(a: Alphabet): nat {
    if a == Base64Url then 64 else 32
  }

  function Symbol(a: Alphabet, v: nat): char
    requires v < Size(a)
  {
    match a
    case Base32Upper => if v < 26 then 'A' + v as char else '2' + (v - 26) as char
    case Base32Lower => if v < 26 then 'a' + v as char else '2' + (v - 26) as char
    case Base64Url =>
      if v < 26 then 'A' + v as char else if v < 52 then 'a' + (v - 26) as char
      else if v < 62 then '0' + (v - 52) as char else if v == 62 then '-' else '_'
  }

  function ValueOf(a: Alphabet, c: char): Option<nat> {
    match a
    case Base32Upper =>
      if 'A' <= c <= 'Z' then Some((c - 'A') as nat) else if '2' <= c <= '7' then Some(26 + (c - '2') as nat) else None
    case Base32Lower =>
      if 'a' <= c <= 'z' then Some((c - 'a') as nat) else if '2' <= c <= '7' then Some(26 + (c - '2') as nat) else None
    case Base64Url =>
      if 'A' <= c <= 'Z' then Some((c - 'A') as nat)
      else if 'a' <= c <= 'z' then Some(26 + (c - 'a') as nat)
      else if '0' <= c <= '9' then Some(52 + (c - '0') as nat)
      else if c == '-' then Some(62) else if c == '_' then Some(63) else None
  }

  lemma SymbolIff(a: Alphabet, c: char, v: nat)
    ensures ValueOf(a, c) == Some(v) <==> v < Size(a) && Symbol(a, v) == c
  {}

  const DIGITS := "0123456789"

  /** The characters of an alphabet, in the order of their values. */
  function Table(a: Alphabet): string {
    match a
    case Base32Upper => UPPER + DIGITS[2..8]
    case Base32Lower => LOWER + DIGITS[2..8]
    case Base64Url => UPPER + LOWER + DIGITS + "-_"
  }

  lemma DigitAt(v: nat)
    requires v < 10
    ensures |DIGITS| == 10 && DIGITS[v] == '0' + v as char
  {}

  /** The symbol of a value is its character in the table. */
  lemma SymbolTabled(a: Alphabet, v: nat)
    requires v < Size(a)
    ensures |Table(a)| == Size(a) && Symbol(a, v) == Table(a)[v]
  {
    hide UPPER, LOWER, DIGITS;
    UpperAt(if v < 26 then v else 0);
    LowerAt(if v < 26 then v else if v < 52 then v - 26 else 0);
    DigitAt(if a != Base64Url && v >= 26 then v - 24 else if 52 <= v < 62 then v - 52 else 0);
  }

  // ---- bits in groups ----

  /** The bits of a number, the most significant first. */
  function NatBits(v: nat, w: nat): (b: Bits)
    ensures |b| == w
    decreases w
  {
    if w == 0 then [] else NatBits(v / 2, w - 1) + [v % 2 == 1]
  }

  function BitsNat(b: Bits): nat {
    if b == [] then 0 else 2 * BitsNat(b[..|b| - 1]) + if b[|b| - 1] then 1 else 0
  }

  function Pow2(w: nat): nat {
    if w == 0 then 1 else 2 * Pow2(w - 1)
  }

  lemma {:induction false} NatBitsInverse(v: nat, w: nat)
    requires v < Pow2(w)
    ensures BitsNat(NatBits(v, w)) == v
    decreases w
  {
    if w != 0 {
      NatBitsInverse(v / 2, w - 1);
      assert NatBits(v, w)[..w - 1] == NatBits(v / 2, w - 1);
    }
  }

  lemma {:induction false} BitsNatInverse(b: Bits)
    ensures BitsNat(b) < Pow2(|b|) && NatBits(BitsNat(b), |b|) == b
    decreases |b|
  {
    if b != [] {
      BitsNatInverse(b[..|b| - 1]);
      assert b == b[..|b| - 1] + [b[|b| - 1]];
    }
  }

  /** Five or six bits to a symbol, eight to an octet. */
  predicate IsWidth(w: nat) {
    w == 5 || w == 6 || w == 8
  }

  function Groups(b: Bits, w: nat): (g: seq<Bits>)
    requires IsWidth(w) && |b| % w == 0
    ensures forall i :: 0 <= i < |g| ==> |g[i]| == w
    decreases |b|, w
  {
    if b == [] then []
    else
      GroupFits(|b|, w);
      [b[..w]] + Groups(b[w..], w)
  }

  function Flatten(g: seq<Bits>): Bits
    decreases |g|
  {
    if g == [] then [] else g[0] + Flatten(g[1..])
  }

  lemma GroupFits(n: nat, w: nat)
    requires IsWidth(w) && n > 0 && n % w == 0
    ensures n >= w && (n - w) % w == 0
  {
    if w == 5 {} else if w == 6 {} else {}
  }

  lemma {:induction false} FlattenGroups(b: Bits, w: nat)
    requires IsWidth(w) && |b| % w == 0
    ensures Flatten(Groups(b, w)) == b
    decreases |b|
  {
    if b != [] {
      GroupFits(|b|, w);
      FlattenGroups(b[w..], w);
      assert Groups(b, w)[1..] == Groups(b[w..], w);
    }
  }

  lemma MultipleStep(w: nat, n: nat)
    requires IsWidth(w) && n > 0
    ensures w * n == w + w * (n - 1) && (w * n) % w == 0
  {
    if w == 5 {} else if w == 6 {} else {}
  }

  lemma {:induction false} GroupsFlatten(g: seq<Bits>, w: nat)
    requires IsWidth(w) && forall i :: 0 <= i < |g| ==> |g[i]| == w
    ensures |Flatten(g)| == w * |g| && |Flatten(g)| % w == 0
    ensures Groups(Flatten(g), w) == g
    decreases |g|
  {
    if g != [] {
      GroupsFlatten(g[1..], w);
      MultipleStep(w, |g|);
      var f := Flatten(g);
      assert f[..w] == g[0] && f[w..] == Flatten(g[1..]);
    }
  }

  // ---- octets and symbols as groups ----

  function OctetBits(u: Octet): (b: Bits)
    ensures |b| == 8
  {
    [u.b7, u.b6, u.b5, u.b4, u.b3, u.b2, u.b1, u.b0]
  }

  function BitsOctet(b: Bits): Octet
    requires |b| == 8
  {
    Octet(b[0], b[1], b[2], b[3], b[4], b[5], b[6], b[7])
  }

  lemma OctetBitsInverse(b: Bits, u: Octet)
    requires |b| == 8
    ensures BitsOctet(b) == u <==> OctetBits(u) == b
  {
    hide BitsOctet, OctetBits;
    OfOctetBits(u);
    OfBitsOctet(b);
  }

  lemma OfOctetBits(u: Octet)
    ensures BitsOctet(OctetBits(u)) == u
  {}

  lemma OfBitsOctet(b: Bits)
    requires |b| == 8
    ensures OctetBits(BitsOctet(b)) == b
  {
    assert b == [b[0], b[1], b[2], b[3], b[4], b[5], b[6], b[7]];
  }

  function OctetGroups(s: seq<Octet>): seq<Bits> {
    seq(|s|, i requires 0 <= i < |s| => OctetBits(s[i]))
  }

  function BitsOf(s: seq<Octet>): (b: Bits)
    ensures |b| == 8 * |s|
  {
    GroupsFlatten(OctetGroups(s), 8);
    Flatten(OctetGroups(s))
  }

  function OctetsOf(b: Bits): seq<Octet>
    requires |b| % 8 == 0
  {
    var g := Groups(b, 8);
    seq(|g|, i requires 0 <= i < |g| => BitsOctet(g[i]))
  }

  lemma OctetsInverse(b: Bits, s: seq<Octet>)
    requires |b| % 8 == 0
    ensures OctetsOf(b) == s <==> b == BitsOf(s)
  {
    hide Groups, Flatten, OctetBits, BitsOctet;
    GroupsFlatten(OctetGroups(s), 8);
    FlattenGroups(b, 8);
    var g := Groups(b, 8);
    if OctetsOf(b) == s {
      forall i | 0 <= i < |g| ensures OctetBits(s[i]) == g[i] {
        OctetBitsInverse(g[i], s[i]);
      }
      assert OctetGroups(s) == g;
    }
    if b == BitsOf(s) {
      forall i | 0 <= i < |g| ensures BitsOctet(g[i]) == s[i] {
        OctetBitsInverse(g[i], s[i]);
      }
      assert OctetsOf(b) == s;
    }
  }

  predicate InAlphabet(a: Alphabet, t: string) {
    forall i :: 0 <= i < |t| ==> ValueOf(a, t[i]).Some?
  }

  function SymbolGroups(a: Alphabet, t: string): (g: seq<Bits>)
    requires InAlphabet(a, t)
  {
    seq(|t|, i requires 0 <= i < |t| => NatBits(ValueOf(a, t[i]).value, Width(a)))
  }

  /** Text for bits that fill their groups. */
  function SymbolsOf(a: Alphabet, b: Bits): string
    requires |b| % Width(a) == 0
  {
    hide BitsNat;
    var g := Groups(b, Width(a));
    seq(|g|, i requires 0 <= i < |g| => GroupSymbol(a, g[i]))
  }

  function GroupSymbol(a: Alphabet, g: Bits): char
    requires |g| == Width(a)
  {
    BitsNatInverse(g);
    PowWidth(a);
    Symbol(a, BitsNat(g))
  }

  lemma PowWidth(a: Alphabet)
    ensures Pow2(Width(a)) == Size(a)
  {
    assert Pow2(5) == 32;
    assert Pow2(6) == 2 * Pow2(5);
  }

  lemma GroupSymbolIff(a: Alphabet, g: Bits, c: char)
    requires |g| == Width(a)
    ensures GroupSymbol(a, g) == c <==> ValueOf(a, c).Some? && NatBits(ValueOf(a, c).value, Width(a)) == g
  {
    BitsNatInverse(g);
    PowWidth(a);
    SymbolIff(a, c, BitsNat(g));
    if ValueOf(a, c).Some? {
      var v := ValueOf(a, c).value;
      SymbolIff(a, c, v);
      NatBitsInverse(v, Width(a));
    }
  }

  lemma SymbolsInverse(a: Alphabet, b: Bits, t: string)
    requires |b| % Width(a) == 0
    ensures SymbolsOf(a, b) == t <==> InAlphabet(a, t) && Flatten(SymbolGroups(a, t)) == b
  {
    hide Groups, Flatten, GroupSymbol, ValueOf, NatBits;
    var (w, g) := (Width(a), Groups(b, Width(a)));
    FlattenGroups(b, w);
    if SymbolsOf(a, b) == t {
      forall i | 0 <= i < |t| ensures ValueOf(a, t[i]).Some? && NatBits(ValueOf(a, t[i]).value, w) == g[i] {
        assert t[i] == GroupSymbol(a, g[i]);
        GroupSymbolIff(a, g[i], t[i]);
      }
      assert SymbolGroups(a, t) == g;
    }
    if InAlphabet(a, t) && Flatten(SymbolGroups(a, t)) == b {
      GroupsFlatten(SymbolGroups(a, t), w);
      forall i | 0 <= i < |g| ensures GroupSymbol(a, g[i]) == t[i] {
        GroupSymbolIff(a, g[i], t[i]);
      }
      assert SymbolsOf(a, b) == t;
    }
  }

  // ---- the codings ----

  /** How many zero bits fill the last group after `n` bits. */
  function Fill(n: nat, w: nat): nat
    requires w > 0
  {
    if n % w == 0 then 0 else w - n % w
  }

  lemma FillIff(n: nat, w: nat, r: nat)
    requires w == 5 || w == 6
    ensures Fill(n, w) < w && (n + Fill(n, w)) % w == 0
    ensures r == Fill(n, w) <==> r < w && (n + r) % w == 0
  {
    WrapSum(n, w, Fill(n, w));
    if r < w {
      WrapSum(n, w, r);
    }
  }

  lemma WrapSum(n: nat, w: nat, r: nat)
    requires (w == 5 || w == 6) && r < w
    ensures (n + r) % w == 0 <==> n % w + r in {0, w}
  {
    if w == 5 {
      assert (n + r) % 5 == (n % 5 + r) % 5;
    } else {
      assert (n + r) % 6 == (n % 6 + r) % 6;
    }
  }

  function Zeros(n: nat): Bits {
    seq(n, _ => false)
  }

  function Encode(a: Alphabet, s: seq<Octet>): string {
    var (b, w) := (BitsOf(s), Width(a));
    FillIff(|b|, w, 0);
    SymbolsOf(a, b + Zeros(Fill(|b|, w)))
  }

  /** The bits of the whole octets among `n` bits. */
  function WholeOctets(n: nat): (m: nat)
    ensures m <= n < m + 8 && m % 8 == 0
  {
    n - n % 8
  }

  /** Refuses foreign symbols, lengths no encoding has, and trailing bits that are not zero. */
  function Decode(a: Alphabet, t: string): Option<seq<Octet>> {
    if !InAlphabet(a, t) then None
    else
      var b := Flatten(SymbolGroups(a, t));
      var n := WholeOctets(|b|);
      if |b| - n >= Width(a) || true in b[n..] then None
      else Some(OctetsOf(b[..n]))
  }

  lemma DecodedIsEncoded(a: Alphabet, t: string, s: seq<Octet>)
    requires Decode(a, t) == Some(s)
    ensures t == Encode(a, s)
  {
    hide OctetsOf, SymbolsOf, SymbolGroups, Flatten, InAlphabet, WholeOctets, Fill, BitsOf;
    FlatLength(a, t);
    var (f, w) := (Flatten(SymbolGroups(a, t)), Width(a));
    var n := WholeOctets(|f|);
    hide Width;
    OctetsInverse(f[..n], s);
    FillIff(n, w, |f| - n);
    NoTrueIsZeros(f[n..]);
    assert f == BitsOf(s) + Zeros(Fill(n, w));
    SymbolsInverse(a, f, t);
  }

  lemma Remainder8(n: nat, r: nat)
    requires r < 8
    ensures WholeOctets(8 * n + r) == 8 * n
  {}

  /** Decoding text whose bits are whole octets and a short run of zeros. */
  lemma DecodeBits(a: Alphabet, t: string, n: nat, b: Bits, fill: nat)
    requires InAlphabet(a, t) && Flatten(SymbolGroups(a, t)) == b + Zeros(fill) && |b| == 8 * n && fill < Width(a)
    ensures Decode(a, t) == Some(OctetsOf(b))
  {
    hide OctetsOf, SymbolGroups, Flatten, InAlphabet, WholeOctets;
    var f := Flatten(SymbolGroups(a, t));
    Remainder8(n, fill);
    assert f[..|b|] == b && f[|b|..] == Zeros(fill);
    NoTrueIsZeros(f[|b|..]);
  }

  lemma EncodedDecodes(a: Alphabet, s: seq<Octet>)
    ensures Decode(a, Encode(a, s)) == Some(s)
  {
    hide Decode, OctetsOf, SymbolsOf, SymbolGroups, Flatten, InAlphabet, Fill, BitsOf;
    var (b, w, t) := (BitsOf(s), Width(a), Encode(a, s));
    var fill := Fill(|b|, w);
    FillIff(|b|, w, fill);
    SymbolsInverse(a, b + Zeros(fill), t);
    DecodeBits(a, t, |s|, b, fill);
    OctetsInverse(b, s);
  }

  /** A text decodes to some octets exactly when it is their encoding: one text for each octet sequence. */
  lemma DecodeIffEncode(a: Alphabet, t: string, s: seq<Octet>)
    ensures Decode(a, t) == Some(s) <==> t == Encode(a, s)
  {
    hide Decode, Encode;
    EncodedDecodes(a, s);
    if Decode(a, t) == Some(s) {
      DecodedIsEncoded(a, t, s);
    }
  }

  lemma NoTrueIsZeros(b: Bits)
    ensures true !in b <==> b == Zeros(|b|)
  {
    if true !in b {
      forall i | 0 <= i < |b| ensures !b[i] {
        assert b[i] in b;
      }
    }
  }

  lemma FlatLength(a: Alphabet, t: string)
    requires InAlphabet(a, t)
    ensures |Flatten(SymbolGroups(a, t))| % Width(a) == 0
  {
    hide Flatten;
    GroupsFlatten(SymbolGroups(a, t), Width(a));
  }

  /** How long an encoding is. */
  lemma EncodedLength(a: Alphabet, s: seq<Octet>)
    ensures |Encode(a, s)| * Width(a) == 8 * |s| + Fill(8 * |s|, Width(a))
    ensures InAlphabet(a, Encode(a, s))
  {
    hide OctetsOf, SymbolsOf, Flatten;
    var (b, w) := (BitsOf(s), Width(a));
    FillIff(|b|, w, 0);
    SymbolsInverse(a, b + Zeros(Fill(|b|, w)), Encode(a, s));
    GroupsFlatten(SymbolGroups(a, Encode(a, s)), w);
  }

  // ---- the number an encoding stands for ----

  /** Octets as one number, the first the most significant. */
  function OctetNumber(s: seq<Octet>): nat
    decreases |s|
  {
    if s == [] then 0 else 256 * OctetNumber(s[..|s| - 1]) + Value(s[|s| - 1])
  }

  /** Symbols as one number, the first the most significant. */
  function SymbolNumber(a: Alphabet, t: string): nat
    requires InAlphabet(a, t)
    decreases |t|
  {
    if t == "" then 0 else Size(a) * SymbolNumber(a, t[..|t| - 1]) + ValueOf(a, t[|t| - 1]).value
  }

  lemma {:induction false} FlattenLast(g: seq<Bits>, last: Bits)
    ensures Flatten(g + [last]) == Flatten(g) + last
    decreases |g|
  {
    if g == [] {
      assert [last][1..] == [];
    } else {
      FlattenLast(g[1..], last);
      assert (g + [last])[1..] == g[1..] + [last];
    }
  }

  lemma BitLast(b: Bits, last: bool)
    ensures BitsNat(b + [last]) == 2 * BitsNat(b) + if last then 1 else 0
  {
    assert (b + [last])[..|b|] == b;
  }

  lemma {:induction false} BitsNatAppend(b: Bits, more: Bits)
    ensures BitsNat(b + more) == BitsNat(b) * Pow2(|more|) + BitsNat(more)
    decreases |more|
  {
    hide BitsNat;
    NoBits();
    if more == [] {
      assert b + more == b;
    } else {
      var init := more[..|more| - 1];
      BitsNatAppend(b, init);
      BitLast(b + init, more[|more| - 1]);
      BitLast(init, more[|more| - 1]);
      assert b + init + [more[|more| - 1]] == b + more && init + [more[|more| - 1]] == more;
      DoubleOut(BitsNat(b), Pow2(|init|));
    }
  }

  lemma DoubleOut(x: nat, p: nat)
    ensures x * (2 * p) == 2 * (x * p)
  {}

  lemma {:induction false} BitsNatZeros(n: nat)
    ensures BitsNat(Zeros(n)) == 0
    decreases n
  {
    if n > 0 {
      BitsNatZeros(n - 1);
      assert Zeros(n)[..n - 1] == Zeros(n - 1);
    }
  }

  lemma OctetBitsNat(u: Octet)
    ensures BitsNat(OctetBits(u)) == Value(u)
  {
    hide BitsNat;
    NoBits();
    var b := OctetBits(u);
    PrefixNumber(b, 0);
    PrefixNumber(b, 1);
    PrefixNumber(b, 2);
    PrefixNumber(b, 3);
    PrefixNumber(b, 4);
    PrefixNumber(b, 5);
    PrefixNumber(b, 6);
    PrefixNumber(b, 7);
    assert b[..0] == [] && b[..8] == b;
  }

  lemma PrefixNumber(b: Bits, k: nat)
    requires k < |b|
    ensures BitsNat(b[..k + 1]) == 2 * BitsNat(b[..k]) + if b[k] then 1 else 0
  {
    assert b[..k + 1][..k] == b[..k];
  }

  lemma {:induction false} BitsOfNumber(s: seq<Octet>)
    ensures BitsNat(BitsOf(s)) == OctetNumber(s)
    decreases |s|
  {
    hide OctetBits, Value, Flatten, BitsNat;
    if s == [] {
      NoBits();
    } else {
      var (init, last) := (s[..|s| - 1], s[|s| - 1]);
      BitsOfNumber(init);
      assert OctetGroups(s) == OctetGroups(init) + [OctetBits(last)];
      FlattenLast(OctetGroups(init), OctetBits(last));
      BitsNatAppend(BitsOf(init), OctetBits(last));
      OctetBitsNat(last);
      PowOctet();
    }
  }

  lemma NoBits()
    ensures Flatten([]) == [] && BitsNat([]) == 0
  {}

  lemma PowOctet()
    ensures Pow2(8) == 256
  {
    assert Pow2(4) == 16;
  }

  lemma {:induction false} SymbolGroupsNumber(a: Alphabet, t: string)
    requires InAlphabet(a, t)
    ensures BitsNat(Flatten(SymbolGroups(a, t))) == SymbolNumber(a, t)
    decreases |t|
  {
    hide ValueOf, Flatten, BitsNat, NatBits;
    if t == "" {
      NoBits();
    } else {
      var (init, v) := (t[..|t| - 1], ValueOf(a, t[|t| - 1]).value);
      SymbolGroupsNumber(a, init);
      assert SymbolGroups(a, t) == SymbolGroups(a, init) + [NatBits(v, Width(a))];
      FlattenLast(SymbolGroups(a, init), NatBits(v, Width(a)));
      BitsNatAppend(Flatten(SymbolGroups(a, init)), NatBits(v, Width(a)));
      SymbolIff(a, t[|t| - 1], v);
      PowWidth(a);
      NatBitsInverse(v, Width(a));
    }
  }

  /** An encoding is the number its octets are, shifted by the bits that fill its last symbol. */
  lemma EncodedNumber(a: Alphabet, s: seq<Octet>)
    ensures InAlphabet(a, Encode(a, s))
    ensures SymbolNumber(a, Encode(a, s)) == OctetNumber(s) * Pow2(Fill(8 * |s|, Width(a)))
  {
    hide SymbolsOf, SymbolNumber, OctetNumber, Flatten, BitsNat, Groups, Pow2;
    var (b, w) := (BitsOf(s), Width(a));
    var fill := Fill(|b|, w);
    FillIff(|b|, w, 0);
    SymbolsInverse(a, b + Zeros(fill), Encode(a, s));
    SymbolGroupsNumber(a, Encode(a, s));
    BitsNatAppend(b, Zeros(fill));
    BitsNatZeros(fill);
    BitsOfNumber(s);
  }

  // ---- encodings of whole groups ----

  lemma {:induction false} GroupsAppend(b: Bits, more: Bits, w: nat)
    requires IsWidth(w) && |b| % w == 0 && |more| % w == 0
    ensures |b + more| % w == 0 && Groups(b + more, w) == Groups(b, w) + Groups(more, w)
    decreases |b|
  {
    SumFits(|b|, |more|, w);
    if b == [] {
      assert b + more == more;
    } else {
      GroupFits(|b|, w);
      GroupFits(|b + more|, w);
      assert (b + more)[..w] == b[..w] && (b + more)[w..] == b[w..] + more;
      GroupsAppend(b[w..], more, w);
    }
  }

  lemma SumFits(m: nat, n: nat, w: nat)
    requires IsWidth(w) && m % w == 0 && n % w == 0
    ensures (m + n) % w == 0
  {
    if w == 5 {} else if w == 6 {} else {}
  }

  lemma {:induction false} FlattenAppend(g: seq<Bits>, more: seq<Bits>)
    ensures Flatten(g + more) == Flatten(g) + Flatten(more)
    decreases |g|
  {
    if g == [] {
      assert g + more == more;
    } else {
      FlattenAppend(g[1..], more);
      assert (g + more)[1..] == g[1..] + more;
    }
  }

  /** Octets that fill their symbols are encoded on their own. */
  lemma EncodeSplits(a: Alphabet, p: seq<Octet>, q: seq<Octet>)
    requires 8 * |p| % Width(a) == 0
    ensures Encode(a, p + q) == Encode(a, p) + Encode(a, q)
  {
    hide Flatten, Groups, GroupSymbol, OctetBits;
    var w := Width(a);
    assert OctetGroups(p + q) == OctetGroups(p) + OctetGroups(q);
    FlattenAppend(OctetGroups(p), OctetGroups(q));
    assert BitsOf(p + q) == BitsOf(p) + BitsOf(q);
    FillIff(8 * |p|, w, 0);
    FillIff(8 * |q|, w, 0);
    SameFill(8 * |p|, 8 * |q|, w);
    var (b, c) := (BitsOf(p), BitsOf(q) + Zeros(Fill(8 * |q|, w)));
    assert b + Zeros(0) == b && BitsOf(p + q) + Zeros(Fill(8 * |q|, w)) == b + c;
    GroupsAppend(b, c, w);
    assert SymbolsOf(a, b + c) == SymbolsOf(a, b) + SymbolsOf(a, c);
  }

  lemma SameFill(m: nat, n: nat, w: nat)
    requires (w == 5 || w == 6) && m % w == 0
    ensures Fill(m, w) == 0 && Fill(m + n, w) == Fill(n, w)
  {
    if w == 5 {
      assert (m + n) % 5 == n % 5;
    } else {
      assert (m + n) % 6 == n % 6;
    }
  }
}
