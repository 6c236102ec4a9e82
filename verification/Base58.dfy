/** The base58btc decoder of the notification extension and the encoder its tests round-trip it against. */
module Base58 {
  import opened Wrappers

  // ---- numerals ----

  /** The number `s` reads as in base `b`, big-endian, behind a high part `h`. */
  function Num(b: nat, h: nat, s: seq<nat>): nat
    decreases |s|, b, h
  {
    if s == [] then h else b * Num(b, h, s[..|s| - 1]) + s[|s| - 1]
  }

  /** The same, little-endian. */
  function NumLe(b: nat, h: nat, s: seq<nat>): nat
    decreases |s|, b, h
  {
    if s == [] then h else s[0] + b * NumLe(b, h, s[1..])
  }

  function Reverse(s: seq<nat>): (r: seq<nat>)
    ensures |r| == |s|
    decreases |s|
  {
    if s == [] then [] else Reverse(s[1..]) + [s[0]]
  }

  predicate Digits(b: nat, s: seq<nat>) {
    forall i :: 0 <= i < |s| ==> s[i] < b
  }

  lemma {:induction false} ReverseNum(b: nat, h: nat, s: seq<nat>)
    ensures Num(b, h, Reverse(s)) == NumLe(b, h, s)
    decreases |s|
  {
    if s != [] {
      ReverseNum(b, h, s[1..]);
      assert Reverse(s)[..|s| - 1] == Reverse(s[1..]);
    }
  }

  lemma {:induction false} ReverseDigits(b: nat, s: seq<nat>)
    requires Digits(b, s)
    ensures Digits(b, Reverse(s)) && (s != [] ==> Reverse(s)[0] == s[|s| - 1])
    decreases |s|
  {
    if s != [] {
      ReverseDigits(b, s[1..]);
    }
  }

  /** A prepended digit is the low digit of the high part. */
  lemma {:induction false} NumPrepend(b: nat, h: nat, d: nat, s: seq<nat>)
    ensures Num(b, h, [d] + s) == Num(b, b * h + d, s)
    decreases |s|
  {
    if s == [] {
      assert [d] + s == [d] && [d][..0] == [];
      assert Num(b, h, [d]) == b * Num(b, h, []) + d;
    } else {
      assert ([d] + s)[..|s|] == [d] + s[..|s| - 1];
      NumPrepend(b, h, d, s[..|s| - 1]);
    }
  }

  function LeadingZeros(s: seq<nat>): (n: nat)
    ensures n <= |s| && (n < |s| ==> s[n] != 0) && forall i :: 0 <= i < n ==> s[i] == 0
    decreases |s|
  {
    if s == [] || s[0] != 0 then 0 else 1 + LeadingZeros(s[1..])
  }

  lemma {:induction false} NumDropZeros(b: nat, s: seq<nat>)
    ensures Num(b, 0, s[LeadingZeros(s)..]) == Num(b, 0, s)
    decreases |s|
  {
    if s != [] && s[0] == 0 {
      NumDropZeros(b, s[1..]);
      NumPrepend(b, 0, 0, s[1..]);
      assert s == [0] + s[1..];
      assert s[1..][LeadingZeros(s[1..])..] == s[LeadingZeros(s)..];
    } else {
      assert s[0..] == s;
    }
  }

  lemma {:induction false} NumPositive(b: nat, s: seq<nat>)
    requires b > 0 && s != [] && s[0] != 0
    ensures Num(b, 0, s) > 0
    decreases |s|
  {
    if |s| > 1 {
      NumPositive(b, s[..|s| - 1]);
    }
  }

  lemma SplitLow(b: nat, q: nat, d: nat, q': nat, d': nat)
    requires d < b && d' < b && b * q + d == b * q' + d'
    ensures q == q' && d == d'
  {
    if q < q' {
      assert b * q' == b * q + b * (q' - q);
      assert b * (q' - q) >= b by { MulAtLeast(b, q' - q); }
    } else if q' < q {
      assert b * q == b * q' + b * (q - q');
      assert b * (q - q') >= b by { MulAtLeast(b, q - q'); }
    }
  }

  lemma MulAtLeast(b: nat, k: nat)
    requires k > 0
    ensures b * k >= b
  {}

  /** Without leading zeros a number has one numeral. */
  lemma {:induction false} NumeralUnique(b: nat, s: seq<nat>, t: seq<nat>)
    requires b > 0 && Digits(b, s) && Digits(b, t)
    requires LeadingZeros(s) == 0 && LeadingZeros(t) == 0
    requires Num(b, 0, s) == Num(b, 0, t)
    ensures s == t
    decreases |s| + |t|
  {
    if s == [] && t != [] {
      NumPositive(b, t);
    } else if s != [] && t == [] {
      NumPositive(b, s);
    } else if s != [] {
      var (s', t') := (s[..|s| - 1], t[..|t| - 1]);
      SplitLow(b, Num(b, 0, s'), s[|s| - 1], Num(b, 0, t'), t[|t| - 1]);
      assert s' != [] ==> s'[0] == s[0];
      assert t' != [] ==> t'[0] == t[0];
      NumeralUnique(b, s', t');
      assert s == s' + [s[|s| - 1]] && t == t' + [t[|t| - 1]];
    }
  }

  // ---- one digit in: multiply by the other base and add ----

  /** Long multiplication from the low end of a big-endian numeral; also the carry left at the top. */
  function MulAdd(b: nat, m: nat, s: seq<nat>, c: nat): (r: (seq<nat>, nat))
    requires b > 0
    ensures |r.0| == |s| && Digits(b, r.0)
    decreases |s|, b, m, c
  {
    if s == [] then ([], c)
    else
      var t := c + m * s[|s| - 1];
      var r := MulAdd(b, m, s[..|s| - 1], t / b);
      (r.0 + [t % b], r.1)
  }

  /** The same over a little-endian numeral. */
  function MulAddLe(b: nat, m: nat, s: seq<nat>, c: nat): (r: (seq<nat>, nat))
    requires b > 0
    ensures |r.0| == |s| && Digits(b, r.0)
    decreases |s|, b, m, c
  {
    if s == [] then ([], c)
    else
      var t := c + m * s[0];
      var r := MulAddLe(b, m, s[1..], t / b);
      ([t % b] + r.0, r.1)
  }

  lemma DivideStep(b: nat, m: nat, x: nat, d: nat, c: nat)
    requires b > 0
    ensures b * (m * x + (c + m * d) / b) + (c + m * d) % b == m * (b * x + d) + c
  {
    var t := c + m * d;
    assert b * (t / b) + t % b == t;
    Rearrange(b, m, x, t / b);
    Rearrange2(b, m, x, d);
  }

  lemma Rearrange(b: nat, m: nat, x: nat, q: nat)
    ensures b * (m * x + q) == b * (m * x) + b * q
  {}

  lemma Rearrange2(b: nat, m: nat, x: nat, d: nat)
    ensures m * (b * x + d) == b * (m * x) + m * d
  {
    assert m * (b * x) == b * (m * x);
  }

  lemma {:induction false} MulAddNum(b: nat, m: nat, s: seq<nat>, c: nat)
    requires b > 0
    ensures var r := MulAdd(b, m, s, c); Num(b, r.1, r.0) == m * Num(b, 0, s) + c
    decreases |s|
  {
    if s != [] {
      var (init, d) := (s[..|s| - 1], s[|s| - 1]);
      var t := c + m * d;
      MulAddNum(b, m, init, t / b);
      var r := MulAdd(b, m, s, c);
      assert r.0[..|s| - 1] == MulAdd(b, m, init, t / b).0;
      DivideStep(b, m, Num(b, 0, init), d, c);
    }
  }

  lemma {:induction false} MulAddLeNum(b: nat, m: nat, s: seq<nat>, c: nat)
    requires b > 0
    ensures var r := MulAddLe(b, m, s, c); NumLe(b, r.1, r.0) == m * NumLe(b, 0, s) + c
    decreases |s|
  {
    if s != [] {
      var t := c + m * s[0];
      MulAddLeNum(b, m, s[1..], t / b);
      var r := MulAddLe(b, m, s, c);
      assert r.0[1..] == MulAddLe(b, m, s[1..], t / b).0;
      DivideStep(b, m, NumLe(b, 0, s[1..]), s[0], c);
    }
  }

  // ---- the alphabet ----

  /** Digits, capitals without I and O, small letters without l. */
  function DigitOf(c: char): Option<nat> {
    if '1' <= c <= '9' then Some((c - '1') as nat)
    else if 'A' <= c <= 'H' then Some(9 + (c - 'A') as nat)
    else if 'J' <= c <= 'N' then Some(17 + (c - 'J') as nat)
    else if 'P' <= c <= 'Z' then Some(22 + (c - 'P') as nat)
    else if 'a' <= c <= 'k' then Some(33 + (c - 'a') as nat)
    else if 'm' <= c <= 'z' then Some(44 + (c - 'm') as nat)
    else None
  }

  function CharOf(v: nat): char
    requires v < 58
  {
    if v < 9 then '1' + v as char else if v < 17 then 'A' + (v - 9) as char else if v < 22 then 'J' + (v - 17) as char
    else if v < 33 then 'P' + (v - 22) as char else if v < 44 then 'a' + (v - 33) as char else 'm' + (v - 44) as char
  }

  lemma AlphabetInverse(c: char, v: nat)
    ensures DigitOf(c) == Some(v) <==> v < 58 && CharOf(v) == c
  {}

  const ALPHABET := "123456789" + "ABCDEFGH" + "JKLMN" + "PQRSTUVWXYZ" + "abcdefghijk" + "mnopqrstuvwxyz"

  /** A digit's character is the one in its place in the alphabet. */
  lemma CharTabled(v: nat)
    requires v < 58
    ensures |ALPHABET| == 58 && ALPHABET[v] == CharOf(v)
  {
    DigitsTabled(if v < 9 then v else 0);
    CapitalsTabled(if 9 <= v < 33 then v else 9);
    SmallsTabled(if v >= 33 then v else 33);
    var (digits, capitals, smalls) := ("123456789", "ABCDEFGH" + "JKLMN" + "PQRSTUVWXYZ",
      "abcdefghijk" + "mnopqrstuvwxyz");
    assert ALPHABET == digits + (capitals + smalls);
  }

  lemma DigitsTabled(v: nat)
    requires v < 9
    ensures |"123456789"| == 9 && "123456789"[v] == CharOf(v)
  {}

  lemma CapitalsTabled(v: nat)
    requires 9 <= v < 33
    ensures var capitals := "ABCDEFGH" + "JKLMN" + "PQRSTUVWXYZ"; |capitals| == 24 && capitals[v - 9] == CharOf(v)
  {}

  lemma SmallsTabled(v: nat)
    requires 33 <= v < 58
    ensures var smalls := "abcdefghijk" + "mnopqrstuvwxyz"; |smalls| == 25 && smalls[v - 33] == CharOf(v)
  {}

  predicate InAlphabet(t: string) {
    forall i :: 0 <= i < |t| ==> DigitOf(t[i]).Some?
  }

  function DigitsOf(t: string): (s: seq<nat>)
    requires InAlphabet(t)
    ensures |s| == |t| && Digits(58, s)
  {
    seq(|t|, i requires 0 <= i < |t| => DigitOf(t[i]).value)
  }

  function TextOf(s: seq<nat>): (t: string)
    requires Digits(58, s)
    ensures |t| == |s|
  {
    seq(|s|, i requires 0 <= i < |s| => CharOf(s[i]))
  }

  lemma TextIff(t: string, s: seq<nat>)
    requires Digits(58, s)
    ensures t == TextOf(s) <==> InAlphabet(t) && DigitsOf(t) == s
  {
    if t == TextOf(s) {
      forall i | 0 <= i < |t| ensures DigitOf(t[i]) == Some(s[i]) {
        AlphabetInverse(t[i], s[i]);
      }
    }
    if InAlphabet(t) && DigitsOf(t) == s {
      forall i | 0 <= i < |t| ensures t[i] == CharOf(s[i]) {
        AlphabetInverse(t[i], s[i]);
      }
    }
  }

  // ---- what a base58 text stands for ----

  /** The same number with the same count of leading zeros: what `bytes` and its base58 digits share. */
  ghost predicate Matches(bytes: seq<nat>, digits: seq<nat>) {
    && Digits(256, bytes) && Digits(58, digits)
    && LeadingZeros(bytes) == LeadingZeros(digits)
    && Num(256, 0, bytes) == Num(58, 0, digits)
  }

  lemma SameNumeral(b: nat, s: seq<nat>, t: seq<nat>)
    requires b > 0 && Digits(b, s) && Digits(b, t)
    requires LeadingZeros(s) == LeadingZeros(t) && Num(b, 0, s) == Num(b, 0, t)
    ensures s == t
  {
    var n := LeadingZeros(s);
    NumDropZeros(b, s);
    NumDropZeros(b, t);
    AfterLeadingZeros(s);
    AfterLeadingZeros(t);
    hide LeadingZeros, Num;
    NumeralUnique(b, s[n..], t[n..]);
    assert s[..n] == t[..n];
    assert s == s[..n] + s[n..] && t == t[..n] + t[n..];
  }

  /** Each side determines the other. */
  lemma MatchesIsOneToOne(bytes: seq<nat>, digits: seq<nat>, bytes': seq<nat>, digits': seq<nat>)
    requires Matches(bytes, digits) && Matches(bytes', digits')
    ensures bytes == bytes' <==> digits == digits'
  {
    if bytes == bytes' {
      SameNumeral(58, digits, digits');
    }
    if digits == digits' {
      SameNumeral(256, bytes, bytes');
    }
  }

  lemma {:induction false} LeadingZerosPad(n: nat, s: seq<nat>)
    requires LeadingZeros(s) == 0
    ensures LeadingZeros(seq(n, _ => 0) + s) == n
    decreases n
  {
    var z: seq<nat> := seq(n, _ => 0);
    if n == 0 {
      assert z + s == s;
    } else {
      assert (z + s)[1..] == seq(n - 1, _ => 0) + s;
      LeadingZerosPad(n - 1, s);
    }
  }

  /** Zeros put before a numeral that has none in front. */
  lemma PadMatches(b: nat, n: nat, s: seq<nat>)
    requires LeadingZeros(s) == 0 && b > 0 && Digits(b, s)
    ensures var p := seq(n, _ => 0) + s; LeadingZeros(p) == n && Num(b, 0, p) == Num(b, 0, s) && Digits(b, p)
  {
    LeadingZerosPad(n, s);
    var p: seq<nat> := seq(n, _ => 0) + s;
    NumDropZeros(b, p);
    assert p[n..] == s;
  }

  // ---- the decoder ----

  /**
   * The inner loops of `decode`: the numeral times 58 plus a digit, carried from the low end and then out at the top.
   */
  method TimesPlus(bytes: seq<nat>, value: nat) returns (r: seq<nat>)
    requires Digits(256, bytes) && value < 58
    ensures Digits(256, r) && Num(256, 0, r) == 58 * Num(256, 0, bytes) + value
  {
    hide Num, MulAdd;
    MulAddNum(256, 58, bytes, value);
    r := bytes;
    var carry, index := value, |bytes|;
    assert bytes[..index] == bytes;
    ghost var whole := MulAdd(256, 58, bytes, value);
    while index > 0
      invariant index <= |bytes| == |r| && carry <= 57
      invariant r[..index] == bytes[..index] && Digits(256, r[index..])
      invariant var rest := MulAdd(256, 58, bytes[..index], carry); rest.0 + r[index..] == whole.0 && rest.1 == whole.1
    {
      index := index - 1;
      carry := carry + 58 * r[index];
      assert carry <= 57 + 58 * 255;
      MulAddStep(bytes, index, carry - 58 * bytes[index], r[index + 1..]);
      r := r[index := carry % 256];
      assert r[index..] == [carry % 256] + r[index + 1..];
      carry := carry / 256;
    }
    MulAddEnd(256, 58, carry);
    assert r == whole.0 && carry == whole.1;
    while carry > 0
      invariant carry <= 57 && Digits(256, r)
      invariant Num(256, carry, r) == 58 * Num(256, 0, bytes) + value
    {
      NumPrepend(256, carry / 256, carry % 256, r);
      r := [carry % 256] + r;
      carry := carry / 256;
    }
  }

  lemma MulAddEnd(b: nat, m: nat, c: nat)
    requires b > 0
    ensures MulAdd(b, m, [], c) == ([], c)
  {}

  /** One digit of the long multiplication. */
  lemma MulAddStep(bytes: seq<nat>, index: nat, carry: nat, done: seq<nat>)
    requires index < |bytes|
    ensures var t := carry + 58 * bytes[index];
            var before := MulAdd(256, 58, bytes[..index + 1], carry);
            var after := MulAdd(256, 58, bytes[..index], t / 256);
            before.0 + done == after.0 + ([t % 256] + done) && before.1 == after.1
  {
    assert bytes[..index + 1][..index] == bytes[..index];
  }

  /** `Base58.decode`. */
  method Decode(input: string) returns (r: Option<seq<nat>>)
    ensures r.Some? <==> InAlphabet(input)
    ensures r.Some? ==> Matches(r.value, DigitsOf(input))
  {
    hide Num, LeadingZeros;
    var bytes: seq<nat> := [0];
    ghost var digits: seq<nat> := [];
    NumOfZero(256);
    NumOfNone(58);
    for i := 0 to |input|
      invariant InAlphabet(input[..i]) && digits == DigitsOf(input[..i])
      invariant Digits(256, bytes) && Num(256, 0, bytes) == Num(58, 0, digits)
    {
      var value := DigitOf(input[i]);
      if value.None? {
        return None;
      }
      bytes := TimesPlus(bytes, value.value);
      NumAppend(58, 0, digits, value.value);
      assert input[..i + 1] == input[..i] + [input[i]];
      assert DigitsOf(input[..i + 1]) == digits + [value.value];
      digits := digits + [value.value];
    }
    assert input[..|input|] == input;
    assert InAlphabet(input);
    var ones := LeadingOnes(input);
    var significant := bytes[LeadingZeros(bytes)..];
    NumDropZeros(256, bytes);
    AfterLeadingZeros(bytes);
    PadMatches(256, ones, significant);
    return Some(seq(ones, _ => 0) + significant);
  }

  lemma NumAppend(b: nat, h: nat, s: seq<nat>, d: nat)
    ensures Num(b, h, s + [d]) == b * Num(b, h, s) + d
  {
    assert (s + [d])[..|s|] == s;
  }

  lemma NumOfNone(b: nat)
    ensures Num(b, 0, []) == 0
  {}

  lemma NumOfZero(b: nat)
    ensures Num(b, 0, [0]) == 0
  {
    NumDropZeros(b, [0]);
  }

  lemma AfterLeadingZeros(s: seq<nat>)
    ensures LeadingZeros(s[LeadingZeros(s)..]) == 0
  {}

  /** The count of leading `1` characters. */
  method LeadingOnes(input: string) returns (n: nat)
    requires InAlphabet(input)
    ensures n == LeadingZeros(DigitsOf(input))
  {
    n := 0;
    while n < |input| && input[n] == '1'
      invariant n <= |input| && forall i :: 0 <= i < n ==> input[i] == '1'
    {
      n := n + 1;
    }
    var d := DigitsOf(input);
    assert n < |input| ==> d[n] != 0;
    assert forall i :: 0 <= i < n ==> d[i] == 0;
  }

  // ---- the encoder ----

  /** The inner loops of `encode`: the digits times 256 plus a byte, low digit first. */
  method TimesPlusLe(digits: seq<nat>, byte: nat) returns (r: seq<nat>)
    requires Digits(58, digits) && byte < 256 && (digits != [] ==> digits[|digits| - 1] != 0)
    ensures Digits(58, r) && NumLe(58, 0, r) == 256 * NumLe(58, 0, digits) + byte
    ensures r != [] ==> r[|r| - 1] != 0
  {
    hide NumLe, MulAddLe;
    MulAddLeNum(58, 256, digits, byte);
    r := digits;
    var carry, index := byte, 0;
    ghost var whole := MulAddLe(58, 256, digits, byte);
    assert digits[0..] == digits;
    while index < |r|
      invariant index <= |r| == |digits| && carry <= 255
      invariant r[index..] == digits[index..] && Digits(58, r[..index])
      invariant var rest := MulAddLe(58, 256, digits[index..], carry);
                r[..index] + rest.0 == whole.0 && rest.1 == whole.1
      invariant index > 0 && index == |r| ==> r[index - 1] != 0 || carry > 0
    {
      assert r[index] == digits[index] by {
        assert r[index..][0] == digits[index..][0];
      }
      carry := carry + 256 * r[index];
      assert carry <= 255 + 256 * 57;
      MulAddLeStep(digits, index, carry - 256 * digits[index], r[..index]);
      r := r[index := carry % 58];
      assert r[..index + 1] == r[..index] + [carry % 58];
      carry := carry / 58;
      index := index + 1;
    }
    MulAddLeEnd(58, 256, carry);
    assert r[..index] == r && digits[index..] == [];
    assert r == whole.0 && carry == whole.1;
    r := AppendCarry(r, carry);
  }

  /** The carry left at the top, digit by digit. */
  method AppendCarry(digits: seq<nat>, high: nat) returns (r: seq<nat>)
    requires Digits(58, digits) && (digits != [] && high == 0 ==> digits[|digits| - 1] != 0)
    ensures Digits(58, r) && NumLe(58, 0, r) == NumLe(58, high, digits)
    ensures r != [] ==> r[|r| - 1] != 0
  {
    hide NumLe;
    r := digits;
    var carry := high;
    while carry > 0
      invariant Digits(58, r) && (carry == 0 && r != [] ==> r[|r| - 1] != 0)
      invariant NumLe(58, carry, r) == NumLe(58, high, digits)
    {
      NumLeAppend(58, carry / 58, carry % 58, r);
      r := r + [carry % 58];
      carry := carry / 58;
    }
  }

  lemma MulAddLeEnd(b: nat, m: nat, c: nat)
    requires b > 0
    ensures MulAddLe(b, m, [], c) == ([], c)
  {}

  lemma MulAddLeStep(digits: seq<nat>, index: nat, carry: nat, done: seq<nat>)
    requires index < |digits|
    ensures var t := carry + 256 * digits[index];
            var before := MulAddLe(58, 256, digits[index..], carry);
            var after := MulAddLe(58, 256, digits[index + 1..], t / 58);
            done + before.0 == (done + [t % 58]) + after.0 && before.1 == after.1
  {
    assert digits[index..][1..] == digits[index + 1..];
  }

  lemma {:induction false} NumLeAppend(b: nat, h: nat, d: nat, s: seq<nat>)
    ensures NumLe(b, h, s + [d]) == NumLe(b, b * h + d, s)
    decreases |s|
  {
    if s == [] {
      assert [] + [d] == [d] && [d][1..] == [];
      assert NumLe(b, h, [d]) == d + b * NumLe(b, h, []);
    } else {
      assert (s + [d])[1..] == s[1..] + [d];
      NumLeAppend(b, h, d, s[1..]);
    }
  }

  /** The body of `TestDidKey.encode`, for any bytes. */
  method Encode(bytes: seq<nat>) returns (text: string)
    requires Digits(256, bytes)
    ensures InAlphabet(text) && Matches(bytes, DigitsOf(text))
  {
    hide Num, NumLe, LeadingZeros;
    var digits: seq<nat> := [];
    NumOfNone(256);
    assert NumLe(58, 0, []) == 0 by { ReverseNum(58, 0, []); NumOfNone(58); }
    for i := 0 to |bytes|
      invariant Digits(58, digits) && NumLe(58, 0, digits) == Num(256, 0, bytes[..i])
      invariant digits != [] ==> digits[|digits| - 1] != 0
    {
      digits := TimesPlusLe(digits, bytes[i]);
      NumAppend(256, 0, bytes[..i], bytes[i]);
      assert bytes[..i + 1] == bytes[..i] + [bytes[i]];
    }
    assert bytes[..|bytes|] == bytes;
    var zeros := LeadingZeros(bytes);
    var body := Reverse(digits);
    ReverseNum(58, 0, digits);
    ReverseDigits(58, digits);
    NoLeadingZero(body);
    PadMatches(58, zeros, body);
    var all: seq<nat> := seq(zeros, _ => 0) + body;
    text := TextOf(all);
    TextIff(text, all);
  }

  lemma NoLeadingZero(s: seq<nat>)
    requires s != [] ==> s[0] != 0
    ensures LeadingZeros(s) == 0
  {}

  // ---- the pair ----

  /** Decoding undoes encoding on every byte sequence. */
  method EncodeThenDecode(bytes: seq<nat>) returns (r: Option<seq<nat>>)
    requires Digits(256, bytes)
    ensures r == Some(bytes)
  {
    hide Matches;
    var text := Encode(bytes);
    r := Decode(text);
    MatchesIsOneToOne(bytes, DigitsOf(text), r.value, DigitsOf(text));
  }

  /** Encoding undoes decoding on every text over the alphabet; no other text decodes. */
  method DecodeThenEncode(input: string) returns (r: Option<string>)
    ensures r == if InAlphabet(input) then Some(input) else None
  {
    hide Matches, DigitOf, CharOf;
    var bytes := Decode(input);
    if bytes.None? {
      return None;
    }
    assert Digits(256, bytes.value) by { MatchesDigits(bytes.value, DigitsOf(input)); }
    var text := Encode(bytes.value);
    MatchesIsOneToOne(bytes.value, DigitsOf(text), bytes.value, DigitsOf(input));
    TextIff(text, DigitsOf(input));
    TextIff(input, DigitsOf(input));
    return Some(text);
  }

  lemma MatchesDigits(bytes: seq<nat>, digits: seq<nat>)
    requires Matches(bytes, digits)
    ensures Digits(256, bytes)
  {}

  // ---- did:key ----

  const PREFIX := "did:key:z"

  /** `DidKey.p256PublicKeyBytes`. */
  method P256PublicKeyBytes(didKey: string) returns (r: Option<seq<nat>>)
    ensures r.Some? ==> |r.value| == 33 && |didKey| >= 9 && didKey[..9] == PREFIX && InAlphabet(didKey[9..])
                        && Matches([0x80, 0x24] + r.value, DigitsOf(didKey[9..]))
    ensures r.None? && |didKey| >= 9 && didKey[..9] == PREFIX && InAlphabet(didKey[9..]) ==>
              forall point: seq<nat> :: |point| == 33 ==> !Matches([0x80, 0x24] + point, DigitsOf(didKey[9..]))
  {
    hide Matches, InAlphabet;
    if !(PREFIX <= didKey) {
      return None;
    }
    var decoded := Decode(didKey[9..]);
    if decoded.None? {
      return None;
    }
    var bytes := decoded.value;
    if |bytes| != 35 || bytes[..2] != [0x80, 0x24] {
      forall point: seq<nat> | |point| == 33 ensures !Matches([0x80, 0x24] + point, DigitsOf(didKey[9..])) {
        if Matches([0x80, 0x24] + point, DigitsOf(didKey[9..])) {
          MatchesIsOneToOne(bytes, DigitsOf(didKey[9..]), [0x80, 0x24] + point, DigitsOf(didKey[9..]));
        }
      }
      return None;
    }
    assert bytes == [0x80, 0x24] + bytes[2..];
    return Some(bytes[2..]);
  }

  /** `TestDidKey.encode`. */
  method EncodeDidKey(point: seq<nat>) returns (didKey: string)
    requires |point| == 33 && Digits(256, point)
    ensures PREFIX <= didKey && InAlphabet(didKey[9..]) && Matches([0x80, 0x24] + point, DigitsOf(didKey[9..]))
  {
    var text := Encode([0x80, 0x24] + point);
    didKey := PREFIX + text;
    assert didKey[9..] == text;
  }

  /** The extension reads back every key the encoder writes. */
  method DidKeyRoundTrip(point: seq<nat>) returns (r: Option<seq<nat>>)
    requires |point| == 33 && Digits(256, point)
    ensures r == Some(point)
  {
    hide Matches, InAlphabet;
    var didKey := EncodeDidKey(point);
    r := P256PublicKeyBytes(didKey);
    assert r.Some?;
    MatchesIsOneToOne([0x80, 0x24] + point, DigitsOf(didKey[9..]), [0x80, 0x24] + r.value, DigitsOf(didKey[9..]));
    assert ([0x80, 0x24] + point)[2..] == point && ([0x80, 0x24] + r.value)[2..] == r.value;
  }
}
