/**
 * The CBOR that did:plc operations use: null, text, and the heads of arrays and maps, each with the shortest head
 * (section 3 of RFC 8949). A string holds bytes, one to a character.
 */
module Cbor {
  import opened Wrappers

  type Bytes = string

  datatype Token = Null | Text(text: Bytes) | ArrayHead(count: nat) | MapHead(count: nat)

  // ---- big-endian numbers ----

  predicate IsByte(c: char) {
    c as int < 256
  }

  function Be(n: nat, k: nat): (b: Bytes)
    ensures |b| == k && forall i :: 0 <= i < k ==> IsByte(b[i])
    decreases k
  {
    if k == 0 then "" else Be(n / 256, k - 1) + [(n % 256) as char]
  }

  function OfBe(b: Bytes): nat
    decreases |b|
  {
    if b == "" then 0 else 256 * OfBe(b[..|b| - 1]) + b[|b| - 1] as nat
  }

  function Pow256(k: nat): nat {
    if k == 0 then 1 else 256 * Pow256(k - 1)
  }

  lemma {:induction false} BeInverse(n: nat, k: nat)
    requires n < Pow256(k)
    ensures OfBe(Be(n, k)) == n
    decreases k
  {
    if k != 0 {
      BeInverse(n / 256, k - 1);
      assert Be(n, k)[..k - 1] == Be(n / 256, k - 1);
    }
  }

  lemma {:induction false} OfBeInverse(b: Bytes)
    requires forall i :: 0 <= i < |b| ==> IsByte(b[i])
    ensures OfBe(b) < Pow256(|b|) && Be(OfBe(b), |b|) == b
    decreases |b|
  {
    if b != "" {
      var (init, last) := (b[..|b| - 1], b[|b| - 1]);
      OfBeInverse(init);
      assert b == init + [last];
    }
  }

  // ---- heads ----

  const TWO64 := 0x1_0000_0000_0000_0000

  /** How many bytes follow the first one of a head. */
  function Extra(n: nat): nat {
    if n < 24 then 0 else if n < 0x100 then 1 else if n < 0x1_0000 then 2 else if n < 0x1_0000_0000 then 4 else 8
  }

  /** The additional information for that many bytes. */
  function Info(extra: nat): nat {
    if extra == 1 then 24 else if extra == 2 then 25 else if extra == 4 then 26 else 27
  }

  function Head(major: nat, n: nat): Bytes
    requires major < 8
  {
    var extra := Extra(n);
    [(32 * major + if extra == 0 then n else Info(extra)) as char] + Be(n, extra)
  }

  /**
   * Section 3 of RFC 8949: three bits of major type; then a number below 24, or 24 to 27 for a number in one, two, four
   * or eight bytes, the most significant first, and never more bytes than the number needs.
   */
  lemma HeadLayout(major: nat, n: nat)
    requires major < 8 && n < TWO64
    ensures var b := Head(major, n);
            && b[0] as int / 32 == major
            && (n < 24 <==> |b| == 1) && (24 <= n < 0x100 <==> |b| == 2) && (0x100 <= n < 0x1_0000 <==> |b| == 3)
            && (0x1_0000 <= n < 0x1_0000_0000 <==> |b| == 5) && (0x1_0000_0000 <= n <==> |b| == 9)
            && b[0] as int % 32 == (if |b| == 1 then n else if |b| == 2 then 24 else if |b| == 3 then 25
                                    else if |b| == 5 then 26 else 27)
            && (|b| > 1 ==> OfBe(b[1..]) == n)
  {
    hide Be, OfBe, Pow256;
    var extra := Extra(n);
    FirstByte(major, if extra == 0 then n else Info(extra));
    ExtraHolds(n);
    if extra != 0 {
      BeInverse(n, extra);
      assert Head(major, n)[1..] == Be(n, extra);
    }
  }

  datatype ParsedHead = ParsedHead(major: nat, n: nat, rest: Bytes)

  /** Reads a head; a longer one than the number needs is refused. */
  function ParseHead(b: Bytes): Option<ParsedHead> {
    if b == "" || !IsByte(b[0]) then None
    else
      var (major, info) := (b[0] as nat / 32, b[0] as nat % 32);
      if info < 24 then Some(ParsedHead(major, info, b[1..]))
      else if info > 27 then None
      else LongHead(major, if info == 24 then 1 else if info == 25 then 2 else if info == 26 then 4 else 8, b)
  }

  function LongHead(major: nat, extra: nat, b: Bytes): Option<ParsedHead> {
    if |b| < 1 + extra || !(forall i :: 1 <= i < 1 + extra ==> IsByte(b[i])) then None
    else
      var n := OfBe(b[1..1 + extra]);
      if Extra(n) != extra then None else Some(ParsedHead(major, n, b[1 + extra..]))
  }

  lemma PowersOf256()
    ensures Pow256(0) == 1 && Pow256(1) == 0x100 && Pow256(2) == 0x1_0000 && Pow256(4) == 0x1_0000_0000
            && Pow256(8) == TWO64
  {
    assert Pow256(3) == 0x100_0000;
    assert Pow256(5) == 256 * Pow256(4) && Pow256(6) == 256 * Pow256(5) && Pow256(7) == 256 * Pow256(6);
  }

  lemma ExtraHolds(n: nat)
    requires n < TWO64
    ensures n < 24 || n < Pow256(Extra(n))
  {
    PowersOf256();
    hide Pow256;
  }

  lemma FirstByte(major: nat, low: nat)
    requires major < 8 && low < 32
    ensures (32 * major + low) / 32 == major && (32 * major + low) % 32 == low && 32 * major + low < 256
  {}

  lemma HeadParses(major: nat, n: nat, rest: Bytes)
    requires major < 8 && n < TWO64
    ensures ParseHead(Head(major, n) + rest) == Some(ParsedHead(major, n, rest))
  {
    hide Be, OfBe, Pow256;
    var (extra, b) := (Extra(n), Head(major, n) + rest);
    FirstByte(major, if extra == 0 then n else Info(extra));
    assert b[1..] == Be(n, extra) + rest;
    if extra != 0 {
      ExtraHolds(n);
      BeInverse(n, extra);
      assert b[1..1 + extra] == Be(n, extra) && b[1 + extra..] == rest;
      assert forall i :: 1 <= i < 1 + extra ==> b[i] == Be(n, extra)[i - 1];
    }
  }

  lemma LongHeadIsHead(major: nat, extra: nat, b: Bytes)
    requires major < 8 && extra in {1, 2, 4, 8} && LongHead(major, extra, b).Some?
             && b[0] as nat == 32 * major + Info(extra)
    ensures var h := LongHead(major, extra, b).value; b == Head(h.major, h.n) + h.rest && h.n < TWO64
  {
    hide Be, OfBe, Pow256;
    var digits := b[1..1 + extra];
    assert forall i :: 0 <= i < extra ==> digits[i] == b[1 + i];
    OfBeInverse(digits);
    PowersOf256();
    assert b == [b[0]] + digits + b[1 + extra..];
  }

  lemma ParsedIsHead(b: Bytes)
    requires ParseHead(b).Some?
    ensures var h := ParseHead(b).value; h.major < 8 && h.n < TWO64 && b == Head(h.major, h.n) + h.rest
  {
    hide LongHead;
    var (major, info) := (b[0] as nat / 32, b[0] as nat % 32);
    assert b[0] as nat == 32 * major + info;
    if info < 24 {
      assert b == [b[0]] + b[1..];
    } else {
      var extra := if info == 24 then 1 else if info == 25 then 2 else if info == 26 then 4 else 8;
      LongHeadMajor(major, extra, b);
      LongHeadIsHead(major, extra, b);
    }
  }

  lemma LongHeadMajor(major: nat, extra: nat, b: Bytes)
    requires LongHead(major, extra, b).Some?
    ensures LongHead(major, extra, b).value.major == major
  {}

  // ---- tokens ----

  predicate Fits(t: Token) {
    match t
    case Null => true
    case Text(text) => |text| < TWO64
    case ArrayHead(n) => n < TWO64
    case MapHead(n) => n < TWO64
  }

  function TokenBytes(t: Token): Bytes {
    match t
    case Null => [246 as char]
    case Text(text) => Head(3, |text|) + text
    case ArrayHead(n) => Head(4, n)
    case MapHead(n) => Head(5, n)
  }

  /** Major type 3 for text, with its length; 4 for arrays and 5 for maps, with their counts; one byte for null. */
  lemma TokenLayout(t: Token)
    requires Fits(t)
    ensures var b := TokenBytes(t);
            match t
            case Null => b == [0xf6 as char]
            case Text(text) => b[0] as int / 32 == 3 && ParseHead(b) == Some(ParsedHead(3, |text|, text))
            case ArrayHead(n) => b[0] as int / 32 == 4 && ParseHead(b) == Some(ParsedHead(4, n, ""))
            case MapHead(n) => b[0] as int / 32 == 5 && ParseHead(b) == Some(ParsedHead(5, n, ""))
  {
    hide Head, ParseHead;
    match t
    case Null =>
    case Text(text) =>
      HeadParses(3, |text|, text);
      HeadLayout(3, |text|);
      assert TokenBytes(t)[0] == Head(3, |text|)[0];
    case ArrayHead(n) =>
      HeadParses(4, n, "");
      HeadLayout(4, n);
      assert Head(4, n) + "" == Head(4, n);
    case MapHead(n) =>
      HeadParses(5, n, "");
      HeadLayout(5, n);
      assert Head(5, n) + "" == Head(5, n);
  }

  function BytesOf(tokens: seq<Token>): Bytes
    decreases |tokens|
  {
    if tokens == [] then "" else TokenBytes(tokens[0]) + BytesOf(tokens[1..])
  }

  /** One token off the front. */
  function ParseToken(b: Bytes): Option<(Token, Bytes)> {
    var h := ParseHead(b);
    if h.None? then None
    else
      var (n, rest) := (h.value.n, h.value.rest);
      match h.value.major
      case 3 => if |rest| < n then None else Some((Text(rest[..n]), rest[n..]))
      case 4 => Some((ArrayHead(n), rest))
      case 5 => Some((MapHead(n), rest))
      case 7 => if n == 22 then Some((Null, rest)) else None
      case _ => None
  }

  lemma NullIsHead()
    ensures TokenBytes(Null) == Head(7, 22)
  {
    assert Be(22, 0) == "";
  }

  lemma TokenParses(t: Token, rest: Bytes)
    requires Fits(t)
    ensures ParseToken(TokenBytes(t) + rest) == Some((t, rest))
  {
    hide Head, ParseHead;
    match t
    case Null =>
      NullIsHead();
      HeadParses(7, 22, rest);
    case Text(text) =>
      HeadParses(3, |text|, text + rest);
      assert Head(3, |text|) + text + rest == Head(3, |text|) + (text + rest);
      assert (text + rest)[..|text|] == text && (text + rest)[|text|..] == rest;
    case ArrayHead(n) => HeadParses(4, n, rest);
    case MapHead(n) => HeadParses(5, n, rest);
  }

  lemma ParsedIsToken(b: Bytes)
    requires ParseToken(b).Some?
    ensures var (t, rest) := ParseToken(b).value; Fits(t) && b == TokenBytes(t) + rest && |rest| < |b|
  {
    hide Head, ParseHead, IsByte, Be;
    ParsedIsHead(b);
    NullIsHead();
    var h := ParseHead(b).value;
    HeadNotEmpty(h.major, h.n);
    if h.major == 3 {
      assert h.rest == h.rest[..h.n] + h.rest[h.n..];
      assert Head(3, h.n) + (h.rest[..h.n] + h.rest[h.n..]) == Head(3, h.n) + h.rest[..h.n] + h.rest[h.n..];
    }
  }

  lemma HeadNotEmpty(major: nat, n: nat)
    requires major < 8
    ensures Head(major, n) != ""
  {}

  /** The tokens of bytes that hold nothing else. */
  function Tokens(b: Bytes): Option<seq<Token>>
    decreases |b|
  {
    if b == "" then Some([])
    else
      var one := ParseToken(b);
      if one.None? then None
      else
        ParsedIsToken(b);
        var more := Tokens(one.value.1);
        if more.None? then None else Some([one.value.0] + more.value)
  }

  predicate AllFit(tokens: seq<Token>) {
    forall i :: 0 <= i < |tokens| ==> Fits(tokens[i])
  }

  lemma {:induction false} BytesTokens(tokens: seq<Token>)
    requires AllFit(tokens)
    ensures Tokens(BytesOf(tokens)) == Some(tokens)
    decreases |tokens|
  {
    hide ParseToken, TokenBytes;
    if tokens != [] {
      TokenParses(tokens[0], BytesOf(tokens[1..]));
      ParsedIsToken(BytesOf(tokens));
      BytesTokens(tokens[1..]);
      assert tokens == [tokens[0]] + tokens[1..];
    }
  }

  lemma {:induction false} TokensBytes(b: Bytes)
    requires Tokens(b).Some?
    ensures AllFit(Tokens(b).value) && BytesOf(Tokens(b).value) == b
    decreases |b|
  {
    hide ParseToken, TokenBytes, Fits;
    if b != "" {
      var one := ParseToken(b).value;
      ParsedIsToken(b);
      TokensBytes(one.1);
      var tokens := Tokens(b).value;
      assert tokens[1..] == Tokens(one.1).value;
    }
  }

  /** Bytes read as tokens exactly when they are the encoding of those tokens: one encoding for each token sequence. */
  lemma TokensIff(b: Bytes, tokens: seq<Token>)
    requires AllFit(tokens)
    ensures Tokens(b) == Some(tokens) <==> b == BytesOf(tokens)
  {
    hide Tokens, BytesOf;
    BytesTokens(tokens);
    if Tokens(b).Some? {
      TokensBytes(b);
    }
  }

  lemma {:induction false} BytesOfAppend(a: seq<Token>, b: seq<Token>)
    ensures BytesOf(a + b) == BytesOf(a) + BytesOf(b)
    decreases |a|
  {
    hide TokenBytes;
    if a == [] {
      assert a + b == b;
    } else {
      assert (a + b)[1..] == a[1..] + b;
      BytesOfAppend(a[1..], b);
    }
  }
}
