/** 2-of-3 secret sharing over GF(2^8): `shamir.rs` up to the raw shares. */
module Shamir {
  import opened Octets
  import opened GF256
  import opened Wrappers
  import Fields

  // ---- the field loops ----

  /** `(a as i8 >> 7) as u8`: the top bit in every position. */
  function SignMask(a: Octet): Octet {
    Octet(a.b7, a.b7, a.b7, a.b7, a.b7, a.b7, a.b7, a.b7)
  }

  /** `a & b`. */
  function And(a: Octet, b: Octet): Octet {
    Octet(a.b7 && b.b7, a.b6 && b.b6, a.b5 && b.b5, a.b4 && b.b4, a.b3 && b.b3, a.b2 && b.b2,
          a.b1 && b.b1, a.b0 && b.b0)
  }

  /** 0x1b. */
  const REDUCTION := Octet(false, false, false, true, true, false, true, true)

  lemma MaskedDoubling(a: Octet)
    ensures Add(ShiftLeft(a), And(SignMask(a), REDUCTION)) == Xtime(a)
  {}

  lemma AddAssociative(a: Octet, b: Octet, c: Octet)
    ensures Add(Add(a, b), c) == Add(a, Add(b, c))
  {
    hide Add, Mul, Fields.RingLaws;
    AesIsRing();
    Fields.AddAssociates(Aes(), a, b, c);
  }

  lemma MulStep(result: Octet, a: Octet, b: Octet, n: nat)
    requires n > 0
    ensures Add(if b.b0 then Add(result, a) else result, MulBits(Xtime(a), ShiftRight(b), n - 1))
            == Add(result, MulBits(a, b, n))
  {
    var rest := MulBits(Xtime(a), ShiftRight(b), n - 1);
    AddAssociative(result, a, rest);
    AddZero(rest);
    hide Add, Xtime, ShiftRight;
  }

  lemma MulIsEightBits(a: Octet, b: Octet)
    ensures Mul(a, b) == MulBits(a, b, 8)
  {
    hide MulBits;
  }

  lemma MulNoBits(a: Octet, b: Octet)
    ensures MulBits(a, b, 0) == ZERO
  {}

  /** `gf_mul`: double-and-add over the bits of `y`, low bit first. */
  method GfMul(x: Octet, y: Octet) returns (result: Octet)
    ensures result == Aes().mul(x, y)
  {
    MulIsEightBits(x, y);
    AddZero(Mul(x, y));
    hide Add, Xtime, ShiftRight, ShiftLeft, And, SignMask, Mul, MulBits;
    var a, b := x, y;
    result := ZERO;
    for i := 0 to 8
      invariant Add(result, MulBits(a, b, 8 - i)) == Mul(x, y)
    {
      MulStep(result, a, b, 8 - i);
      MaskedDoubling(a);
      if b.b0 {
        result := Add(result, a);
      }
      a := Add(ShiftLeft(a), And(SignMask(a), REDUCTION));
      b := ShiftRight(b);
    }
    MulNoBits(a, b);
    AddZero(result);
  }

  /** The exponent that inverts. */
  const INVERT := 254

  /** `gf_inv`: the power 254 by square-and-multiply. */
  method GfInv(a: Octet) returns (r: Result<Octet, CryptoError>)
    ensures a == ZERO ==> r == Err(SecretReconstruction)
    ensures a != ZERO ==> r == Ok(Fields.Pow(Aes(), a, INVERT)) && Aes().mul(a, r.value) == ONE
  {
    hide Fields.FieldLaws, Fields.Pow, Aes;
    if a == ZERO {
      return Err(SecretReconstruction);
    }
    var power := SquareAndMultiply(a);
    AesIsField();
    AesUnits();
    Fields.Inverse(Aes(), INVERT, a);
    r := Ok(power);
  }

  /** The loop of `gf_inv`. */
  method SquareAndMultiply(a: Octet) returns (result: Octet)
    ensures result == Fields.Pow(Aes(), a, INVERT)
  {
    hide Fields.RingLaws, Fields.Pow, Fields.Remaining, Aes;
    ghost var o := Aes();
    AesUnits();
    AesIsRing();
    Fields.AllRemaining(o, a, INVERT);
    result := ONE;
    var base, exp := a, 254;
    ghost var total := Fields.Pow(o, a, INVERT);
    while exp > 0
      invariant 0 <= exp && Fields.Remaining(o, result, base, exp) == total
    {
      Fields.SquareAndMultiply(o, result, base, exp);
      if exp % 2 != 0 {
        result := GfMul(result, base);
      }
      base := GfMul(base, base);
      exp := exp / 2;
    }
    Fields.NoneRemaining(o, result, base);
  }

  /** `gf_div`: by zero an error, otherwise what times the divisor is the dividend. */
  method GfDiv(a: Octet, b: Octet) returns (r: Result<Octet, CryptoError>)
    ensures b == ZERO ==> r == Err(SecretReconstruction)
    ensures b != ZERO ==> r == Ok(Aes().mul(a, Fields.Pow(Aes(), b, INVERT))) && Aes().mul(r.value, b) == a
  {
    hide Fields.FieldLaws, Fields.RingLaws, Fields.Pow, Aes;
    ghost var o := Aes();
    AesUnits();
    AesIsRing();
    var inverse := GfInv(b);
    match inverse
    case Err(e) => r := Err(e);
    case Ok(i) =>
      var q := GfMul(a, i);
      Fields.MulAssociates(o, a, i, b);
      Fields.Commute(o, i, b);
      Fields.Units(o, a);
      r := Ok(q);
  }

  // ---- shares ----

  type Block = s: seq<Octet> | |s| == 32 witness seq(32, _ => ZERO)

  datatype Share = Share(index: Octet, data: Block)

  const INDEX1 := Octet(false, false, false, false, false, false, false, true)
  const INDEX2 := Octet(false, false, false, false, false, false, true, false)
  const INDEX3 := Octet(false, false, false, false, false, false, true, true)

  type Arithmetic = Fields.Ops<Octet>

  /** The points at `x` of the lines `secret[i] + coeffs[i] * x`. */
  function PointAt(o: Arithmetic, secret: Block, coeffs: Block, x: Octet): Block {
    seq(32, i requires 0 <= i < 32 => Fields.LineAt(o, secret[i], coeffs[i], x))
  }

  function ShareAt(o: Arithmetic, secret: Block, coeffs: Block, x: Octet): Share {
    Share(x, PointAt(o, secret, coeffs, x))
  }

  /** The data of the share at `x`. */
  method EvaluateAt(secret: Block, coeffs: Block, x: Octet) returns (data: Block)
    ensures data == PointAt(Aes(), secret, coeffs, x)
  {
    hide Mul, Add;
    ghost var spec := PointAt(Aes(), secret, coeffs, x);
    var s := new Octet[32](_ => ZERO);
    for i := 0 to 32
      invariant s[..i] == spec[..i]
    {
      var m := GfMul(coeffs[i], x);
      s[i] := Add(secret[i], m);
      assert s[i] == spec[i];
    }
    assert s[..] == spec;
    data := s[..];
  }

  /** `split_secret` with the 32 random octets as an argument; `None` is an unavailable generator. */
  method SplitSecret(secret: Block, random: Option<Block>) returns (r: Result<(Share, Share, Share), CryptoError>)
    ensures random.None? ==> r == Err(SecretSharing)
    ensures random.Some? ==>
              r == Ok((ShareAt(Aes(), secret, random.value, INDEX1), ShareAt(Aes(), secret, random.value, INDEX2),
                       ShareAt(Aes(), secret, random.value, INDEX3)))
  {
    hide PointAt, Aes;
    if random.None? {
      return Err(SecretSharing);
    }
    var s1 := EvaluateAt(secret, random.value, INDEX1);
    var s2 := EvaluateAt(secret, random.value, INDEX2);
    var s3 := EvaluateAt(secret, random.value, INDEX3);
    r := Ok((Share(INDEX1, s1), Share(INDEX2, s2), Share(INDEX3, s3)));
  }

  function Interpolate(o: Arithmetic, a: Share, b: Share): Block {
    seq(32, i requires 0 <= i < 32 => Fields.Lagrange(o, INVERT, a.index, a.data[i], b.index, b.data[i]))
  }

  /** The pairs of shares `combine_shares` accepts. */
  predicate Combinable(a: Share, b: Share) {
    1 <= Value(a.index) <= 3 && 1 <= Value(b.index) <= 3 && a.index != b.index
  }

  /** `combine_shares`. */
  method CombineShares(a: Share, b: Share) returns (r: Result<Block, CryptoError>)
    ensures !Combinable(a, b) ==> r == Err(SecretReconstruction)
    ensures Combinable(a, b) ==> r == Ok(Interpolate(Aes(), a, b))
  {
    hide Fields.Pow, Interpolate;
    var (na, nb) := (Value(a.index), Value(b.index));
    if na == 0 || na > 3 || nb == 0 || nb > 3 {
      return Err(SecretReconstruction);
    }
    if a.index == b.index {
      return Err(SecretReconstruction);
    }
    var denom := Add(a.index, b.index);
    assert denom != ZERO && denom == Aes().add(a.index, b.index);
    hide Add, Value, Aes;
    var la := GfDiv(b.index, denom);
    var lb := GfDiv(a.index, denom);
    var secret := Weigh(a, b, la.value, lb.value);
    r := Ok(secret);
  }

  /** The weighted sum of two shares, octet by octet. */
  method Weigh(a: Share, b: Share, la: Octet, lb: Octet) returns (secret: Block)
    requires var inverse := Fields.Pow(Aes(), Aes().add(a.index, b.index), INVERT);
             la == Aes().mul(b.index, inverse) && lb == Aes().mul(a.index, inverse)
    ensures secret == Interpolate(Aes(), a, b)
  {
    hide Fields.Pow, Mul, Add;
    ghost var spec := Interpolate(Aes(), a, b);
    var s := new Octet[32](_ => ZERO);
    for i := 0 to 32
      invariant s[..i] == spec[..i]
    {
      var ma := GfMul(a.data[i], la);
      var mb := GfMul(b.data[i], lb);
      s[i] := Add(ma, mb);
      assert s[i] == spec[i];
    }
    assert s[..] == spec;
    secret := s[..];
  }

  // ---- what sharing promises, over any such field (`GF256.AesIsField`) ----

  /** Any two distinct shares of a split give the secret back, in either order. */
  lemma SplitThenCombine(o: Arithmetic, secret: Block, coeffs: Block, x: Octet, y: Octet)
    requires Fields.FieldLaws(o, INVERT) && x != y
    ensures Interpolate(o, ShareAt(o, secret, coeffs, x), ShareAt(o, secret, coeffs, y)) == secret
  {
    hide Fields.FieldLaws, Fields.Lagrange, Fields.LineAt;
    forall i | 0 <= i < 32
      ensures Interpolate(o, ShareAt(o, secret, coeffs, x), ShareAt(o, secret, coeffs, y))[i] == secret[i]
    {
      Fields.LagrangeAtZero(o, INVERT, secret[i], coeffs[i], x, y);
    }
  }

  /** The coefficients that put share value `y` at `x` under a given secret. */
  function MaskFor(o: Arithmetic, secret: Block, x: Octet, y: Block): Block {
    seq(32, i requires 0 <= i < 32 => Fields.Slope(o, INVERT, secret[i], x, y[i]))
  }

  /** Perfect secrecy: whatever the secret, exactly one choice of coefficients produces a given share. */
  lemma PerfectSecrecy(o: Arithmetic, secret: Block, coeffs: Block, x: Octet, y: Block)
    requires Fields.FieldLaws(o, INVERT) && x != o.zero
    ensures PointAt(o, secret, coeffs, x) == y <==> coeffs == MaskFor(o, secret, x, y)
  {
    hide Fields.FieldLaws, Fields.Slope, Fields.LineAt;
    forall i | 0 <= i < 32
      ensures PointAt(o, secret, coeffs, x)[i] == y[i] <==> coeffs[i] == MaskFor(o, secret, x, y)[i]
    {
      Fields.SlopeIff(o, INVERT, secret[i], coeffs[i], x, y[i]);
    }
  }

  /** Two shares leave no freedom: the combined secret is the only one some coefficients put on both. */
  lemma CombineIsTheLine(o: Arithmetic, a: Share, b: Share, secret: Block)
    requires Fields.FieldLaws(o, INVERT) && a.index != b.index
    ensures (exists coeffs: Block ::
               ShareAt(o, secret, coeffs, a.index) == a && ShareAt(o, secret, coeffs, b.index) == b)
            <==> secret == Interpolate(o, a, b)
  {
    hide Interpolate, Fields.FieldLaws, PointAt;
    if coeffs: Block :| ShareAt(o, secret, coeffs, a.index) == a && ShareAt(o, secret, coeffs, b.index) == b {
      SplitThenCombine(o, secret, coeffs, a.index, b.index);
    }
    var s, c := LineThrough(o, a, b);
    SplitThenCombine(o, s, c, a.index, b.index);
  }

  /** A line through two points with distinct indices. */
  lemma LineThrough(o: Arithmetic, a: Share, b: Share) returns (secret: Block, coeffs: Block)
    requires Fields.FieldLaws(o, INVERT) && a.index != b.index
    ensures ShareAt(o, secret, coeffs, a.index) == a && ShareAt(o, secret, coeffs, b.index) == b
  {
    hide Fields.FieldLaws, Fields.LineAt, Fields.SlopeThrough;
    coeffs := seq(32, i requires 0 <= i < 32 => Fields.SlopeThrough(o, INVERT, a.index, a.data[i], b.index, b.data[i]));
    secret := seq(32, i requires 0 <= i < 32 => Fields.LineAt(o, a.data[i], coeffs[i], a.index));
    forall i | 0 <= i < 32
      ensures PointAt(o, secret, coeffs, a.index)[i] == a.data[i] && PointAt(o, secret, coeffs, b.index)[i] == b.data[i]
    {
      var s, c := Fields.LineThrough(o, INVERT, a.index, a.data[i], b.index, b.data[i]);
    }
  }
}
