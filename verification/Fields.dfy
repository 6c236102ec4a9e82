/** Fields of characteristic two, over any carrier: what sharing a secret needs of its arithmetic. */
module Fields {

  datatype Ops<!T> = Ops(add: (T, T) -> T, mul: (T, T) -> T, zero: T, one: T)

  ghost predicate Commutative<T(!new)>(f: (T, T) -> T) {
    forall a, b :: f(a, b) == f(b, a)
  }

  ghost predicate Associative<T(!new)>(f: (T, T) -> T) {
    forall a, b, c :: f(f(a, b), c) == f(a, f(b, c))
  }

  ghost predicate HasUnit<T(!new)>(f: (T, T) -> T, unit: T) {
    forall a :: f(unit, a) == a
  }

  /** Every element is its own negative. */
  ghost predicate SelfInverse<T(!new)>(f: (T, T) -> T, unit: T) {
    forall a :: f(a, a) == unit
  }

  ghost predicate Distributive<T(!new)>(f: (T, T) -> T, g: (T, T) -> T) {
    forall a, b, c :: f(a, g(b, c)) == g(f(a, b), f(a, c))
  }

  /** A commutative ring in which `1 + 1 == 0`. */
  ghost predicate RingLaws<T(!new)>(o: Ops<T>) {
    && Commutative(o.add) && Associative(o.add) && HasUnit(o.add, o.zero) && SelfInverse(o.add, o.zero)
    && Commutative(o.mul) && Associative(o.mul) && HasUnit(o.mul, o.one)
    && Distributive(o.mul, o.add)
  }

  /** A power that turns every nonzero element into its inverse. */
  ghost predicate Inverts<T(!new)>(o: Ops<T>, e: nat) {
    forall a :: a != o.zero ==> o.mul(a, Pow(o, a, e)) == o.one
  }

  ghost predicate FieldLaws<T(!new)>(o: Ops<T>, e: nat) {
    RingLaws(o) && Inverts(o, e) && o.zero != o.one
  }

  function Pow<T>(o: Ops<T>, a: T, n: nat): T
    decreases n, o
  {
    if n == 0 then o.one else o.mul(a, Pow(o, a, n - 1))
  }

  // ---- rearranging ----

  lemma Commute<T(!new)>(o: Ops<T>, a: T, b: T)
    requires RingLaws(o)
    ensures o.add(a, b) == o.add(b, a) && o.mul(a, b) == o.mul(b, a)
  {
    hide Associative, Distributive;
  }

  lemma MulAssociates<T(!new)>(o: Ops<T>, a: T, b: T, c: T)
    requires RingLaws(o)
    ensures o.mul(o.mul(a, b), c) == o.mul(a, o.mul(b, c))
  {
    hide Commutative, Distributive;
  }

  lemma AddAssociates<T(!new)>(o: Ops<T>, a: T, b: T, c: T)
    requires RingLaws(o)
    ensures o.add(o.add(a, b), c) == o.add(a, o.add(b, c))
  {
    hide Commutative, Distributive;
  }

  lemma Distributes<T(!new)>(o: Ops<T>, a: T, b: T, c: T)
    requires RingLaws(o)
    ensures o.mul(a, o.add(b, c)) == o.add(o.mul(a, b), o.mul(a, c))
    ensures o.mul(o.add(b, c), a) == o.add(o.mul(b, a), o.mul(c, a))
  {
    hide Associative;
    Commute(o, o.add(b, c), a);
    Commute(o, b, a);
    Commute(o, c, a);
    hide Commutative;
  }

  lemma Units<T(!new)>(o: Ops<T>, a: T)
    requires RingLaws(o)
    ensures o.add(a, o.zero) == a && o.add(o.zero, a) == a && o.add(a, a) == o.zero
    ensures o.mul(a, o.one) == a && o.mul(o.one, a) == a
  {
    hide Associative, Commutative, Distributive;
    Commute(o, a, o.zero);
    Commute(o, a, o.one);
  }

  /** An element added twice cancels. */
  lemma Cancel<T(!new)>(o: Ops<T>, a: T, b: T)
    requires RingLaws(o)
    ensures o.add(a, o.add(a, b)) == b && o.add(o.add(b, a), a) == b
  {
    hide RingLaws;
    AddAssociates(o, a, a, b);
    AddAssociates(o, b, a, a);
    Units(o, a);
    Units(o, b);
  }

  lemma SumIsZeroIff<T(!new)>(o: Ops<T>, a: T, b: T)
    requires RingLaws(o)
    ensures o.add(a, b) == o.zero <==> a == b
  {
    hide RingLaws;
    Cancel(o, a, b);
    Units(o, a);
  }

  /** The middle two of four summands change places. */
  lemma Regroup<T(!new)>(o: Ops<T>, p: T, q: T, r: T, s: T)
    requires RingLaws(o)
    ensures o.add(o.add(p, q), o.add(r, s)) == o.add(o.add(p, r), o.add(q, s))
  {
    hide RingLaws;
    AddAssociates(o, p, q, o.add(r, s));
    AddAssociates(o, q, r, s);
    Commute(o, q, r);
    AddAssociates(o, r, q, s);
    AddAssociates(o, p, r, o.add(q, s));
  }

  // ---- powers and squares ----

  lemma {:induction false} PowSum<T(!new)>(o: Ops<T>, a: T, m: nat, n: nat)
    requires RingLaws(o)
    ensures Pow(o, a, m + n) == o.mul(Pow(o, a, m), Pow(o, a, n))
    decreases m
  {
    hide RingLaws;
    if m == 0 {
      Units(o, Pow(o, a, n));
    } else {
      PowSum(o, a, m - 1, n);
      MulAssociates(o, a, Pow(o, a, m - 1), Pow(o, a, n));
    }
  }

  lemma {:induction false} PowOfSquare<T(!new)>(o: Ops<T>, a: T, n: nat)
    requires RingLaws(o)
    ensures Pow(o, o.mul(a, a), n) == Pow(o, a, 2 * n)
    decreases n
  {
    hide RingLaws;
    if n > 0 {
      PowOfSquare(o, a, n - 1);
      MulAssociates(o, a, a, Pow(o, a, 2 * n - 2));
      assert Pow(o, a, 2 * n - 1) == o.mul(a, Pow(o, a, 2 * n - 2));
    }
  }

  /** What square-and-multiply still stands for. */
  function Remaining<T>(o: Ops<T>, result: T, base: T, exp: nat): T {
    o.mul(result, Pow(o, base, exp))
  }

  /** One round of square-and-multiply. */
  lemma SquareAndMultiply<T(!new)>(o: Ops<T>, result: T, base: T, exp: nat)
    requires RingLaws(o) && exp > 0
    ensures Remaining(o, if exp % 2 != 0 then o.mul(result, base) else result, o.mul(base, base), exp / 2)
         == Remaining(o, result, base, exp)
  {
    hide RingLaws;
    PowOfSquare(o, base, exp / 2);
    if exp % 2 != 0 {
      assert Pow(o, base, exp) == o.mul(base, Pow(o, base, exp - 1));
      MulAssociates(o, result, base, Pow(o, base, exp - 1));
    }
  }

  lemma AllRemaining<T(!new)>(o: Ops<T>, a: T, exp: nat)
    requires RingLaws(o)
    ensures Remaining(o, o.one, a, exp) == Pow(o, a, exp)
  {
    hide RingLaws;
    Units(o, Pow(o, a, exp));
  }

  lemma NoneRemaining<T(!new)>(o: Ops<T>, result: T, base: T)
    requires RingLaws(o)
    ensures Remaining(o, result, base, 0) == result
  {
    hide RingLaws;
    Units(o, result);
  }

  lemma SquareAdditive<T(!new)>(o: Ops<T>, a: T, b: T)
    requires RingLaws(o)
    ensures o.mul(o.add(a, b), o.add(a, b)) == o.add(o.mul(a, a), o.mul(b, b))
  {
    hide RingLaws;
    var ab := o.mul(a, b);
    Distributes(o, o.add(a, b), a, b);
    Distributes(o, a, a, b);
    Distributes(o, b, a, b);
    Commute(o, a, b);
    AddAssociates(o, o.mul(a, a), ab, o.add(ab, o.mul(b, b)));
    Cancel(o, ab, o.mul(b, b));
  }

  lemma SquareMultiplicative<T(!new)>(o: Ops<T>, a: T, b: T)
    requires RingLaws(o)
    ensures o.mul(o.mul(a, b), o.mul(a, b)) == o.mul(o.mul(a, a), o.mul(b, b))
  {
    hide RingLaws;
    MulAssociates(o, a, b, o.mul(a, b));
    MulAssociates(o, b, a, b);
    Commute(o, a, b);
    MulAssociates(o, a, b, b);
    MulAssociates(o, a, a, o.mul(b, b));
  }

  function Exp2(k: nat): nat {
    if k == 0 then 1 else 2 * Exp2(k - 1)
  }

  /** `a` squared `k` times. */
  function Frobenius<T>(o: Ops<T>, a: T, k: nat): T
    decreases k
  {
    if k == 0 then a else Frobenius(o, o.mul(a, a), k - 1)
  }

  /** Following the squares of an element. */
  lemma {:induction false} SquaresFollowed<T>(o: Ops<T>, chain: seq<T>)
    requires chain != [] && forall i :: 0 <= i < |chain| - 1 ==> o.mul(chain[i], chain[i]) == chain[i + 1]
    ensures Frobenius(o, chain[0], |chain| - 1) == chain[|chain| - 1]
    decreases |chain|
  {
    if |chain| > 1 {
      SquaresFollowed(o, chain[1..]);
    }
  }

  lemma {:induction false} FrobeniusHomomorphism<T(!new)>(o: Ops<T>, a: T, b: T, k: nat)
    requires RingLaws(o)
    ensures Frobenius(o, o.add(a, b), k) == o.add(Frobenius(o, a, k), Frobenius(o, b, k))
    ensures Frobenius(o, o.mul(a, b), k) == o.mul(Frobenius(o, a, k), Frobenius(o, b, k))
    decreases k
  {
    hide RingLaws;
    if k > 0 {
      SquareAdditive(o, a, b);
      SquareMultiplicative(o, a, b);
      FrobeniusHomomorphism(o, o.mul(a, a), o.mul(b, b), k - 1);
    }
  }

  lemma {:induction false} FrobeniusIsPow<T(!new)>(o: Ops<T>, a: T, k: nat)
    requires RingLaws(o)
    ensures Frobenius(o, a, k) == Pow(o, a, Exp2(k))
    decreases k
  {
    hide RingLaws;
    if k == 0 {
      Units(o, a);
      assert Pow(o, a, 1) == o.mul(a, Pow(o, a, 0));
    } else {
      FrobeniusIsPow(o, o.mul(a, a), k - 1);
      PowOfSquare(o, a, Exp2(k - 1));
    }
  }

  lemma TimesZero<T(!new)>(o: Ops<T>, a: T)
    requires RingLaws(o)
    ensures o.mul(a, o.zero) == o.zero && o.mul(o.zero, a) == o.zero
  {
    hide RingLaws;
    Units(o, o.zero);
    Distributes(o, a, o.zero, o.zero);
    Units(o, o.mul(a, o.zero));
    Commute(o, a, o.zero);
  }

  /** Only 0 and 1 are their own squares. */
  ghost predicate OwnSquares<T(!new)>(o: Ops<T>) {
    forall u :: o.mul(u, u) == u ==> u == o.zero || u == o.one
  }

  lemma OwnSquare<T(!new)>(o: Ops<T>, u: T)
    requires OwnSquares(o) && o.mul(u, u) == u
    ensures u == o.zero || u == o.one
  {}

  /**
   * If the `e + 2`th power is the identity and only 0 and 1 are their own squares, the `e + 1`st power of every nonzero
   * element is one: the `e`th is its inverse.
   */
  lemma FermatInverts<T(!new)>(o: Ops<T>, e: nat, a: T)
    requires RingLaws(o) && a != o.zero
    requires Pow(o, a, e + 2) == a && OwnSquares(o)
    ensures Pow(o, a, e + 1) == o.one && o.mul(a, Pow(o, a, e)) == o.one
  {
    hide RingLaws, OwnSquares;
    var u := Pow(o, a, e + 1);
    PowSum(o, a, e + 1, e + 1);
    PowSum(o, a, e + 2, e);
    assert u == o.mul(a, Pow(o, a, e)) && Pow(o, a, e + 2) == o.mul(a, u);
    OwnSquare(o, u);
    TimesZero(o, a);
  }

  lemma InverseUnique<T(!new)>(o: Ops<T>, e: nat, a: T, b: T)
    requires FieldLaws(o, e) && o.mul(a, b) == o.one
    ensures a != o.zero && b == Pow(o, a, e)
  {
    hide RingLaws, Inverts, Pow;
    TimesZero(o, b);
    Inverse(o, e, a);
    MulAssociates(o, Pow(o, a, e), a, b);
    Units(o, Pow(o, a, e));
    Units(o, b);
  }

  lemma Inverse<T(!new)>(o: Ops<T>, e: nat, a: T)
    requires FieldLaws(o, e) && a != o.zero
    ensures o.mul(a, Pow(o, a, e)) == o.one && o.mul(Pow(o, a, e), a) == o.one
  {
    assert o.mul(a, Pow(o, a, e)) == o.one;
    hide RingLaws;
    Commute(o, a, Pow(o, a, e));
  }

  // ---- lines ----

  /** The point of the line `s + c * x` at `x`. */
  function LineAt<T>(o: Ops<T>, s: T, c: T, x: T): T {
    o.add(s, o.mul(c, x))
  }

  /** The value at zero of the line through two points, in the Lagrange form. */
  function Lagrange<T>(o: Ops<T>, e: nat, xa: T, ya: T, xb: T, yb: T): T {
    var inverse := Pow(o, o.add(xa, xb), e);
    o.add(o.mul(ya, o.mul(xb, inverse)), o.mul(yb, o.mul(xa, inverse)))
  }

  lemma BasisSum<T(!new)>(o: Ops<T>, e: nat, xa: T, xb: T)
    requires FieldLaws(o, e) && xa != xb
    ensures var inverse := Pow(o, o.add(xa, xb), e); o.add(o.mul(xb, inverse), o.mul(xa, inverse)) == o.one
  {
    hide RingLaws, Inverts, Pow;
    SumIsZeroIff(o, xa, xb);
    Inverse(o, e, o.add(xa, xb));
    Distributes(o, Pow(o, o.add(xa, xb), e), xb, xa);
    Commute(o, xa, xb);
  }

  lemma CrossTerms<T(!new)>(o: Ops<T>, c: T, xa: T, xb: T, i: T)
    requires RingLaws(o)
    ensures o.mul(o.mul(c, xa), o.mul(xb, i)) == o.mul(o.mul(c, xb), o.mul(xa, i))
  {
    hide RingLaws;
    MulAssociates(o, o.mul(c, xa), xb, i);
    MulAssociates(o, o.mul(c, xb), xa, i);
    MulAssociates(o, c, xa, xb);
    MulAssociates(o, c, xb, xa);
    Commute(o, xa, xb);
  }

  /** On the points of a line the Lagrange form gives its value at zero back. */
  lemma LagrangeAtZero<T(!new)>(o: Ops<T>, e: nat, s: T, c: T, xa: T, xb: T)
    requires FieldLaws(o, e) && xa != xb
    ensures Lagrange(o, e, xa, LineAt(o, s, c, xa), xb, LineAt(o, s, c, xb)) == s
  {
    BasisSum(o, e, xa, xb);
    hide RingLaws, Inverts, Pow;
    var i := Pow(o, o.add(xa, xb), e);
    var (la, lb) := (o.mul(xb, i), o.mul(xa, i));
    Distributes(o, la, s, o.mul(c, xa));
    Distributes(o, lb, s, o.mul(c, xb));
    Regroup(o, o.mul(s, la), o.mul(o.mul(c, xa), la), o.mul(s, lb), o.mul(o.mul(c, xb), lb));
    Distributes(o, s, la, lb);
    Units(o, s);
    CrossTerms(o, c, xa, xb, i);
    Units(o, o.mul(o.mul(c, xa), la));
  }

  /** The slope that puts `y` at `x` over the value `s` at zero. */
  function Slope<T>(o: Ops<T>, e: nat, s: T, x: T, y: T): T {
    o.mul(o.add(s, y), Pow(o, x, e))
  }

  /** The slope of the line through two points. */
  function SlopeThrough<T>(o: Ops<T>, e: nat, xa: T, ya: T, xb: T, yb: T): T {
    o.mul(o.add(ya, yb), Pow(o, o.add(xa, xb), e))
  }

  /** Under any value at zero exactly one slope puts `y` at a nonzero `x`. */
  lemma SlopeIff<T(!new)>(o: Ops<T>, e: nat, s: T, c: T, x: T, y: T)
    requires FieldLaws(o, e) && x != o.zero
    ensures LineAt(o, s, c, x) == y <==> c == Slope(o, e, s, x, y)
  {
    hide RingLaws, Inverts, Pow;
    Inverse(o, e, x);
    hide FieldLaws;
    var i := Pow(o, x, e);
    if LineAt(o, s, c, x) == y {
      Cancel(o, s, o.mul(c, x));
      MulAssociates(o, c, x, i);
      Units(o, c);
    }
    if c == o.mul(o.add(s, y), i) {
      MulAssociates(o, o.add(s, y), i, x);
      Units(o, o.add(s, y));
      Cancel(o, s, y);
    }
  }

  /** The line through two points. */
  lemma LineThrough<T(!new)>(o: Ops<T>, e: nat, xa: T, ya: T, xb: T, yb: T) returns (s: T, c: T)
    requires FieldLaws(o, e) && xa != xb
    ensures c == SlopeThrough(o, e, xa, ya, xb, yb) && s == LineAt(o, ya, c, xa)
    ensures LineAt(o, s, c, xa) == ya && LineAt(o, s, c, xb) == yb
  {
    hide RingLaws, Inverts, Pow;
    SumIsZeroIff(o, xa, xb);
    Inverse(o, e, o.add(xa, xb));
    var i := Pow(o, o.add(xa, xb), e);
    c := o.mul(o.add(ya, yb), i);
    s := o.add(ya, o.mul(c, xa));
    MulAssociates(o, o.add(ya, yb), i, o.add(xa, xb));
    Units(o, o.add(ya, yb));
    Distributes(o, c, xa, xb);
    Cancel(o, o.mul(c, xa), ya);
    AddAssociates(o, ya, o.mul(c, xa), o.mul(c, xb));
    Cancel(o, ya, yb);
  }
}
