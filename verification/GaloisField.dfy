/** The field GF(256) of section 7.5.2 of ISO/IEC 18004:2015: bytes under exclusive or, with
    alpha = 2 and alpha^8 = alpha^4 + alpha^3 + alpha^2 + 1. Multiplication is given by
    logarithms, as the encoder computes it; the field laws are theorems. */
module GaloisField {

  import opened Prelude

  const ORDER := 255

  /** Multiplication by alpha: what leaves at the top comes back as 1 + alpha^2 + alpha^3 + alpha^4. */
  function Double(a: byte): byte {
    (a << 1) ^ (a >> 7) ^ ((a >> 7) << 2) ^ ((a >> 7) << 3) ^ ((a >> 7) << 4)
  }

  /** alpha^n * a */
  function Times(n: nat, a: byte): byte {
    if n == 0 then a else Double(Times(n - 1, a))
  }

  /** alpha^n for any integer n. */
  function Exp(n: int): byte {
    Times(n % ORDER, 1)
  }

  // ----- Double and Times are linear, and lose nothing

  lemma DoubleXor(a: byte, b: byte)
    ensures Double(a ^ b) == Double(a) ^ Double(b)
  {
  }

  /** Addition, which is also subtraction. */
  function Add(a: byte, b: byte): byte {
    a ^ b
  }

  lemma AddLaws(a: byte, b: byte, c: byte)
    ensures Add(a, b) == Add(b, a)
    ensures Add(Add(a, b), c) == Add(a, Add(b, c))
    ensures Add(a, a) == 0 && Add(a, 0) == a && Add(0, a) == a
    ensures Add(a, b) == 0 <==> a == b
  {
  }

  lemma AddSwap(a: byte, b: byte, c: byte, d: byte)
    ensures Add(Add(a, b), Add(c, d)) == Add(Add(a, c), Add(b, d))
  {
    hide Add;
    AddLaws(a, b, Add(c, d));
    AddLaws(b, c, d);
    AddLaws(c, b, d);
    AddLaws(a, c, Add(b, d));
  }

  lemma {:induction false} TimesXor(n: nat, a: byte, b: byte)
    ensures Times(n, a ^ b) == Times(n, a) ^ Times(n, b)
  {
    if n > 0 {
      var p, q := Times(n - 1, a), Times(n - 1, b);
      TimesXor(n - 1, a, b);
      DoubleXor(p, q);
    }
  }

  lemma {:induction false} TimesZero(n: nat, a: byte)
    ensures Times(n, a) == 0 <==> a == 0
  {
    if n > 0 {
      TimesZero(n - 1, a);
      assert forall b: byte :: Double(b) == 0 <==> b == 0;
    }
  }

  lemma {:induction false} TimesInjective(n: nat, a: byte, b: byte)
    requires Times(n, a) == Times(n, b)
    ensures a == b
  {
    TimesXor(n, a, b);
    TimesZero(n, a ^ b);
    AddLaws(Times(n, a), Times(n, b), 0);
    AddLaws(a, b, 0);
  }

  lemma {:induction false} TimesSum(m: nat, n: nat, a: byte)
    ensures Times(m + n, a) == Times(m, Times(n, a))
  {
    if m > 0 {
      TimesSum(m - 1, n, a);
      assert Times(m + n, a) == Double(Times(m - 1 + n, a));
    }
  }

  lemma {:induction false} TimesMultiple(m: nat, k: nat)
    requires Times(m, 1) == 1
    ensures Times(k * m, 1) == 1
  {
    if k > 0 {
      TimesMultiple(m, k - 1);
      assert k * m == (k - 1) * m + m;
      TimesSum((k - 1) * m, m, 1);
    } else {
      assert k * m == 0;
    }
  }

  // ----- alpha has order 255

  function Double4(a: byte): byte {
    Double(Double(Double(Double(a))))
  }

  lemma Times4More(n: nat, a: byte)
    ensures Times(n + 4, a) == Double4(Times(n, a))
  {
    assert Times(n + 2, a) == Double(Times(n + 1, a));
    assert Times(n + 3, a) == Double(Times(n + 2, a));
  }

  lemma Times17More(n: nat)
    ensures Times(n + 17, 1) == Double(Double4(Double4(Double4(Double4(Times(n, 1))))))
  {
    Times4More(n, 1);
    Times4More(n + 4, 1);
    Times4More(n + 8, 1);
    Times4More(n + 12, 1);
  }

  lemma PowersOfAlpha()
    ensures Times(15, 1) != 1
    ensures Times(51, 1) != 1
    ensures Times(85, 1) != 1
    ensures Times(ORDER, 1) == 1
  {
    Times4More(0, 1);
    Times4More(4, 1);
    Times4More(8, 1);
    assert Times(13, 1) == Double(Times(12, 1));
    assert Times(14, 1) == Double(Times(13, 1));
    assert Times(15, 1) == 38;
    Times17More(0);
    Times17More(17);
    Times17More(34);
    assert Times(51, 1) == 10;
    Times17More(51);
    Times17More(68);
    assert Times(85, 1) == 214;
    Times17More(85);
    Times17More(102);
    Times17More(119);
    assert Times(136, 1) == 79;
    Times17More(136);
    Times17More(153);
    Times17More(170);
    assert Times(187, 1) == 220;
    Times17More(187);
    Times17More(204);
    Times17More(221);
    Times17More(238);
  }

  lemma ProductAtLeast(v: nat, g: nat, a: nat, b: nat)
    requires a <= v && b <= g
    ensures a * b <= v * g
  {
    assert v * g == a * b + (v - a) * g + a * (g - b);
  }

  lemma ProperDivisorOfOrder(v: nat, g: nat)
    requires v * g == ORDER && g < ORDER
    ensures g in {1, 3, 5, 15, 17, 51, 85}
  {
    if g > 15 && v > 16 {
      ProductAtLeast(v, g, 17, 16);
    } else if g > 15 {
      assert v in {2, 3, 4, 5, 6, 7, 8, 9, 10, 11, 12, 13, 14, 15, 16};
    }
  }

  /** If alpha^m and alpha^n are 1, so is alpha^gcd(m, n). */
  lemma {:induction false} CommonPeriod(m: nat, n: nat) returns (g: nat, u: nat, v: nat)
    requires 0 < n && Times(m, 1) == 1 && Times(n, 1) == 1
    ensures Times(g, 1) == 1 && m == u * g && n == v * g
    decreases n
  {
    var q, r := m / n, m % n;
    assert m == q * n + r;
    TimesMultiple(n, q);
    TimesSum(r, q * n, 1);
    if r == 0 {
      g, u, v := n, q, 1;
    } else {
      var a, b;
      g, a, b := CommonPeriod(n, r);
      u, v := q * a + b, a;
      assert u * g == q * (a * g) + b * g;
    }
  }

  lemma PeriodUpTo(g: nat, n: nat)
    requires Times(g, 1) == 1 && g in {1, 3, 5, 15, 17, 51, 85}
    ensures Times(15, 1) == 1 || Times(51, 1) == 1 || Times(85, 1) == 1
  {
    if g in {1, 3, 5, 15} {
      TimesMultiple(g, 15 / g);
    } else if g in {17, 51} {
      TimesMultiple(g, 51 / g);
    }
  }

  /** alpha^n is 1 only where n is a multiple of 255: alpha has order exactly 255. */
  lemma AlphaHasOrder255(n: nat)
    ensures Times(n, 1) == 1 <==> n % ORDER == 0
  {
    PowersOfAlpha();
    if n % ORDER == 0 {
      TimesMultiple(ORDER, n / ORDER);
    }
    if Times(n, 1) == 1 {
      var g, u, v := CommonPeriod(n, ORDER);
      if g < ORDER {
        ProperDivisorOfOrder(v, g);
        PeriodUpTo(g, n);
      } else {
        assert v > 0;
        ProductAtLeast(v, g, 1, g);
      }
    }
  }

  lemma ExpInjective(i: nat, j: nat)
    requires i < ORDER && j < ORDER && Exp(i) == Exp(j)
    ensures i == j
  {
    var lo, hi := if i < j then i else j, if i < j then j else i;
    TimesSum(lo, hi - lo, 1);
    TimesInjective(lo, 1, Times(hi - lo, 1));
    AlphaHasOrder255(hi - lo);
  }

  // ----- every nonzero byte is a power of alpha

  function Image(f: int -> int, n: nat): set<int> {
    set i | 0 <= i < n :: f(i)
  }

  lemma {:induction false} ImageSize(f: int -> int, n: nat)
    requires forall i, j :: 0 <= i < j < n ==> f(i) != f(j)
    ensures |Image(f, n)| == n
  {
    if n > 0 {
      ImageSize(f, n - 1);
      assert Image(f, n) == Image(f, n - 1) + {f(n - 1)};
    }
  }

  lemma {:induction false} SubsetOfInitialSegment(s: set<int>, n: nat)
    requires forall x <- s :: 1 <= x <= n
    ensures |s| <= n
    ensures |s| == n ==> forall x :: 1 <= x <= n ==> x in s
  {
    if n == 0 {
      assert forall x :: x !in s;
      assert s == {};
    } else {
      SubsetOfInitialSegment(s - {n}, n - 1);
    }
  }

  lemma ExpAsInt(i: nat)
    requires i < ORDER
    ensures 1 <= Exp(i) as int <= ORDER
  {
    TimesZero(i, 1);
  }

  lemma AsIntInjective(a: byte, b: byte)
    requires a as int == b as int
    ensures a == b
  {
  }

  ghost predicate IsLog(i: int, a: byte) {
    0 <= i < ORDER && Exp(i) == a
  }

  lemma EveryByteHasALog(a: byte)
    requires a != 0
    ensures exists i :: IsLog(i, a)
  {
    var f: int -> int := i => Exp(i) as int;
    forall i, j | 0 <= i < j < ORDER ensures f(i) != f(j) {
      if f(i) == f(j) {
        AsIntInjective(Exp(i), Exp(j));
        ExpInjective(i, j);
      }
    }
    ImageSize(f, ORDER);
    forall i | 0 <= i < ORDER ensures 1 <= f(i) <= ORDER {
      ExpAsInt(i);
    }
    SubsetOfInitialSegment(Image(f, ORDER), ORDER);
    assert a as int in Image(f, ORDER);
    var i :| 0 <= i < ORDER && f(i) == a as int;
    AsIntInjective(Exp(i), a);
    assert IsLog(i, a);
  }

  /** The exponent of a nonzero byte. */
  ghost function Log(a: byte): (i: int)
    requires a != 0
    ensures 0 <= i < ORDER && Exp(i) == a
  {
    EveryByteHasALog(a);
    var i :| IsLog(i, a);
    i
  }

  // ----- multiplication through logarithms, and the field laws

  /** Multiplication as the encoder does it: add the logarithms. */
  ghost function Mul(a: byte, b: byte): byte {
    if b == 0 then 0 else Times(Log(b), a)
  }

  ghost function Pow(x: byte, k: nat): byte {
    if k == 0 then 1 else Mul(Pow(x, k - 1), x)
  }

  lemma TimesWraps(n: nat, a: byte)
    ensures Times(n, a) == Times(n % ORDER, a)
  {
    var k := n / ORDER;
    AlphaHasOrder255(k * ORDER);
    if a == 0 {
      TimesZero(n, a);
      TimesZero(n % ORDER, a);
    } else {
      var i := Log(a);
      TimesSum(n % ORDER, k * ORDER, a);
      TimesSum(k * ORDER, i, 1);
      TimesSum(i, k * ORDER, 1);
    }
  }

  /** Only a logarithm has this exponent, up to multiples of 255. */
  lemma LogOfExp(n: int)
    ensures Exp(n) != 0 && Log(Exp(n)) == n % ORDER
  {
    TimesZero(n % ORDER, 1);
    ExpInjective(n % ORDER, Log(Exp(n)));
  }

  lemma MulExp(i: int, j: int)
    ensures Mul(Exp(i), Exp(j)) == Exp(i + j)
  {
    LogOfExp(j);
    TimesSum(j % ORDER, i % ORDER, 1);
    TimesWraps(j % ORDER + i % ORDER, 1);
    assert (j % ORDER + i % ORDER) % ORDER == (i + j) % ORDER;
  }

  lemma MulZero(a: byte, b: byte)
    ensures Mul(a, b) == 0 <==> a == 0 || b == 0
  {
    if b != 0 {
      TimesZero(Log(b), a);
    }
  }

  lemma MulCommutes(a: byte, b: byte)
    ensures Mul(a, b) == Mul(b, a)
  {
    MulZero(a, b);
    MulZero(b, a);
    if a != 0 && b != 0 {
      MulExp(Log(a), Log(b));
      MulExp(Log(b), Log(a));
    }
  }

  lemma MulAssociates(a: byte, b: byte, c: byte)
    ensures Mul(Mul(a, b), c) == Mul(a, Mul(b, c))
  {
    MulZero(a, b);
    MulZero(b, c);
    MulZero(Mul(a, b), c);
    MulZero(a, Mul(b, c));
    if a != 0 && b != 0 && c != 0 {
      var i, j, k := Log(a), Log(b), Log(c);
      MulExp(i, j);
      MulExp(i + j, k);
      MulExp(j, k);
      MulExp(i, j + k);
      assert i + j + k == i + (j + k);
    }
  }

  lemma MulDistributes(a: byte, b: byte, c: byte)
    ensures Mul(Add(a, b), c) == Add(Mul(a, c), Mul(b, c))
    ensures Mul(c, Add(a, b)) == Add(Mul(c, a), Mul(c, b))
  {
    if c != 0 {
      TimesXor(Log(c), a, b);
    }
    MulCommutes(Add(a, b), c);
    MulCommutes(a, c);
    MulCommutes(b, c);
  }

  lemma MulOne(a: byte)
    ensures Mul(a, 1) == a && Mul(1, a) == a
  {
    assert Exp(0) == 1;
    LogOfExp(0);
    MulCommutes(a, 1);
  }

  /** With the laws above, this fixes the multiplication: the product of the bytes as binary
      polynomials, reduced by alpha^8 = alpha^4 + alpha^3 + alpha^2 + 1. */
  lemma MulAlpha(a: byte)
    ensures Mul(a, 2) == Double(a)
  {
    assert Times(1, 1) == 2;
    assert Exp(1) == 2;
    LogOfExp(1);
    assert Times(1, a) == Double(a);
  }

  /** The recurrence alpha^8 = alpha^4 + alpha^3 + alpha^2 + 1 that fills the table. */
  lemma ReducingPolynomial(n: nat)
    requires n >= 8
    ensures Times(n, 1) == Times(n - 4, 1) ^ Times(n - 5, 1) ^ Times(n - 6, 1) ^ Times(n - 8, 1)
  {
    Times4More(n - 8, 1);
    Times4More(n - 4, 1);
    var a := Times(n - 8, 1);
    assert Times(n - 6, 1) == Double(Times(n - 7, 1));
    assert Times(n - 5, 1) == Double(Times(n - 6, 1));
    assert Double4(Double4(a)) == Double4(a) ^ Double(Double(Double(a))) ^ Double(Double(a)) ^ a;
  }

  lemma {:induction false} PowExp(i: int, k: nat)
    ensures Pow(Exp(i), k) == Exp(i * k)
  {
    if k > 0 {
      PowExp(i, k - 1);
      MulExp(i * (k - 1), i);
      assert i * (k - 1) + i == i * k;
    } else {
      assert i * k == 0;
    }
  }
}
