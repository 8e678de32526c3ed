/** Error correction of one block (section 7.5.2 of ISO/IEC 18004:2015): the generator polynomial,
    reduction modulo it, and what the appended bytes are worth. */
module ReedSolomon {
  import opened Prelude
  import opened GaloisField
  import opened QRMath
  import opened Polynomial

  // ----- words with few nonzero entries do not vanish at many powers of alpha

  /** The sum of cs[i] * xs[i]^j. */
  ghost function PowerSum(cs: poly, xs: poly, j: nat): byte
    requires |cs| == |xs|
  {
    if cs == [] then 0
    else
      var n := |cs| - 1;
      Add(PowerSum(cs[..n], xs[..n], j), Mul(cs[n], Pow(xs[n], j)))
  }

  ghost predicate Distinct(xs: poly) {
    forall i, j :: 0 <= i < j < |xs| ==> xs[i] != xs[j]
  }

  /** The coefficients cs[i] * (xs[i] + y). */
  ghost function Shifted(cs: poly, xs: poly, y: byte): (ds: poly)
    requires |cs| == |xs|
    ensures |ds| == |cs| && forall i :: 0 <= i < |cs| ==> ds[i] == Mul(cs[i], Add(xs[i], y))
  {
    seq(|cs|, i requires 0 <= i < |cs| => Mul(cs[i], Add(xs[i], y)))
  }

  lemma ShiftedTerm(c: byte, x: byte, y: byte, p: byte)
    ensures Mul(Mul(c, Add(x, y)), p) == Add(Mul(c, Mul(p, x)), Mul(Mul(c, p), y))
  {
    hide *;
    MulAssociates(c, Add(x, y), p);
    MulDistributes(x, y, p);
    MulDistributes(Mul(x, p), Mul(y, p), c);
    MulCommutes(x, p);
    MulCommutes(y, p);
    MulAssociates(c, p, y);
  }

  lemma {:induction false} ShiftedSum(cs: poly, xs: poly, y: byte, j: nat)
    requires |cs| == |xs|
    ensures PowerSum(Shifted(cs, xs, y), xs, j) == Add(PowerSum(cs, xs, j + 1), Mul(PowerSum(cs, xs, j), y))
  {
    hide Add, Mul, Shifted;
    if cs == [] {
      MulZero(0, y);
      AddLaws(0, 0, 0);
    } else {
      var n := |cs| - 1;
      var p := Pow(xs[n], j);
      ShiftedSum(cs[..n], xs[..n], y, j);
      assert Shifted(cs, xs, y)[..n] == Shifted(cs[..n], xs[..n], y);
      ShiftedTerm(cs[n], xs[n], y, p);
      MulDistributes(PowerSum(cs[..n], xs[..n], j), Mul(cs[n], p), y);
      AddSwap(PowerSum(cs[..n], xs[..n], j + 1), Mul(PowerSum(cs[..n], xs[..n], j), y),
              Mul(cs[n], Mul(p, xs[n])), Mul(Mul(cs[n], p), y));
    }
  }

  lemma {:induction false} PowerSumOfZeros(cs: poly, xs: poly, j: nat)
    requires |cs| == |xs| && forall i :: 0 <= i < |cs| ==> cs[i] == 0
    ensures PowerSum(cs, xs, j) == 0
  {
    hide Add, Mul, Pow;
    if cs != [] {
      var n := |cs| - 1;
      PowerSumOfZeros(cs[..n], xs[..n], j);
      MulZero(0, Pow(xs[n], j));
      AddLaws(0, 0, 0);
    }
  }

  /** A Vandermonde system with distinct locators has only the zero solution. */
  lemma {:induction false} VandermondeKernel(cs: poly, xs: poly)
    requires |cs| == |xs| && Distinct(xs)
    requires forall j :: 0 <= j < |cs| ==> PowerSum(cs, xs, j) == 0
    ensures forall i :: 0 <= i < |cs| ==> cs[i] == 0
    decreases |cs|
  {
    hide Add, Mul, Pow, Shifted, PowerSum;
    if cs != [] {
      var n := |cs| - 1;
      var y := xs[n];
      var ds := Shifted(cs, xs, y);
      forall j | 0 <= j < n ensures PowerSum(ds[..n], xs[..n], j) == 0 {
        ShiftedSum(cs, xs, y, j);
        MulZero(0, y);
        AddLaws(0, 0, 0);
        AddLaws(y, y, 0);
        MulZero(cs[n], 0);
        LastTermZero(ds, xs, j);
      }
      VandermondeKernel(ds[..n], xs[..n]);
      forall i | 0 <= i < n ensures cs[i] == 0 {
        assert ds[..n][i] == ds[i];
        AddLaws(xs[i], y, 0);
        MulZero(cs[i], Add(xs[i], y));
      }
      LastTermAlone(cs, xs);
    }
  }

  lemma LastTermZero(ds: poly, xs: poly, j: nat)
    requires |ds| == |xs| > 0 && ds[|ds| - 1] == 0
    ensures PowerSum(ds, xs, j) == PowerSum(ds[..|ds| - 1], xs[..|ds| - 1], j)
  {
    hide Add, Mul, Pow;
    var n := |ds| - 1;
    MulZero(0, Pow(xs[n], j));
    AddLaws(PowerSum(ds[..n], xs[..n], j), 0, 0);
  }

  lemma LastTermAlone(cs: poly, xs: poly)
    requires |cs| == |xs| > 0 && PowerSum(cs, xs, 0) == 0
    requires forall i :: 0 <= i < |cs| - 1 ==> cs[i] == 0
    ensures cs[|cs| - 1] == 0
  {
    hide Add, Mul;
    var n := |cs| - 1;
    PowerSumOfZeros(cs[..n], xs[..n], 0);
    MulOne(cs[n]);
    AddLaws(0, cs[n], 0);
  }

  ghost function Weight(p: poly): nat {
    if p == [] then 0 else Weight(p[..|p| - 1]) + if p[|p| - 1] == 0 then 0 else 1
  }

  /** The nonzero coefficients of p * x^s. */
  ghost function Coefficients(p: poly): (cs: poly)
    ensures |cs| == Weight(p)
  {
    if p == [] then []
    else Coefficients(p[..|p| - 1]) + if p[|p| - 1] == 0 then [] else [p[|p| - 1]]
  }

  /** Where they stand, as powers of alpha. */
  ghost function Locators(p: poly, s: nat): (xs: poly)
    ensures |xs| == Weight(p)
  {
    if p == [] then []
    else Locators(p[..|p| - 1], s + 1) + if p[|p| - 1] == 0 then [] else [Exp(s)]
  }

  lemma {:induction false} LocatorsDistinct(p: poly, s: nat)
    requires |p| + s <= ORDER
    ensures Distinct(Locators(p, s))
    ensures forall x <- Locators(p, s) :: x != 0 && s <= Log(x) < |p| + s
  {
    hide Exp, Times;
    if p != [] {
      LocatorsDistinct(p[..|p| - 1], s + 1);
      LogOfExp(s);
    }
  }

  lemma {:induction false} CoefficientsNonzero(p: poly)
    ensures forall i :: 0 <= i < Weight(p) ==> Coefficients(p)[i] != 0
  {
    if p != [] {
      CoefficientsNonzero(p[..|p| - 1]);
    }
  }

  lemma EvalTerm(e: byte, c: byte, j: nat, s: nat)
    ensures Mul(Add(Mul(e, Exp(j)), c), Pow(Exp(s), j)) == Add(Mul(e, Pow(Exp(s + 1), j)), Mul(c, Pow(Exp(s), j)))
  {
    hide *;
    PowExp(s, j);
    PowExp(s + 1, j);
    MulDistributes(Mul(e, Exp(j)), c, Exp(s * j));
    MulAssociates(e, Exp(j), Exp(s * j));
    MulExp(j, s * j);
    assert j + s * j == (s + 1) * j;
  }

  lemma {:induction false} EvalIsPowerSum(p: poly, s: nat, j: nat)
    ensures PowerSum(Coefficients(p), Locators(p, s), j) == Mul(Eval(p, Exp(j)), Pow(Exp(s), j))
  {
    hide Add, Mul, Pow, Exp;
    if p == [] {
      MulZero(0, Pow(Exp(s), j));
    } else {
      var n := |p| - 1;
      var e := Eval(p[..n], Exp(j));
      var cs, xs := Coefficients(p[..n]), Locators(p[..n], s + 1);
      EvalIsPowerSum(p[..n], s + 1, j);
      EvalTerm(e, p[n], j, s);
      if p[n] == 0 {
        MulZero(0, Pow(Exp(s), j));
        AddLaws(PowerSum(cs, xs, j), 0, 0);
        assert cs + [] == cs && xs + [] == xs;
      } else {
        assert (cs + [p[n]])[..|cs|] == cs && (xs + [Exp(s)])[..|xs|] == xs;
      }
    }
  }

  /** Every word of at most 255 bytes that vanishes at alpha^0 .. alpha^(n-1) is zero
      or has more than n nonzero bytes. */
  lemma FewNonzeroMeansZero(p: poly, n: nat)
    requires |p| <= ORDER && Weight(p) <= n
    requires forall j :: 0 <= j < n ==> Eval(p, Exp(j)) == 0
    ensures Weight(p) == 0
  {
    hide Add, Mul, Pow, Exp, Eval, PowerSum;
    var cs, xs := Coefficients(p), Locators(p, 0);
    LocatorsDistinct(p, 0);
    forall j | 0 <= j < |cs| ensures PowerSum(cs, xs, j) == 0 {
      EvalIsPowerSum(p, 0, j);
      MulZero(0, Pow(Exp(0), j));
    }
    CoefficientsNonzero(p);
    assert cs == [] || cs[0] != 0;
    VandermondeKernel(cs, xs);
  }

  // ----- the generator polynomial

  ghost function Generator(n: nat): poly {
    if n == 0 then [1] else Strip(Product(Generator(n - 1), [1, Exp(n - 1)]))
  }

  lemma {:induction false} ProductLeads(p: poly, q: poly)
    requires p != [] && q != []
    ensures Product(p, q)[0] == Mul(q[0], p[0])
  {
    hide Add, Mul;
    var n := |p| - 1;
    if n == 0 {
      assert p[..0] == [];
      assert (Product([], q) + [0])[0] == 0;
      assert (Zeros(0) + Scale(q, p[0]))[0] == Mul(q[0], p[0]);
      AddLaws(Mul(q[0], p[0]), 0, 0);
    } else {
      ProductLeads(p[..n], q);
      AddLaws(Product(p[..n], q)[0], 0, 0);
    }
  }

  lemma {:induction false} GeneratorShape(n: nat)
    ensures |Generator(n)| == n + 1 && Generator(n)[0] == 1
  {
    hide Add, Mul, Exp, Product;
    if n > 0 {
      var p := Product(Generator(n - 1), [1, Exp(n - 1)]);
      GeneratorShape(n - 1);
      ProductLeads(Generator(n - 1), [1, Exp(n - 1)]);
      MulOne(1);
      assert Strip(p) == p;
    }
  }

  lemma EvalLinear(a: byte, x: byte)
    ensures Eval([1, a], x) == Add(x, a)
  {
    hide Add, Mul;
    assert [1] + [a] == [1, a] && [] + [1] == [1];
    EvalSnoc([1], a, x);
    EvalSnoc([], 1, x);
    MulZero(0, x);
    AddLaws(1, 0, 0);
    MulOne(x);
  }

  /** The product of x + alpha^i for i below n. */
  ghost function RootProduct(n: nat, x: byte): byte {
    if n == 0 then 1 else Mul(RootProduct(n - 1, x), Add(x, Exp(n - 1)))
  }

  /** The polynomial that repeated multiplication builds is the product of its linear factors. */
  lemma {:induction false} GeneratorIsRootProduct(n: nat, x: byte)
    ensures Eval(Generator(n), x) == RootProduct(n, x)
  {
    hide Add, Mul, Exp;
    if n == 0 {
      EvalSnoc([], 1, x);
      assert [] + [1] == [1];
      MulZero(0, x);
      AddLaws(1, 0, 0);
    } else {
      GeneratorIsRootProduct(n - 1, x);
      EvalStrip(Product(Generator(n - 1), [1, Exp(n - 1)]), x);
      EvalProduct(Generator(n - 1), [1, Exp(n - 1)], x);
      EvalLinear(Exp(n - 1), x);
    }
  }

  /** Its roots are alpha^0 .. alpha^(n-1) and nothing else. */
  lemma {:induction false} GeneratorRoots(n: nat, x: byte)
    ensures Eval(Generator(n), x) == 0 <==> exists i :: 0 <= i < n && Exp(i) == x
  {
    hide Add, Mul, Exp, Eval, Generator;
    GeneratorIsRootProduct(n, x);
    if n == 0 {
    } else {
      GeneratorIsRootProduct(n - 1, x);
      GeneratorRoots(n - 1, x);
      MulZero(RootProduct(n - 1, x), Add(x, Exp(n - 1)));
      AddLaws(x, Exp(n - 1), 0);
    }
  }

  lemma {:induction false} WeightBelowLength(p: poly)
    ensures Weight(p) <= |p|
    ensures 0 in p ==> Weight(p) < |p|
    ensures Weight(p) == 0 <==> p == Zeros(|p|)
  {
    if p != [] {
      var n := |p| - 1;
      WeightBelowLength(p[..n]);
      assert p == p[..n] + [p[n]];
      assert Zeros(|p|) == Zeros(n) + [0];
    }
  }

  /** No coefficient of the generator is zero, so no logarithm of zero is ever taken of it. */
  lemma GeneratorHasNoZeros(n: nat)
    requires n < ORDER
    ensures 0 !in Generator(n)
  {
    hide Generator, Eval, Exp, Weight;
    GeneratorShape(n);
    WeightBelowLength(Generator(n));
    if 0 in Generator(n) {
      forall j | 0 <= j < n ensures Eval(Generator(n), Exp(j)) == 0 {
        GeneratorRoots(n, Exp(j));
      }
      FewNonzeroMeansZero(Generator(n), n);
    }
  }

  /** getErrorCorrectPolynomial: one multiplication for each root; it throws only past 255 roots. */
  method GetErrorCorrectPolynomial(t: Tables, n: nat) returns (r: Option<poly>)
    requires t.Valid()
    ensures r.Some? ==> r.value == Generator(n)
    ensures n <= ORDER ==> r.Some?
  {
    hide Exp, Product, Strip;
    var a := Make([1], 0);
    GeneratorStarts();
    for i := 0 to n
      invariant a == Generator(i)
    {
      GeneratorShape(i);
      var root := t.Gexp(i);
      var factor := Make([1, root], 0);
      FactorKept(root);
      var next := Multiply(t, a, factor);
      if i < ORDER {
        GeneratorHasNoZeros(i);
        LogOfExp(i);
      }
      if next.None? {
        return None;
      }
      a := next.value;
    }
    r := Some(a);
  }

  lemma GeneratorStarts()
    ensures Strip([1]) + Zeros(0) == Generator(0)
  {
  }

  lemma FactorKept(root: byte)
    ensures Strip([1, root]) + Zeros(0) == [1, root]
  {
  }

  // ----- reduction modulo the generator

  /** The multiple of e that cancels the leading coefficient of p, added to p. */
  ghost function Reduce(p: poly, e: poly): (r: poly)
    requires 0 < |e| <= |p| && p[0] != 0 && e[0] != 0
    ensures |r| == |p|
  {
    Xor(p, Scale(e, Exp(Log(p[0]) - Log(e[0]))) + Zeros(|p| - |e|))
  }

  lemma ReduceCancels(p: poly, e: poly)
    requires 0 < |e| <= |p| && p[0] != 0 && e[0] != 0
    ensures Reduce(p, e)[0] == 0 && |Strip(Reduce(p, e))| < |p|
  {
    hide Add, Mul, Exp;
    MulExp(Log(e[0]), Log(p[0]) - Log(e[0]));
    AddLaws(p[0], p[0], 0);
    StripIsSuffix(Reduce(p, e));
  }

  lemma ReduceKeepsRoots(p: poly, e: poly, x: byte)
    requires 0 < |e| <= |p| && p[0] != 0 && e[0] != 0
    requires Eval(e, x) == 0
    ensures Eval(Strip(Reduce(p, e)), x) == Eval(p, x)
  {
    hide Add, Mul, Exp, Eval, Xor, Scale, Zeros, Strip, Pow;
    var c := Exp(Log(p[0]) - Log(e[0]));
    EvalStrip(Reduce(p, e), x);
    EvalXor(p, Scale(e, c) + Zeros(|p| - |e|), x);
    EvalAppendZeros(Scale(e, c), |p| - |e|, x);
    EvalScale(e, c, x);
    MulZero(0, c);
    MulZero(0, Pow(x, |p| - |e|));
    AddLaws(Eval(p, x), 0, 0);
  }

  /** mod can start: its two leading coefficients have logarithms, or there is nothing to reduce. */
  ghost predicate Reducible(p: poly, e: poly) {
    e != [] && (|p| < |e| || (p[0] != 0 && e[0] != 0))
  }

  /** The remainder of p modulo e. */
  ghost function Remainder(p: poly, e: poly): (r: poly)
    requires Reducible(p, e)
    ensures |r| < |e|
    decreases |p|
  {
    if |p| < |e| then p
    else
      ReduceCancels(p, e);
      StripIsSuffix(Reduce(p, e));
      Remainder(Strip(Reduce(p, e)), e)
  }

  lemma {:induction false} RemainderKeepsRoots(p: poly, e: poly, x: byte)
    requires Reducible(p, e) && Eval(e, x) == 0
    ensures Eval(Remainder(p, e), x) == Eval(p, x)
    decreases |p|
  {
    hide Reduce, Strip, Eval, Exp;
    if |p| >= |e| {
      ReduceCancels(p, e);
      StripIsSuffix(Reduce(p, e));
      ReduceKeepsRoots(p, e, x);
      RemainderKeepsRoots(Strip(Reduce(p, e)), e, x);
    }
  }

  /** mod, which throws where a zero coefficient reaches the logarithm. */
  method Mod(t: Tables, p: poly, e: poly) returns (r: Option<poly>)
    requires t.Valid() && e != []
    ensures r.None? <==> |p| >= |e| && (p[0] == 0 || 0 in e)
    ensures r.Some? ==> Reducible(p, e) && r.value == Remainder(p, e)
    decreases |p|
  {
    if |p| - |e| < 0 {
      return Some(p);
    }
    var first := t.Glog(p[0]);
    var second := t.Glog(e[0]);
    if first.None? || second.None? {
      return None;
    }
    var ratio := first.value - second.value;
    var num := new byte[|p|](_ => 0);
    for i := 0 to |p|
      invariant num[..i] == p[..i]
    {
      num[i] := p[i];
    }
    assert num[..] == p;
    var ok := Cancel(t, num, e, ratio);
    if !ok {
      return None;
    }
    ReducedInPlace(p, e, num[..]);
    ReduceCancels(p, e);
    StripIsSuffix(Reduce(p, e));
    var next := Make(num[..], 0);
    assert next == Strip(num[..]);
    r := Mod(t, next, e);
  }

  /** The in-place pass of mod: e * alpha^ratio lands on the front of num. */
  method Cancel(t: Tables, num: array<byte>, e: poly, ratio: int) returns (ok: bool)
    requires t.Valid() && |e| <= num.Length && num != t.expTable && num as object != t.logTable
    modifies num
    ensures ok <==> 0 !in e
    ensures ok ==> RowSum(old(num[..]), num[..], 0, Exp(ratio), e, |e|)
  {
    hide Add, Mul, Exp;
    for i := 0 to |e|
      invariant 0 !in e[..i]
      invariant RowSum(old(num[..]), num[..], 0, Exp(ratio), e, i)
    {
      var a := t.Glog(e[i]);
      if a.None? {
        return false;
      }
      var term := t.Gexp(a.value + ratio);
      MulExp(a.value, ratio);
      num[i] := Add(num[i], term);
    }
    ok := true;
  }

  lemma ReducedInPlace(p: poly, e: poly, after: poly)
    requires 0 < |e| <= |p| && p[0] != 0 && e[0] != 0
    requires RowSum(p, after, 0, Exp(Log(p[0]) - Log(e[0])), e, |e|)
    ensures after == Reduce(p, e)
  {
    hide Add, Mul, Exp, Xor, Scale, Zeros;
    var r := Reduce(p, e);
    forall k | 0 <= k < |p| ensures after[k] == r[k] {
      AddLaws(p[k], 0, 0);
    }
  }

  // ----- one block

  /** The polynomial that is reduced: the data with n zero slots behind it. */
  ghost function Raw(data: seq<byte>, n: nat): poly {
    Strip(data) + Zeros(n)
  }

  lemma RawReducible(data: seq<byte>, n: nat)
    ensures Reducible(Raw(data, n), Generator(n))
  {
    GeneratorShape(n);
    StripIsSuffix(data);
    if Strip(data) == [] {
      assert Raw(data, n) == Zeros(n);
    }
  }

  /** The n error correction bytes of a block: the remainder, right-aligned. */
  ghost function EcBytes(data: seq<byte>, n: nat): (ec: seq<byte>)
    ensures |ec| == n
  {
    RawReducible(data, n);
    GeneratorShape(n);
    var r := Remainder(Raw(data, n), Generator(n));
    Zeros(n - |r|) + r
  }

  /** The part of createBytes that computes one block's error correction bytes; for any length up
      to 254 no step throws. */
  method ErrorCorrection(t: Tables, data: seq<byte>, ecCount: nat) returns (r: Option<seq<byte>>)
    requires t.Valid()
    ensures ecCount < ORDER ==> r.Some?
    ensures r.Some? ==> r.value == EcBytes(data, ecCount)
  {
    hide Exp, Strip, Remainder, EcBytes, Generator, Reducible;
    GeneratorShape(ecCount);
    RawReducible(data, ecCount);
    var rsPoly := GetErrorCorrectPolynomial(t, ecCount);
    if rsPoly.None? {
      return None;
    }
    var rawPoly := Make(data, |rsPoly.value| - 1);
    var modPoly := Mod(t, rawPoly, rsPoly.value);
    if ecCount < ORDER {
      GeneratorHasNoZeros(ecCount);
    }
    if modPoly.None? {
      return None;
    }
    RemainderShort(data, ecCount);
    var ec := AlignRight(modPoly.value, |rsPoly.value| - 1);
    return Some(ec);
  }

  lemma RemainderShort(data: seq<byte>, n: nat)
    requires Reducible(Raw(data, n), Generator(n)) && |Generator(n)| == n + 1
    ensures |Remainder(Raw(data, n), Generator(n))| <= n
    ensures EcBytes(data, n) == Zeros(n - |Remainder(Raw(data, n), Generator(n))|) + Remainder(Raw(data, n), Generator(n))
  {
  }

  method AlignRight(p: poly, n: nat) returns (r: seq<byte>)
    requires |p| <= n
    ensures r == Zeros(n - |p|) + p
  {
    var ec := new byte[n](_ => 0);
    for i := 0 to ec.Length
      invariant ec[..i] == (Zeros(n - |p|) + p)[..i]
    {
      var modIndex := i + |p| - ec.Length;
      ec[i] := if modIndex >= 0 then p[modIndex] else 0;
    }
    r := ec[..];
  }

  /** Data followed by its error correction bytes vanishes at alpha^0 .. alpha^(n-1). */
  lemma CodewordVanishes(data: seq<byte>, n: nat, j: nat)
    requires j < n
    ensures Eval(data + EcBytes(data, n), Exp(j)) == 0
  {
    hide Add, Mul, Exp, Eval, Strip, Remainder, Generator, Pow;
    var x := Exp(j);
    RawReducible(data, n);
    GeneratorShape(n);
    GeneratorRoots(n, x);
    RemainderKeepsRoots(Raw(data, n), Generator(n), x);
    var r := Remainder(Raw(data, n), Generator(n));
    EvalAppendZeros(Strip(data), n, x);
    EvalStrip(data, x);
    EvalAppendZeros(data, n, x);
    EvalPrependZeros(n - |r|, r, x);
    var ec := EcBytes(data, n);
    EvalPrependZeros(|data|, ec, x);
    EvalXor(data + Zeros(n), Zeros(|data|) + ec, x);
    AddLaws(Eval(ec, x), Eval(ec, x), 0);
    WordIsSum(data, ec);
  }

  lemma WordIsSum(data: seq<byte>, ec: seq<byte>)
    ensures Xor(data + Zeros(|ec|), Zeros(|data|) + ec) == data + ec
  {
    hide Add;
    var a, b := data + Zeros(|ec|), Zeros(|data|) + ec;
    forall k | 0 <= k < |a| ensures Xor(a, b)[k] == (data + ec)[k] {
      AddLaws((data + ec)[k], 0, 0);
    }
  }

  // ----- what the error correction bytes are worth

  /** A word whose last n bytes are error correction bytes of the rest. */
  ghost predicate IsCodeword(w: seq<byte>, n: nat) {
    |w| >= n && w == w[..|w| - n] + EcBytes(w[..|w| - n], n)
  }

  /** In how many places two words differ. */
  ghost function Distance(v: seq<byte>, w: seq<byte>): nat
    requires |v| == |w|
  {
    if v == [] then 0
    else
      Distance(v[..|v| - 1], w[..|w| - 1]) + if v[|v| - 1] == w[|w| - 1] then 0 else 1
  }

  lemma {:induction false} DistanceIsWeight(v: seq<byte>, w: seq<byte>)
    requires |v| == |w|
    ensures Distance(v, w) == Weight(Xor(v, w))
  {
    if v != [] {
      var n := |v| - 1;
      DistanceIsWeight(v[..n], w[..n]);
      XorInit(v, w);
      EqualIffSumZero(v[n], w[n]);
    }
  }

  lemma XorInit(v: seq<byte>, w: seq<byte>)
    requires |v| == |w| > 0
    ensures Xor(v, w)[..|v| - 1] == Xor(v[..|v| - 1], w[..|w| - 1])
  {
    hide Add;
  }

  lemma {:induction false} DistanceZero(v: seq<byte>, w: seq<byte>)
    requires |v| == |w|
    ensures Distance(v, w) == 0 <==> v == w
  {
    if v != [] {
      var n := |v| - 1;
      DistanceZero(v[..n], w[..n]);
      assert v == v[..n] + [v[n]] && w == w[..n] + [w[n]];
    }
  }

  lemma EqualIffSumZero(a: byte, b: byte)
    ensures Add(a, b) == 0 <==> a == b
  {
    AddLaws(a, b, 0);
  }

  /** A word of at most 255 bytes is a codeword exactly when it vanishes at the n roots. */
  lemma VanishingMeansCodeword(w: seq<byte>, n: nat)
    requires n <= |w| <= ORDER
    ensures IsCodeword(w, n) <==> forall j :: 0 <= j < n ==> Eval(w, Exp(j)) == 0
  {
    hide Add, Exp, Eval, Weight, EcBytes;
    var data := w[..|w| - n];
    var c := data + EcBytes(data, n);
    forall j | 0 <= j < n ensures Eval(c, Exp(j)) == 0 {
      CodewordVanishes(data, n, j);
    }
    if forall j :: 0 <= j < n ==> Eval(w, Exp(j)) == 0 {
      forall j | 0 <= j < n ensures Eval(Xor(c, w), Exp(j)) == 0 {
        EvalXor(c, w, Exp(j));
        AddLaws(0, 0, 0);
      }
      SamePrefixDistance(c, w, |w| - n);
      DistanceIsWeight(c, w);
      DistanceZero(c, w);
      FewNonzeroMeansZero(Xor(c, w), n);
    }
  }

  lemma {:induction false} SamePrefixDistance(v: seq<byte>, w: seq<byte>, k: nat)
    requires |v| == |w| && k <= |v| && v[..k] == w[..k]
    ensures Distance(v, w) <= |v| - k
  {
    if |v| > k {
      assert v[..|v| - 1][..k] == v[..k] && w[..|v| - 1][..k] == w[..k];
      SamePrefixDistance(v[..|v| - 1], w[..|v| - 1], k);
    } else {
      assert v == v[..k] && w == w[..k];
      DistanceZero(v, w);
    }
  }

  /** Minimum distance: different codewords of at most 255 bytes differ in more than n bytes. */
  lemma MinimumDistance(v: seq<byte>, w: seq<byte>, n: nat)
    requires |v| == |w| <= ORDER && IsCodeword(v, n) && IsCodeword(w, n) && v != w
    ensures Distance(v, w) > n
  {
    hide Add, Exp, Eval, Weight, EcBytes;
    VanishingMeansCodeword(v, n);
    VanishingMeansCodeword(w, n);
    DistanceIsWeight(v, w);
    DistanceZero(v, w);
    if Distance(v, w) <= n {
      forall j | 0 <= j < n ensures Eval(Xor(v, w), Exp(j)) == 0 {
        EvalXor(v, w, Exp(j));
        AddLaws(0, 0, 0);
      }
      FewNonzeroMeansZero(Xor(v, w), n);
    }
  }

  lemma {:induction false} DistanceTriangle(u: seq<byte>, v: seq<byte>, w: seq<byte>)
    requires |u| == |v| == |w|
    ensures Distance(u, w) <= Distance(u, v) + Distance(v, w)
    ensures Distance(u, v) == Distance(v, u)
  {
    if u != [] {
      var n := |u| - 1;
      DistanceTriangle(u[..n], v[..n], w[..n]);
    }
  }

  /** Two codewords cannot both explain a received word by n/2 damaged bytes or fewer:
      that many errors can always be corrected. */
  lemma ErrorsCorrectable(received: seq<byte>, v: seq<byte>, w: seq<byte>, n: nat)
    requires |received| == |v| == |w| <= ORDER && IsCodeword(v, n) && IsCodeword(w, n)
    requires Distance(v, received) <= n / 2 && Distance(w, received) <= n / 2
    ensures v == w
  {
    hide Distance, EcBytes;
    DistanceTriangle(w, received, v);
    DistanceTriangle(v, received, w);
    if v != w {
      MinimumDistance(v, w, n);
    }
  }
}
