/** Polynomials over GF(256), highest coefficient first, as qrPolynomial stores them. */
module Polynomial {
  import opened Prelude
  import opened GaloisField
  import opened QRMath

  type poly = seq<byte>

  // ----- what the operations mean

  ghost function Zeros(k: nat): (r: poly)
    ensures |r| == k && forall i :: 0 <= i < k ==> r[i] == 0
  {
    seq(k, _ => 0)
  }

  ghost function Xor(p: poly, q: poly): (r: poly)
    requires |p| == |q|
    ensures |r| == |p| && forall i :: 0 <= i < |r| ==> r[i] == Add(p[i], q[i])
  {
    seq(|p|, i requires 0 <= i < |p| => Add(p[i], q[i]))
  }

  ghost function Scale(p: poly, c: byte): (r: poly)
    ensures |r| == |p| && forall i :: 0 <= i < |r| ==> r[i] == Mul(p[i], c)
  {
    seq(|p|, i requires 0 <= i < |p| => Mul(p[i], c))
  }

  /** The value of p at x (Horner's rule). */
  ghost function Eval(p: poly, x: byte): byte {
    if p == [] then 0 else Add(Mul(Eval(p[..|p| - 1], x), x), p[|p| - 1])
  }

  ghost function Strip(p: poly): poly {
    if p != [] && p[0] == 0 then Strip(p[1..]) else p
  }

  /** Schoolbook product, one row for each coefficient of p. */
  ghost function Product(p: poly, q: poly): (r: poly)
    requires q != []
    ensures |r| == |p| + |q| - 1
  {
    if p == [] then Zeros(|q| - 1)
    else
      Xor(Product(p[..|p| - 1], q) + [0], Zeros(|p| - 1) + Scale(q, p[|p| - 1]))
  }

  // ----- evaluation respects them

  lemma EvalSnoc(p: poly, c: byte, x: byte)
    ensures Eval(p + [c], x) == Add(Mul(Eval(p, x), x), c)
  {
    hide Add, Mul;
    assert (p + [c])[..|p|] == p;
  }

  lemma {:induction false} EvalXor(p: poly, q: poly, x: byte)
    requires |p| == |q|
    ensures Eval(Xor(p, q), x) == Add(Eval(p, x), Eval(q, x))
  {
    hide Add, Mul;
    if p != [] {
      var n := |p| - 1;
      EvalXor(p[..n], q[..n], x);
      assert Xor(p, q)[..n] == Xor(p[..n], q[..n]);
      MulDistributes(Eval(p[..n], x), Eval(q[..n], x), x);
      AddSwap(Mul(Eval(p[..n], x), x), Mul(Eval(q[..n], x), x), p[n], q[n]);
    } else {
      AddLaws(0, 0, 0);
    }
  }

  lemma {:induction false} EvalScale(p: poly, c: byte, x: byte)
    ensures Eval(Scale(p, c), x) == Mul(Eval(p, x), c)
  {
    hide Add, Mul;
    if p != [] {
      var n := |p| - 1;
      var e := Eval(p[..n], x);
      EvalScale(p[..n], c, x);
      assert Scale(p, c)[..n] == Scale(p[..n], c);
      MulAssociates(e, c, x);
      MulAssociates(e, x, c);
      MulCommutes(c, x);
      MulDistributes(Mul(e, x), p[n], c);
    } else {
      MulZero(0, c);
    }
  }

  lemma {:induction false} EvalAppendZeros(p: poly, k: nat, x: byte)
    ensures Eval(p + Zeros(k), x) == Mul(Eval(p, x), Pow(x, k))
  {
    hide Add, Mul;
    if k > 0 {
      EvalAppendZeros(p, k - 1, x);
      assert p + Zeros(k) == p + Zeros(k - 1) + [0];
      EvalSnoc(p + Zeros(k - 1), 0, x);
      MulAssociates(Eval(p, x), Pow(x, k - 1), x);
      AddLaws(Mul(Eval(p + Zeros(k - 1), x), x), 0, 0);
    } else {
      assert p + Zeros(0) == p;
      MulOne(Eval(p, x));
    }
  }

  lemma {:induction false} EvalPrependZeros(k: nat, p: poly, x: byte)
    ensures Eval(Zeros(k) + p, x) == Eval(p, x)
  {
    hide Add, Mul;
    if p == [] {
      assert Zeros(k) + p == [] + Zeros(k);
      EvalAppendZeros([], k, x);
      MulZero(0, Pow(x, k));
    } else {
      var n := |p| - 1;
      EvalPrependZeros(k, p[..n], x);
      assert Zeros(k) + p == Zeros(k) + p[..n] + [p[n]];
      EvalSnoc(Zeros(k) + p[..n], p[n], x);
    }
  }

  lemma {:induction false} StripIsSuffix(p: poly)
    ensures |Strip(p)| <= |p| && p == Zeros(|p| - |Strip(p)|) + Strip(p)
    ensures Strip(p) != [] ==> Strip(p)[0] != 0
    ensures p != [] && p[0] == 0 ==> |Strip(p)| < |p|
  {
    if p != [] && p[0] == 0 {
      StripIsSuffix(p[1..]);
      assert p == [0] + p[1..];
      assert Zeros(|p| - |Strip(p)|) == [0] + Zeros(|p| - 1 - |Strip(p)|);
    }
  }

  lemma EvalStrip(p: poly, x: byte)
    ensures Eval(Strip(p), x) == Eval(p, x)
  {
    StripIsSuffix(p);
    EvalPrependZeros(|p| - |Strip(p)|, Strip(p), x);
  }

  lemma {:induction false} EvalProduct(p: poly, q: poly, x: byte)
    requires q != []
    ensures Eval(Product(p, q), x) == Mul(Eval(p, x), Eval(q, x))
  {
    hide Add, Mul;
    if p == [] {
      assert Zeros(|q| - 1) == [] + Zeros(|q| - 1);
      EvalAppendZeros([], |q| - 1, x);
      MulZero(0, Pow(x, |q| - 1));
      MulZero(0, Eval(q, x));
    } else {
      var n := |p| - 1;
      var a, c, e := Eval(p[..n], x), p[n], Eval(q, x);
      var row := Product(p[..n], q);
      EvalProduct(p[..n], q, x);
      EvalXor(row + [0], Zeros(n) + Scale(q, c), x);
      EvalSnoc(row, 0, x);
      AddLaws(Mul(Mul(a, e), x), 0, 0);
      EvalPrependZeros(n, Scale(q, c), x);
      EvalScale(q, c, x);
      ProductStep(a, c, e, x);
    }
  }

  lemma ProductStep(a: byte, c: byte, e: byte, x: byte)
    ensures Add(Mul(Mul(a, e), x), Mul(e, c)) == Mul(Add(Mul(a, x), c), e)
  {
    hide Add, Mul;
    MulAssociates(a, e, x);
    MulAssociates(a, x, e);
    MulCommutes(e, x);
    MulCommutes(e, c);
    MulDistributes(Mul(a, x), c, e);
  }

  // ----- the encoder's operations

  /** qrPolynomial(num, shift): leading zeros dropped, shift zero slots added at the end. */
  method Make(num: seq<byte>, shift: nat) returns (p: poly)
    ensures p == Strip(num) + Zeros(shift)
  {
    var offset := 0;
    while offset < |num| && num[offset] == 0
      invariant offset <= |num|
      invariant Strip(num[offset..]) == Strip(num)
    {
      assert num[offset..][1..] == num[offset + 1..];
      offset := offset + 1;
    }
    var slots := new byte[|num| - offset + shift](_ => 0);
    for i := 0 to |num| - offset
      invariant slots[..i] == num[offset..offset + i]
      invariant slots[i..] == Zeros(slots.Length - i)
    {
      slots[i] := num[i + offset];
    }
    p := slots[..];
    assert p == num[offset..] + Zeros(shift);
  }

  /** The product, or nothing where a zero coefficient reaches the logarithm (the encoder throws). */
  method Multiply(t: Tables, p: poly, q: poly) returns (r: Option<poly>)
    requires t.Valid() && p != [] && q != []
    ensures r == if 0 in p || 0 in q then None else Some(Strip(Product(p, q)))
  {
    var num := new byte[|p| + |q| - 1](_ => 0);
    ProductStarts(p, q, num[..]);
    for i := 0 to |p|
      invariant i > 0 ==> 0 !in p[..i] && 0 !in q
      invariant PartialProduct(p, q, i, num[..])
    {
      ghost var before := num[..];
      var ok := AddRow(t, num, i, p[i], q);
      if !ok {
        return None;
      }
      RowAdded(p, q, i, p[i], before, num[..]);
    }
    ProductComplete(p, q, num[..]);
    var result := Make(num[..], 0);
    assert Strip(num[..]) + Zeros(0) == Strip(num[..]);
    return Some(result);
  }

  /** One pass of the inner loop: c * q lands on num from slot i on. */
  method AddRow(t: Tables, num: array<byte>, i: nat, c: byte, q: poly) returns (ok: bool)
    requires t.Valid() && q != [] && i + |q| <= num.Length && num != t.expTable && num as object != t.logTable
    modifies num
    ensures ok <==> c != 0 && 0 !in q
    ensures ok ==> RowSum(old(num[..]), num[..], i, c, q, |q|)
  {
    hide Add, Mul, Exp;
    for j := 0 to |q|
      invariant 0 !in q[..j] && (j > 0 ==> c != 0)
      invariant RowSum(old(num[..]), num[..], i, c, q, j)
    {
      var a := t.Glog(c);
      var b := t.Glog(q[j]);
      if a.None? || b.None? {
        return false;
      }
      var term := t.Gexp(a.value + b.value);
      TermIsProduct(c, q[j]);
      num[i + j] := Add(num[i + j], term);
    }
    ok := true;
  }

  /** after is before with the first j coefficients of c * q added from slot i on. */
  ghost predicate RowSum(before: poly, after: poly, i: nat, c: byte, q: poly, j: nat) {
    && |after| == |before| && j <= |q|
    && forall k :: 0 <= k < |after| ==>
      after[k] == if i <= k < i + j then Add(before[k], Mul(q[k - i], c)) else before[k]
  }

  ghost predicate PartialProduct(p: poly, q: poly, i: nat, num: poly) {
    && i <= |p| && q != []
    && num == Product(p[..i], q) + Zeros(|p| - i)
  }

  ghost predicate IsEntry(p: poly, i: nat, c: byte) {
    i < |p| && p[i] == c
  }

  lemma TermIsProduct(a: byte, b: byte)
    requires a != 0 && b != 0
    ensures Exp(Log(a) + Log(b)) == Mul(b, a)
  {
    MulExp(Log(b), Log(a));
  }

  lemma ProductStarts(p: poly, q: poly, num: poly)
    requires p != [] && q != [] && num == Zeros(|p| + |q| - 1)
    ensures PartialProduct(p, q, 0, num)
  {
    assert Product(p[..0], q) == Zeros(|q| - 1);
  }

  lemma ProductComplete(p: poly, q: poly, num: poly)
    requires q != [] && PartialProduct(p, q, |p|, num)
    ensures num == Product(p, q)
  {
    assert p[..|p|] == p;
  }

  lemma ProductRow(p: poly, q: poly, i: nat, c: byte)
    requires q != [] && IsEntry(p, i, c)
    ensures Product(p[..i + 1], q) == Xor(Product(p[..i], q) + [0], Zeros(i) + Scale(q, c))
  {
    hide Add, Mul;
    assert p[..i + 1][..i] == p[..i];
  }

  lemma RowAdded(p: poly, q: poly, i: nat, c: byte, before: poly, after: poly)
    requires IsEntry(p, i, c) && PartialProduct(p, q, i, before)
    requires RowSum(before, after, i, c, q, |q|)
    ensures PartialProduct(p, q, i + 1, after)
  {
    hide Add, Mul, Product, Zeros, Scale, Xor, RowSum;
    ProductRow(p, q, i, c);
    RowSums(Product(p[..i], q), Zeros(i) + Scale(q, c), before, after, i, c, q);
  }

  lemma RowSums(base: poly, row: poly, before: poly, after: poly, i: nat, c: byte, q: poly)
    requires |base| + 1 == |row| == i + |q| <= |before|
    requires row == Zeros(i) + Scale(q, c)
    requires before == base + Zeros(|before| - |base|)
    requires RowSum(before, after, i, c, q, |q|)
    ensures after == Xor(base + [0], row) + Zeros(|before| - |row|)
  {
    hide Add, Mul, Zeros, Scale, Xor;
    var upper := base + [0];
    forall k | 0 <= k < |upper| ensures after[k] == Add(upper[k], row[k]) {
      AddLaws(before[k], 0, 0);
    }
  }

}
