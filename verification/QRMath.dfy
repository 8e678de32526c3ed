/** The exponent and logarithm tables of the encoder, built in place by its three loops. */
module QRMath {
  import opened Prelude
  import opened GaloisField

  class Tables {
    const expTable: array<byte>
    const logTable: array<int>

    ghost predicate Valid()
      reads this, expTable, logTable
    {
      && expTable.Length == 256 && logTable.Length == 256
      && expTable[..] == ExpTable()
      && (forall a: byte :: a != 0 ==> logTable[a as int] == Log(a))
    }

    constructor ()
      ensures Valid() && fresh(expTable) && fresh(logTable)
    {
      expTable := new byte[256];
      logTable := new int[256];
      new;
      ExpTableRecurrence();
      FillExpTable(expTable, ExpTable());
      FillLogTable(expTable, logTable);
      forall a: byte | a != 0 ensures logTable[a as int] == Log(a) {
        assert ExpTable()[Log(a)] == a;
      }
    }

    static method FillExpTable(expTable: array<byte>, ghost p: seq<byte>)
      requires expTable.Length == 256 && SatisfiesRecurrence(p)
      modifies expTable
      ensures expTable[..] == p
    {
      for i := 0 to 8
        invariant expTable[..i] == p[..i]
      {
        expTable[i] := 1 << i;
      }
      for i := 8 to 256
        invariant expTable[..i] == p[..i]
      {
        assert RecursAt(p, i);
        expTable[i] := expTable[i - 4] ^ expTable[i - 5] ^ expTable[i - 6] ^ expTable[i - 8];
      }
    }

    static method FillLogTable(expTable: array<byte>, logTable: array<int>)
      requires expTable.Length == 256 && logTable.Length == 256 && expTable as object != logTable
      requires forall j, k :: 0 <= j < k < ORDER ==> expTable[j] as int != expTable[k] as int
      modifies logTable
      ensures forall k :: 0 <= k < ORDER ==> logTable[expTable[k] as int] == k
    {
      for i := 0 to 255
        invariant forall k :: 0 <= k < i ==> logTable[expTable[k] as int] == k
      {
        logTable[expTable[i] as int] := i;
      }
    }

    /** The logarithm of n; the encoder throws for zero. */
    method Glog(n: byte) returns (r: Option<int>)
      requires Valid()
      ensures r == if n == 0 then None else Some(Log(n))
    {
      if n < 1 {
        return None;
      }
      return Some(logTable[n as int]);
    }

    /** alpha^n for any integer n, by stepping n into the table in strides of 255. */
    method Gexp(exponent: int) returns (r: byte)
      requires Valid()
      ensures r == Exp(exponent)
    {
      var n := exponent;
      while n < 0
        invariant n < 256 || n == exponent
        invariant n % ORDER == exponent % ORDER
      {
        n := n + 255;
      }
      while n >= 256
        invariant 0 <= n
        invariant n % ORDER == exponent % ORDER
      {
        n := n - 255;
      }
      r := expTable[..][n];
    }
  }

  /** What the exponent table should hold. */
  ghost function ExpTable(): (s: seq<byte>)
    ensures |s| == 256 && forall i :: 0 <= i < 256 ==> s[i] == Exp(i)
  {
    seq(256, i => Exp(i))
  }

  ghost predicate SatisfiesRecurrence(p: seq<byte>) {
    && |p| == 256
    && (forall i :: 0 <= i < 8 ==> p[i] == 1 << i)
    && (forall i :: 8 <= i < 256 ==> RecursAt(p, i))
  }

  ghost predicate RecursAt(p: seq<byte>, i: nat)
    requires 8 <= i < |p|
  {
    p[i] == p[i - 4] ^ p[i - 5] ^ p[i - 6] ^ p[i - 8]
  }

  lemma TableRecursAt(p: seq<byte>, i: nat)
    requires p == ExpTable() && 8 <= i < |p|
    ensures RecursAt(p, i)
  {
    hide Times, Exp;
    ReducingPolynomial(i);
    ExpIsTimes(i);
    ExpIsTimes(i - 4);
    ExpIsTimes(i - 5);
    ExpIsTimes(i - 6);
    ExpIsTimes(i - 8);
  }

  lemma ExpIsTimes(i: nat)
    ensures Exp(i) == Times(i, 1)
  {
    hide Times;
    TimesWraps(i, 1);
  }

  lemma ExpTableRecurrence()
    ensures SatisfiesRecurrence(ExpTable())
    ensures forall j, k :: 0 <= j < k < ORDER ==> ExpTable()[j] as int != ExpTable()[k] as int
  {
    var p := ExpTable();
    forall i | 0 <= i < 8 ensures p[i] == 1 << i {
      FirstPowers(i);
    }
    forall i | 8 <= i < 256 ensures RecursAt(p, i) {
      TableRecursAt(p, i);
    }
    forall j, k | 0 <= j < k < ORDER ensures p[j] as int != p[k] as int {
      if p[j] as int == p[k] as int {
        AsIntInjective(p[j], p[k]);
        ExpInjective(j, k);
      }
    }
  }

  lemma FirstPowers(i: nat)
    requires i < 8
    ensures (1 as byte) << i == Exp(i)
  {
    assert Times(1, 1) == 2;
    assert Times(2, 1) == 4;
    assert Times(3, 1) == 8;
    assert Times(4, 1) == 16;
    assert Times(5, 1) == 32;
    assert Times(6, 1) == 64;
    assert Times(7, 1) == 128;
  }
}
