/** The Electrum status of a scripthash: the digest of its sorted "tx_hash:height:" entries. */
module StatusHash {
  import opened Prelude

  /** A history entry as it arrives: either field may be missing or of the wrong type. */
  datatype Entry = Entry(txHash: Option<string>, height: Option<int>) {
    function GetKey(): Key {
      Key(height.GetOr(0), txHash.GetOr(""))
    }
  }

  datatype Key = Key(height: int, hash: string)

  // ----- the order

  predicate StringLe(a: string, b: string) {
    a == "" || (b != "" && (a[0] < b[0] || (a[0] == b[0] && StringLe(a[1..], b[1..]))))
  }

  predicate KeyLe(a: Key, b: Key) {
    a.height < b.height || (a.height == b.height && StringLe(a.hash, b.hash))
  }

  lemma {:induction false} StringLeTotal(a: string, b: string)
    ensures StringLe(a, b) || StringLe(b, a)
    ensures StringLe(a, b) && StringLe(b, a) ==> a == b
  {
    if a != "" && b != "" && a[0] == b[0] {
      StringLeTotal(a[1..], b[1..]);
      assert a == [a[0]] + a[1..] && b == [b[0]] + b[1..];
    }
  }

  lemma {:induction false} StringLeTransitive(a: string, b: string, c: string)
    requires StringLe(a, b) && StringLe(b, c)
    ensures StringLe(a, c)
  {
    if a != "" && a[0] == b[0] == c[0] {
      StringLeTransitive(a[1..], b[1..], c[1..]);
    }
  }

  /** a is a prefix of b, or smaller where they first differ. */
  ghost predicate Lexicographic(a: string, b: string) {
    a <= b || exists k :: DiffersAt(a, b, k)
  }

  predicate DiffersAt(a: string, b: string, k: int) {
    0 <= k < |a| && k < |b| && a[..k] == b[..k] && a[k] < b[k]
  }

  lemma {:induction false} StringLeIsLexicographic(a: string, b: string)
    ensures StringLe(a, b) <==> Lexicographic(a, b)
  {
    if a != "" && b != "" {
      if a[0] == b[0] {
        StringLeIsLexicographic(a[1..], b[1..]);
        if k :| DiffersAt(a[1..], b[1..], k) {
          assert a[..k + 1] == [a[0]] + a[1..][..k] && b[..k + 1] == [b[0]] + b[1..][..k];
          assert DiffersAt(a, b, k + 1);
        }
        if k :| DiffersAt(a, b, k) {
          assert k > 0 && a[1..][..k - 1] == a[..k][1..] && b[1..][..k - 1] == b[..k][1..];
          assert DiffersAt(a[1..], b[1..], k - 1);
        }
        assert a <= b <==> a[1..] <= b[1..];
      } else if a[0] < b[0] {
        assert DiffersAt(a, b, 0);
      } else if k :| DiffersAt(a, b, k) && k > 0 {
        SameStart(a, b, k);
      }
    }
  }

  lemma SameStart(a: string, b: string, k: int)
    requires DiffersAt(a, b, k) && k > 0
    ensures a[0] == b[0]
  {
    assert a[..k][0] == b[..k][0];
  }

  predicate Sorted(keys: seq<Key>) {
    forall i, j :: 0 <= i < j < |keys| ==> KeyLe(keys[i], keys[j])
  }

  /** The order in which a history is hashed depends on its contents alone. */
  lemma {:induction false} SortedUnique(s: seq<Key>, t: seq<Key>)
    requires Sorted(s) && Sorted(t) && multiset(s) == multiset(t)
    ensures s == t
  {
    hide Sorted, KeyLe;
    assert |s| == |multiset(s)| == |multiset(t)| == |t|;
    if s != [] {
      assert s[0] in multiset(t) && t[0] in multiset(s);
      SmallestFirst(s, t[0]);
      SmallestFirst(t, s[0]);
      KeyLeAntisymmetric(s[0], t[0]);
      WithoutFirst(s);
      WithoutFirst(t);
      SortedUnique(s[1..], t[1..]);
    }
  }

  lemma SmallestFirst(s: seq<Key>, k: Key)
    requires Sorted(s) && k in s
    ensures KeyLe(s[0], k)
  {
    StringLeTotal(k.hash, k.hash);
  }

  lemma KeyLeAntisymmetric(k: Key, l: Key)
    requires KeyLe(k, l) && KeyLe(l, k)
    ensures k == l
  {
    StringLeTotal(k.hash, l.hash);
  }

  lemma WithoutFirst(s: seq<Key>)
    requires Sorted(s) && s != []
    ensures Sorted(s[1..]) && s == [s[0]] + s[1..]
    ensures multiset(s[1..]) == multiset(s) - multiset{s[0]}
  {
    hide KeyLe;
    assert s == [s[0]] + s[1..];
  }

  // ----- the text

  function Digit(d: nat): char
    requires d < 10
  {
    ('0' as int + d) as char
  }

  function DecimalNat(n: nat): string {
    if n < 10 then [Digit(n)] else DecimalNat(n / 10) + [Digit(n % 10)]
  }

  function Decimal(n: int): string {
    if n < 0 then "-" + DecimalNat(-n) else DecimalNat(n)
  }

  function Printed(k: Key): string {
    k.hash + ":" + Decimal(k.height) + ":"
  }

  function Status(keys: seq<Key>): string {
    if keys == [] then "" else Status(keys[..|keys| - 1]) + Printed(keys[|keys| - 1])
  }

  /** The number that a text of digits stands for. */
  function NumberOf(s: string): int {
    if s == "" then 0 else 10 * NumberOf(s[..|s| - 1]) + (s[|s| - 1] as int - 48)
  }

  /** Heights are printed in decimal, without leading zeros. */
  lemma {:induction false} DecimalReads(n: nat)
    ensures NumberOf(DecimalNat(n)) == n && (n > 0 ==> DecimalNat(n)[0] != '0')
    ensures Decimal(n) == DecimalNat(n) && (n > 0 ==> Decimal(0 - n) == "-" + DecimalNat(n))
  {
    DecimalNatText(n);
    if n >= 10 {
      DecimalReads(n / 10);
      DecimalNatText(n / 10);
      var s := DecimalNat(n);
      assert s[..|s| - 1] == DecimalNat(n / 10);
    } else {
      assert DecimalNat(n)[..0] == "";
    }
  }

  lemma {:induction false} DecimalNatText(n: nat)
    ensures DecimalNat(n) != "" && forall c <- DecimalNat(n) :: '0' <= c <= '9'
  {
    if n >= 10 {
      DecimalNatText(n / 10);
    }
  }

  lemma {:induction false} DecimalNatInjective(m: nat, n: nat)
    requires DecimalNat(m) == DecimalNat(n)
    ensures m == n
  {
    var s := DecimalNat(m);
    DecimalNatText(m / 10);
    DecimalNatText(n / 10);
    if m >= 10 && n >= 10 {
      assert s[..|s| - 1] == DecimalNat(m / 10) == DecimalNat(n / 10);
      DecimalNatInjective(m / 10, n / 10);
      assert s[|s| - 1] == Digit(m % 10) == Digit(n % 10);
    }
  }

  lemma DecimalStarts(n: int)
    ensures Decimal(n) != "" && (Decimal(n)[0] == '-' <==> n < 0)
    ensures n < 0 ==> Decimal(n)[1..] == DecimalNat(-n)
  {
    var d := DecimalNat(if n < 0 then -n else n);
    DecimalNatText(if n < 0 then -n else n);
    assert d[0] in d;
  }

  lemma DecimalInjective(m: int, n: int)
    requires Decimal(m) == Decimal(n)
    ensures m == n
  {
    DecimalStarts(m);
    DecimalStarts(n);
    DecimalNatInjective(if m < 0 then -m else m, if n < 0 then -n else n);
  }

  lemma DecimalHasNoColon(n: int)
    ensures ':' !in Decimal(n)
  {
    DecimalNatText(if n < 0 then -n else n);
  }

  lemma BeforeColon(a: string, x: string)
    requires ':' !in a
    ensures var s := a + ":" + x;
            && (s[0] == ':' <==> a == "")
            && s[1..] == if a == "" then x else a[1..] + ":" + x
    ensures a != "" ==> (a + ":" + x)[0] == a[0] && a == [a[0]] + a[1..]
  {
    assert a != "" ==> a[0] in a;
  }

  /** The first colon splits a text in one way only. */
  lemma {:induction false} FirstColon(a: string, x: string, b: string, y: string)
    requires ':' !in a && ':' !in b && a + ":" + x == b + ":" + y
    ensures a == b && x == y
  {
    BeforeColon(a, x);
    BeforeColon(b, y);
    if a != "" {
      FirstColon(a[1..], x, b[1..], y);
    }
  }

  lemma PrintedSplits(k: Key, x: string, l: Key, y: string)
    requires ':' !in k.hash && ':' !in l.hash && Printed(k) + x == Printed(l) + y
    ensures k == l && x == y
  {
    DecimalHasNoColon(k.height);
    DecimalHasNoColon(l.height);
    var p, q := Decimal(k.height) + ":" + x, Decimal(l.height) + ":" + y;
    assert Printed(k) + x == k.hash + ":" + p && Printed(l) + y == l.hash + ":" + q;
    FirstColon(k.hash, p, l.hash, q);
    FirstColon(Decimal(k.height), x, Decimal(l.height), y);
    DecimalInjective(k.height, l.height);
  }

  lemma {:induction false} StatusFirst(keys: seq<Key>)
    requires keys != []
    ensures Status(keys) == Printed(keys[0]) + Status(keys[1..])
  {
    hide Printed;
    var n := |keys| - 1;
    if n > 0 {
      StatusFirst(keys[..n]);
      assert keys[..n][1..] == keys[1..][..n - 1];
    } else {
      assert keys[..0] == [] && keys[1..] == [];
    }
  }

  ghost predicate ColonFree(keys: seq<Key>) {
    forall i :: 0 <= i < |keys| ==> ':' !in keys[i].hash
  }

  /** The text can be parsed back. */
  lemma {:induction false} StatusInjective(s: seq<Key>, t: seq<Key>)
    requires ColonFree(s) && ColonFree(t) && Status(s) == Status(t)
    ensures s == t
    decreases |s|
  {
    hide Status;
    NoStatus();
    if s != [] {
      StatusFirst(s);
    }
    if t != [] {
      StatusFirst(t);
    }
    if s != [] && t != [] {
      PrintedSplits(s[0], Status(s[1..]), t[0], Status(t[1..]));
      StatusInjective(s[1..], t[1..]);
      assert s == [s[0]] + s[1..] && t == [t[0]] + t[1..];
    }
  }

  lemma NoStatus()
    ensures Status([]) == ""
  {
  }

  // ----- the code

  function Keys(history: seq<Entry>): (keys: seq<Key>)
    ensures |keys| == |history| && forall i :: 0 <= i < |keys| ==> keys[i] == history[i].GetKey()
  {
    seq(|history|, i requires 0 <= i < |history| => history[i].GetKey())
  }

  /** The text that is digested. */
  ghost function StatusText(history: seq<Entry>): string {
    SortingExists(Keys(history));
    var s :| IsSorting(s, Keys(history));
    Status(s)
  }

  ghost predicate IsSorting(s: seq<Key>, keys: seq<Key>) {
    Sorted(s) && multiset(s) == multiset(keys)
  }

  lemma {:induction false} SortingExists(keys: seq<Key>)
    ensures exists s :: IsSorting(s, keys)
  {
    if keys == [] {
      assert IsSorting([], keys);
    } else {
      var n := |keys| - 1;
      SortingExists(keys[..n]);
      var t :| IsSorting(t, keys[..n]);
      var k := 0;
      while k < |t| && KeyLe(t[k], keys[n])
        invariant k <= |t| && forall j :: 0 <= j < k ==> KeyLe(t[j], keys[n])
      {
        k := k + 1;
      }
      Inserted(t, keys[n], k);
      assert keys == keys[..n] + [keys[n]];
      assert IsSorting(t[..k] + [keys[n]] + t[k..], keys);
    }
  }

  lemma Inserted(t: seq<Key>, x: Key, k: nat)
    requires Sorted(t) && k <= |t| && forall j :: 0 <= j < k ==> KeyLe(t[j], x)
    requires k < |t| ==> !KeyLe(t[k], x)
    ensures Sorted(t[..k] + [x] + t[k..])
    ensures multiset(t[..k] + [x] + t[k..]) == multiset(t) + multiset{x}
  {
    assert t == t[..k] + t[k..];
    if k < |t| {
      StringLeTotal(t[k].hash, x.hash);
      forall j | k <= j < |t| ensures KeyLe(x, t[j]) {
        if j > k && x.height == t[k].height == t[j].height {
          StringLeTransitive(x.hash, t[k].hash, t[j].hash);
        }
      }
    }
  }

  /** compute_status_hash; the digest is any function of the text. */
  method ComputeStatusHash(history: seq<Entry>, sha256: string -> string) returns (r: Option<string>)
    ensures r == if history == [] then None else Some(sha256(StatusText(history)))
  {
    if history == [] {
      return None;
    }
    var sorted: seq<Key> := [];
    for i := 0 to |history|
      invariant Sorted(sorted) && multiset(sorted) == multiset(Keys(history)[..i])
    {
      var x := history[i].GetKey();
      var k := 0;
      while k < |sorted| && KeyLe(sorted[k], x)
        invariant k <= |sorted| && forall j :: 0 <= j < k ==> KeyLe(sorted[j], x)
      {
        k := k + 1;
      }
      Inserted(sorted, x, k);
      assert Keys(history)[..i + 1] == Keys(history)[..i] + [x];
      sorted := sorted[..k] + [x] + sorted[k..];
    }
    assert Keys(history)[..|history|] == Keys(history);
    var status := "";
    for i := 0 to |sorted|
      invariant status == Status(sorted[..i])
    {
      assert sorted[..i + 1][..i] == sorted[..i];
      status := status + Printed(sorted[i]);
    }
    assert sorted[..|sorted|] == sorted;
    StatusTextIs(history, sorted);
    return Some(sha256(status));
  }

  lemma StatusTextIs(history: seq<Entry>, s: seq<Key>)
    requires IsSorting(s, Keys(history))
    ensures StatusText(history) == Status(s)
  {
    SortingExists(Keys(history));
    var t :| IsSorting(t, Keys(history)) && StatusText(history) == Status(t);
    SortedUnique(s, t);
  }

  /** The text is that of the entries in the order of height and then hash, each as its hash and its height with a colon
      behind both; a missing height counts as 0 and a missing hash as empty. */
  lemma StatusTextIsSorted(history: seq<Entry>, s: seq<Key>)
    requires multiset(s) == multiset(Keys(history))
    requires forall i, j :: 0 <= i < j < |s| ==>
               s[i].height < s[j].height || (s[i].height == s[j].height && Lexicographic(s[i].hash, s[j].hash))
    ensures StatusText(history) == Status(s) && Status([]) == ""
    ensures s != [] ==> Status(s) == s[0].hash + ":" + Decimal(s[0].height) + ":" + Status(s[1..])
    ensures forall i :: 0 <= i < |history| ==>
              Keys(history)[i].height == (match history[i].height case Some(h) => h case None => 0)
              && Keys(history)[i].hash == (match history[i].txHash case Some(t) => t case None => "")
  {
    hide Status, StatusText, StringLe, Decimal;
    forall i, j | 0 <= i < j < |s| ensures KeyLe(s[i], s[j]) {
      StringLeIsLexicographic(s[i].hash, s[j].hash);
    }
    hide KeyLe, Lexicographic;
    StatusTextIs(history, s);
    NoStatus();
    if s != [] {
      StatusFirst(s);
    }
  }

  /** Two histories of colon-free transaction hashes have the same status text exactly when they hold
      the same entries equally often, in any order. */
  lemma StatusTextFaithful(g: seq<Entry>, h: seq<Entry>)
    requires ColonFree(Keys(g)) && ColonFree(Keys(h))
    ensures StatusText(g) == StatusText(h) <==> multiset(Keys(g)) == multiset(Keys(h))
  {
    SortingExists(Keys(g));
    SortingExists(Keys(h));
    var s: seq<Key> :| IsSorting(s, Keys(g));
    var t: seq<Key> :| IsSorting(t, Keys(h));
    StatusTextIs(g, s);
    StatusTextIs(h, t);
    if StatusText(g) == StatusText(h) {
      forall i | 0 <= i < |s| ensures ':' !in s[i].hash {
        assert s[i] in multiset(Keys(g));
      }
      forall i | 0 <= i < |t| ensures ':' !in t[i].hash {
        assert t[i] in multiset(Keys(h));
      }
      StatusInjective(s, t);
    }
    if multiset(Keys(g)) == multiset(Keys(h)) {
      SortedUnique(s, t);
    }
  }

  // ----- which histories share their text

  /** Heights are signed 64-bit numbers. */
  predicate Heights64(keys: seq<Key>) {
    forall i :: 0 <= i < |keys| ==> InI64(keys[i].height)
  }

  predicate InI64(n: int) {
    -0x8000_0000_0000_0000 <= n < 0x8000_0000_0000_0000
  }

  /** Another history has the same status text. */
  ghost predicate SharesText(h: seq<Entry>) {
    exists g :: Heights64(Keys(g)) && StatusText(g) == StatusText(h) && multiset(Keys(g)) != multiset(Keys(h))
  }

  /** The hash reads as "hash:height:hash", the height printed as the code prints heights, and the two entries
      this makes are in the order of the sort. */
  ghost predicate ReadsAsTwo(k: Key) {
    exists first: Key, rest: string :: SplitsInto(k, first, rest)
  }

  ghost predicate SplitsInto(k: Key, first: Key, rest: string) {
    && k.hash == first.hash + ":" + Decimal(first.height) + ":" + rest && InI64(first.height)
    && KeyLe(first, Key(k.height, rest))
  }

  lemma EndsInColon(x: string, a: string, y: string)
    requires ':' !in a && x + ":" + a == y + ":"
    ensures a == "" && x == y
  {
    var s := x + ":" + a;
    assert s[|s| - 1] == ':' && s[..|s| - 1] == y;
    if a != "" {
      LastIn(x + ":", a);
    }
  }

  lemma LastIn(x: string, a: string)
    requires a != ""
    ensures (x + a)[|x + a| - 1] in a
  {
    assert (x + a)[|x + a| - 1] == a[|a| - 1];
  }

  /** The last colon splits a text in one way only. */
  lemma {:induction false} LastColon(x: string, a: string, y: string, b: string)
    requires ':' !in a && ':' !in b && x + ":" + a == y + ":" + b
    ensures a == b && x == y
  {
    var s := x + ":" + a;
    if a == "" {
      EndsInColon(y, b, x);
    } else if b == "" {
      EndsInColon(x, a, y);
    } else {
      var a', b' := a[..|a| - 1], b[..|b| - 1];
      assert s[..|s| - 1] == x + ":" + a' == y + ":" + b';
      LastColon(x, a', y, b');
      assert a == a' + [s[|s| - 1]] && b == b' + [s[|s| - 1]];
    }
  }

  lemma PrintedInjective(k: Key, l: Key)
    requires Printed(k) == Printed(l)
    ensures k == l
  {
    var p, q := Printed(k), Printed(l);
    assert p[..|p| - 1] == k.hash + ":" + Decimal(k.height) && q[..|q| - 1] == l.hash + ":" + Decimal(l.height);
    DecimalHasNoColon(k.height);
    DecimalHasNoColon(l.height);
    LastColon(k.hash, Decimal(k.height), l.hash, Decimal(l.height));
    DecimalInjective(k.height, l.height);
  }

  /** A status is one printed entry: everything before the last height is its hash. */
  function AsOne(keys: seq<Key>): Key
    requires keys != []
  {
    var n := |keys| - 1;
    Key(keys[n].height, Status(keys[..n]) + keys[n].hash)
  }

  lemma StatusAsOne(keys: seq<Key>)
    requires keys != []
    ensures Status(keys) == Printed(AsOne(keys)) == Status([AsOne(keys)])
  {
    StatusOfOne(AsOne(keys));
  }

  lemma StatusOfOne(k: Key)
    ensures Status([k]) == Printed(k)
  {
    assert [k][..0] == [];
    assert "" + Printed(k) == Printed(k);
  }

  lemma {:induction false} StringLePrefix(a: string, b: string)
    ensures StringLe(a, a + b)
  {
    if a != "" {
      StringLePrefix(a[1..], b);
      assert (a + b)[1..] == a[1..] + b;
    }
  }

  /** Two or more entries in order: the first, and the rest read as one entry, are in order too. */
  lemma OrderOfRest(t: seq<Key>)
    requires Sorted(t) && |t| >= 2
    ensures KeyLe(t[0], AsOne(t[1..]))
  {
    var n := |t| - 1;
    StringLeTotal(t[n].hash, t[n].hash);
    assert KeyLe(t[0], t[1]) && KeyLe(t[1], t[n]) && KeyLe(t[0], t[n]);
    RestStarts(t[1..]);
    if t[0].height == t[n].height {
      StringLeTransitive(t[0].hash, t[1].hash, AsOne(t[1..]).hash);
    }
  }

  lemma RestStarts(rest: seq<Key>)
    requires rest != []
    ensures StringLe(rest[0].hash, AsOne(rest).hash) && AsOne(rest).height == rest[|rest| - 1].height
  {
    hide Status, StringLe, Printed, Decimal;
    var n := |rest| - 1;
    if n == 0 {
      NoStatus();
      assert rest[..0] == [];
      assert AsOne(rest).hash == rest[0].hash + "";
      StringLePrefix(rest[0].hash, "");
    } else {
      StatusFirst(rest[..n]);
      var height, others := ":" + Decimal(rest[0].height) + ":", Status(rest[..n][1..]);
      Regrouped(rest[0], height, others, rest[n].hash);
      StringLePrefix(rest[0].hash, height + others + rest[n].hash);
    }
  }

  lemma Regrouped(k: Key, height: string, others: string, last: string)
    requires height == ":" + Decimal(k.height) + ":"
    ensures Printed(k) + others + last == k.hash + (height + others + last)
  {
    hide Decimal;
    assert Printed(k) == k.hash + height;
  }

  lemma AsOneSplits(t: seq<Key>)
    requires Sorted(t) && |t| >= 2 && Heights64(t)
    ensures SplitsInto(AsOne(t), t[0], AsOne(t[1..]).hash)
  {
    hide Status, KeyLe, Decimal;
    var n := |t| - 1;
    OrderOfRest(t);
    StatusFirst(t[..n]);
    assert t[..n][1..] == t[1..][..n - 1] && t[..n][0] == t[0];
    assert t[1..][n - 1] == t[n];
  }

  lemma ReadsBack(t: seq<Key>, k: Key)
    requires t != [] && Status(t) == Printed(k)
    ensures AsOne(t) == k && (|t| == 1 ==> t == [k])
  {
    hide Status, Printed;
    StatusAsOne(t);
    PrintedInjective(AsOne(t), k);
    NoStatus();
    assert |t| == 1 ==> t[..0] == [] && AsOne(t).hash == "" + t[0].hash == t[0].hash;
  }

  lemma SharedByOne(h: seq<Entry>, k: Key, g: seq<Entry>)
    requires Keys(h) == [k] && Heights64(Keys(g)) && StatusText(g) == StatusText(h) && multiset(Keys(g)) != multiset(Keys(h))
    ensures ReadsAsTwo(k)
  {
    hide Status, Printed;
    SortingExists(Keys(g));
    var t: seq<Key> :| IsSorting(t, Keys(g));
    StatusTextIs(g, t);
    StatusTextIs(h, [k]);
    StatusOfOne(k);
    NoStatus();
    PrintedNotEmpty(k);
    ReadsBack(t, k);
    if |t| >= 2 {
      forall i | 0 <= i < |t| ensures InI64(t[i].height) {
        assert t[i] in multiset(Keys(g));
      }
      AsOneSplits(t);
    }
  }

  lemma PrintedNotEmpty(k: Key)
    ensures Printed(k) != ""
  {
  }

  function Unkeyed(keys: seq<Key>): (h: seq<Entry>)
    ensures Keys(h) == keys
  {
    seq(|keys|, i requires 0 <= i < |keys| => Entry(Some(keys[i].hash), Some(keys[i].height)))
  }

  /** Exactly which histories share their text with another one: all of two or more entries, since their text
      also reads as one entry, and those of one entry whose hash reads as two entries in order. */
  lemma SharesTextExactly(h: seq<Entry>)
    requires Heights64(Keys(h))
    ensures SharesText(h) <==> |h| >= 2 || (|h| == 1 && ReadsAsTwo(h[0].GetKey()))
  {
    if |h| >= 2 {
      ManyShare(h);
    } else if |h| == 1 {
      assert Keys(h) == [h[0].GetKey()];
      if ReadsAsTwo(h[0].GetKey()) {
        TwoShare(h, h[0].GetKey());
      }
      if SharesText(h) {
        var g :| Heights64(Keys(g)) && StatusText(g) == StatusText(h) && multiset(Keys(g)) != multiset(Keys(h));
        SharedByOne(h, h[0].GetKey(), g);
      }
    } else {
      forall g | StatusText(g) == StatusText(h) ensures multiset(Keys(g)) == multiset(Keys(h)) {
        EmptyTextIsEmpty(g, h);
      }
    }
  }

  lemma ManyShare(h: seq<Entry>)
    requires Heights64(Keys(h)) && |h| >= 2
    ensures SharesText(h)
  {
    hide Status;
    SortingExists(Keys(h));
    var s: seq<Key> :| IsSorting(s, Keys(h));
    StatusTextIs(h, s);
    assert |multiset(s)| == |s| && |multiset(Keys(h))| == |h|;
    StatusAsOne(s);
    assert s[|s| - 1] in multiset(Keys(h));
    SharedVia(h, [AsOne(s)]);
  }

  lemma TwoShare(h: seq<Entry>, k: Key)
    requires Keys(h) == [k] && Heights64(Keys(h)) && ReadsAsTwo(k)
    ensures SharesText(h)
  {
    hide Status, Decimal, StringLe;
    var first: Key, rest: string :| SplitsInto(k, first, rest);
    var last := Key(k.height, rest);
    assert Keys(h)[0] == k;
    StatusTextIs(h, [k]);
    StatusOfOne(k);
    StatusOfTwo(first, last);
    assert Printed(k) == Printed(first) + Printed(last);
    hide Printed;
    SharedVia(h, [first, last]);
  }

  lemma StatusOfTwo(first: Key, last: Key)
    ensures Status([first, last]) == Printed(first) + Printed(last)
  {
    hide Status;
    StatusFirst([first, last]);
    assert [first, last][1..] == [last];
    StatusOfOne(last);
  }

  lemma SharedVia(h: seq<Entry>, t: seq<Key>)
    requires Sorted(t) && Heights64(t) && Status(t) == StatusText(h) && |t| != |h|
    ensures SharesText(h)
  {
    var g := Unkeyed(t);
    assert Keys(g) == t && IsSorting(t, Keys(g));
    StatusTextIs(g, t);
    assert |multiset(Keys(g))| == |t| && |multiset(Keys(h))| == |h|;
  }

  lemma EmptyTextIsEmpty(g: seq<Entry>, h: seq<Entry>)
    requires h == [] && StatusText(g) == StatusText(h)
    ensures multiset(Keys(g)) == multiset(Keys(h))
  {
    StatusTextIs(h, []);
    SortingExists(Keys(g));
    var t: seq<Key> :| IsSorting(t, Keys(g));
    StatusTextIs(g, t);
    if t != [] {
      StatusFirst(t);
    }
  }

  /** With a colon inside a hash the texts of different histories can coincide. */
  lemma ColonsConfuse()
    ensures var g, h := [Entry(Some("a:0:b"), Some(0))], [Entry(Some("a"), Some(0)), Entry(Some("b"), Some(0))];
            StatusText(g) == StatusText(h) && multiset(Keys(g)) != multiset(Keys(h))
  {
    var g, h := [Entry(Some("a:0:b"), Some(0))], [Entry(Some("a"), Some(0)), Entry(Some("b"), Some(0))];
    var s, t := [Key(0, "a:0:b")], [Key(0, "a"), Key(0, "b")];
    assert Keys(g) == s && Keys(h) == t;
    StatusTextIs(g, s);
    StatusTextIs(h, t);
    assert Decimal(0) == "0";
    assert t[..1] == [t[0]] && t[..0] == [] && s[..0] == [];
    assert Status([t[0]]) == "a:0:";
    assert Status(t) == "a:0:" + "b:0:";
    assert Status(s) == "a:0:b:0:";
    assert |multiset(s)| == 1 && |multiset(t)| == 2;
  }
}
