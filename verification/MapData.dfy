/** Placing the codewords in the symbol (section 7.7.3 of ISO/IEC 18004:2015): the two-column
    zig-zag of mapData, and the reader that walks it back. */
module MapData {
  import opened Prelude
  import opened Bits

  type grid = seq<seq<Option<bool>>>

  predicate IsSize(n: nat) {
    n >= 21 && n % 4 == 1
  }

  ghost predicate IsGrid(g: grid, n: nat) {
    |g| == n && forall r :: 0 <= r < n ==> |g[r]| == n
  }

  // ----- the path

  /** The right-hand column of pair p; the pairs skip column 6. */
  function ColumnOf(n: nat, p: nat): int {
    if n - 1 - 2 * p > 6 then n - 1 - 2 * p else n - 2 - 2 * p
  }

  /** Step s of pair p: upwards in even pairs, downwards in odd ones. */
  function RowOf(n: nat, p: nat, s: nat): int {
    if p % 2 == 0 then n - 1 - s else s
  }

  function Pairs(n: nat): nat {
    n / 2
  }

  /** How many steps come before pair p. */
  function PairStart(n: nat, p: nat): nat {
    if p == 0 then 0 else PairStart(n, p - 1) + 2 * n
  }

  function PathLength(n: nat): nat
    requires n > 0
  {
    PairStart(n, Pairs(n))
  }

  /** The pair that step k belongs to. */
  function PairAt(n: nat, k: nat): nat
    requires n > 0
  {
    if k < 2 * n then 0 else 1 + PairAt(n, k - 2 * n)
  }

  function CellOf(n: nat, p: nat, x: nat): (int, int) {
    (RowOf(n, p, x / 2), ColumnOf(n, p) - x % 2)
  }

  /** The k-th module of the zig-zag, as row and column. */
  function CellAt(n: nat, k: nat): (int, int)
    requires n > 0
  {
    StepInPair(n, k);
    CellOf(n, PairAt(n, k), k - PairStart(n, PairAt(n, k)))
  }

  /** The pair that reaches a column. */
  function PairOf(n: nat, col: int): int {
    (if col > 6 then n - 1 - col else n - 2 - col) / 2
  }

  /** When the zig-zag visits a module outside column 6. */
  function VisitOf(n: nat, row: int, col: int): int
    requires OnPath(n, row, col)
  {
    ColumnInPair(n, col);
    var p := PairOf(n, col);
    PairStart(n, p) + 2 * RowOf(n, p, row) + ColumnOf(n, p) - col
  }

  predicate OnPath(n: nat, row: int, col: int) {
    IsSize(n) && 0 <= row < n && 0 <= col < n && col != 6
  }

  lemma {:induction false} PairAtStart(n: nat, p: nat, x: nat)
    requires x < 2 * n
    ensures PairAt(n, PairStart(n, p) + x) == p
  {
    if p > 0 {
      PairAtStart(n, p - 1, x);
    }
  }

  lemma {:induction false} StepInPair(n: nat, k: nat)
    requires n > 0
    ensures PairStart(n, PairAt(n, k)) <= k < PairStart(n, PairAt(n, k)) + 2 * n
  {
    if k >= 2 * n {
      StepInPair(n, k - 2 * n);
    }
  }

  lemma {:induction false} PairStartMonotone(n: nat, p: nat, q: nat)
    requires p <= q
    ensures PairStart(n, p) <= PairStart(n, q)
  {
    if p < q {
      PairStartMonotone(n, p, q - 1);
    }
  }

  lemma CellOfStep(n: nat, p: nat, s: nat, c: nat)
    requires s < n && c < 2
    ensures CellAt(n, PairStart(n, p) + 2 * s + c) == (RowOf(n, p, s), ColumnOf(n, p) - c)
  {
    hide RowOf, ColumnOf, PairStart, PairAt;
    var x := 2 * s + c;
    PairAtStart(n, p, x);
    assert x / 2 == s && x % 2 == c;
  }

  lemma ColumnInPair(n: nat, col: int)
    requires IsSize(n) && 0 <= col < n && col != 6
    ensures 0 <= PairOf(n, col) < Pairs(n)
    ensures ColumnOf(n, PairOf(n, col)) - 1 <= col <= ColumnOf(n, PairOf(n, col))
  {
  }

  /** Every module outside column 6 is visited, at the moment VisitOf names. */
  lemma VisitedOnce(n: nat, row: int, col: int)
    requires OnPath(n, row, col)
    ensures 0 <= VisitOf(n, row, col) < PathLength(n)
    ensures CellAt(n, VisitOf(n, row, col)) == (row, col)
  {
    hide PairStart, CellAt, ColumnOf, PairOf;
    ColumnInPair(n, col);
    var p := PairOf(n, col);
    var s, c := RowOf(n, p, row), ColumnOf(n, p) - col;
    CellOfStep(n, p, s, c);
    PairStartMonotone(n, p + 1, Pairs(n));
    NextPair(n, p);
  }

  lemma NextPair(n: nat, p: nat)
    ensures PairStart(n, p + 1) == PairStart(n, p) + 2 * n && PairStart(n, 0) == 0
  {
  }

  /** Every step lands on a module outside column 6, and no other step lands there. */
  lemma StepLands(n: nat, k: nat)
    requires IsSize(n) && k < PathLength(n)
    ensures var (row, col) := CellAt(n, k); OnPath(n, row, col) && VisitOf(n, row, col) == k
  {
    hide PairStart, PairAt, ColumnOf, PairOf, RowOf;
    var p := PairAt(n, k);
    StepInPair(n, k);
    if p >= Pairs(n) {
      PairStartMonotone(n, Pairs(n), p);
    }
    var x := k - PairStart(n, p);
    PairLands(n, p, x / 2, x % 2);
  }

  lemma PairLands(n: nat, p: nat, s: nat, c: nat)
    requires IsSize(n) && p < Pairs(n) && s < n && c < 2
    ensures OnPath(n, RowOf(n, p, s), ColumnOf(n, p) - c)
    ensures PairOf(n, ColumnOf(n, p) - c) == p && RowOf(n, p, RowOf(n, p, s)) == s
  {
    ColumnLands(n, p, c);
  }

  lemma ColumnLands(n: nat, p: nat, c: nat)
    requires IsSize(n) && p < Pairs(n) && c < 2
    ensures 0 <= ColumnOf(n, p) - c < n && ColumnOf(n, p) - c != 6
    ensures PairOf(n, ColumnOf(n, p) - c) == p
  {
    var t := n / 4;
    assert n == 4 * t + 1 && p < 2 * t;
    assert (2 * p + c) / 2 == p;
    if 2 * t - p > 3 {
      assert ColumnOf(n, p) - c == 4 * t - 2 * p - c > 6;
    } else {
      assert ColumnOf(n, p) - c == 4 * t - 1 - 2 * p - c < 6;
    }
  }

  // ----- the path, step by step

  lemma {:induction false} PairStartIs(n: nat, p: nat)
    ensures PairStart(n, p) == p * (2 * n)
  {
    if p > 0 {
      PairStartIs(n, p - 1);
    }
  }

  /** Step x of pair p. */
  lemma StepOfPair(n: nat, p: nat, x: nat)
    requires x < 2 * n
    ensures n > 0 && CellAt(n, p * (2 * n) + x) == (RowOf(n, p, x / 2), ColumnOf(n, p) - x % 2)
  {
    hide PairStart, PairAt, RowOf, ColumnOf;
    PairAtStart(n, p, x);
    PairStartIs(n, p);
  }

  lemma LengthIs(n: nat)
    requires IsSize(n)
    ensures PathLength(n) == n * (n - 1)
  {
    hide PairStart;
    PairStartIs(n, Pairs(n));
    assert 2 * Pairs(n) == n - 1;
    assert Pairs(n) * (2 * n) == (2 * Pairs(n)) * n;
  }

  /** What a reader does who knows no formula: start at the bottom right, go left and then right to the next row, upwards
      first, and at the edge turn round into the next two columns, without column 6. With n * (n - 1) steps in all, of
      which step x of pair p is number 2 * n * p + x, this fixes the whole path. */
  lemma ZigZag(n: nat, p: nat, x: nat)
    requires IsSize(n) && p < n / 2 && x < 2 * n && !(p == n / 2 - 1 && x == 2 * n - 1)
    ensures CellAt(n, 0) == (n - 1, n - 1) && PathLength(n) == n * (n - 1)
    ensures var k := p * (2 * n) + x;
            var (row, col) := CellAt(n, k);
            CellAt(n, k + 1) ==
            if x % 2 == 0 then (row, col - 1)
            else if row == (if p % 2 == 0 then 0 else n - 1) then (row, if col == 7 then 5 else col - 1)
            else (if p % 2 == 0 then row - 1 else row + 1, col + 1)
  {
    hide CellAt, PathLength;
    LengthIs(n);
    StepOfPair(n, 0, 0);
    StepOfPair(n, p, x);
    if x + 1 < 2 * n {
      StepOfPair(n, p, x + 1);
      InPair(n, p, x);
    } else {
      StepOfPair(n, p + 1, 0);
      assert (p + 1) * (2 * n) == p * (2 * n) + x + 1;
      NextColumns(n, p);
    }
  }

  lemma InPair(n: nat, p: nat, x: nat)
    requires x + 1 < 2 * n
    ensures x % 2 == 0 ==> (x + 1) / 2 == x / 2 && (x + 1) % 2 == 1
    ensures x % 2 == 1 ==> (x + 1) / 2 == x / 2 + 1 && (x + 1) % 2 == 0
    ensures x % 2 == 1 ==> RowOf(n, p, x / 2) != if p % 2 == 0 then 0 else n - 1
    ensures x % 2 == 1 ==> RowOf(n, p, x / 2 + 1) == if p % 2 == 0 then RowOf(n, p, x / 2) - 1 else RowOf(n, p, x / 2) + 1
  {
  }

  lemma NextColumns(n: nat, p: nat)
    requires IsSize(n) && p + 1 < n / 2
    ensures (2 * n - 1) / 2 == n - 1 && (2 * n - 1) % 2 == 1
    ensures RowOf(n, p, n - 1) == RowOf(n, p + 1, 0) == if p % 2 == 0 then 0 else n - 1
    ensures ColumnOf(n, p + 1) == if ColumnOf(n, p) - 1 == 7 then 5 else ColumnOf(n, p) - 2
  {
    assert n % 2 == 1;
  }

  // ----- what the symbol holds

  /** The data mask patterns (section 7.8.2), by pattern number. */
  predicate Mask(pattern: nat, i: int, j: int) {
    match pattern
    case 0 => (i + j) % 2 == 0
    case 1 => i % 2 == 0
    case 2 => j % 3 == 0
    case 3 => (i + j) % 3 == 0
    case 4 => (i / 2 + j / 3) % 2 == 0
    case 5 => (i * j) % 2 + (i * j) % 3 == 0
    case 6 => ((i * j) % 2 + (i * j) % 3) % 2 == 0
    case 7 => ((i * j) % 3 + (i + j) % 2) % 2 == 0
    case _ => false
  }

  /** Bit k of the data; light once the data is used up. */
  ghost predicate DataBit(data: seq<byte>, k: nat) {
    k < 8 * |data| && BytesBits(data)[k]
  }

  ghost predicate IsFree(n: nat, g: grid, k: nat)
    requires IsGrid(g, n) && IsSize(n) && k < PathLength(n)
  {
    StepLands(n, k);
    g[CellAt(n, k).0][CellAt(n, k).1].None?
  }

  /** How many modules the first k steps find empty. */
  ghost function FreeBefore(n: nat, g: grid, k: nat): nat
    requires IsGrid(g, n) && IsSize(n) && k <= PathLength(n)
  {
    if k == 0 then 0 else FreeBefore(n, g, k - 1) + if IsFree(n, g, k - 1) then 1 else 0
  }

  /** What module (row, col) holds when the first k steps of the zig-zag are done on g. */
  ghost function Placed(n: nat, g: grid, data: seq<byte>, pattern: nat, k: nat, row: nat, col: nat): Option<bool>
    requires IsSize(n) && IsGrid(g, n) && row < n && col < n
  {
    if g[row][col].Some? || col == 6 || VisitOf(n, row, col) >= k then g[row][col]
    else
      VisitedOnce(n, row, col);
      Some(DataBit(data, FreeBefore(n, g, VisitOf(n, row, col))) != Mask(pattern, row, col))
  }

  ghost predicate IsPlaced(n: nat, g: grid, h: grid, data: seq<byte>, pattern: nat, k: nat) {
    && IsSize(n) && IsGrid(g, n) && IsGrid(h, n)
    && forall row: nat, col: nat :: row < n && col < n ==> h[row][col] == Placed(n, g, data, pattern, k, row, col)
  }

  /** What a reader sees who walks the zig-zag over the modules g leaves free, and unmasks. */
  ghost function ReadBack(n: nat, g: grid, h: grid, pattern: nat, k: nat): seq<bool>
    requires IsSize(n) && IsGrid(g, n) && IsGrid(h, n) && k <= PathLength(n)
  {
    if k == 0 then []
    else
      StepLands(n, k - 1);
      var (row, col) := CellAt(n, k - 1);
      ReadBack(n, g, h, pattern, k - 1)
      + if IsFree(n, g, k - 1) then [(h[row][col] == Some(true)) != Mask(pattern, row, col)] else []
  }

  /** The reader gets the data bits in order, and light modules after them. */
  lemma {:induction false} ReadBackIsData(n: nat, g: grid, h: grid, data: seq<byte>, pattern: nat, k: nat)
    requires IsSize(n) && IsPlaced(n, g, h, data, pattern, PathLength(n)) && k <= PathLength(n)
    ensures |ReadBack(n, g, h, pattern, k)| == FreeBefore(n, g, k)
    ensures forall i :: 0 <= i < FreeBefore(n, g, k) ==>
              ReadBack(n, g, h, pattern, k)[i] == (i < 8 * |data| && BytesBits(data)[i])
  {
    hide DataBit, Mask, CellAt, VisitOf, PathLength, IsSize;
    DataBits(data);
    if k > 0 {
      ReadBackIsData(n, g, h, data, pattern, k - 1);
      StepLands(n, k - 1);
      var (row, col) := CellAt(n, k - 1);
      assert h[row][col] == Placed(n, g, data, pattern, PathLength(n), row, col);
    }
  }

  lemma DataBits(data: seq<byte>)
    ensures forall i: nat :: DataBit(data, i) == (i < 8 * |data| && BytesBits(data)[i])
  {
    hide BytesBits;
  }

  /** What mapData leaves as it was, and that it fills all the rest. */
  lemma FilledAroundPatterns(n: nat, g: grid, h: grid, data: seq<byte>, pattern: nat)
    requires IsSize(n) && IsPlaced(n, g, h, data, pattern, PathLength(n))
    ensures forall row: nat, col: nat :: row < n && col < n ==>
              if g[row][col].Some? || col == 6 then h[row][col] == g[row][col] else h[row][col].Some?
  {
    hide DataBit, Mask, PathLength, CellAt;
    forall row: nat, col: nat | row < n && col < n
      ensures if g[row][col].Some? || col == 6 then h[row][col] == g[row][col] else h[row][col].Some?
    {
      assert h[row][col] == Placed(n, g, data, pattern, PathLength(n), row, col);
      if col != 6 {
        VisitedOnce(n, row, col);
      }
    }
  }

  lemma Distributes(m: nat, a: nat, x: nat, j: nat)
    ensures (m * a + x) * j == m * (a * j) + x * j
  {
  }

  lemma MultiplesVanish(product: nat, rest: nat)
    ensures (2 * product + rest) % 2 == rest % 2 && (3 * product + rest) % 3 == rest % 3
  {
  }

  lemma ProductByTwo(i: nat, j: nat)
    ensures i * j % 2 == if i % 2 == 1 && j % 2 == 1 then 1 else 0
  {
    var a, x := i / 2, i % 2;
    Distributes(2, a, x, j);
    MultiplesVanish(a * j, x * j);
  }

  lemma ProductByThree(i: nat, j: nat)
    ensures i * j % 3 == if i % 3 == 0 || j % 3 == 0 then 0 else if i % 3 == j % 3 then 1 else 2
  {
    var a, x := i / 3, i % 3;
    Distributes(3, a, x, j);
    MultiplesVanish(a * j, x * j);
    TwiceByThree(j);
  }

  lemma TwiceByThree(j: nat)
    ensures 2 * j % 3 == if j % 3 == 0 then 0 else 3 - j % 3
  {
  }

  /** Which modules the patterns invert, from the remainders of row and column by 2, 3 and 4. */
  lemma MaskExactly(i: nat, j: nat)
    ensures Mask(0, i, j) <==> i % 2 == j % 2
    ensures Mask(1, i, j) <==> i % 2 == 0
    ensures Mask(2, i, j) <==> j % 3 == 0
    ensures Mask(3, i, j) <==> if i % 3 == 0 then j % 3 == 0 else j % 3 == 3 - i % 3
    ensures Mask(4, i, j) <==> (i % 4 < 2 <==> j % 6 < 3)
    ensures Mask(5, i, j) <==> (i % 2 == 0 || j % 2 == 0) && (i % 3 == 0 || j % 3 == 0)
    ensures Mask(6, i, j) <==> (i % 2 == 1 && j % 2 == 1 <==> i % 3 != 0 && j % 3 != 0 && i % 3 == j % 3)
    ensures Mask(7, i, j) <==> (i % 2 == j % 2 <==> !(i % 3 != 0 && j % 3 != 0 && i % 3 == j % 3))
    ensures forall pattern: nat :: pattern >= 8 ==> !Mask(pattern, i, j)
  {
    hide Mask;
    StripeMasks(i, j);
    SumMasks(i, j);
    HalvesMask(i, j);
    ProductMasks(i, j);
  }

  lemma SumMasks(i: nat, j: nat)
    ensures Mask(0, i, j) <==> i % 2 == j % 2
    ensures Mask(3, i, j) <==> if i % 3 == 0 then j % 3 == 0 else j % 3 == 3 - i % 3
  {
    assert i + j == 2 * (i / 2 + j / 2) + (i % 2 + j % 2) == 3 * (i / 3 + j / 3) + (i % 3 + j % 3);
    MultiplesVanish(i / 2 + j / 2, i % 2 + j % 2);
    MultiplesVanish(i / 3 + j / 3, i % 3 + j % 3);
    SmallSums(i % 2 + j % 2, i % 3 + j % 3);
    assert (Mask(0, i, j) <==> (i + j) % 2 == 0) && (Mask(3, i, j) <==> (i + j) % 3 == 0);
    hide Mask;
  }

  lemma SmallSums(two: nat, three: nat)
    requires two <= 2 && three <= 4
    ensures (two % 2 == 0 <==> two != 1) && (three % 3 == 0 <==> three == 0 || three == 3)
  {
  }

  lemma StripeMasks(i: nat, j: nat)
    ensures Mask(1, i, j) <==> i % 2 == 0
    ensures Mask(2, i, j) <==> j % 3 == 0
    ensures forall pattern: nat :: pattern >= 8 ==> !Mask(pattern, i, j)
  {
  }

  lemma HalvesMask(i: nat, j: nat)
    ensures Mask(4, i, j) <==> (i % 4 < 2 <==> j % 6 < 3)
  {
    assert i / 2 % 2 == (if i % 4 < 2 then 0 else 1);
    assert j / 3 % 2 == (if j % 6 < 3 then 0 else 1);
  }

  lemma ProductMasks(i: nat, j: nat)
    ensures Mask(5, i, j) <==> (i % 2 == 0 || j % 2 == 0) && (i % 3 == 0 || j % 3 == 0)
    ensures Mask(6, i, j) <==> (i % 2 == 1 && j % 2 == 1 <==> i % 3 != 0 && j % 3 != 0 && i % 3 == j % 3)
    ensures Mask(7, i, j) <==> (i % 2 == j % 2 <==> !(i % 3 != 0 && j % 3 != 0 && i % 3 == j % 3))
  {
    ProductByTwo(i, j);
    ProductByThree(i, j);
    SumMasks(i, j);
    MasksOf(i, j, i * j % 2, i * j % 3, (i + j) % 2);
    hide Mask;
  }

  lemma MasksOf(i: nat, j: nat, two: nat, three: nat, sum: nat)
    requires two == i * j % 2 && three == i * j % 3 && sum == (i + j) % 2
    ensures Mask(0, i, j) <==> sum == 0
    ensures Mask(5, i, j) <==> two == 0 && three == 0
    ensures Mask(6, i, j) <==> (two == 1 <==> three == 1)
    ensures Mask(7, i, j) <==> (sum == 0 <==> three != 1)
  {
  }

  // ----- mapData

  function GridOf(modules: array2<Option<bool>>): (g: grid)
    reads modules
    ensures |g| == modules.Length0
    ensures forall r :: 0 <= r < |g| ==> |g[r]| == modules.Length1 && forall c :: 0 <= c < |g[r]| ==> g[r][c] == modules[r, c]
  {
    seq(modules.Length0, r requires 0 <= r < modules.Length0 reads modules =>
      seq(modules.Length1, c requires 0 <= c < modules.Length1 reads modules => modules[r, c]))
  }

  lemma {:induction false} NothingPlaced(n: nat, g: grid, data: seq<byte>, pattern: nat)
    requires IsSize(n) && IsGrid(g, n)
    ensures IsPlaced(n, g, g, data, pattern, 0)
  {
    forall row: nat, col: nat | row < n && col < n
      ensures g[row][col] == Placed(n, g, data, pattern, 0, row, col)
    {
      if col != 6 {
        VisitedOnce(n, row, col);
      }
    }
  }

  /** Step k fills its own module, if it is free, and nothing else. */
  lemma StepPlaces(n: nat, g: grid, before: grid, after: grid, data: seq<byte>, pattern: nat, k: nat, row: nat, col: nat)
    requires IsPlaced(n, g, before, data, pattern, k) && k < PathLength(n) && IsGrid(after, n)
    requires CellAt(n, k) == (row, col) && row < n && col < n
    requires forall r: nat, c: nat :: r < n && c < n && (r != row || c != col) ==> after[r][c] == before[r][c]
    requires after[row][col] ==
             if IsFree(n, g, k) then Some(DataBit(data, FreeBefore(n, g, k)) != Mask(pattern, row, col)) else before[row][col]
    ensures IsPlaced(n, g, after, data, pattern, k + 1)
    ensures before[row][col] == g[row][col]
  {
    hide CellAt, VisitOf, DataBit, Mask, FreeBefore, PathLength, PairOf, ColumnOf, RowOf;
    StepLands(n, k);
    forall r: nat, c: nat | r < n && c < n
      ensures after[r][c] == Placed(n, g, data, pattern, k + 1, r, c)
    {
      assert before[r][c] == Placed(n, g, data, pattern, k, r, c);
      if c != 6 {
        VisitedOnce(n, r, c);
      }
    }
    assert before[row][col] == Placed(n, g, data, pattern, k, row, col);
  }

  /** The cursor into the data: the bit after the ones already placed. */
  ghost predicate Cursor(n: nat, g: grid, k: nat, byteIndex: int, bitIndex: int) {
    && IsSize(n) && IsGrid(g, n) && k <= PathLength(n)
    && 0 <= byteIndex && 0 <= bitIndex <= 7
    && 8 * byteIndex + 7 - bitIndex == FreeBefore(n, g, k)
  }

  /** The innermost body of mapData: one module, if it is still empty. */
  method PlaceModule(modules: array2<Option<bool>>, row: int, col: int, data: seq<byte>, maskPattern: nat,
                     byteIndex: int, bitIndex: int, ghost g: grid, ghost k: nat)
    returns (nextByte: int, nextBit: int)
    requires modules.Length0 == modules.Length1
    requires IsPlaced(modules.Length0, g, GridOf(modules), data, maskPattern, k)
    requires Cursor(modules.Length0, g, k, byteIndex, bitIndex)
    requires k < PathLength(modules.Length0) && CellAt(modules.Length0, k) == (row, col)
    modifies modules
    ensures IsPlaced(modules.Length0, g, GridOf(modules), data, maskPattern, k + 1)
    ensures Cursor(modules.Length0, g, k + 1, nextByte, nextBit)
  {
    hide CellAt, PathLength, Mask, Placed, OnPath, VisitOf;
    ghost var n, before := modules.Length0, GridOf(modules);
    nextByte, nextBit := byteIndex, bitIndex;
    CellInGrid(n, k);
    ghost var h := before[row := before[row][col :=
      if IsFree(n, g, k) then Some(DataBit(data, FreeBefore(n, g, k)) != Mask(maskPattern, row, col)) else before[row][col]]];
    StepPlaces(n, g, before, h, data, maskPattern, k, row, col);
    if modules[row, col] == None {
      var dark := false;
      if byteIndex < |data| {
        dark := BitOf(data[byteIndex], bitIndex);
        BytesBitsAt(data, 8 * byteIndex + 7 - bitIndex);
      }
      var mask := Mask(maskPattern, row, col);
      if mask {
        dark := !dark;
      }
      modules[row, col] := Some(dark);
      nextBit := nextBit - 1;
      if nextBit == -1 {
        nextByte := nextByte + 1;
        nextBit := 7;
      }
    }
    SameGrid(GridOf(modules), h, n);
  }

  lemma SameGrid(a: grid, b: grid, n: nat)
    requires IsGrid(a, n) && IsGrid(b, n) && forall r, c :: 0 <= r < n && 0 <= c < n ==> a[r][c] == b[r][c]
    ensures a == b
  {
    forall r | 0 <= r < n ensures a[r] == b[r] {
    }
  }

  /** mapData: throws for an unknown mask pattern, else runs the zig-zag to its end. */
  method MapData(modules: array2<Option<bool>>, data: seq<byte>, maskPattern: nat) returns (ok: bool)
    requires IsSize(modules.Length0) && modules.Length0 == modules.Length1
    modifies modules
    ensures ok <==> maskPattern < 8
    ensures !ok ==> GridOf(modules) == old(GridOf(modules))
    ensures ok ==>
      IsPlaced(modules.Length0, old(GridOf(modules)), GridOf(modules), data, maskPattern, PathLength(modules.Length0))
  {
    hide CellAt, PathLength, Mask, Placed, OnPath, VisitOf, IsPlaced, Cursor, FreeBefore;
    var n := modules.Length0;
    ghost var g := GridOf(modules);
    if maskPattern >= 8 {
      return false;
    }
    NothingPlaced(n, g, data, maskPattern);
    CursorStarts(n, g);
    PathLengthIs(n);
    var inc, row, bitIndex, byteIndex := -1, n - 1, 7, 0;
    var col := n - 1;
    ghost var p := 0;
    while col > 0
      invariant p <= Pairs(n)
      invariant col == (if n - 1 - 2 * p >= 6 then n - 1 - 2 * p else n - 2 - 2 * p)
      invariant row == RowOf(n, p, 0) && inc == if p % 2 == 0 then -1 else 1
      invariant IsPlaced(n, g, GridOf(modules), data, maskPattern, PairStart(n, p))
      invariant Cursor(n, g, PairStart(n, p), byteIndex, bitIndex)
    {
      if col == 6 {
        col := col - 1;
      }
      row, inc, byteIndex, bitIndex := MapPair(modules, row, col, inc, data, maskPattern, byteIndex, bitIndex, g, p);
      col := col - 2;
      p := p + 1;
      PairStartMonotone(n, p, Pairs(n));
    }
    assert p == Pairs(n);
    return true;
  }

  lemma CursorStarts(n: nat, g: grid)
    requires IsSize(n) && IsGrid(g, n)
    ensures Cursor(n, g, 0, 0, 7) && PairStart(n, 0) == 0
  {
  }

  /** The loop over the rows of one pair of columns. */
  method MapPair(modules: array2<Option<bool>>, startRow: int, col: int, startInc: int, data: seq<byte>, maskPattern: nat,
                 startByte: int, startBit: int, ghost g: grid, ghost p: nat)
    returns (row: int, inc: int, byteIndex: int, bitIndex: int)
    requires IsSize(modules.Length0) && modules.Length0 == modules.Length1
    requires p < Pairs(modules.Length0) && col == ColumnOf(modules.Length0, p)
    requires startRow == RowOf(modules.Length0, p, 0) && startInc == if p % 2 == 0 then -1 else 1
    requires IsPlaced(modules.Length0, g, GridOf(modules), data, maskPattern, PairStart(modules.Length0, p))
    requires Cursor(modules.Length0, g, PairStart(modules.Length0, p), startByte, startBit)
    modifies modules
    ensures IsPlaced(modules.Length0, g, GridOf(modules), data, maskPattern, PairStart(modules.Length0, p + 1))
    ensures Cursor(modules.Length0, g, PairStart(modules.Length0, p + 1), byteIndex, bitIndex)
    ensures row == RowOf(modules.Length0, p + 1, 0) && inc == -startInc
  {
    hide CellAt, PathLength, Mask, Placed, OnPath, VisitOf, IsPlaced, Cursor, FreeBefore, ColumnOf, PairStart;
    var n := modules.Length0;
    NextPair(n, p);
    PairStartMonotone(n, p + 1, Pairs(n));
    byteIndex, bitIndex := startByte, startBit;
    row, inc := startRow, startInc;
    ghost var s := 0;
    while true
      invariant s < n && row == RowOf(n, p, s) && inc == startInc
      invariant IsPlaced(n, g, GridOf(modules), data, maskPattern, PairStart(n, p) + 2 * s)
      invariant Cursor(n, g, PairStart(n, p) + 2 * s, byteIndex, bitIndex)
      decreases n - s
    {
      PathLengthIs(n);
      for c := 0 to 2
        invariant IsPlaced(n, g, GridOf(modules), data, maskPattern, PairStart(n, p) + 2 * s + c)
        invariant Cursor(n, g, PairStart(n, p) + 2 * s + c, byteIndex, bitIndex)
      {
        CellOfStep(n, p, s, c);
        byteIndex, bitIndex :=
          PlaceModule(modules, row, col - c, data, maskPattern, byteIndex, bitIndex, g, PairStart(n, p) + 2 * s + c);
      }
      row := row + inc;
      if row < 0 || n <= row {
        row := row - inc;
        inc := -inc;
        break;
      }
      s := s + 1;
    }
  }

  lemma PathLengthIs(n: nat)
    requires n > 0
    ensures PathLength(n) == PairStart(n, Pairs(n))
  {
  }

  /** (b >>> bitIndex) & 1 */
  function BitOf(b: byte, bitIndex: nat): (bit: bool)
    requires bitIndex < 8
    ensures bit == ByteBits(b)[7 - bitIndex]
  {
    GetBit(b, 7 - bitIndex);
    (b >> bitIndex) & 1 == 1
  }

  lemma CellInGrid(n: nat, k: nat)
    requires IsSize(n) && k < PathLength(n)
    ensures 0 <= CellAt(n, k).0 < n && 0 <= CellAt(n, k).1 < n
  {
    StepLands(n, k);
  }
}
