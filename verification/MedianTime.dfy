/** The median time past that gates timestamp locktimes, computed from the last eleven block headers. */
module MedianTime {
  import opened Prelude
  import opened Bits

  const WINDOW: nat := 11

  // ----- sorted sequences and how many elements lie below a bound

  predicate Sorted(s: seq<nat>) {
    forall i, j :: 0 <= i < j < |s| ==> s[i] <= s[j]
  }

  function IsBelow(v: nat): nat -> nat {
    x => if x < v then 1 else 0
  }

  /** How many elements of s are below v. */
  function Below(s: seq<nat>, v: nat): nat {
    SumBy(s, IsBelow(v))
  }

  lemma {:induction false} BelowSorted(s: seq<nat>, v: nat, k: nat)
    requires Sorted(s) && k < |s|
    ensures s[k] < v <==> Below(s, v) > k
  {
    var n := |s| - 1;
    if k < n {
      BelowSorted(s[..n], v, k);
      assert s[k] <= s[n];
    } else {
      AllBelow(s[..n], v, s[n]);
    }
  }

  lemma {:induction false} AllBelow(s: seq<nat>, v: nat, top: nat)
    requires forall i :: 0 <= i < |s| ==> s[i] <= top
    ensures Below(s, v) <= |s|
    ensures top < v ==> Below(s, v) == |s|
  {
    if s != [] {
      AllBelow(s[..|s| - 1], v, top);
    }
  }

  // ----- the code

  /** sort_unstable, as insertion into a sorted sequence. */
  method Sort(a: seq<nat>) returns (s: seq<nat>)
    ensures Sorted(s) && multiset(s) == multiset(a)
  {
    hide Sorted;
    s := [];
    EmptySorted();
    for i := 0 to |a|
      invariant Sorted(s) && multiset(s) == multiset(a[..i])
    {
      var k := 0;
      while k < |s| && s[k] <= a[i]
        invariant k <= |s|
        invariant forall j :: 0 <= j < k ==> s[j] <= a[i]
      {
        k := k + 1;
      }
      assert a[..i + 1] == a[..i] + [a[i]];
      InsertedAt(s, a[i], k);
      s := s[..k] + [a[i]] + s[k..];
    }
    assert a[..|a|] == a;
  }

  lemma EmptySorted()
    ensures Sorted([])
  {
  }

  lemma InsertedAt(s: seq<nat>, x: nat, k: nat)
    requires Sorted(s) && k <= |s| && forall j :: 0 <= j < k ==> s[j] <= x
    requires k < |s| ==> x < s[k]
    ensures Sorted(s[..k] + [x] + s[k..])
    ensures multiset(s[..k] + [x] + s[k..]) == multiset(s) + multiset{x}
  {
    assert s == s[..k] + s[k..];
  }

  /** The median of a nonempty list: of an even number of times the upper one. */
  ghost predicate IsMedian(times: seq<nat>, m: nat) {
    times != [] && exists s: seq<nat> :: IsSorting(s, times) && s[|s| / 2] == m
  }

  ghost predicate IsSorting(s: seq<nat>, times: seq<nat>) {
    Sorted(s) && multiset(s) == multiset(times) && |s| == |times|
  }

  /** The answer to one header request: refused by the server or not a text, a text that is not
      hexadecimal, or the bytes of a header. */
  datatype Header = Refused | NotHex | Raw(bytes: seq<octet>)

  const TIME_AT: nat := 68

  /** The length check before the time field is read looks for the start of the field only. */
  predicate PassesCheck(h: Header) {
    h.Raw? && |h.bytes| >= TIME_AT
  }

  /** The four little-endian bytes of the time field. */
  function TimeOf(bytes: seq<octet>): nat
    requires |bytes| >= TIME_AT + 4
  {
    var b0: int, b1: int, b2: int, b3: int := bytes[TIME_AT], bytes[TIME_AT + 1], bytes[TIME_AT + 2], bytes[TIME_AT + 3];
    b0 + 0x100 * b1 + 0x1_0000 * b2 + 0x100_0000 * b3
  }

  /** Long enough for the check, too short for the field. */
  predicate IsCutShort(h: Header) {
    h.Raw? && TIME_AT <= |h.bytes| < TIME_AT + 4
  }

  datatype MtpResult = Mtp(time: nat) | Unavailable | Panic

  /** The heights whose headers are asked for. */
  function WindowStart(tip: nat): nat {
    if tip < 10 then 0 else tip - 10
  }

  /** The first answer that stops the loop is a header of 68 to 71 bytes. */
  ghost predicate PanicsAt(window: seq<Header>, i: int) {
    0 <= i < |window| && IsCutShort(window[i]) && forall j :: 0 <= j < i ==> !window[j].Refused?
  }

  /** The first answer that stops the loop is a refusal. */
  ghost predicate RefusedAt(window: seq<Header>, i: int) {
    0 <= i < |window| && window[i].Refused? && forall j :: 0 <= j < i ==> !IsCutShort(window[j])
  }

  ghost predicate AllRead(window: seq<Header>) {
    forall h <- window :: !h.Refused? && !IsCutShort(h)
  }

  /** What a window of answers leads to. */
  ghost predicate IsOutcome(window: seq<Header>, r: MtpResult) {
    match r
    case Mtp(time) => AllRead(window) && IsMedian(GoodTimes(window), time)
    case Unavailable => (exists i :: RefusedAt(window, i)) || (AllRead(window) && GoodTimes(window) == [])
    case Panic => exists i :: PanicsAt(window, i)
  }

  /** get_median_time_past: without an answer to the height it fails; undecodable and short headers are skipped,
      a refusal ends the call, and the time field of a header that is cut short inside it is sliced out of range. */
  method GetMedianTimePast(height: Option<nat>, headers: seq<Header>) returns (r: MtpResult)
    requires height.Some? ==> |headers| == height.value % 0x1_0000_0000 + 1
    ensures height.None? ==> r == Unavailable
    ensures height.Some? ==> IsOutcome(headers[if |headers| < 11 then 0 else |headers| - 11..], r)
  {
    if height.None? {
      return Unavailable;
    }
    var tip := height.value % 0x1_0000_0000;
    r := ReadWindow(headers[WindowStart(tip)..]);
  }

  /** The loop over the heights asked for, and the median of what it read. */
  method ReadWindow(asked: seq<Header>) returns (r: MtpResult)
    ensures IsOutcome(asked, r)
  {
    hide TimeOf;
    var times := [];
    for i := 0 to |asked|
      invariant times == GoodTimes(asked[..i]) && AllRead(asked[..i])
    {
      assert asked[..i + 1][..i] == asked[..i] && asked[..i + 1] == asked[..i] + [asked[i]];
      assert forall j :: 0 <= j < i ==> asked[j] in asked[..i];
      if asked[i].Refused? {
        assert RefusedAt(asked, i);
        return Unavailable;
      }
      if PassesCheck(asked[i]) {
        if |asked[i].bytes| < TIME_AT + 4 {
          assert PanicsAt(asked, i);
          return Panic;
        }
        times := times + [TimeOf(asked[i].bytes)];
      }
    }
    assert asked[..|asked|] == asked;
    var sorted := Sort(times);
    SameSize(sorted, times);
    if sorted == [] {
      return Unavailable;
    }
    assert IsSorting(sorted, times);
    return Mtp(sorted[|sorted| / 2]);
  }

  /** A window has one outcome, so that the code panics if and only if a header of 68 to 71 bytes comes
      with no refusal before it, and it fails if and only if the height is not known, a refusal comes first or
      nothing is readable. */
  lemma OneOutcome(window: seq<Header>, r: MtpResult, s: MtpResult)
    requires IsOutcome(window, r) && IsOutcome(window, s)
    ensures r == s
  {
    if r.Mtp? && s.Mtp? {
      MedianUnique(GoodTimes(window), r.time, s.time);
    }
    if i :| PanicsAt(window, i) {
      assert window[i] in window;
    }
    if i :| RefusedAt(window, i) {
      assert window[i] in window;
    }
  }

  /** A header of 70 bytes passes the check and panics. */
  lemma ShortHeaderPanics(r: MtpResult)
    ensures PassesCheck(Raw(seq(70, _ => 0)))
    ensures IsOutcome([Raw(seq(70, _ => 0))], r) <==> r == Panic
  {
    var window := [Raw(seq(70, _ => 0))];
    assert PanicsAt(window, 0);
    if IsOutcome(window, r) {
      OneOutcome(window, r, Panic);
    }
  }

  lemma SameSize(a: seq<nat>, b: seq<nat>)
    requires multiset(a) == multiset(b)
    ensures |a| == |b|
  {
    assert |multiset(a)| == |a| && |multiset(b)| == |b|;
  }

  function GoodTimes(headers: seq<Header>): seq<nat> {
    if headers == [] then []
    else
      var last := headers[|headers| - 1];
      GoodTimes(headers[..|headers| - 1])
      + if last.Raw? && |last.bytes| >= TIME_AT + 4 then [TimeOf(last.bytes)] else []
  }

  // ----- the chain

  /** The up to eleven last block times. */
  function LastTimes(chain: seq<nat>): (w: seq<nat>)
    ensures |w| == if |chain| < WINDOW then |chain| else WINDOW
  {
    if |chain| <= WINDOW then chain else chain[|chain| - WINDOW..]
  }

  lemma MedianUnique(times: seq<nat>, m: nat, n: nat)
    requires IsMedian(times, m) && IsMedian(times, n)
    ensures m == n
  {
    var s: seq<nat> :| IsSorting(s, times) && s[|s| / 2] == m;
    var t: seq<nat> :| IsSorting(t, times) && t[|t| / 2] == n;
    SumByPermutation(s, t, IsBelow(m));
    SumByPermutation(s, t, IsBelow(n));
    BelowSorted(s, m, |s| / 2);
    BelowSorted(t, m, |s| / 2);
    BelowSorted(s, n, |s| / 2);
    BelowSorted(t, n, |s| / 2);
  }

  lemma MedianExists(times: seq<nat>)
    requires times != []
    ensures exists m: nat :: IsMedian(times, m)
  {
    var s := SortedCopy(times);
    SameSize(s, times);
    assert IsSorting(s, times);
    assert IsMedian(times, s[|s| / 2]);
  }

  lemma {:induction false} SortedCopy(a: seq<nat>) returns (s: seq<nat>)
    ensures Sorted(s) && multiset(s) == multiset(a)
  {
    hide Sorted;
    EmptySorted();
    s := [];
    if a != [] {
      var x, init := a[|a| - 1], a[..|a| - 1];
      var t := SortedCopy(init);
      var k := 0;
      while k < |t| && t[k] <= x
        invariant k <= |t| && forall j :: 0 <= j < k ==> t[j] <= x
      {
        k := k + 1;
      }
      assert a == init + [x];
      InsertedAt(t, x, k);
      s := t[..k] + [x] + t[k..];
    }
  }

  /** The median time past of a nonempty chain. */
  ghost function MedianTimePast(chain: seq<nat>): (m: nat)
    requires chain != []
    ensures IsMedian(LastTimes(chain), m)
  {
    MedianExists(LastTimes(chain));
    var m: nat :| IsMedian(LastTimes(chain), m);
    m
  }

  /** BIP 113: every block's time exceeds the median of the up to eleven blocks before it. */
  ghost predicate ValidChain(chain: seq<nat>) {
    forall n :: 0 < n < |chain| ==> ExceedsMedian(chain, n)
  }

  ghost predicate ExceedsMedian(chain: seq<nat>, n: int) {
    0 < n < |chain| && chain[n] > MedianTimePast(chain[..n])
  }

  /** A median is at least v exactly when at most half of the times lie below v. */
  lemma MedianAtLeast(times: seq<nat>, m: nat, v: nat)
    requires IsMedian(times, m)
    ensures m >= v <==> Below(times, v) <= |times| / 2
  {
    var s: seq<nat> :| IsSorting(s, times) && s[|s| / 2] == m;
    BelowSorted(s, v, |s| / 2);
    SumByPermutation(s, times, IsBelow(v));
  }

  /** One more block never lowers the median time past, also while the window is still growing. */
  lemma MedianStep(chain: seq<nat>, t: nat)
    requires chain != [] && t > MedianTimePast(chain)
    ensures MedianTimePast(chain + [t]) >= MedianTimePast(chain)
  {
    var v := MedianTimePast(chain);
    var w, w' := LastTimes(chain), LastTimes(chain + [t]);
    MedianAtLeast(w, v, v);
    if |chain| < WINDOW {
      assert w' == w + [t];
      SumByAppend(w, [t], IsBelow(v));
    } else {
      assert w == [w[0]] + w[1..] && w' == w[1..] + [t];
      SumByAppend([w[0]], w[1..], IsBelow(v));
      SumByAppend(w[1..], [t], IsBelow(v));
    }
    MedianAtLeast(w', MedianTimePast(chain + [t]), v);
  }

  /** The median time past at a height, and 0 where there is no chain. */
  ghost function TimePastAt(chain: seq<nat>, n: nat): nat {
    if 0 < n <= |chain| then MedianTimePast(chain[..n]) else 0
  }

  lemma TimePastStep(chain: seq<nat>, n: nat)
    requires ValidChain(chain) && n < |chain|
    ensures TimePastAt(chain, n) <= TimePastAt(chain, n + 1)
  {
    if n > 0 {
      assert ExceedsMedian(chain, n);
      MedianStep(chain[..n], chain[n]);
      assert chain[..n + 1] == chain[..n] + [chain[n]];
    }
  }

  lemma {:induction false} TimePastGrows(chain: seq<nat>, n: nat, m: nat)
    requires ValidChain(chain) && n <= m <= |chain|
    ensures TimePastAt(chain, n) <= TimePastAt(chain, m)
  {
    hide TimePastAt, ValidChain;
    if n < m {
      TimePastGrows(chain, n, m - 1);
      TimePastStep(chain, m - 1);
    }
  }

  /** As a chain grows its median time past never decreases. */
  lemma MedianMonotone(chain: seq<nat>, n: nat)
    requires ValidChain(chain) && 0 < n <= |chain|
    ensures MedianTimePast(chain[..n]) <= MedianTimePast(chain)
  {
    TimePastGrows(chain, n, |chain|);
    assert chain[..|chain|] == chain;
  }

  /** The answers of a server that knows the chain: whole headers with the blocks' times. */
  predicate AreHonest(headers: seq<Header>, chain: seq<nat>) {
    |headers| == |chain| && forall i :: 0 <= i < |chain| ==> IsHeaderOf(headers[i], chain[i])
  }

  /** An 80-byte header whose bytes 68 to 71 are the time, least significant first. */
  predicate IsHeaderOf(h: Header, time: nat) {
    && h.Raw? && |h.bytes| == 80 && time < 0x1_0000_0000
    && h.bytes[68] == time % 256 && h.bytes[69] == time / 256 % 256
    && h.bytes[70] == time / 65536 % 256 && h.bytes[71] == time / 16777216
  }

  lemma TimeOfHeader(h: Header, time: nat)
    requires IsHeaderOf(h, time)
    ensures TimeOf(h.bytes) == time
  {
    assert time / 65536 == time / 256 / 256 && time / 16777216 == time / 256 / 256 / 256;
  }

  /** A window of one header: what its length and its bytes 68 to 71 lead to. */
  lemma OneHeader(bytes: seq<octet>, r: MtpResult)
    ensures IsOutcome([Raw(bytes)], r) <==>
            r == if |bytes| < 68 then Unavailable else if |bytes| < 72 then Panic
                 else var b0: int, b1: int, b2: int, b3: int := bytes[68], bytes[69], bytes[70], bytes[71];
                      Mtp(b0 + 256 * b1 + 65536 * b2 + 16777216 * b3)
  {
    hide GoodTimes, AllRead, IsMedian, IsOutcome, TimeOf;
    var window := [Raw(bytes)];
    var outcome := if |bytes| < 68 then Unavailable else if |bytes| < 72 then Panic else Mtp(TimeOf(bytes));
    OutcomeOfOne(bytes, outcome);
    if IsOutcome(window, r) {
      OneOutcome(window, r, outcome);
    }
    TimeField(bytes);
  }

  lemma TimeField(bytes: seq<octet>)
    ensures |bytes| >= 72 ==>
              var b0: int, b1: int, b2: int, b3: int := bytes[68], bytes[69], bytes[70], bytes[71];
              TimeOf(bytes) == b0 + 256 * b1 + 65536 * b2 + 16777216 * b3
  {
  }

  lemma OutcomeOfOne(bytes: seq<octet>, outcome: MtpResult)
    requires outcome == if |bytes| < 68 then Unavailable else if |bytes| < 72 then Panic else Mtp(TimeOf(bytes))
    ensures IsOutcome([Raw(bytes)], outcome)
  {
    hide TimeOf;
    var window := [Raw(bytes)];
    assert window[..0] == [];
    if 68 <= |bytes| < 72 {
      assert PanicsAt(window, 0);
    } else if |bytes| >= 72 {
      assert GoodTimes(window) == [TimeOf(bytes)];
      assert IsSorting([TimeOf(bytes)], [TimeOf(bytes)]);
    } else {
      assert GoodTimes(window) == [];
    }
  }

  lemma {:induction false} GoodTimesOfHonest(headers: seq<Header>, chain: seq<nat>)
    requires AreHonest(headers, chain)
    ensures GoodTimes(headers) == chain
  {
    if chain != [] {
      var n := |chain| - 1;
      GoodTimesOfHonest(headers[..n], chain[..n]);
      TimeOfHeader(headers[n], chain[n]);
    }
  }

  /** Asked for the tip of a chain, the code's window is the last eleven blocks, or all there are. */
  lemma WindowIsLastTimes(headers: seq<Header>, chain: seq<nat>)
    requires chain != [] && AreHonest(headers, chain)
    ensures GoodTimes(headers[WindowStart(|chain| - 1)..]) == LastTimes(chain)
    ensures AllRead(headers[WindowStart(|chain| - 1)..])
    ensures WindowStart(|chain| - 1) == if |chain| < 11 then 0 else |chain| - 11
    ensures LastTimes(chain) == if |chain| < 11 then chain else chain[|chain| - 11..]
  {
    var start := WindowStart(|chain| - 1);
    GoodTimesOfHonest(headers[start..], chain[start..]);
    assert LastTimes(chain) == chain[start..];
  }

  /** On honest answers the code returns the chain's median time past. */
  lemma CodeReadsMedian(headers: seq<Header>, chain: seq<nat>, r: MtpResult)
    requires chain != [] && AreHonest(headers, chain)
    ensures IsOutcome(headers[if |chain| < 11 then 0 else |chain| - 11..], r) <==> r == Mtp(MedianTimePast(chain))
  {
    var window := headers[WindowStart(|chain| - 1)..];
    WindowIsLastTimes(headers, chain);
    assert IsOutcome(window, Mtp(MedianTimePast(chain)));
    if IsOutcome(window, r) {
      OneOutcome(window, r, Mtp(MedianTimePast(chain)));
    }
  }
}
