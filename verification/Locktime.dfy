/** The nLockTime gate: what the chain backends answer, the cached median time past, and what a gate that
    opened says about the chain. */
module Locktime {
  import opened Prelude
  import opened MedianTime

  const THRESHOLD: nat := 500_000_000

  /** What one reading of the backends gave: a median time past, and a tip height. */
  datatype Reading = Reading(mtp: Option<nat>, height: Option<nat>)

  /** is_locktime_satisfied: None is an error. */
  function Gate(nlocktime: Option<nat>, reading: Reading): Option<bool> {
    if nlocktime.None? || nlocktime.value == 0 then Some(true)
    else if nlocktime.value > THRESHOLD then
      (match reading.mtp case None => None case Some(mtp) => Some(mtp >= nlocktime.value))
    else
      (match reading.height case None => Some(false) case Some(height) => Some(height >= nlocktime.value))
  }

  /** Every answer is the one of some prefix of the chain, perhaps an old one. */
  ghost predicate HonestReading(reading: Reading, chain: seq<nat>) {
    && (reading.mtp.Some? ==> exists k :: SeesTime(chain, k, reading.mtp.value))
    && (reading.height.Some? ==> reading.height.value < |chain|)
  }

  ghost predicate SeesTime(chain: seq<nat>, k: int, mtp: nat) {
    0 < k <= |chain| && MedianTimePast(chain[..k]) == mtp
  }

  /** The nLockTime is met by a chain. */
  ghost predicate LocktimeMet(nlocktime: Option<nat>, chain: seq<nat>) {
    nlocktime.None? || nlocktime.value == 0 ||
    (chain != [] &&
     if nlocktime.value > THRESHOLD then MedianTimePast(chain) >= nlocktime.value
     else |chain| - 1 >= nlocktime.value)
  }

  /** A gate that opened on any past view of the chain means that the whole chain meets the lock. */
  lemma GateMeansMet(nlocktime: Option<nat>, reading: Reading, chain: seq<nat>)
    requires ValidChain(chain) && HonestReading(reading, chain) && Gate(nlocktime, reading) == Some(true)
    ensures LocktimeMet(nlocktime, chain)
  {
    if nlocktime.Some? && nlocktime.value > THRESHOLD {
      var k :| SeesTime(chain, k, reading.mtp.value);
      MedianMonotone(chain, k);
    }
  }

  /** What is met stays met as the chain grows. */
  lemma MetForever(nlocktime: Option<nat>, chain: seq<nat>, n: nat)
    requires ValidChain(chain) && n <= |chain| && LocktimeMet(nlocktime, chain[..n])
    ensures LocktimeMet(nlocktime, chain)
  {
    if n > 0 {
      MedianMonotone(chain, n);
    }
  }

  /** What the code returns on an honest server's headers of a view of the chain is what that view gives. */
  lemma CodeSeesTime(headers: seq<Header>, chain: seq<nat>, k: nat, r: MtpResult)
    requires 0 < k <= |chain| && AreHonest(headers, chain[..k]) && IsOutcome(headers[if k < 11 then 0 else k - 11..], r)
    ensures r.Mtp? && SeesTime(chain, k, r.time)
  {
    CodeReadsMedian(headers, chain[..k], r);
  }

  // ----- the network's rule

  /** The network's own rule (BIP 113 and IsFinalTx) for the block after the chain, for a transaction whose
      lock is enforced: a lock below the threshold is a height, any other a time, and both must be exceeded. */
  ghost predicate Final(nlocktime: Option<nat>, chain: seq<nat>) {
    nlocktime.None? || nlocktime.value == 0 ||
    (chain != [] &&
     if nlocktime.value >= THRESHOLD then MedianTimePast(chain) > nlocktime.value else |chain| > nlocktime.value)
  }

  /** The median time past stands exactly at the lock. */
  ghost predicate AtTheLock(nlocktime: Option<nat>, chain: seq<nat>) {
    nlocktime.Some? && nlocktime.value > THRESHOLD && chain != [] && MedianTimePast(chain) == nlocktime.value
  }

  function Current(chain: seq<nat>, mtp: nat): Reading
    requires chain != []
  {
    Reading(Some(mtp), Some(|chain| - 1))
  }

  /** On a current reading the gate and the network differ in two cases: the gate is open and the network
      refuses exactly when the median time past equals the lock, and the gate is shut and the network would
      accept exactly for the lock 500,000,000, which the gate takes for a height. */
  lemma GateAgainstNetwork(nlocktime: Option<nat>, chain: seq<nat>)
    requires chain != [] && |chain| <= THRESHOLD
    ensures var open := Gate(nlocktime, Current(chain, MedianTimePast(chain))) == Some(true);
            && (open && !Final(nlocktime, chain) <==> AtTheLock(nlocktime, chain))
            && (!open && Final(nlocktime, chain) <==>
                nlocktime == Some(THRESHOLD) && MedianTimePast(chain) > THRESHOLD)
  {
  }

  lemma MedianOfOne(t: nat)
    ensures MedianTimePast([t]) == t
  {
    assert IsSorting([t], [t]);
    assert IsMedian([t], t);
    MedianUnique([t], MedianTimePast([t]), t);
  }

  /** A chain on which the gate lets a transaction through that the network refuses. */
  lemma OpensTooEarly()
    ensures var chain, n := [600_000_000], Some(600_000_000);
            Gate(n, Current(chain, MedianTimePast(chain))) == Some(true) && !Final(n, chain)
  {
    MedianOfOne(600_000_000);
  }

  /** What the gate means by met is what the network means by final, except at equality. */
  lemma MetIsFinal(nlocktime: Option<nat>, chain: seq<nat>)
    requires |chain| <= THRESHOLD && LocktimeMet(nlocktime, chain)
    ensures Final(nlocktime, chain) <==> !AtTheLock(nlocktime, chain)
  {
  }

  // ----- the cache

  const TTL: nat := 10

  datatype Cached = Cached(at: nat, mtp: nat)

  function CachedRead(cache: Option<Cached>, now: nat, answer: Option<nat>): Option<nat> {
    if cache.Some? && now < cache.value.at + TTL then Some(cache.value.mtp) else answer
  }

  function CacheAfter(cache: Option<Cached>, now: nat, answer: Option<nat>): Option<Cached> {
    if cache.Some? && now < cache.value.at + TTL then cache
    else match answer
         case Some(mtp) => Some(Cached(now, mtp))
         case None => cache
  }

  /** The cached value is the median time past of some prefix of the chain. */
  ghost predicate CacheHonest(cache: Option<Cached>, chain: seq<nat>) {
    cache.Some? ==> exists k :: SeesTime(chain, k, cache.value.mtp)
  }

  class MtpCache {
    var cache: Option<Cached>

    constructor ()
      ensures cache == None
    {
      cache := None;
    }

    /** get_median_time_past_cached: a failed fetch leaves an expired entry in place and is reported. */
    method Read(now: nat, answer: Option<nat>) returns (mtp: Option<nat>)
      modifies this
      ensures mtp == CachedRead(old(cache), now, answer)
      ensures cache == CacheAfter(old(cache), now, answer)
      ensures if old(cache).Some? && now < old(cache).value.at + 10 then mtp == Some(old(cache).value.mtp) && cache == old(cache)
              else mtp == answer && cache == match answer case Some(m) => Some(Cached(now, m)) case None => old(cache)
    {
      if cache.Some? {
        if now < cache.value.at + TTL {
          return Some(cache.value.mtp);
        }
      }
      mtp := answer;
      if mtp.Some? {
        cache := Some(Cached(now, mtp.value));
      }
    }

    /** is_locktime_satisfied: the median time past is read only for a timestamp lock. */
    method IsLocktimeSatisfied(nlocktime: Option<nat>, now: nat, mtpAnswer: Option<nat>, height: Option<nat>)
      returns (open: Option<bool>)
      modifies this
      ensures open == Gate(nlocktime, Reading(CachedRead(old(cache), now, mtpAnswer), height))
      ensures cache == old(cache) || cache == CacheAfter(old(cache), now, mtpAnswer)
      ensures var n := match nlocktime case Some(n) => n case None => 0;
              open == if n == 0 then Some(true)
                      else if n <= 500_000_000 then Some(match height case Some(h) => h >= n case None => false)
                      else if old(cache).Some? && now < old(cache).value.at + 10 then Some(old(cache).value.mtp >= n)
                      else match mtpAnswer case Some(mtp) => Some(mtp >= n) case None => None
    {
      if nlocktime.None? || nlocktime.value == 0 {
        return Some(true);
      }
      if nlocktime.value > THRESHOLD {
        var mtp := Read(now, mtpAnswer);
        return match mtp case None => None case Some(m) => Some(m >= nlocktime.value);
      }
      return match height case None => Some(false) case Some(h) => Some(h >= nlocktime.value);
    }
  }

  /** Reading through the cache is an honest reading, and keeps the cache honest: an older cached value never
      opens a gate that the chain would not open, and a gate that is open on the chain can stay shut only
      within TTL seconds of the last fetch. */
  lemma CacheIsSafe(cache: Option<Cached>, now: nat, answer: Option<nat>, chain: seq<nat>, nlocktime: nat)
    requires ValidChain(chain) && chain != [] && CacheHonest(cache, chain)
    requires answer.Some? ==> exists k :: SeesTime(chain, k, answer.value)
    ensures HonestReading(Reading(CachedRead(cache, now, answer), None), chain)
    ensures CacheHonest(CacheAfter(cache, now, answer), chain)
    ensures CachedRead(cache, now, answer).Some? && CachedRead(cache, now, answer).value >= nlocktime
            ==> MedianTimePast(chain) >= nlocktime
    ensures answer == Some(MedianTimePast(chain)) && (cache.None? || now >= cache.value.at + TTL)
            ==> (MedianTimePast(chain) >= nlocktime <==> CachedRead(cache, now, answer).value >= nlocktime)
  {
    var r := CachedRead(cache, now, answer);
    if r.Some? {
      var k :| SeesTime(chain, k, r.value);
      MedianMonotone(chain, k);
    }
  }
}
