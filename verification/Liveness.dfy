/** A locked transaction needs no user: once its lock is met, one tick sends it, whatever else runs. */
module Liveness {
  import opened Prelude
  import opened Database
  import opened Locktime
  import opened Refusals
  import opened MedianTime
  import opened Machine
  import opened SendSafety
  import opened Ingest

  // ----- the row of a locked transaction

  predicate HasLock(n: nat) {
    0 < n && n != THRESHOLD
  }

  predicate Tracked(w: World, id: Id, n: nat) {
    id in w.rows && TrackedRow(w.rows[id], w.network, w.now, n)
  }

  predicate TrackedRow(r: Row, network: string, now: nat, n: nat) {
    && r.nlocktime == Some(n) && r.network == network && r.deferUntil.None?
    && r.mode == Some(if n > THRESHOLD then AtTime else ByBlock)
    && match r.status
       case Pending => n > THRESHOLD ==> r.scheduledTime == Some(n)
       case Scheduled => r.scheduledTime.Some? && r.scheduledTime.value <= now
       case Failed => r.scheduledTime.Some? && r.scheduledTime.value <= now
       case Broadcast => true
       case Confirmed => true
       case Expired => false
  }

  /** The step of a loop that writes to a row it holds. */
  lemma WriteOfOwner(w: World, e: Event, id: Id)
    requires Owned(w) && Enabled(w, e) && WritesTo(w, e, id)
    ensures id in w.rows && id in Step(w, e).rows
    ensures match e
            case MarkOne(_) => w.rows[id].status == Pending && Step(w, e).rows[id] == Apply(w.rows[id], Due(w.now))
            case IngestDue(_) => w.rows[id].mode == Some(Immediate)
            case MarkBlocked(_) =>
              && w.rows[id].status == Pending
              && Step(w, e).rows[id] == if w.rows[id].nlocktime.Some? && w.tip >= w.rows[id].nlocktime.value
                                        then Apply(w.rows[id], Due(w.now)) else w.rows[id]
            case RequeueOne(_) =>
              && w.rows[id].status == Failed
              && Step(w, e).rows[id] == if IsRequeued(w.rows[id].nlocktime, w.rows[id].error)
                                        then Apply(w.rows[id], Requeue) else w.rows[id]
            case SendOne(_, reading, answer) =>
              && w.rows[id].status == Scheduled
              && var o := SendOutcome(w.rows[id], Gate(w.rows[id].nlocktime, reading), answer, w.phase.at, w.now);
                 Step(w, e).rows[id] == if o.Write? then Apply(w.rows[id], o.u) else w.rows[id]
            case _ => IsOut(w.rows[id])
  {
    hide Gate, IsRequeued, SendOutcome, Moved, Apply, IsPage, HonestReading;
  }

  lemma KeepsTracked(w: World, e: Event, id: Id, n: nat)
    requires Identities(w) && Owned(w) && Enabled(w, e) && !IsUser(e) && Tracked(w, id, n)
    ensures Tracked(Step(w, e), id, n)
  {
    ClockGrows(w, e);
    if WritesTo(w, e, id) {
      hide Step, Enabled, Owned, Identities, Gate, IsRequeued, IsRetriable;
      WriteOfOwner(w, e, id);
      if IsOut(w.rows[id]) {
        OutKeepsLock(w, e, id);
      }
    } else {
      hide Step, Enabled, Owned, Identities, WritesTo;
      Untouched(w, e, id);
    }
  }

  lemma ClockGrows(w: World, e: Event)
    ensures Step(w, e).now >= w.now && Step(w, e).network == w.network
  {
    hide NextPhase, EffectOf, Written;
  }

  lemma OutKeepsLock(w: World, e: Event, id: Id)
    requires Identities(w) && Owned(w) && Enabled(w, e) && !IsUser(e) && id in w.rows && IsOut(w.rows[id])
    ensures id in Step(w, e).rows && IsOut(Step(w, e).rows[id])
    ensures SameTransaction(w.rows[id], Step(w, e).rows[id])
    ensures w.rows[id].deferUntil.None? ==> Step(w, e).rows[id].deferUntil.None?
  {
    StaysOut(w, e, id);
    if WritesTo(w, e, id) {
      assert e.ResendOne? || e.ConfirmOne?;
      hide Gate, NextPhase, SendOutcome, IsRequeued;
    } else {
      Untouched(w, e, id);
    }
  }

  lemma {:induction false} TrackedFrom(w: World, events: seq<Event>, s: nat, i: nat, id: Id, n: nat)
    requires Init(w) && IsRun(w, events) && NoUser(events) && s <= i <= |events| && Tracked(At(w, events, s), id, n)
    ensures Tracked(At(w, events, i), id, n)
  {
    hide At, Step, Tracked, Identities, Owned, Enabled;
    if s < i {
      TrackedFrom(w, events, s, i - 1, id, n);
      InvariantsAt(w, events, i - 1);
      AtNext(w, events, i - 1);
      KeepsTracked(At(w, events, i - 1), events[i - 1], id, n);
    }
  }

  lemma InvariantsAt(w: World, events: seq<Event>, i: nat)
    requires Init(w) && IsRun(w, events) && NoUser(events) && i <= |events|
    ensures Identities(At(w, events, i)) && Safe(At(w, events, i)) && Owned(At(w, events, i))
    ensures i < |events| ==> Enabled(At(w, events, i), events[i]) && !IsUser(events[i])
  {
    hide Identities, Owned, Safe, Enabled;
    RunPrefix(w, events, i);
    AlwaysSafe(w, events[..i]);
    AlwaysOwned(w, events[..i]);
  }

  // ----- one tick

  /** Where a locked transaction can be while a tick runs. */
  predicate OnItsWay(w: World, id: Id, n: nat) {
    id in w.rows &&
    var r := w.rows[id];
    match w.phase
    case Idle => true
    case Marking(held) => (r.status == Pending ==> id in held) && (r.status == Failed ==> IsRequeued(Some(n), r.error))
    case Requeueing(held, _) => r.status != Pending && (r.status == Failed ==> id in held && IsRequeued(Some(n), r.error))
    case Sending(held, _) => r.status != Pending && r.status != Failed && (r.status == Scheduled ==> id in held)
  }

  /** What the step asks of the backends opens the lock, and is accepted; a failed row is on the page. */
  predicate HealthyFor(w: World, e: Event, id: Id, n: nat) {
    match e
    case FetchDue(readings) => id in readings ==> Gate(Some(n), readings[id]) == Some(true)
    case SendOne(i, reading, answer) => i == id ==> Gate(Some(n), reading) == Some(true) && answer.Accepted?
    case FetchFailed(page) => id in w.rows && w.rows[id].status == Failed ==> id in page
    case _ => true
  }

  /** What a step of the loops can do to a row, in a healthy tick. */
  predicate RowMoves(r: Row, r': Row, e: Event, id: Id, n: nat) {
    && (|| r' == r
        || (r.status == Pending && r'.status == Scheduled && (e == MarkOne(id) || e == MarkBlocked(id)))
        || (e == RequeueOne(id) && r.status == Failed && r'.status == Scheduled)
        || (IsOut(r') && (IsOut(r) || e.SendOne?)))
    && (e == MarkOne(id) ==> r'.status == Scheduled)
    && (e == RequeueOne(id) && IsRequeued(Some(n), r.error) ==> r'.status == Scheduled)
    && (e.SendOne? && e.id == id ==> IsOut(r'))
  }

  lemma RowMovesInStep(w: World, e: Event, id: Id, n: nat)
    requires Identities(w) && Owned(w) && Enabled(w, e) && !IsUser(e) && Tracked(w, id, n) && HealthyFor(w, e, id, n)
    ensures id in Step(w, e).rows && RowMoves(w.rows[id], Step(w, e).rows[id], e, id, n)
  {
    hide Step, Gate, IsRequeued, IsRetriable, Identities, Owned, Enabled;
    if e == MarkOne(id) || e == RequeueOne(id) || (e.SendOne? && e.id == id) {
      WritesWhatItNames(w, e, id);
    }
    if WritesTo(w, e, id) {
      OwnerMoves(w, e, id, n);
    } else {
      Untouched(w, e, id);
    }
  }

  lemma OwnerMoves(w: World, e: Event, id: Id, n: nat)
    requires Identities(w) && Owned(w) && Enabled(w, e) && !IsUser(e) && Tracked(w, id, n) && HealthyFor(w, e, id, n)
    requires WritesTo(w, e, id)
    ensures id in Step(w, e).rows && RowMoves(w.rows[id], Step(w, e).rows[id], e, id, n)
  {
    hide Step, Gate, IsRequeued, IsRetriable, Identities, Owned, Enabled;
    WriteOfOwner(w, e, id);
    if IsOut(w.rows[id]) {
      StaysOut(w, e, id);
    }
  }

  lemma WritesWhatItNames(w: World, e: Event, id: Id)
    requires Enabled(w, e) && (e == MarkOne(id) || e == RequeueOne(id) || (e.SendOne? && e.id == id))
    ensures WritesTo(w, e, id)
  {
  }

  /** How the phase of the broadcast loop moves in a run without the user. */
  predicate PhaseMoves(w: World, e: Event, next: Phase) {
    match next
    case Idle => e.EndTick? || e.EndStartup? || e.Restart? || e.SendOne? || w.phase.Idle?
    case Marking(held) =>
      if e.StartTick? then held == PendingByTime(w)
      else w.phase.Marking? && held == (if e.MarkOne? then w.phase.held - {e.id} else w.phase.held)
    case Requeueing(held, tick) =>
      if e.FetchFailed? then (w.phase == Marking(map[]) || w.phase.Idle?) && held == e.page
      else w.phase.Requeueing? && tick == w.phase.tick && held == (if e.RequeueOne? then w.phase.held - {e.id} else w.phase.held)
    case Sending(held, at) =>
      if e.FetchDue? then w.phase == Requeueing(map[], true) && held == DueRows(w, e.readings)
      else w.phase.Sending? && held == (if e.SendOne? then w.phase.held - {e.id} else w.phase.held)
  }

  lemma PhaseMovesInStep(w: World, e: Event)
    requires Owned(w) && Enabled(w, e)
    ensures PhaseMoves(w, e, NextPhase(w, e))
  {
    hide Gate, IsPage, HonestReading, DueRows, PendingByTime, IsRequeued, SendOutcome, MedianTimePast;
  }

  lemma DueIsFetched(w: World, readings: map<Id, Reading>, id: Id, n: nat)
    requires Tracked(w, id, n) && w.rows[id].status == Scheduled && Enabled(w, FetchDue(readings))
    requires HealthyFor(w, FetchDue(readings), id, n)
    ensures id in DueRows(w, readings)
  {
    hide Gate, HonestReading;
  }

  lemma KeepsOnItsWay(w: World, e: Event, id: Id, n: nat)
    requires Identities(w) && Owned(w) && Enabled(w, e) && !IsUser(e) && Tracked(w, id, n) && HealthyFor(w, e, id, n)
    requires e.StartTick? || (!w.phase.Idle? && OnItsWay(w, id, n))
    requires e.StartTick? && w.rows[id].status == Pending ==> n > THRESHOLD && n <= w.now
    requires e.StartTick? && w.rows[id].status == Failed ==> IsRequeued(Some(n), w.rows[id].error)
    ensures OnItsWay(Step(w, e), id, n)
  {
    RowMovesInStep(w, e, id, n);
    PhaseMovesInStep(w, e);
    SamePhase(w, e);
    if e.FetchDue? && w.rows[id].status == Scheduled {
      DueIsFetched(w, e.readings, id, n);
    }
    if e.StartTick? {
      StartFetches(w, id, n);
    } else {
      StepOnItsWay(w, e, id, n);
    }
  }

  lemma StartFetches(w: World, id: Id, n: nat)
    requires Owned(w) && Tracked(w, id, n) && w.phase.Idle?
    requires w.rows[id].status == Pending ==> n > THRESHOLD && n <= w.now
    requires w.rows[id].status == Failed ==> IsRequeued(Some(n), w.rows[id].error)
    ensures OnItsWay(Step(w, StartTick), id, n)
  {
    hide IsRequeued;
  }

  lemma StepOnItsWay(w: World, e: Event, id: Id, n: nat)
    requires Owned(w) && Tracked(w, id, n) && HealthyFor(w, e, id, n) && !w.phase.Idle? && OnItsWay(w, id, n) && !e.StartTick?
    requires id in Step(w, e).rows && RowMoves(w.rows[id], Step(w, e).rows[id], e, id, n)
    requires PhaseMoves(w, e, Step(w, e).phase)
    requires e.FetchDue? && w.rows[id].status == Scheduled ==> id in DueRows(w, e.readings)
    ensures OnItsWay(Step(w, e), id, n)
  {
    hide Step, NextPhase, Gate, IsRequeued, Owned, DueRows, PendingByTime;
    match w.phase {
      case Idle =>
      case Marking(_) =>
      case Requeueing(_, _) =>
      case Sending(_, _) =>
    }
  }

  predicate HealthyTick(w: World, events: seq<Event>, a: nat, b: nat, id: Id, n: nat) {
    forall k :: a <= k < b && k < |events| ==> HealthyFor(At(w, events, k), events[k], id, n)
  }

  /** Before the tick: a pending row has its time reached, a failed one has an error that is retried. */
  predicate ReadyForTick(w: World, id: Id, n: nat) {
    && id in w.rows
    && (w.rows[id].status == Pending ==> n > THRESHOLD && n <= w.now)
    && (w.rows[id].status == Failed ==> IsRequeued(Some(n), w.rows[id].error))
  }

  lemma {:induction false} OnItsWayDuring(w: World, events: seq<Event>, a: nat, b: nat, k: nat, id: Id, n: nat)
    requires Init(w) && IsRun(w, events) && NoUser(events) && CompleteTick(w, events, a, b) && a < k <= b
    requires Tracked(At(w, events, a), id, n) && ReadyForTick(At(w, events, a), id, n)
    requires HealthyTick(w, events, a, b, id, n)
    ensures OnItsWay(At(w, events, k), id, n)
  {
    hide At, Step, Identities, Owned, Enabled, OnItsWay, HealthyFor, Tracked;
    var before := At(w, events, k - 1);
    InvariantsAt(w, events, k - 1);
    TrackedFrom(w, events, a, k - 1, id, n);
    AtNext(w, events, k - 1);
    TrackedKnows(before, id, n);
    if a < k - 1 {
      OnItsWayDuring(w, events, a, b, k - 1, id, n);
      NoSecondStart(before, events[k - 1]);
    }
    KeepsOnItsWay(before, events[k - 1], id, n);
  }

  lemma NoSecondStart(w: World, e: Event)
    requires Enabled(w, e) && !w.phase.Idle?
    ensures !e.StartTick?
  {
  }

  lemma TrackedKnows(w: World, id: Id, n: nat)
    requires Tracked(w, id, n)
    ensures id in w.rows
  {
  }

  /** One healthy tick sends a tracked transaction, whatever the other loops do during the tick. */
  lemma TickSends(w: World, events: seq<Event>, a: nat, b: nat, id: Id, n: nat)
    requires Init(w) && IsRun(w, events) && NoUser(events) && CompleteTick(w, events, a, b)
    requires Tracked(At(w, events, a), id, n) && ReadyForTick(At(w, events, a), id, n)
    requires HealthyTick(w, events, a, b, id, n)
    ensures id in At(w, events, b + 1).rows && IsOut(At(w, events, b + 1).rows[id])
  {
    hide At, Step, Identities, Owned;
    OnItsWayDuring(w, events, a, b, b, id, n);
    InvariantsAt(w, events, b);
    AtNext(w, events, b);
    TrackedFrom(w, events, a, b, id, n);
    StaysOut(At(w, events, b), EndTick, id);
  }

  // ----- block locks: the monitor first

  /** events[a] fetches the waiting rows at a height that meets the lock; by state b all of them are handled. */
  predicate MonitorPass(w: World, events: seq<Event>, a: nat, b: nat, n: nat) {
    && a < b <= |events| && events[a].FetchBlocked? && events[a].height >= n
    && (forall k :: a < k < b ==> !events[k].FetchBlocked? && !events[k].Restart?)
    && At(w, events, b).blocked == map[]
  }

  predicate SeenByMonitor(w: World, id: Id, n: nat) {
    id in w.rows && (w.rows[id].status == Pending ==> id in w.blocked && w.tip >= n)
  }

  lemma MonitorFetches(w: World, height: nat, id: Id, n: nat)
    requires Tracked(w, id, n) && 0 < n < THRESHOLD && height >= n
    ensures SeenByMonitor(Step(w, FetchBlocked(height)), id, n)
  {
  }

  lemma NextMonitored(w: World, e: Event)
    requires !e.FetchBlocked? && !e.Restart?
    ensures Step(w, e).tip == w.tip
    ensures Step(w, e).blocked == if e.MarkBlocked? then w.blocked - {e.id} else w.blocked
  {
    hide NextPhase, EffectOf, Written;
  }

  lemma KeepsSeen(w: World, e: Event, id: Id, n: nat)
    requires Identities(w) && Owned(w) && Enabled(w, e) && !IsUser(e) && Tracked(w, id, n) && SeenByMonitor(w, id, n)
    requires !e.FetchBlocked? && !e.Restart?
    ensures SeenByMonitor(Step(w, e), id, n)
  {
    hide Step, Gate, IsRequeued, IsRetriable, Identities, Owned, Enabled;
    NextMonitored(w, e);
    if WritesTo(w, e, id) {
      WriteOfOwner(w, e, id);
      if IsOut(w.rows[id]) {
        StaysOut(w, e, id);
      }
    } else {
      Untouched(w, e, id);
    }
  }

  lemma {:induction false} SeenDuring(w: World, events: seq<Event>, a: nat, b: nat, k: nat, id: Id, n: nat)
    requires Init(w) && IsRun(w, events) && NoUser(events) && MonitorPass(w, events, a, b, n) && a < k <= b
    requires 0 < n < THRESHOLD && Tracked(At(w, events, a), id, n)
    ensures SeenByMonitor(At(w, events, k), id, n)
  {
    hide At, Step, Identities, Owned, Enabled, SeenByMonitor, Tracked;
    AtNext(w, events, k - 1);
    if k - 1 == a {
      MonitorFetches(At(w, events, a), events[a].height, id, n);
    } else {
      SeenDuring(w, events, a, b, k - 1, id, n);
      InvariantsAt(w, events, k - 1);
      TrackedFrom(w, events, a, k - 1, id, n);
      KeepsSeen(At(w, events, k - 1), events[k - 1], id, n);
    }
  }

  lemma {:induction false} NotPendingAgain(w: World, events: seq<Event>, b: nat, k: nat, id: Id, n: nat)
    requires Init(w) && IsRun(w, events) && NoUser(events) && b <= k <= |events|
    requires Tracked(At(w, events, b), id, n) && SeenByMonitor(At(w, events, b), id, n) && At(w, events, b).blocked == map[]
    ensures id in At(w, events, k).rows && At(w, events, k).rows[id].status != Pending
  {
    hide At, Step, Identities, Owned, Enabled;
    if b < k {
      NotPendingAgain(w, events, b, k - 1, id, n);
      InvariantsAt(w, events, k - 1);
      TrackedFrom(w, events, b, k - 1, id, n);
      AtNext(w, events, k - 1);
      KeepsNotPending(At(w, events, k - 1), events[k - 1], id);
    }
  }

  lemma KeepsNotPending(w: World, e: Event, id: Id)
    requires Identities(w) && Owned(w) && Enabled(w, e) && !IsUser(e) && id in w.rows && w.rows[id].status != Pending
    ensures id in Step(w, e).rows && Step(w, e).rows[id].status != Pending
  {
    hide Step, Gate, IsRequeued, IsRetriable, Identities;
    if WritesTo(w, e, id) {
      WriteOfOwner(w, e, id);
      if IsOut(w.rows[id]) {
        StaysOut(w, e, id);
      }
    } else {
      Untouched(w, e, id);
    }
  }

  // ----- failures

  /** An answer of backends that exist, to a transaction that is valid hex. */
  ghost predicate FromBackends(a: Answer) {
    exists indexer, rpc :: IsAnswerOf(a, indexer, rpc)
  }

  predicate IsAnswerOf(a: Answer, indexer: Option<Answer>, rpc: Option<Answer>) {
    (indexer.Some? || rpc.Some?) && a == BroadcastAnswer(true, indexer, rpc)
  }

  ghost predicate AnswersFromBackends(events: seq<Event>, id: Id) {
    forall k :: 0 <= k < |events| && events[k].SendOne? && events[k].id == id ==> FromBackends(events[k].answer)
  }

  predicate FailedIsRetried(w: World, id: Id, n: nat) {
    id in w.rows && w.rows[id].status == Failed ==> IsRequeued(Some(n), w.rows[id].error)
  }

  lemma KeepsRetried(w: World, e: Event, id: Id, n: nat)
    requires Identities(w) && Owned(w) && Enabled(w, e) && !IsUser(e) && Tracked(w, id, n) && FailedIsRetried(w, id, n)
    requires n > 0 && (e.SendOne? && e.id == id ==> FromBackends(e.answer))
    ensures FailedIsRetried(Step(w, e), id, n)
  {
    hide Step, Gate, IsRequeued, IsRetriable, Identities, Owned, Enabled, BroadcastAnswer;
    if WritesTo(w, e, id) {
      WriteOfOwner(w, e, id);
      if e.SendOne? {
        var indexer, rpc :| IsAnswerOf(e.answer, indexer, rpc);
        RefusedIsTriedAgain(n, indexer, rpc);
      }
      if IsOut(w.rows[id]) {
        StaysOut(w, e, id);
      }
    } else {
      Untouched(w, e, id);
    }
  }

  lemma {:induction false} AlwaysRetried(w: World, events: seq<Event>, s: nat, i: nat, id: Id, n: nat)
    requires Init(w) && IsRun(w, events) && NoUser(events) && s <= i <= |events| && n > 0
    requires Tracked(At(w, events, s), id, n) && FailedIsRetried(At(w, events, s), id, n) && AnswersFromBackends(events, id)
    ensures FailedIsRetried(At(w, events, i), id, n)
  {
    hide At, Step, Tracked, Identities, Owned, Enabled, FailedIsRetried, FromBackends;
    if s < i {
      AlwaysRetried(w, events, s, i - 1, id, n);
      TrackedFrom(w, events, s, i - 1, id, n);
      InvariantsAt(w, events, i - 1);
      AtNext(w, events, i - 1);
      KeepsRetried(At(w, events, i - 1), events[i - 1], id, n);
    }
  }

  // ----- health, over the chain

  /** The reading that a lock needs is there, and from a view of the chain no older than its first `since` blocks. */
  ghost predicate FreshSince(reading: Reading, chain: seq<nat>, since: nat, n: nat) {
    if n > THRESHOLD then exists k :: since <= k && reading.mtp.Some? && SeesTime(chain, k, reading.mtp.value)
    else reading.height.Some? && since <= reading.height.value + 1 <= |chain|
  }

  /** A fresh reading opens the gate for a lock that the chain met before. */
  lemma FreshOpens(reading: Reading, chain: seq<nat>, since: nat, n: nat)
    requires ValidChain(chain) && 0 < since <= |chain| && LocktimeMet(Some(n), chain[..since])
    requires FreshSince(reading, chain, since, n)
    ensures Gate(Some(n), reading) == Some(true)
  {
    if n > THRESHOLD {
      var k :| since <= k && SeesTime(chain, k, reading.mtp.value);
      TimePastGrows(chain, since, k);
    }
  }

  /** What the tick asks the backends about a transaction they answer from at least the first `since` blocks,
      and they accept it; a failed row is on the page. */
  ghost predicate AnsweredFor(w: World, e: Event, id: Id, since: nat, n: nat) {
    match e
    case FetchDue(readings) => id in readings ==> FreshSince(readings[id], w.chain, since, n)
    case SendOne(i, reading, answer) => i == id ==> FreshSince(reading, w.chain, since, n) && answer.Accepted?
    case FetchFailed(page) => id in w.rows && w.rows[id].status == Failed ==> id in page
    case _ => true
  }

  /** Every answer in the tick is from the chain as it was at the tick's start, or later. */
  ghost predicate AnsweredTick(w: World, events: seq<Event>, a: nat, b: nat, id: Id, n: nat) {
    forall k :: a <= k < b && k < |events| ==> AnsweredFor(At(w, events, k), events[k], id, |At(w, events, a).chain|, n)
  }

  lemma AnsweredIsHealthy(w: World, e: Event, id: Id, n: nat, since: nat)
    requires ValidChain(w.chain) && 0 < since <= |w.chain| && LocktimeMet(Some(n), w.chain[..since])
    requires AnsweredFor(w, e, id, since, n)
    ensures HealthyFor(w, e, id, n)
  {
    hide Gate, LocktimeMet, ValidChain, FreshSince;
    match e {
      case FetchDue(readings) =>
        if id in readings {
          FreshOpens(readings[id], w.chain, since, n);
        }
      case SendOne(i, reading, _) =>
        if i == id {
          FreshOpens(reading, w.chain, since, n);
        }
      case _ =>
    }
  }

  lemma AnsweredTickIsHealthy(w: World, events: seq<Event>, a: nat, b: nat, id: Id, n: nat)
    requires Init(w) && IsRun(w, events) && NoUser(events) && a < b < |events|
    requires At(w, events, a).chain != [] && LocktimeMet(Some(n), At(w, events, a).chain)
    requires AnsweredTick(w, events, a, b, id, n)
    ensures HealthyTick(w, events, a, b, id, n)
  {
    hide At, Step, Enabled, Identities, Owned, AnsweredFor, HealthyFor, LocktimeMet, ValidChain;
    var since := |At(w, events, a).chain|;
    forall k | a <= k < b && k < |events| ensures HealthyFor(At(w, events, k), events[k], id, n) {
      ChainIsPrefix(w, events, a, k);
      InvariantsAt(w, events, k);
      assert At(w, events, k).chain[..since] == At(w, events, a).chain;
      AnsweredIsHealthy(At(w, events, k), events[k], id, n, since);
    }
  }

  // ----- the theorem

  /** What a Sparrow broadcast inserts. */
  function SparrowTx(hex: string, network: string, n: nat, config: Config, now: nat): NewTx {
    Imported(hex, network, "sparrow", n, ResolveIngestPlan("sparrow", n, config, now))
  }

  predicate SparrowIngest(w: World, events: seq<Event>, s: nat, id: Id, hex: string, n: nat, config: Config) {
    s < |events| && events[s] == Ingest(id, SparrowTx(hex, At(w, events, s).network, n, config, At(w, events, s).now))
  }

  lemma IngestTracks(w: World, events: seq<Event>, s: nat, id: Id, hex: string, n: nat, config: Config)
    requires HasLock(n) && SparrowIngest(w, events, s, id, hex, n, config)
    ensures Tracked(At(w, events, s + 1), id, n) && FailedIsRetried(At(w, events, s + 1), id, n)
  {
    hide At;
    AtNext(w, events, s);
  }

  /** The clock is past a timestamp lock, or the monitor saw the height of a block lock. */
  ghost predicate LockReached(w: World, events: seq<Event>, s: nat, a: nat, n: nat) {
    if n > THRESHOLD then At(w, events, a).now >= n
    else exists c: nat, d: nat :: s < c && d <= a && MonitorPass(w, events, c, d, n)
  }

  /** A Sparrow transaction with an nLockTime needs no user: from its ingest on, in every interleaving of the
      loops, once the chain meets its lock and clock or monitor have reached it, one tick that the backends answer
      and accept leaves it out on the network, however often and for whatever reason they refused it before. */
  lemma SparrowNeedsNoUser(w: World, events: seq<Event>, s: nat, a: nat, b: nat, id: Id, hex: string, n: nat, config: Config)
    requires Init(w) && IsRun(w, events) && NoUser(events) && AnswersFromBackends(events, id)
    requires HasLock(n) && SparrowIngest(w, events, s, id, hex, n, config)
    requires At(w, events, a).chain != [] && LocktimeMet(Some(n), At(w, events, a).chain)
    requires s < a && LockReached(w, events, s, a, n) && CompleteTick(w, events, a, b) && AnsweredTick(w, events, a, b, id, n)
    ensures id in At(w, events, b + 1).rows && IsOut(At(w, events, b + 1).rows[id])
  {
    hide At, Step, Tracked, FailedIsRetried, HealthyTick, AnsweredTick, AnswersFromBackends, LocktimeMet;
    AnsweredTickIsHealthy(w, events, a, b, id, n);
    IngestTracks(w, events, s, id, hex, n, config);
    TrackedFrom(w, events, s + 1, a, id, n);
    AlwaysRetried(w, events, s + 1, a, id, n);
    ReadyOnceReached(w, events, s, a, id, n);
    TickSends(w, events, a, b, id, n);
  }

  lemma ReadyOnceReached(w: World, events: seq<Event>, s: nat, a: nat, id: Id, n: nat)
    requires Init(w) && IsRun(w, events) && NoUser(events) && HasLock(n) && s < a <= |events|
    requires Tracked(At(w, events, s + 1), id, n) && Tracked(At(w, events, a), id, n)
    requires FailedIsRetried(At(w, events, a), id, n) && LockReached(w, events, s, a, n)
    ensures ReadyForTick(At(w, events, a), id, n)
  {
    hide At, Step, Init, IsRun;
    if n < THRESHOLD {
      var c: nat, d: nat :| s < c && d <= a && MonitorPass(w, events, c, d, n);
      TrackedFrom(w, events, s + 1, c, id, n);
      TrackedFrom(w, events, s + 1, d, id, n);
      SeenDuring(w, events, c, d, d, id, n);
      NotPendingAgain(w, events, d, a, id, n);
    }
  }

  // ----- the exception, exactly

  /** Every page of failed rows either misses the row or finds its error not worth a retry. */
  predicate NeverRetried(events: seq<Event>, a: nat, b: nat, id: Id, n: nat, error: Option<string>) {
    forall k :: a <= k < b && k < |events| && events[k].FetchFailed? ==> id !in events[k].page || !IsRequeued(Some(n), error)
  }

  predicate NotPickedUp(p: Phase, id: Id, r: Row) {
    p.Requeueing? && id in p.held ==> !IsRequeued(r.nlocktime, r.error)
  }

  lemma KeepsFailed(w: World, e: Event, id: Id)
    requires Identities(w) && Owned(w) && Enabled(w, e) && !IsUser(e) && id in w.rows && w.rows[id].status == Failed
    requires NotPickedUp(w.phase, id, w.rows[id])
    requires e.FetchFailed? ==> id !in e.page || !IsRequeued(w.rows[id].nlocktime, w.rows[id].error)
    ensures id in Step(w, e).rows && Step(w, e).rows[id] == w.rows[id] && NotPickedUp(Step(w, e).phase, id, w.rows[id])
  {
    StaysPassedOver(w, e, id);
    hide Step, Gate, IsRequeued, IsRetriable, Identities, SendOutcome, Owned, Enabled, NotPickedUp;
    if WritesTo(w, e, id) {
      WriteOfOwner(w, e, id);
    } else {
      Untouched(w, e, id);
    }
  }

  lemma StaysPassedOver(w: World, e: Event, id: Id)
    requires Owned(w) && Enabled(w, e) && id in w.rows && NotPickedUp(w.phase, id, w.rows[id])
    requires e.FetchFailed? ==> id !in e.page || !IsRequeued(w.rows[id].nlocktime, w.rows[id].error)
    ensures NotPickedUp(Step(w, e).phase, id, w.rows[id])
  {
    hide Step, NextPhase, Enabled, Owned, IsRequeued;
    PhaseMovesInStep(w, e);
    SamePhase(w, e);
  }

  /** A failed transaction stays as it is while no page of failed rows both shows it and finds its error
      worth a retry. */
  lemma {:induction false} StaysFailed(w: World, events: seq<Event>, a: nat, b: nat, id: Id, n: nat)
    requires Init(w) && IsRun(w, events) && NoUser(events) && a <= b <= |events| && Tracked(At(w, events, a), id, n)
    requires At(w, events, a).rows[id].status == Failed
    requires NotPickedUp(At(w, events, a).phase, id, At(w, events, a).rows[id])
    requires NeverRetried(events, a, b, id, n, At(w, events, a).rows[id].error)
    ensures id in At(w, events, b).rows && At(w, events, b).rows[id] == At(w, events, a).rows[id]
    ensures NotPickedUp(At(w, events, b).phase, id, At(w, events, a).rows[id])
  {
    hide At, Step, Identities, Owned, Enabled, IsRequeued;
    if a < b {
      StaysFailed(w, events, a, b - 1, id, n);
      InvariantsAt(w, events, b - 1);
      AtNext(w, events, b - 1);
      KeepsFailed(At(w, events, b - 1), events[b - 1], id);
    }
  }

  /** Pages are finite. A failed row is on every page that can be fetched exactly when at most a page of failed
      rows is no older, and on none exactly when a page of failed rows is newer. */
  lemma WhoIsShown(w: World, id: Id)
    requires (w.phase == Marking(map[]) || w.phase.Idle?) && id in w.rows && HasStatus(w.rows[id], Failed, w.network)
    ensures (forall page :: Enabled(w, FetchFailed(page)) ==> id in page) <==> |NoOlder(WithStatus(w, Failed), id)| <= PAGE
    ensures (forall page :: Enabled(w, FetchFailed(page)) ==> id !in page) <==> |Newer(WithStatus(w, Failed), id)| >= PAGE
  {
    var failed := WithStatus(w, Failed);
    assert id in failed;
    hide WithStatus, IsPage, NoOlder, Newer;
    assert forall page :: Enabled(w, FetchFailed(page)) <==> IsPage(failed, PAGE, page);
    OnPageExactly(failed, PAGE, id);
  }

  function FailedRow(nlocktime: nat, error: string, created: nat): Row {
    Inserted(NewTx("00", "main", Some(nlocktime), Some(AtTime), Some(nlocktime), None, Some("sparrow")), created)
    .(status := Failed, error := Some(error))
  }

  /** One failed row with a lock, which a tick would retry, and n newer ones without, which it would not. */
  function Crowd(n: nat): Table {
    if n == 0 then map["" := FailedRow(600_000_000, VIA_RPC, 0)]
    else Crowd(n - 1)[Name(n) := FailedRow(0, VIA_RPC, n)]
  }

  function Name(n: nat): (id: Id)
    ensures |id| == n
  {
    seq(n, _ => 'x')
  }

  /** The row without a name is the oldest of n + 1 failed rows. */
  predicate IsCrowd(t: Table, n: nat) {
    && "" in t && t[""] == FailedRow(600_000_000, VIA_RPC, 0)
    && (forall id :: id in t ==> |id| <= n && HasStatus(t[id], Failed, "main"))
    && |Newer(t, "")| == n
  }

  lemma {:induction false} CrowdIs(n: nat)
    ensures IsCrowd(Crowd(n), n)
  {
    if n == 0 {
      CrowdStarts();
    } else {
      hide IsCrowd;
      CrowdIs(n - 1);
      FailedRowIs(0, VIA_RPC, n);
      CrowdGrows(Crowd(n - 1), n, Name(n), FailedRow(0, VIA_RPC, n));
    }
  }

  lemma FailedRowIs(nlocktime: nat, error: string, created: nat)
    ensures HasStatus(FailedRow(nlocktime, error, created), Failed, "main") && FailedRow(nlocktime, error, created).created == created
  {
  }

  lemma CrowdStarts()
    ensures IsCrowd(Crowd(0), 0)
  {
    hide FailedRow;
    FailedRowIs(600_000_000, VIA_RPC, 0);
    NoneNewer("", FailedRow(600_000_000, VIA_RPC, 0));
  }

  lemma CrowdGrows(t: Table, n: nat, x: Id, r: Row)
    requires n > 0 && IsCrowd(t, n - 1) && |x| == n && HasStatus(r, Failed, "main") && r.created == n
    ensures IsCrowd(t[x := r], n)
  {
    hide FailedRow, Newer;
    FailedRowIs(600_000_000, VIA_RPC, 0);
    OneNewer(t, "", x, r);
  }

  /** Behind a page or more of newer failures, a transaction whose error is retried is on no page. */
  lemma CrowdedOut(w: World, n: nat)
    requires (w.phase == Marking(map[]) || w.phase.Idle?) && w.network == "main" && w.rows == Crowd(n) && n >= PAGE
    ensures WorthARetry(w.rows, "") && FailedForGood(w.rows)
    ensures forall page :: Enabled(w, FetchFailed(page)) ==> "" !in page
  {
    hide Crowd, IsCrowd, Enabled, WorthARetry, FailedForGood;
    CrowdIs(n);
    CrowdForGood(n);
    CrowdedBehind(w, n);
    FirstIsRetriable(w.rows, n);
  }

  /** A failed row whose error the requeueing would pick up. */
  predicate WorthARetry(t: Table, id: Id) {
    id in t && t[id].status == Failed && IsRequeued(t[id].nlocktime, t[id].error)
  }

  lemma FirstIsRetriable(t: Table, n: nat)
    requires IsCrowd(t, n)
    ensures WorthARetry(t, "")
  {
    RpcIsRequeued(600_000_000);
    hide IsRequeued, IsRetriable;
  }

  lemma CrowdedBehind(w: World, n: nat)
    requires (w.phase == Marking(map[]) || w.phase.Idle?) && w.network == "main" && IsCrowd(w.rows, n) && n >= PAGE
    ensures forall page :: Enabled(w, FetchFailed(page)) ==> "" !in page
  {
    assert WithStatus(w, Failed) == w.rows;
    WhoIsShown(w, "");
  }

  // ----- what failed rows say

  /** Rows fail only with errors that are not retriable by their text. */
  predicate FailedForGood(rows: Table) {
    forall id :: id in rows && rows[id].status == Failed ==> GoodReason(rows[id])
  }

  predicate GoodReason(r: Row) {
    r.error.Some? && !IsRetriable(r.error.value)
  }

  lemma FailsWithReason(r: Row, u: Update)
    requires Apply(r, u).status == Failed && (r.status == Failed ==> GoodReason(r))
    requires u.Report? && u.status == Failed ==> u.error.Some? && !IsRetriable(u.error.value)
    ensures GoodReason(Apply(r, u))
  {
    hide IsRetriable;
  }

  lemma ReportsWithReason(w: World, e: Event)
    ensures var f := EffectOf(w, e);
            && (f.Change? && f.u.Report? ==> f.u.status == Failed && f.u.error.Some? && !IsRetriable(f.u.error.value))
            && (f.Insert? ==> f.row.status == Pending)
  {
    hide Gate, IsRetriable, IsRequeued;
  }

  lemma KeepsReasons(w: World, e: Event)
    requires FailedForGood(w.rows)
    ensures FailedForGood(Step(w, e).rows)
  {
    ReportsWithReason(w, e);
    var f := EffectOf(w, e);
    hide EffectOf, Apply, Moved, IsRetriable;
    if f.Change? && f.id in w.rows && Apply(w.rows[f.id], f.u).status == Failed {
      FailsWithReason(w.rows[f.id], f.u);
    }
  }

  /** In every run, whatever the user does. */
  lemma {:induction false} AlwaysFailedForGood(w: World, events: seq<Event>)
    requires Init(w)
    ensures FailedForGood(After(w, events).rows)
  {
    if events != [] {
      hide Step, FailedForGood;
      AlwaysFailedForGood(w, events[..|events| - 1]);
      KeepsReasons(After(w, events[..|events| - 1]), events[|events| - 1]);
    }
  }

  /** The crowd's rows carry an error that runs write on failed rows. */
  lemma {:induction false} CrowdForGood(n: nat)
    ensures FailedForGood(Crowd(n))
  {
    hide IsRetriable;
    RpcIsRequeued(1);
    if n > 0 {
      CrowdForGood(n - 1);
    }
  }
}
