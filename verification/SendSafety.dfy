/** What is true of every transaction the daemon sends, over every interleaving. */
module SendSafety {
  import opened Prelude
  import opened Database
  import opened Locktime
  import opened Refusals
  import opened MedianTime
  import opened Machine

  // ----- identity: ids are not reused, and nothing rewrites a transaction

  function HeldByBroadcaster(p: Phase): Table {
    match p
    case Idle => map[]
    case Marking(held) => held
    case Requeueing(held, _) => held
    case Sending(held, _) => held
  }

  predicate SameWhereBoth(held: Table, rows: Table) {
    forall id :: id in held && id in rows ==> SameTransaction(held[id], rows[id])
  }

  /** Every id in sight was given out by an ingest. */
  predicate Known(w: World) {
    && w.rows.Keys <= w.used && w.importing <= w.used
    && HeldByBroadcaster(w.phase).Keys <= w.used && w.blocked.Keys <= w.used && w.resending.Keys <= w.used
    && w.confirming.Keys <= w.used && w.priced.Keys <= w.used
  }

  predicate Identities(w: World) {
    && Known(w)
    && SameWhereBoth(HeldByBroadcaster(w.phase), w.rows) && SameWhereBoth(w.blocked, w.rows)
    && SameWhereBoth(w.resending, w.rows) && SameWhereBoth(w.confirming, w.rows) && SameWhereBoth(w.priced, w.rows)
  }

  lemma IngestIsNew(w: World, e: Event)
    requires Identities(w) && Enabled(w, e)
    ensures e.Ingest? ==> e.id !in w.rows
  {
    hide SameWhereBoth;
  }

  lemma ApplySame(r: Row, u: Update)
    ensures SameTransaction(r, Apply(r, u))
  {
  }

  lemma WrittenSame(w: World, e: Event, held: Table)
    requires Known(w) && Enabled(w, e) && held.Keys <= w.used && SameWhereBoth(held, w.rows)
    ensures SameWhereBoth(held, Written(w.rows, EffectOf(w, e)))
  {
    hide Apply, Inserted;
    var f := EffectOf(w, e);
    if f.Change? && f.id in w.rows {
      ApplySame(w.rows[f.id], f.u);
    }
  }

  lemma KeepsKnown(w: World, e: Event)
    requires Known(w) && Enabled(w, e)
    ensures Known(Step(w, e))
  {
    hide Apply, Inserted, Gate, IsRequeued, SendOutcome, IsDue, PriceMet, MedianTimePast, HonestReading, IsReschedule;
    if e.FetchFailed? || e.FetchConfirming? {
      PageFromRows(w, e);
    }
  }

  lemma PageFromRows(w: World, e: Event)
    requires Enabled(w, e) && (e.FetchFailed? || e.FetchConfirming?)
    ensures forall id :: id in e.page ==> id in w.rows && e.page[id] == w.rows[id]
    ensures Step(w, e).rows == w.rows
  {
    hide Gate;
  }

  /** What a loop holds next was held before, or has just been read from the table. */
  predicate Follows(next: Table, held: Table, rows: Table) {
    forall id :: id in next ==> (id in held && next[id] == held[id]) || (id in rows && next[id] == rows[id])
  }

  predicate UpToDate(held: Table, rows: Table) {
    forall id :: id in held ==> id in rows && rows[id] == held[id]
  }

  lemma Kept(held: Table, rows: Table)
    ensures Follows(held, held, rows) && Follows(map[], held, rows)
  {
  }

  lemma Handled(held: Table, id: Id, rows: Table)
    ensures Follows(held - {id}, held, rows)
  {
  }

  lemma Fetched(w: World, held: Table, interval: nat)
    ensures Follows(BlockRows(w), held, w.rows) && Follows(ResendRows(w, interval), held, w.rows)
    ensures Follows(PricedRows(w), held, w.rows)
  {
  }

  lemma BlockedFollows(w: World, e: Event)
    ensures Follows(Moved(w, e).blocked, w.blocked, w.rows)
  {
    hide NextPhase, Follows, BlockRows, ResendRows, PricedRows;
    Kept(w.blocked, w.rows);
    if e.FetchBlocked? {
      Fetched(w, w.blocked, 0);
    } else if e.MarkBlocked? {
      Handled(w.blocked, e.id, w.rows);
    }
  }

  lemma ResendingFollows(w: World, e: Event)
    ensures Follows(Moved(w, e).resending, w.resending, w.rows)
  {
    hide NextPhase, Follows, BlockRows, ResendRows, PricedRows;
    Kept(w.resending, w.rows);
    if e.FetchResend? {
      Fetched(w, w.resending, e.interval);
    } else if e.ResendOne? {
      Handled(w.resending, e.id, w.rows);
    }
  }

  lemma ConfirmingFollows(w: World, e: Event)
    requires Enabled(w, e)
    ensures Follows(Moved(w, e).confirming, w.confirming, w.rows)
  {
    hide NextPhase, Follows, BlockRows, ResendRows, PricedRows, Enabled;
    Kept(w.confirming, w.rows);
    if e.FetchConfirming? {
      PageFollows(w, e);
    } else if e.ConfirmOne? {
      Handled(w.confirming, e.id, w.rows);
    }
  }

  lemma PricedFollows(w: World, e: Event)
    ensures Follows(Moved(w, e).priced, w.priced, w.rows)
  {
    hide NextPhase, Follows, BlockRows, ResendRows, PricedRows;
    Kept(w.priced, w.rows);
    if e.FetchPriced? {
      Fetched(w, w.priced, 0);
    } else if e.FireOne? {
      Handled(w.priced, e.id, w.rows);
    }
  }

  lemma PageFollows(w: World, e: Event)
    requires Enabled(w, e) && e.FetchConfirming?
    ensures Follows(e.page, w.confirming, w.rows)
  {
    hide Enabled;
    PageFromRows(w, e);
  }

  lemma PhaseFollows(w: World, e: Event)
    requires Enabled(w, e)
    ensures Follows(HeldByBroadcaster(NextPhase(w, e)), HeldByBroadcaster(w.phase), w.rows)
  {
    hide EffectOf, Gate, IsDue, MedianTimePast, HonestReading;
    if e.FetchFailed? {
      PageFromRows(w, e);
    }
  }

  lemma FollowsSame(w: World, e: Event, next: Table, held: Table)
    requires Known(w) && Enabled(w, e) && held.Keys <= w.used && SameWhereBoth(held, w.rows)
    requires Follows(next, held, w.rows)
    ensures SameWhereBoth(next, Written(w.rows, EffectOf(w, e)))
  {
    hide EffectOf, Written, Enabled;
    WrittenSame(w, e, next);
  }

  lemma KeepsIdentities(w: World, e: Event)
    requires Identities(w) && Enabled(w, e)
    ensures Identities(Step(w, e))
  {
    hide Enabled, EffectOf, Written, Moved, NextPhase, SameWhereBoth, Follows;
    KeepsKnown(w, e);
    BlockedFollows(w, e);
    ResendingFollows(w, e);
    ConfirmingFollows(w, e);
    PricedFollows(w, e);
    PhaseFollows(w, e);
    SamePhase(w, e);
    var s := Moved(w, e);
    FollowsSame(w, e, HeldByBroadcaster(NextPhase(w, e)), HeldByBroadcaster(w.phase));
    FollowsSame(w, e, s.blocked, w.blocked);
    FollowsSame(w, e, s.resending, w.resending);
    FollowsSame(w, e, s.confirming, w.confirming);
    FollowsSame(w, e, s.priced, w.priced);
  }

  lemma SamePhase(w: World, e: Event)
    ensures Step(w, e).phase == NextPhase(w, e)
  {
    hide Gate, EffectOf, DueRows, PendingByTime, Written;
  }

  // ----- locks

  predicate IsOut(r: Row) {
    r.status == Broadcast || r.status == Confirmed
  }

  ghost predicate OutMeansMet(t: Table, chain: seq<nat>) {
    forall id :: id in t && IsOut(t[id]) ==> LocktimeMet(t[id].nlocktime, chain)
  }

  ghost predicate AllMet(t: Table, chain: seq<nat>) {
    forall id :: id in t ==> LocktimeMet(t[id].nlocktime, chain)
  }

  predicate AllDue(held: Table, network: string, at: nat) {
    forall id :: id in held ==> IsDueCandidate(held[id], network) && TimeHasCome(held[id], at)
  }

  ghost predicate Safe(w: World) {
    && ValidChain(w.chain)
    && OutMeansMet(w.rows, w.chain) && AllMet(w.resending, w.chain) && AllMet(w.confirming, w.chain)
    && (w.phase.Sending? ==> AllDue(w.phase.held, w.network, w.phase.at) && w.phase.at <= w.now)
    && (w.phase.Sending? ==> AllMet(w.phase.held, w.chain))
  }

  lemma ChainGrows(w: World, t: nat)
    requires Safe(w) && Enabled(w, NewBlock(t))
    ensures Safe(Step(w, NewBlock(t)))
  {
    var chain := w.chain + [t];
    assert chain[..|w.chain|] == w.chain;
    forall n | 0 < n < |chain| ensures ExceedsMedian(chain, n) {
      if n < |w.chain| {
        assert ExceedsMedian(w.chain, n) && chain[..n] == w.chain[..n];
      }
    }
    assert ValidChain(chain);
    forall n: Option<nat> | LocktimeMet(n, w.chain) ensures LocktimeMet(n, chain) {
      MetForever(n, chain, |w.chain|);
    }
  }

  lemma ReadingIsHonest(w: World, e: Event)
    requires Enabled(w, e)
    ensures e.SendOne? ==> HonestReading(e.reading, w.chain)
  {
  }

  /** Only a send whose gate is open, or a confirmation of what is out, makes a transaction go out. */
  lemma GoesOutMet(w: World, e: Event)
    requires Identities(w) && Safe(w) && Enabled(w, e)
    ensures var f := EffectOf(w, e);
            f.Change? && f.id in w.rows && IsOut(Apply(w.rows[f.id], f.u)) ==>
              IsOut(w.rows[f.id]) || LocktimeMet(w.rows[f.id].nlocktime, w.chain)
  {
    hide Gate, IsRequeued, IsRetriable, LocktimeMet, ValidChain, IsReschedule, IsPage, MedianTimePast, HonestReading;
    if e.SendOne? {
      SendGoesOutMet(w, e);
    }
  }

  lemma SendGoesOutMet(w: World, e: Event)
    requires Identities(w) && Safe(w) && Enabled(w, e) && e.SendOne?
    ensures var f := EffectOf(w, e);
            f.Change? && f.id in w.rows && IsOut(Apply(w.rows[f.id], f.u)) ==>
              IsOut(w.rows[f.id]) || LocktimeMet(w.rows[f.id].nlocktime, w.chain)
  {
    hide Gate, IsRetriable, LocktimeMet, ValidChain, MedianTimePast, HonestReading;
    ReadingIsHonest(w, e);
    var r := w.phase.held[e.id];
    if Gate(r.nlocktime, e.reading) == Some(true) {
      GateMeansMet(r.nlocktime, e.reading, w.chain);
    }
  }

  lemma RowsStaySafe(w: World, e: Event)
    requires Identities(w) && Safe(w) && Enabled(w, e)
    ensures OutMeansMet(Written(w.rows, EffectOf(w, e)), w.chain)
  {
    GoesOutMet(w, e);
    InsertsPending(w, e);
    hide EffectOf, Written, Enabled, Identities, LocktimeMet;
    WriteKeepsMet(w.rows, EffectOf(w, e), w.chain);
  }

  lemma WriteKeepsMet(rows: Table, f: Effect, chain: seq<nat>)
    requires OutMeansMet(rows, chain) && (f.Insert? ==> f.row.status == Pending)
    requires f.Change? && f.id in rows && IsOut(Apply(rows[f.id], f.u)) ==>
               IsOut(rows[f.id]) || LocktimeMet(rows[f.id].nlocktime, chain)
    ensures OutMeansMet(Written(rows, f), chain)
  {
    hide Apply, LocktimeMet;
    if f.Change? && f.id in rows {
      ApplySame(rows[f.id], f.u);
    }
  }

  lemma InsertsPending(w: World, e: Event)
    ensures EffectOf(w, e).Insert? ==> EffectOf(w, e).row.status == Pending
  {
    hide Gate, IsRequeued;
  }

  /** What the rebroadcast loop and the confirmation checker hold next: held before, or just read as broadcast. */
  predicate HeldOrOut(next: Table, held: Table, rows: Table) {
    forall id :: id in next ==>
      (id in held && next[id] == held[id]) || (id in rows && next[id] == rows[id] && rows[id].status == Broadcast)
  }

  lemma ResendingOut(w: World, e: Event)
    ensures HeldOrOut(Moved(w, e).resending, w.resending, w.rows)
  {
    if e.FetchResend? {
      JustRead(w, e.interval);
    }
    hide NextPhase, BlockRows, ResendRows, PricedRows;
  }

  lemma JustRead(w: World, interval: nat)
    ensures HeldOrOut(ResendRows(w, interval), w.resending, w.rows)
  {
  }

  lemma ConfirmingOut(w: World, e: Event)
    requires Enabled(w, e)
    ensures HeldOrOut(Moved(w, e).confirming, w.confirming, w.rows)
  {
    hide NextPhase, HonestReading, MedianTimePast;
  }

  lemma HeldStaysSafe(w: World, e: Event)
    requires Safe(w) && Enabled(w, e)
    ensures var m := Moved(w, e); AllMet(m.resending, w.chain) && AllMet(m.confirming, w.chain)
  {
    hide Enabled, Moved, LocktimeMet, ValidChain;
    ResendingOut(w, e);
    ConfirmingOut(w, e);
  }

  lemma PhaseStaysSafe(w: World, e: Event)
    requires Safe(w) && Enabled(w, e)
    ensures var m := Moved(w, e); m.phase.Sending? ==> AllDue(m.phase.held, m.network, m.phase.at) && m.phase.at <= m.now
  {
    hide Gate, IsRequeued, LocktimeMet, MedianTimePast, ValidChain;
  }

  lemma DueRowsMet(w: World, readings: map<Id, Reading>)
    requires ValidChain(w.chain) && Enabled(w, FetchDue(readings))
    ensures AllMet(DueRows(w, readings), w.chain)
  {
    hide Gate, LocktimeMet, ValidChain, HonestReading;
    var due := DueRows(w, readings);
    forall id | id in due ensures LocktimeMet(due[id].nlocktime, w.chain) {
      GateMeansMet(due[id].nlocktime, readings[id], w.chain);
    }
  }

  lemma PhaseStaysMet(w: World, e: Event)
    requires Safe(w) && Enabled(w, e)
    ensures NextPhase(w, e).Sending? ==> AllMet(NextPhase(w, e).held, w.chain)
  {
    hide Gate, IsRequeued, LocktimeMet, MedianTimePast, ValidChain, DueRows, EffectOf;
    if e.FetchDue? {
      DueRowsMet(w, e.readings);
    }
  }

  lemma KeepsSafe(w: World, e: Event)
    requires Identities(w) && Safe(w) && Enabled(w, e)
    ensures Safe(Step(w, e))
  {
    if e.NewBlock? {
      ChainGrows(w, e.time);
    } else {
      RowsStaySafe(w, e);
      HeldStaysSafe(w, e);
      PhaseStaysSafe(w, e);
      PhaseStaysMet(w, e);
      SamePhase(w, e);
      SameChain(w, e);
      hide EffectOf, Written, Moved, NextPhase, AllMet, AllDue, OutMeansMet, Enabled, Identities;
    }
  }

  lemma SameChain(w: World, e: Event)
    requires !e.NewBlock?
    ensures Moved(w, e).chain == w.chain
  {
  }

  lemma {:induction false} AlwaysSafe(w: World, events: seq<Event>)
    requires Init(w) && IsRun(w, events)
    ensures Identities(After(w, events)) && Safe(After(w, events))
  {
    if events != [] {
      var n := |events| - 1;
      RunPrefix(w, events, n);
      AlwaysSafe(w, events[..n]);
      KeepsIdentities(After(w, events[..n]), events[n]);
      KeepsSafe(After(w, events[..n]), events[n]);
    }
  }

  // ----- the theorem

  /** A step hands a transaction to the network: a send whose gate is open, or a resend. */
  predicate Emits(w: World, e: Event) {
    match e
    case SendOne(id, reading, _) =>
      w.phase.Sending? && id in w.phase.held && Gate(w.phase.held[id].nlocktime, reading) == Some(true)
    case ResendOne(id, _) => id in w.resending
    case _ => false
  }

  function EmittedRow(w: World, e: Event): Row
    requires Emits(w, e)
  {
    if e.SendOne? then w.phase.held[e.id] else w.resending[e.id]
  }

  /** The tick that sends fetched the row from the table, at the tick's own clock. */
  ghost predicate FetchedFromTable(w: World, events: seq<Event>, i: nat, id: Id, r: Row, at: nat) {
    exists f :: FetchedAtStep(w, events, i, f, id, r, at)
  }

  ghost predicate FetchedAtStep(w: World, events: seq<Event>, i: nat, f: int, id: Id, r: Row, at: nat) {
    && 0 <= f < i <= |events| && events[f].FetchDue?
    && id in At(w, events, f).rows && At(w, events, f).rows[id] == r && At(w, events, f).now == at
    && SendsThroughout(w, events, f + 1, i)
  }

  /** One and the same tick is sending from state j to state i. */
  ghost predicate SendsThroughout(w: World, events: seq<Event>, j: nat, i: nat) {
    forall k :: j <= k <= i ==> At(w, events, k).phase.Sending?
  }

  ghost predicate HasFetchRecord(w: World, events: seq<Event>, i: nat, id: Id) {
    var p := At(w, events, i).phase;
    p.Sending? && id in p.held ==> FetchedFromTable(w, events, i, id, p.held[id], p.at)
  }

  /** A phase that sends has just fetched, or holds what it held. */
  lemma SendingGoesOn(w: World, e: Event)
    ensures Step(w, e).phase.Sending? ==>
              if e.FetchDue? then Step(w, e).phase == Sending(DueRows(w, e.readings), w.now)
              else w.phase.Sending? && Step(w, e).phase.at == w.phase.at &&
                   forall id :: id in Step(w, e).phase.held ==> id in w.phase.held && w.phase.held[id] == Step(w, e).phase.held[id]
  {
    hide Gate, EffectOf, DueRows, PendingByTime, Written;
  }

  lemma RecordStep(w: World, events: seq<Event>, i: nat, id: Id)
    requires i < |events| && HasFetchRecord(w, events, i, id)
    ensures HasFetchRecord(w, events, i + 1, id)
  {
    hide At, Step;
    AtNext(w, events, i);
    var before, now := At(w, events, i), At(w, events, i + 1);
    SendingGoesOn(before, events[i]);
    if now.phase.Sending? && id in now.phase.held {
      if events[i].FetchDue? {
        assert FetchedAtStep(w, events, i + 1, i, id, now.phase.held[id], now.phase.at);
      } else {
        var f :| FetchedAtStep(w, events, i, f, id, before.phase.held[id], before.phase.at);
        assert SendsThroughout(w, events, f + 1, i + 1);
        assert FetchedAtStep(w, events, i + 1, f, id, now.phase.held[id], now.phase.at);
      }
    }
  }

  lemma {:induction false} HeldWasFetched(w: World, events: seq<Event>, i: nat, id: Id)
    requires Init(w) && i <= |events|
    ensures HasFetchRecord(w, events, i, id)
  {
    hide Step;
    if i > 0 {
      hide HasFetchRecord;
      HeldWasFetched(w, events, i - 1, id);
      RecordStep(w, events, i - 1, id);
    }
  }

  lemma ChainStep(w: World, e: Event)
    ensures w.chain <= Step(w, e).chain
  {
    hide NextPhase, EffectOf, Written;
  }

  lemma {:induction false} ChainIsPrefix(w: World, events: seq<Event>, i: nat, j: nat)
    requires i <= j <= |events|
    ensures At(w, events, i).chain <= At(w, events, j).chain
  {
    hide At, Step;
    if i < j {
      ChainIsPrefix(w, events, i, j - 1);
      AtNext(w, events, j - 1);
      ChainStep(At(w, events, j - 1), events[j - 1]);
    }
  }

  lemma MetLater(w: World, events: seq<Event>, i: nat, j: nat, nlocktime: Option<nat>)
    requires Init(w) && IsRun(w, events) && i <= j <= |events|
    requires LocktimeMet(nlocktime, At(w, events, i).chain)
    ensures LocktimeMet(nlocktime, At(w, events, j).chain)
  {
    ChainIsPrefix(w, events, i, j);
    RunPrefix(w, events, j);
    AlwaysSafe(w, events[..j]);
    var later, n := At(w, events, j).chain, |At(w, events, i).chain|;
    assert later[..n] == At(w, events, i).chain;
    MetForever(nlocktime, later, n);
  }

  /** Whatever the loops and the user's commands do in between: what the broadcast loop sends was, when its
      tick fetched it, a scheduled row of the active network that was past its deferral or scheduled time;
      and everything that is sent or resent has its nLockTime met by the chain at that moment and ever after,
      which is final for the network except while the median time past stands exactly at the lock. */
  lemma SendsAreGated(w: World, events: seq<Event>, i: nat, j: nat)
    requires Init(w) && IsRun(w, events) && i < |events| && i <= j <= |events| && Emits(At(w, events, i), events[i])
    ensures var n, chain := EmittedRow(At(w, events, i), events[i]).nlocktime, At(w, events, j).chain;
            && LocktimeMet(n, chain)
            && (|chain| <= THRESHOLD ==> (Final(n, chain) <==> !AtTheLock(n, chain)))
    ensures events[i].SendOne? ==>
              var s := At(w, events, i);
              var r := EmittedRow(s, events[i]);
              && r.status == Scheduled && r.network == s.network && TimeHasCome(r, s.phase.at) && s.phase.at <= s.now
              && FetchedFromTable(w, events, i, events[i].id, r, s.phase.at)
  {
    var s, e := At(w, events, i), events[i];
    RunPrefix(w, events, i);
    AlwaysSafe(w, events[..i]);
    assert Enabled(s, e);
    if e.SendOne? {
      GateMeansMet(EmittedRow(s, e).nlocktime, e.reading, s.chain);
      HeldWasFetched(w, events, i, e.id);
    }
    MetLater(w, events, i, j, EmittedRow(s, e).nlocktime);
    if |At(w, events, j).chain| <= THRESHOLD {
      MetIsFinal(EmittedRow(s, e).nlocktime, At(w, events, j).chain);
    }
  }

  // ----- without the user, a loop's view of its rows is never out of date

  predicate AllHave(t: Table, status: Status) {
    forall id :: id in t ==> t[id].status == status
  }

  predicate AllByDate(w: World) {
    (forall id :: id in w.rows ==> w.rows[id].trigger == Some(ByDate)) && w.priced == map[]
  }

  predicate ImportsPending(w: World) {
    forall id :: id in w.importing ==>
      id in w.rows && w.rows[id].status == Pending && w.rows[id].mode == Some(Immediate)
  }

  predicate BlockedPending(w: World) {
    UpToDate(w.blocked, w.rows) &&
    forall id :: id in w.blocked ==> w.blocked[id].status == Pending && w.blocked[id].mode == Some(ByBlock)
  }

  predicate OutThere(held: Table, rows: Table) {
    forall id :: id in held ==> id in rows && IsOut(rows[id])
  }

  predicate PhaseOwns(p: Phase, rows: Table) {
    UpToDate(HeldByBroadcaster(p), rows) &&
    match p
    case Idle => true
    case Marking(held) =>
      forall id :: id in held ==> held[id].status == Pending && held[id].mode != Some(Immediate) && held[id].mode != Some(ByBlock)
    case Requeueing(held, _) => AllHave(held, Failed)
    case Sending(held, _) => AllHave(held, Scheduled)
  }

  predicate Owned(w: World) {
    && AllByDate(w) && ImportsPending(w) && BlockedPending(w)
    && OutThere(w.resending, w.rows) && OutThere(w.confirming, w.rows) && PhaseOwns(w.phase, w.rows)
  }

  lemma KeepsByDate(w: World, e: Event)
    requires AllByDate(w) && Enabled(w, e) && !IsUser(e)
    ensures AllByDate(Step(w, e))
  {
    LoopsNeverArm(w, e);
    PricedOrHeld(w, e);
    hide EffectOf, Moved, Enabled;
    ByDateWrite(w.rows, EffectOf(w, e));
  }

  lemma LoopsNeverArm(w: World, e: Event)
    requires !IsUser(e)
    ensures var f := EffectOf(w, e); (f.Insert? ==> f.row.trigger == Some(ByDate)) && (f.Change? ==> !f.u.Arm?)
  {
    hide Gate, IsRequeued, IsDue, Moved;
  }

  /** What the price loop holds next was held, or is a row just read that waits for a price. */
  predicate HeldOrPriced(next: Table, held: Table, rows: Table) {
    forall id :: id in next ==>
      (id in held && next[id] == held[id]) || (id in rows && next[id] == rows[id] && rows[id].trigger == Some(ByPrice))
  }

  lemma PricedOrHeld(w: World, e: Event)
    ensures HeldOrPriced(Moved(w, e).priced, w.priced, w.rows)
  {
    JustPriced(w);
    hide NextPhase, BlockRows, ResendRows, PricedRows;
  }

  lemma JustPriced(w: World)
    ensures HeldOrPriced(PricedRows(w), w.priced, w.rows)
  {
  }

  lemma ByDateWrite(rows: Table, f: Effect)
    requires forall id :: id in rows ==> rows[id].trigger == Some(ByDate)
    requires (f.Insert? ==> f.row.trigger == Some(ByDate)) && (f.Change? ==> !f.u.Arm?)
    ensures forall id :: id in Written(rows, f) ==> Written(rows, f)[id].trigger == Some(ByDate)
  {
    hide Apply;
    if f.Change? && f.id in rows {
      KeepsTrigger(rows[f.id], f.u);
    }
  }

  lemma KeepsTrigger(r: Row, u: Update)
    requires r.trigger == Some(ByDate) && !u.Arm?
    ensures Apply(r, u).trigger == Some(ByDate)
  {
  }

  /** The step is a loop's own write to a row it holds. */
  predicate WritesTo(w: World, e: Event, id: Id) {
    match e
    case IngestDue(i) => i == id && id in w.importing
    case MarkOne(i) => i == id && w.phase.Marking? && id in w.phase.held
    case RequeueOne(i) => i == id && w.phase.Requeueing? && id in w.phase.held
    case SendOne(i, _, _) => i == id && w.phase.Sending? && id in w.phase.held
    case MarkBlocked(i) => i == id && id in w.blocked
    case ResendOne(i, _) => i == id && id in w.resending
    case ConfirmOne(i, _) => i == id && id in w.confirming
    case _ => false
  }

  lemma Untouched(w: World, e: Event, id: Id)
    requires Identities(w) && Owned(w) && Enabled(w, e) && !IsUser(e) && id in w.rows && !WritesTo(w, e, id)
    ensures id in Step(w, e).rows && Step(w, e).rows[id] == w.rows[id]
  {
    WritesElsewhere(w, e, id);
    hide EffectOf, Moved, Enabled, Identities, Owned, WritesTo, Apply;
  }

  lemma WritesElsewhere(w: World, e: Event, id: Id)
    requires Identities(w) && Owned(w) && Enabled(w, e) && !IsUser(e) && id in w.rows && !WritesTo(w, e, id)
    ensures var f := EffectOf(w, e); f.Change? || f.Insert? || f.Delete? ==> f.id != id
  {
    hide Gate, IsRequeued, SendOutcome, PhaseOwns, BlockedPending, OutThere, ImportsPending, SameWhereBoth, HonestReading, IsPage;
  }

  /** Without the user, a transaction that is out stays out. */
  lemma StaysOut(w: World, e: Event, id: Id)
    requires Identities(w) && Owned(w) && Enabled(w, e) && !IsUser(e) && id in w.rows && IsOut(w.rows[id])
    ensures id in Step(w, e).rows && IsOut(Step(w, e).rows[id])
  {
    if WritesTo(w, e, id) {
      assert e.ResendOne? || e.ConfirmOne?;
      hide Gate, IsRequeued, IsDue, NextPhase, IsPage, HonestReading, SendOutcome, PhaseOwns;
    } else {
      hide *;
      Untouched(w, e, id);
    }
  }

  lemma NextImport(w: World, e: Event, id: Id)
    requires id in Step(w, e).importing
    ensures if e.Ingest? && e.id == id && id !in w.importing then
              id in Step(w, e).rows && Step(w, e).rows[id].status == Pending && Step(w, e).rows[id].mode == Some(Immediate)
            else id in w.importing && e != IngestDue(id)
  {
    hide Written, EffectOf, NextPhase;
    if e.Ingest? {
      IngestInserts(w, e);
    }
  }

  lemma IngestInserts(w: World, e: Event)
    requires e.Ingest?
    ensures Step(w, e).rows == w.rows[e.id := Inserted(e.tx, w.now)]
  {
  }

  lemma OnlyImportWrites(w: World, e: Event, id: Id)
    requires Owned(w) && id in w.importing && e != IngestDue(id)
    ensures !WritesTo(w, e, id)
  {
    hide AllByDate;
  }

  lemma KeepsImports(w: World, e: Event)
    requires Identities(w) && Owned(w) && Enabled(w, e) && !IsUser(e)
    ensures ImportsPending(Step(w, e))
  {
    hide Step, Enabled, WritesTo, Identities, PhaseOwns, OutThere, BlockedPending, AllByDate;
    var s := Step(w, e);
    forall id | id in s.importing
      ensures id in s.rows && s.rows[id].status == Pending && s.rows[id].mode == Some(Immediate)
    {
      NextImport(w, e, id);
      if id in w.importing {
        OnlyImportWrites(w, e, id);
        Untouched(w, e, id);
      }
    }
  }

  lemma OnlyMonitorWrites(w: World, e: Event, id: Id)
    requires Owned(w) && id in w.blocked && e != MarkBlocked(id)
    ensures !WritesTo(w, e, id)
  {
    hide AllByDate;
    assert w.rows[id].status == Pending && w.rows[id].mode == Some(ByBlock);
  }

  predicate BlockedOne(w: World, id: Id) {
    id in w.blocked ==>
      id in w.rows && w.rows[id] == w.blocked[id] && w.rows[id].status == Pending && w.rows[id].mode == Some(ByBlock)
  }

  lemma NextBlocked(w: World, e: Event, id: Id)
    requires id in Step(w, e).blocked
    ensures if e.FetchBlocked? then
              id in w.rows && IsPendingByBlock(w.rows[id], w.network) && Step(w, e).blocked[id] == w.rows[id]
            else id in w.blocked && Step(w, e).blocked[id] == w.blocked[id] && e != MarkBlocked(id)
  {
    hide NextPhase, EffectOf, Written;
  }

  lemma KeepsBlockedOne(w: World, e: Event, id: Id)
    requires Identities(w) && Owned(w) && Enabled(w, e) && !IsUser(e)
    ensures BlockedOne(Step(w, e), id)
  {
    hide Step, Enabled, WritesTo, Identities, PhaseOwns, OutThere, ImportsPending, AllByDate;
    if id in Step(w, e).blocked {
      NextBlocked(w, e, id);
      if e.FetchBlocked? {
        NoWrite(w, e);
      } else {
        OnlyMonitorWrites(w, e, id);
        Untouched(w, e, id);
      }
    }
  }

  lemma NoWrite(w: World, e: Event)
    requires e.FetchBlocked? || e.FetchDue? || e.FetchFailed? || e.StartTick?
    ensures Step(w, e).rows == w.rows
  {
    hide Gate, NextPhase;
  }

  lemma KeepsBlocked(w: World, e: Event)
    requires Identities(w) && Owned(w) && Enabled(w, e) && !IsUser(e)
    ensures BlockedPending(Step(w, e))
  {
    hide Step;
    var s := Step(w, e);
    forall id | id in s.blocked
      ensures id in s.rows && s.rows[id] == s.blocked[id] && s.rows[id].status == Pending && s.rows[id].mode == Some(ByBlock)
    {
      KeepsBlockedOne(w, e, id);
    }
  }

  lemma HeldIsOut(w: World, e: Event, next: Table, held: Table)
    requires Identities(w) && Owned(w) && Enabled(w, e) && !IsUser(e)
    requires OutThere(held, w.rows) && HeldOrOut(next, held, w.rows)
    ensures OutThere(next, Step(w, e).rows)
  {
    hide Identities, Owned, Enabled, Step;
    var rows := Step(w, e).rows;
    forall id | id in next ensures id in rows && IsOut(rows[id]) {
      StaysOut(w, e, id);
    }
  }

  lemma KeepsOut(w: World, e: Event)
    requires Identities(w) && Owned(w) && Enabled(w, e) && !IsUser(e)
    ensures var s := Step(w, e); OutThere(s.resending, s.rows) && OutThere(s.confirming, s.rows)
  {
    hide Identities, Enabled, Moved, EffectOf, Written, OutThere, HeldOrOut;
    ResendingOut(w, e);
    ConfirmingOut(w, e);
    HeldIsOut(w, e, Moved(w, e).resending, w.resending);
    HeldIsOut(w, e, Moved(w, e).confirming, w.confirming);
  }

  predicate PhaseOne(p: Phase, rows: Table, id: Id) {
    id in HeldByBroadcaster(p) ==>
      && id in rows && rows[id] == HeldByBroadcaster(p)[id]
      && match p
         case Idle => true
         case Marking(_) =>
           rows[id].status == Pending && rows[id].mode != Some(Immediate) && rows[id].mode != Some(ByBlock)
         case Requeueing(_, _) => rows[id].status == Failed
         case Sending(_, _) => rows[id].status == Scheduled
  }

  lemma OnlyBroadcasterWrites(w: World, e: Event, id: Id)
    requires Owned(w) && id in HeldByBroadcaster(w.phase) && !e.MarkOne? && !e.RequeueOne? && !e.SendOne?
    ensures !WritesTo(w, e, id)
  {
  }

  /** What the next phase holds is just fetched, or was held and is not what the step writes to. */
  lemma NextHolds(w: World, e: Event, id: Id)
    requires Enabled(w, e) && id in HeldByBroadcaster(NextPhase(w, e))
    ensures e.FetchDue? || e.FetchFailed? || e.StartTick? ||
            (id in HeldByBroadcaster(w.phase) && HeldByBroadcaster(w.phase)[id] == HeldByBroadcaster(NextPhase(w, e))[id]
             && ((e.MarkOne? || e.RequeueOne? || e.SendOne?) ==> e.id != id)
             && (NextPhase(w, e).Marking? <==> w.phase.Marking?)
             && (NextPhase(w, e).Requeueing? <==> w.phase.Requeueing?))
  {
    hide Gate, EffectOf, DueRows, PendingByTime, HonestReading, IsPage, MedianTimePast;
  }

  lemma KeepsPhaseOne(w: World, e: Event, id: Id)
    requires Identities(w) && Owned(w) && Enabled(w, e) && !IsUser(e)
    ensures PhaseOne(NextPhase(w, e), Step(w, e).rows, id)
  {
    hide Gate, IsRequeued, IsDue, HonestReading, Apply, SendOutcome, Written, EffectOf, Moved, Step;
    hide Identities, BlockedPending, OutThere, ImportsPending, AllByDate;
    if id in HeldByBroadcaster(NextPhase(w, e)) {
      NextHolds(w, e, id);
      if e.FetchDue? || e.FetchFailed? || e.StartTick? {
        NoWrite(w, e);
      } else {
        hide Enabled, NextPhase;
        if e.MarkOne? || e.RequeueOne? || e.SendOne? {
        } else {
          OnlyBroadcasterWrites(w, e, id);
        }
        Untouched(w, e, id);
      }
    }
  }

  lemma KeepsPhase(w: World, e: Event)
    requires Identities(w) && Owned(w) && Enabled(w, e) && !IsUser(e)
    ensures PhaseOwns(Step(w, e).phase, Step(w, e).rows)
  {
    hide Step, NextPhase;
    SamePhase(w, e);
    var p, rows := NextPhase(w, e), Step(w, e).rows;
    forall id | id in HeldByBroadcaster(p)
      ensures id in rows && rows[id] == HeldByBroadcaster(p)[id] && PhaseOne(p, rows, id)
    {
      KeepsPhaseOne(w, e, id);
    }
  }

  lemma KeepsOwned(w: World, e: Event)
    requires Identities(w) && Owned(w) && Enabled(w, e) && !IsUser(e)
    ensures Owned(Step(w, e))
  {
    KeepsByDate(w, e);
    KeepsImports(w, e);
    KeepsBlocked(w, e);
    KeepsOut(w, e);
    KeepsPhase(w, e);
  }

  predicate NoUser(events: seq<Event>) {
    forall i :: 0 <= i < |events| ==> !IsUser(events[i])
  }

  lemma {:induction false} AlwaysOwned(w: World, events: seq<Event>)
    requires Init(w) && IsRun(w, events) && NoUser(events)
    ensures Owned(After(w, events))
  {
    if events != [] {
      var n := |events| - 1;
      RunPrefix(w, events, n);
      AlwaysOwned(w, events[..n]);
      AlwaysSafe(w, events[..n]);
      KeepsOwned(After(w, events[..n]), events[n]);
    }
  }

  /** In a run without user commands, a transaction is a scheduled row of the table at the moment it is
      sent, and one that is out already when it is resent. */
  lemma SentFromTable(w: World, events: seq<Event>, i: nat)
    requires Init(w) && IsRun(w, events) && NoUser(events) && i < |events| && Emits(At(w, events, i), events[i])
    ensures var s := At(w, events, i);
            events[i].id in s.rows &&
            if events[i].SendOne? then s.rows[events[i].id] == EmittedRow(s, events[i]) && s.rows[events[i].id].status == Scheduled
            else IsOut(s.rows[events[i].id])
  {
    RunPrefix(w, events, i);
    AlwaysOwned(w, events[..i]);
  }
}
