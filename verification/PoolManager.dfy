/** The passes of the scheduler loops, as the code runs them over the table, each proved to be a run of the
    state machine: what is proved of every run holds of every pass. */
module PoolManager {
  import opened Prelude
  import opened Database
  import opened Locktime
  import opened Refusals
  import opened MedianTime
  import opened Machine

  lemma RestNext(rows: Table, ids: seq<Id>)
    requires RepeatFree(ids) && ids != [] && ids[0] in rows
    ensures ids[0] in Rest(rows, ids) && Rest(rows, ids)[ids[0]] == rows[ids[0]]
    ensures Rest(rows, ids) - {ids[0]} == Rest(rows, ids[1..]) && RepeatFree(ids[1..])
  {
    assert ids == [ids[0]] + ids[1..];
  }

  lemma ListedIn(ids: seq<Id>, rows: Table, p: Row -> bool)
    requires Lists(ids, Where(rows, p))
    ensures forall id <- ids :: id in rows && p(rows[id])
  {
  }

  // ----- one step of each loop

  lemma Marks(w: World, id: Id)
    requires w.phase.Marking? && id in w.phase.held
    ensures Enabled(w, MarkOne(id))
    ensures Step(w, MarkOne(id)) == w.(phase := Marking(w.phase.held - {id}), rows := Updated(w.rows, id, Due(w.now)))
  {
  }

  lemma Requeues(w: World, id: Id)
    requires w.phase.Requeueing? && id in w.phase.held && id in w.rows && w.rows[id].status == Failed
    ensures Enabled(w, RequeueOne(id))
    ensures var r := w.phase.held[id];
            Step(w, RequeueOne(id)) ==
            w.(phase := Requeueing(w.phase.held - {id}, w.phase.tick),
               rows := if IsRequeued(r.nlocktime, r.error) then Updated(w.rows, id, Requeue) else w.rows)
  {
    hide IsRequeued;
  }

  /** The table after one send. */
  function AfterSend(rows: Table, id: Id, outcome: Outcome): Table {
    if outcome.Write? then Updated(rows, id, outcome.u) else rows
  }

  lemma Sends(w: World, id: Id, reading: Reading, answer: Answer)
    requires w.phase.Sending? && id in w.phase.held && HonestReading(reading, w.chain)
    ensures Enabled(w, SendOne(id, reading, answer))
    ensures var r := w.phase.held[id];
            var open := Gate(r.nlocktime, reading);
            Step(w, SendOne(id, reading, answer)) ==
            w.(phase := if open.None? then Idle else Sending(w.phase.held - {id}, w.phase.at),
               rows := AfterSend(w.rows, id, SendOutcome(r, open, answer, w.phase.at, w.now)))
  {
    hide Gate, SendOutcome, HonestReading;
  }

  /** One turn of the send loop, behind the turns before. */
  lemma TurnRuns(w: World, events: seq<Event>, held: Table, left: seq<Id>, now: nat, rows: Table, reading: Reading, answer: Answer)
    requires IsRun(w, events) && BusyBetween(w, events, 0, |events|) && w.now == now && HonestReading(reading, w.chain)
    requires After(w, events) == w.(phase := Sending(Rest(held, left), now), rows := rows)
    requires RepeatFree(left) && left != [] && left[0] in held
    ensures var e := SendOne(left[0], reading, answer);
            var r := held[left[0]];
            var open := Gate(r.nlocktime, reading);
            && IsRun(w, events + [e])
            && After(w, events + [e]) == w.(phase := if open.None? then Idle else Sending(Rest(held, left[1..]), now),
                                            rows := AfterSend(rows, left[0], SendOutcome(r, open, answer, now, now)))
            && (open.Some? ==> BusyBetween(w, events + [e], 0, |events| + 1))
  {
    hide Gate, SendOutcome, HonestReading, After, IsRun, BusyBetween, Rest, AfterSend, Enabled, Step;
    RestNext(held, left);
    Sends(After(w, events), left[0], reading, answer);
    RunExtends(w, events, SendOne(left[0], reading, answer));
    StaysBusy(w, events, SendOne(left[0], reading, answer));
  }

  lemma Blocks(w: World, id: Id)
    requires id in w.blocked
    ensures Enabled(w, MarkBlocked(id))
    ensures var r := w.blocked[id];
            Step(w, MarkBlocked(id)) ==
            w.(blocked := w.blocked - {id},
               rows := if r.nlocktime.Some? && w.tip >= r.nlocktime.value then Updated(w.rows, id, Due(w.now)) else w.rows)
  {
  }

  lemma Resends(w: World, id: Id, answer: Answer)
    requires id in w.resending
    ensures Enabled(w, ResendOne(id, answer))
    ensures Step(w, ResendOne(id, answer)) ==
            w.(resending := w.resending - {id},
               rows := if answer.Accepted? then Updated(w.rows, id, Resent(w.now)) else w.rows)
  {
  }

  lemma Confirms(w: World, id: Id, seen: Option<nat>)
    requires id in w.confirming
    ensures Enabled(w, ConfirmOne(id, seen))
    ensures Step(w, ConfirmOne(id, seen)) ==
            w.(confirming := w.confirming - {id},
               rows := if seen.Some? then Updated(w.rows, id, Confirm(seen.value, w.now)) else w.rows)
  {
  }

  lemma Fires(w: World, id: Id)
    requires id in w.priced
    ensures Enabled(w, FireOne(id))
    ensures Step(w, FireOne(id)) ==
            w.(priced := w.priced - {id},
               rows := if PriceMet(w.priced[id], w.prices) then Updated(w.rows, id, Fire(w.now)) else w.rows)
  {
    hide PriceMet;
  }

  /** The rows that a pass has still to look at are as they were, and all others as f makes them. */
  ghost predicate Swept(was: Table, rows: Table, rest: seq<Id>, f: (Id, Row) -> Row) {
    rows.Keys == was.Keys && forall id :: id in was ==> rows[id] == if id in rest then was[id] else f(id, was[id])
  }

  lemma SweptFirst(was: Table, rest: seq<Id>, f: (Id, Row) -> Row)
    requires forall id :: id in was && id !in rest ==> f(id, was[id]) == was[id]
    ensures Swept(was, was, rest, f)
  {
  }

  lemma SweptNext(was: Table, rows: Table, rest: seq<Id>, f: (Id, Row) -> Row)
    requires Swept(was, rows, rest, f) && RepeatFree(rest) && rest != [] && rest[0] in was
    ensures rest[0] in rows && rows[rest[0]] == was[rest[0]]
    ensures Swept(was, rows[rest[0] := f(rest[0], was[rest[0]])], rest[1..], f)
    ensures f(rest[0], was[rest[0]]) == was[rest[0]] ==> Swept(was, rows, rest[1..], f)
  {
    assert rest == [rest[0]] + rest[1..];
  }

  function Marked(network: string, now: nat): (Id, Row) -> Row {
    (id: Id, r: Row) =>
      if IsPendingByTime(r, network, now) && r.trigger != Some(ByPrice)
      then r.(status := Scheduled, scheduledTime := Some(now)) else r
  }

  lemma Unmarked(was: Table, ids: seq<Id>, network: string, now: nat)
    requires Lists(ids, Where(was, r => IsPendingByTime(r, network, now)))
    ensures Swept(was, was, ids, Marked(network, now))
    ensures forall id <- ids :: id in was && IsPendingByTime(was[id], network, now)
  {
    hide IsPendingByTime;
  }

  lemma WhatIsMarked(was: Table, rows: Table, network: string, now: nat)
    requires Swept(was, rows, [], Marked(network, now))
    ensures rows.Keys == was.Keys
    ensures forall id :: id in was ==>
              var r := was[id];
              rows[id] == if r.status == Pending && (r.mode == Some(AtTime) || r.mode == Some(Manual)) && r.network == network
                             && r.scheduledTime.Some? && r.scheduledTime.value <= now && r.trigger != Some(ByPrice)
                          then r.(status := Scheduled, scheduledTime := Some(now)) else r
  {
  }

  function Requeued(page: set<Id>): (Id, Row) -> Row {
    (id: Id, r: Row) => if id in page && IsRequeued(r.nlocktime, r.error) then r.(status := Scheduled, error := None) else r
  }

  lemma NotRequeued(was: Table, ids: seq<Id>, page: Table)
    requires forall id :: id in page ==> id in ids
    ensures Swept(was, was, ids, Requeued(page.Keys))
  {
    hide IsRequeued;
  }

  lemma WhatIsRequeued(was: Table, rows: Table, page: Table)
    requires Swept(was, rows, [], Requeued(page.Keys))
    ensures rows.Keys == was.Keys
    ensures forall id :: id in was ==>
              var r := was[id];
              var error := match r.error case Some(e) => e case None => "";
              rows[id] == if id in page && (IsRetriable(error) || (r.nlocktime.Some? && r.nlocktime.value > 0
                                                                   && Contains(error, "Failed to broadcast")))
                          then r.(status := Scheduled, error := None) else r
  {
    hide IsRetriable, Contains;
  }

  function Fired(network: string, prices: map<Currency, real>, now: nat): (Id, Row) -> Row {
    (id: Id, r: Row) =>
      if IsPriceTriggered(r, network) && PriceMet(r, prices)
      then r.(status := Scheduled, scheduledTime := Some(now), trigger := Some(ByDate)) else r
  }

  lemma Unfired(was: Table, ids: seq<Id>, network: string, prices: map<Currency, real>, now: nat)
    requires Lists(ids, Where(was, r => IsPriceTriggered(r, network)))
    ensures Swept(was, was, ids, Fired(network, prices, now))
    ensures forall id <- ids :: id in was && IsPriceTriggered(was[id], network)
  {
    hide PriceMet, IsPriceTriggered;
  }

  lemma WhatIsFired(stale: bool, was: Table, rows: Table, network: string, prices: map<Currency, real>, now: nat)
    requires if stale then rows == was else Swept(was, rows, [], Fired(network, prices, now))
    ensures rows.Keys == was.Keys
    ensures (set id | id in rows && id in was && rows[id].trigger != was[id].trigger) ==
            if stale then {} else Met(Where(was, r => IsPriceTriggered(r, network)), prices).Keys
    ensures forall id :: id in was ==>
              var r := was[id];
              var currency := match r.currency case Some(c) => c case None => Usd;
              rows[id] == if !stale && (r.status == Pending || r.status == Scheduled) && r.network == network
                             && r.trigger == Some(ByPrice) && r.targetPrice.Some? && currency in prices
                             && (if r.condition == Some(Below) then prices[currency] <= r.targetPrice.value
                                 else r.targetPrice.value <= prices[currency])
                          then r.(status := Scheduled, scheduledTime := Some(now), trigger := Some(ByDate)) else r
  {
  }

  lemma RescheduleStep(w: World, id: Id, time: nat, fee: real)
    ensures var e := ScheduleAt(id, time, fee);
            && (Enabled(w, e) <==> id in w.rows && CanScheduleAt(w.rows[id], time, w.now))
            && (id in w.rows ==>
                 Step(w, e) == w.(rows := Updated(w.rows, id, Reschedule(time, if IsReschedule(w.rows[id]) then Some(time) else None, fee))))
  {
  }

  lemma ArmStep(w: World, id: Id, target: real, currency: Currency, condition: Condition, fee: real)
    ensures var e := ScheduleByPrice(id, target, currency, condition, fee);
            && (Enabled(w, e) <==> id in w.rows && CanArm(w.rows[id], target))
            && Step(w, e) == w.(rows := Updated(w.rows, id, Arm(target, currency, condition, fee)))
  {
  }

  /** The run of a pass starts with its query. */
  predicate Opens(events: seq<Event>, query: Event) {
    events != [] && events[0] == query
  }

  class PoolManager {
    const db: Database
    const mtp: MtpCache
    const network: string

    constructor (db: Database, mtp: MtpCache, network: string)
      ensures this.db == db && this.mtp == mtp && this.network == network
    {
      this.db, this.mtp, this.network := db, mtp, network;
    }

    /** First part of a tick: mark what is pending and due. */
    method MarkPendingDue(now: nat, ghost w: World) returns (ghost events: seq<Event>)
      requires w.rows == db.rows && w.network == network && w.now == now && w.phase.Idle?
      modifies db
      ensures IsRun(w, events) && After(w, events) == w.(phase := Marking(map[]), rows := db.rows)
      ensures Begun(w, events) && (forall e <- events :: e.StartTick? || e.MarkOne?)
      ensures db.rows.Keys == old(db.rows).Keys
      ensures forall id :: id in old(db.rows) ==>
                var r := old(db.rows)[id];
                db.rows[id] == if r.status == Pending && (r.mode == Some(AtTime) || r.mode == Some(Manual)) && r.network == network
                                  && r.scheduledTime.Some? && r.scheduledTime.value <= now && r.trigger != Some(ByPrice)
                               then r.(status := Scheduled, scheduledTime := Some(now)) else r
    {
      hide Swept, Marked, Enabled, Step, Waiting;
      var ids := db.Select(r => IsPendingByTime(r, network, now));
      ghost var held := Starts(w, ids);
      Unmarked(w.rows, ids, network, now);
      RunOfOne(w, StartTick);
      events := MarkAll(ids, now, w, held);
      WhatIsMarked(w.rows, db.rows, network, now);
    }

    /** The loop over the rows fetched. */
    method MarkAll(ids: seq<Id>, now: nat, ghost w: World, ghost held: Table) returns (ghost events: seq<Event>)
      requires w.now == now && w.network == network && db.rows == w.rows && w.phase.Idle?
      requires IsRun(w, [StartTick]) && After(w, [StartTick]) == w.(phase := Marking(Rest(held, ids)))
      requires Waiting(held, w.rows, db.rows, ids) && Swept(w.rows, db.rows, ids, Marked(network, now))
      requires forall id <- ids :: id in w.rows && IsPendingByTime(w.rows[id], network, now)
      modifies db
      ensures IsRun(w, events) && After(w, events) == w.(phase := Marking(map[]), rows := db.rows)
      ensures Begun(w, events) && (forall e <- events :: e.StartTick? || e.MarkOne?)
      ensures Swept(w.rows, db.rows, [], Marked(network, now))
    {
      hide Enabled, Step, Apply, PendingByTime, IsPendingByTime, Swept;
      events := [StartTick];
      assert events[..1] == events;
      hide After, IsRun, BusyBetween, Updated, Rest, RepeatFree, Waiting;
      ghost var rows := db.rows;
      var rest := ids;
      while rest != []
        invariant IsRun(w, events) && After(w, events) == w.(phase := Marking(Rest(held, rest)), rows := db.rows)
        invariant Begun(w, events) && (forall e <- events :: e.StartTick? || e.MarkOne?)
        invariant Waiting(held, rows, db.rows, rest) && (forall id <- rest :: id in ids)
        invariant Swept(w.rows, db.rows, rest, Marked(network, now))
        decreases |rest|
      {
        var id := rest[0];
        WaitingNext(held, rows, db.rows, rest, Due(now));
        SweptNext(w.rows, db.rows, rest, Marked(network, now));
        if (db.rows[id].mode == Some(AtTime) || db.rows[id].mode == Some(Manual)) && db.rows[id].trigger != Some(ByPrice) {
          RestNext(held, rest);
          Marks(After(w, events), id);
          RunExtends(w, events, MarkOne(id));
          StaysBegun(w, events, MarkOne(id));
          events := events + [MarkOne(id)];
          db.MarkDue(id, now);
        } else {
          RestSkips(held, rest);
        }
        rest := rest[1..];
      }
      NoRest(held, rest);
    }

    /** Second part: requeue failed transactions whose error is worth a retry, on one page of the newest. */
    method RequeueRetriableFailures(ghost w: World) returns (ghost events: seq<Event>, ghost page: Table)
      requires w.rows == db.rows && w.network == network && (w.phase == Marking(map[]) || w.phase.Idle?)
      modifies db
      ensures IsRun(w, events) && After(w, events) == w.(phase := Requeueing(map[], w.phase.Marking?), rows := db.rows)
      ensures BusyBetween(w, events, 0, |events|) && (forall e <- events :: e.FetchFailed? || e.RequeueOne?)
      ensures IsPage(map id | id in old(db.rows) && old(db.rows)[id].status == Failed && old(db.rows)[id].network == network
                       :: old(db.rows)[id], 1000, page)
      ensures db.rows.Keys == old(db.rows).Keys
      ensures forall id :: id in old(db.rows) ==>
                var r := old(db.rows)[id];
                var error := match r.error case Some(e) => e case None => "";
                db.rows[id] == if id in page && (IsRetriable(error) || (r.nlocktime.Some? && r.nlocktime.value > 0
                                                                        && Contains(error, "Failed to broadcast")))
                               then r.(status := Scheduled, error := None) else r
    {
      hide IsRetriable, Contains, IsPage, Enabled, Step, Swept, Requeued;
      var ids := db.ListBroadcastTxs(Failed, network, PAGE);
      page := Rest(db.rows, ids);
      PageIsEnabled(w, page);
      RunOfOne(w, FetchFailed(page));
      IntactAtFirst(w.rows, ids, page);
      NotRequeued(w.rows, ids, page);
      events := RequeueAll(ids, w, page);
      WhatIsRequeued(w.rows, db.rows, page);
    }

    /** The loop over the page. */
    method RequeueAll(ids: seq<Id>, ghost w: World, ghost page: Table) returns (ghost events: seq<Event>)
      requires IsRun(w, [FetchFailed(page)]) && Intact(page, db.rows, ids) && db.rows == w.rows
      requires After(w, [FetchFailed(page)]) == w.(phase := Requeueing(Rest(page, ids), w.phase.Marking?), rows := db.rows)
      requires Swept(w.rows, db.rows, ids, Requeued(page.Keys))
      requires forall id <- ids :: id in page && id in w.rows && w.rows[id].status == Failed
      modifies db
      ensures IsRun(w, events) && After(w, events) == w.(phase := Requeueing(map[], w.phase.Marking?), rows := db.rows)
      ensures BusyBetween(w, events, 0, |events|) && (forall e <- events :: e.FetchFailed? || e.RequeueOne?)
      ensures Swept(w.rows, db.rows, [], Requeued(page.Keys))
    {
      hide IsRequeued, IsRetriable, IsPage, Enabled, Step, Apply, Rest, RepeatFree, Updated, Intact, Swept;
      events := [FetchFailed(page)];
      assert events[..1] == events;
      hide After, IsRun, BusyBetween;
      var rest := ids;
      while rest != []
        invariant IsRun(w, events) && BusyBetween(w, events, 0, |events|)
        invariant forall e <- events :: e.FetchFailed? || e.RequeueOne?
        invariant After(w, events) == w.(phase := Requeueing(Rest(page, rest), w.phase.Marking?), rows := db.rows)
        invariant Intact(page, db.rows, rest) && (forall id <- rest :: id in ids)
        invariant Swept(w.rows, db.rows, rest, Requeued(page.Keys))
        decreases |rest|
      {
        var id := rest[0];
        IntactNext(page, db.rows, rest);
        var r := db.rows[id];
        RestNext(page, rest);
        SweptNext(w.rows, db.rows, rest, Requeued(page.Keys));
        Requeues(After(w, events), id);
        RunExtends(w, events, RequeueOne(id));
        StaysBusy(w, events, RequeueOne(id));
        events := events + [RequeueOne(id)];
        if ShouldRequeue(r) {
          var found := db.ResetFailedToScheduled(id);
          assert found;
        }
        rest := rest[1..];
      }
      NoRest(page, rest);
    }

    /** The requeueing when the daemon starts. */
    method RequeueAtStartup(ghost w: World) returns (ghost events: seq<Event>, ghost page: Table)
      requires w.rows == db.rows && w.network == network && w.phase.Idle?
      modifies db
      ensures IsRun(w, events) && After(w, events) == w.(rows := db.rows)
      ensures IsPage(map id | id in old(db.rows) && old(db.rows)[id].status == Failed && old(db.rows)[id].network == network
                       :: old(db.rows)[id], 1000, page)
      ensures db.rows.Keys == old(db.rows).Keys
      ensures forall id :: id in old(db.rows) ==>
                var r := old(db.rows)[id];
                var error := match r.error case Some(e) => e case None => "";
                db.rows[id] == if id in page && (IsRetriable(error) || (r.nlocktime.Some? && r.nlocktime.value > 0
                                                                        && Contains(error, "Failed to broadcast")))
                               then r.(status := Scheduled, error := None) else r
    {
      hide IsRun, After, Step, Enabled, IsPage, IsRetriable, Contains;
      events, page := RequeueRetriableFailures(w);
      StartupEnds(After(w, events));
      RunExtends(w, events, EndStartup);
      events := events + [EndStartup];
    }

    predicate ShouldRequeue(r: Row)
      ensures ShouldRequeue(r) <==> IsRequeued(r.nlocktime, r.error)
    {
      var error := match r.error case Some(e) => e case None => "";
      IsRetriable(error) || (r.nlocktime.Some? && r.nlocktime.value > 0 && Contains(error, "Failed to broadcast"))
    }

    /** is_tx_due_for_broadcast, an error being false to its caller. */
    method IsTxDueForBroadcast(r: Row, now: nat, reply: Reading) returns (due: bool, ghost reading: Reading)
      modifies mtp
      ensures reading == Reading(CachedRead(old(mtp.cache), now, reply.mtp), reply.height)
      ensures due <==> IsDue(r, Gate(r.nlocktime, reading), now)
      ensures mtp.cache == old(mtp.cache) || mtp.cache == CacheAfter(old(mtp.cache), now, reply.mtp)
    {
      reading := Reading(CachedRead(mtp.cache, now, reply.mtp), reply.height);
      if r.trigger == Some(ByPrice) && r.status == Pending {
        return false, reading;
      }
      var open := mtp.IsLocktimeSatisfied(r.nlocktime, now, reply.mtp, reply.height);
      if open.None? {
        return false, reading;
      }
      if r.deferUntil.Some? {
        due := if now < r.deferUntil.value then false else open.value;
      } else if r.scheduledTime.Some? && r.scheduledTime.value <= now {
        due := open.value;
      } else {
        due := false;
      }
    }

    /** One turn of the send loop: ok is false when the gate cannot be read. */
    method SendDue(id: Id, r: Row, at: nat, now: nat, reply: Reading, answer: Answer)
      returns (ok: bool, ghost reading: Reading)
      modifies db, mtp
      ensures reading == Reading(CachedRead(old(mtp.cache), now, reply.mtp), reply.height)
      ensures mtp.cache == old(mtp.cache) || mtp.cache == CacheAfter(old(mtp.cache), now, reply.mtp)
      ensures ok <==> Gate(r.nlocktime, reading).Some?
      ensures db.rows == AfterSend(old(db.rows), id, SendOutcome(r, Gate(r.nlocktime, reading), answer, at, now))
    {
      hide Apply, IsRetriable;
      reading := Reading(CachedRead(mtp.cache, now, reply.mtp), reply.height);
      var open := mtp.IsLocktimeSatisfied(r.nlocktime, now, reply.mtp, reply.height);
      if open.None? {
        return false, reading;
      }
      ok := true;
      if !open.value {
        if r.nlocktime.Some? && r.nlocktime.value > THRESHOLD {
          if r.missedAt.None? {
            db.RecordBroadcastMiss(id, at, r.scheduledTime);
          }
        }
        return;
      }
      match answer {
        case Accepted(txid) => db.MarkBroadcast(id, txid, r.targetFee.GetOr(0.0), now);
        case Refused(error) =>
          if !IsRetriable(error) {
            db.UpdateTxStatus(id, Failed, Some(error));
          }
      }
    }

    /** The transactions that the tick will send, with the first reading of the gate. */
    method FilterDue(now: nat, first: Id -> Reading, second: Id -> Reading, ghost chain: seq<nat>)
      returns (due: seq<Id>, ghost firsts: map<Id, Reading>)
      requires Backed(mtp.cache, chain) && forall id :: HonestReading(first(id), chain)
      modifies mtp
      ensures Backed(mtp.cache, chain) && (forall id :: id in firsts ==> HonestReading(firsts[id], chain))
      ensures Refreshed(old(mtp.cache), now, first, second, mtp.cache)
      ensures forall id :: id in firsts ==> Through(old(mtp.cache), now, first(id), first, second, firsts[id])
      ensures forall id :: id in firsts <==> id in db.rows && IsDueCandidate(db.rows[id], network)
      ensures RepeatFree(due) && forall id :: id in due <==>
                id in firsts && IsDue(db.rows[id], Gate(db.rows[id].nlocktime, firsts[id]), now)
    {
      hide IsDue, Gate, HonestReading, Backed, Through, Refreshed;
      var ids := db.Select(r => IsDueCandidate(r, network));
      ListedIn(ids, db.rows, r => IsDueCandidate(r, network));
      due, firsts := [], map[];
      NotRefreshed(mtp.cache, now, first, second);
      for i := 0 to |ids|
        invariant Backed(mtp.cache, chain) && (forall id :: id in firsts ==> HonestReading(firsts[id], chain))
        invariant Refreshed(old(mtp.cache), now, first, second, mtp.cache)
        invariant forall id :: id in firsts ==> Through(old(mtp.cache), now, first(id), first, second, firsts[id])
        invariant forall id :: id in firsts <==> id in ids[..i]
        invariant RepeatFree(due) && forall id :: id in due <==>
                    id in ids[..i] && IsDue(db.rows[id], Gate(db.rows[id].nlocktime, firsts[id]), now)
      {
        var id := ids[i];
        assert id !in ids[..i] && ids[..i + 1] == ids[..i] + [id];
        ghost var before := mtp.cache;
        var isDue;
        ghost var reading;
        isDue, reading := IsTxDueForBroadcast(db.rows[id], now, first(id));
        StaysBacked(before, mtp.cache, now, first(id), chain);
        ReadsThrough(old(mtp.cache), now, first, second, before, mtp.cache, id, first(id));
        firsts := firsts[id := reading];
        if isDue {
          due := due + [id];
        }
      }
      assert ids[..|ids|] == ids;
    }

    /** Third part: send what is due. firsts and seconds are the gate readings of the filter and of the send loop, as
        the cache let the backends' replies through; ok is false when an unreadable gate ended the tick early. */
    method BroadcastDueTransactions(now: nat, first: Id -> Reading, second: Id -> Reading, answer: Id -> Answer, ghost w: World)
      returns (ok: bool, ghost events: seq<Event>, ghost firsts: map<Id, Reading>, ghost seconds: map<Id, Reading>)
      requires w.rows == db.rows && w.network == network && w.now == now && w.phase == Requeueing(map[], true)
      requires Backed(mtp.cache, w.chain) && forall id :: HonestReading(first(id), w.chain) && HonestReading(second(id), w.chain)
      modifies db, mtp
      ensures Backed(mtp.cache, w.chain)
      ensures IsRun(w, events) && After(w, events) == w.(phase := Idle, rows := db.rows)
      ensures ok ==> Finished(w, events)
      // what the backends are asked and answer
      ensures forall id :: id in firsts <==>
                id in old(db.rows) && old(db.rows)[id].status == Scheduled && old(db.rows)[id].network == network
      ensures forall id :: id in firsts ==> Through(old(mtp.cache), now, first(id), first, second, firsts[id])
      ensures forall id :: id in seconds ==> Through(old(mtp.cache), now, second(id), first, second, seconds[id])
      ensures SendsOnly(events, firsts, seconds, answer) && events != [] && (ok <==> events[|events| - 1] == EndTick)
      ensures forall e <- events :: FromReplies(e, old(mtp.cache), now, first, second, answer)
      // and what becomes of every row
      ensures db.rows.Keys == old(db.rows).Keys
      ensures forall id :: id in old(db.rows) ==>
                var r := old(db.rows)[id];
                var timely := match r.deferUntil
                              case Some(d) => d <= now
                              case None => r.scheduledTime.Some? && r.scheduledTime.value <= now;
                var due := id in firsts && timely && Gate(r.nlocktime, firsts[id]) == Some(true);
                && (id in seconds ==> due) && (ok && due ==> id in seconds && Gate(r.nlocktime, seconds[id]).Some?)
                && db.rows[id] ==
                   if id !in seconds then r
                   else match Gate(r.nlocktime, seconds[id])
                        case None => r
                        case Some(false) =>
                          if r.nlocktime.Some? && r.nlocktime.value > 500_000_000 && r.missedAt.None? then
                            r.(missedAt := Some(now),
                               originalScheduled := if r.originalScheduled.Some? then r.originalScheduled else r.scheduledTime)
                          else r
                        case Some(true) =>
                          match answer(id)
                          case Accepted(txid) =>
                            r.(status := Broadcast, txid := Some(txid), broadcastAt := Some(now), missedAt := None, deferUntil := None,
                               actualFee := Some(match r.targetFee case Some(fee) => fee case None => 0.0))
                          case Refused(error) => if IsRetriable(error) then r else r.(status := Failed, error := Some(error))
    {
      hide IsDue, Gate, HonestReading, Backed, SendOutcome, Enabled, Step, Through, Refreshed, Handled, Finished;
      var due;
      due, firsts := FilterDue(now, first, second, w.chain);
      ghost var held := Fetches(w, due, firsts);
      RunOfOne(w, FetchDue(firsts));
      NoneHandled(w.rows, due, answer, now);
      ghost var l := SendLoop(w, old(mtp.cache), now, first, second, answer, firsts, due, held);
      LoopStarts(l, mtp.cache);
      var left;
      ok, events, seconds, left := SendAll(now, first, second, answer, due, l);
      WhatIsSent(w.rows, db.rows, due, left, firsts, seconds, answer, now, network, ok);
      AllFromReplies(events, firsts, seconds, old(mtp.cache), now, first, second, answer);
    }

    /** The send loop. */
    method SendAll(now: nat, first: Id -> Reading, second: Id -> Reading, answer: Id -> Answer, ids: seq<Id>, ghost l: SendLoop)
      returns (ok: bool, ghost events: seq<Event>, ghost seconds: map<Id, Reading>, left: seq<Id>)
      requires l.now == now && l.first == first && l.second == second && l.answer == answer && l.ids == ids
      requires l.w.rows == db.rows && l.w.now == now && forall id :: HonestReading(second(id), l.w.chain)
      requires l.Reached([FetchDue(l.firsts)], map[], ids, mtp.cache, db.rows)
      modifies db, mtp
      ensures l.Ended(ok, events, seconds, left, mtp.cache, db.rows)
    {
      hide Gate, HonestReading, SendOutcome, SendLoop.Reached, SendLoop.Ended, AfterSend, CachedRead, CacheAfter;
      events, seconds, left := [FetchDue(l.firsts)], map[], ids;
      var rows := db.rows;
      while left != []
        invariant l.Reached(events, seconds, left, mtp.cache, db.rows)
        decreases |left|
      {
        var id := left[0];
        NextToSend(l, events, seconds, left, mtp.cache, db.rows);
        ghost var before, unsent := mtp.cache, db.rows;
        ghost var reading;
        ok, reading := SendDue(id, rows[id], now, now, second(id), answer(id));
        Turn(l, events, seconds, left, id, left[1..], rows[id], before, unsent, reading, mtp.cache);
        events, seconds, left := events + [SendOne(id, reading, answer(id))], seconds[id := reading], left[1..];
        if !ok {
          return;
        }
      }
      LoopEnds(l, events, seconds, mtp.cache, db.rows);
      events := events + [EndTick];
      ok := true;
    }

    /** run_scheduler_tick: an unhealthy indexer leaves everything as it was. */
    method RunSchedulerTick(healthy: bool, now: nat, first: Id -> Reading, second: Id -> Reading, answer: Id -> Answer, ghost w: World)
      returns (ok: bool, ghost events: seq<Event>)
      requires w.rows == db.rows && w.network == network && w.now == now && w.phase.Idle?
      requires Backed(mtp.cache, w.chain) && forall id :: HonestReading(first(id), w.chain) && HonestReading(second(id), w.chain)
      modifies db, mtp
      ensures IsRun(w, events) && After(w, events) == w.(phase := Idle, rows := db.rows) && Backed(mtp.cache, w.chain)
      ensures if healthy then IsTick(w, events, ok) else !ok && events == []
      ensures healthy ==> (ok <==> events[|events| - 1] == EndTick)
      ensures forall e <- events :: FromReplies(e, old(mtp.cache), now, first, second, answer)
    {
      hide IsRun, After, Step, Enabled, Backed, HonestReading, Through, SendsOnly, FromReplies, Gate, IsRetriable, Contains, IsPage;
      if !healthy {
        EmptyRun(w);
        return false, [];
      }
      ghost var marks := MarkPendingDue(now, w);
      ghost var w1 := After(w, marks);
      ghost var requeues, page := RequeueRetriableFailures(w1);
      RunJoin(w, marks, requeues);
      ghost var w2 := After(w1, requeues);
      ghost var sends, firsts, seconds;
      ok, sends, firsts, seconds := BroadcastDueTransactions(now, first, second, answer, w2);
      RunJoin(w, marks + requeues, sends);
      events := marks + requeues + sends;
      NoReplies(marks + requeues, old(mtp.cache), now, first, second, answer);
      if ok {
        BusyJoin(w, marks, requeues, |requeues|);
        BusyJoin(w, marks + requeues, sends, |sends| - 1);
      }
    }

    /** One pass of the block height monitor. */
    method MonitorBlockHeight(healthy: bool, height: Option<nat>, now: nat, ghost w: World) returns (ghost events: seq<Event>)
      requires w.rows == db.rows && w.network == network && w.now == now && w.blocked == map[]
      requires height.Some? ==> height.value < |w.chain|
      modifies db
      ensures IsRun(w, events)
      ensures After(w, events) == w.(rows := db.rows, tip := if healthy && height.Some? then height.value else w.tip)
      ensures healthy && height.Some? ==> Opens(events, FetchBlocked(height.value))
      ensures db.rows.Keys == old(db.rows).Keys
      ensures forall id :: id in old(db.rows) ==>
                var r := old(db.rows)[id];
                db.rows[id] == if healthy && r.status == Pending && r.mode == Some(ByBlock) && r.network == network
                                  && r.nlocktime.Some? && 0 < r.nlocktime.value < 500_000_000
                                  && height.Some? && r.nlocktime.value <= height.value
                               then r.(status := Scheduled, scheduledTime := Some(now)) else r
    {
      if !healthy || height.None? {
        EmptyRun(w);
        return [];
      }
      var ids := db.Select(r => IsPendingByBlock(r, network));
      ghost var held := MonitorStarts(w, height.value);
      RunOfOne(w, FetchBlocked(height.value));
      IntactAtFirst(w.rows, ids, held);
      ghost var marked := (id: Id, r: Row) =>
        if IsPendingByBlock(r, network) && r.nlocktime.value <= height.value
        then r.(status := Scheduled, scheduledTime := Some(now)) else r;
      SweptFirst(w.rows, ids, marked);
      events := MarkBlockedAll(ids, height.value, now, w, held, marked);
    }

    /** The loop over the rows fetched. */
    method MarkBlockedAll(ids: seq<Id>, height: nat, now: nat, ghost w: World, ghost held: Table, ghost marked: (Id, Row) -> Row)
      returns (ghost events: seq<Event>)
      requires w.now == now && IsRun(w, [FetchBlocked(height)]) && Intact(held, db.rows, ids)
      requires After(w, [FetchBlocked(height)]) == w.(blocked := Rest(held, ids), tip := height, rows := db.rows)
      requires Swept(w.rows, db.rows, ids, marked)
      requires forall id <- ids :: id in w.rows &&
                 var r := w.rows[id];
                 && r.nlocktime.Some? && 0 < r.nlocktime.value < 500_000_000
                 && marked(id, r) == if r.nlocktime.value <= height then r.(status := Scheduled, scheduledTime := Some(now)) else r
      modifies db
      ensures IsRun(w, events) && After(w, events) == w.(blocked := map[], tip := height, rows := db.rows)
      ensures Opens(events, FetchBlocked(height)) && Swept(w.rows, db.rows, [], marked)
    {
      hide Enabled, Step, Apply, After, IsRun, Rest, RepeatFree, Updated, Intact, Swept;
      events := [FetchBlocked(height)];
      var rest := ids;
      while rest != []
        invariant Swept(w.rows, db.rows, rest, marked) && forall id <- rest :: id in ids
        invariant IsRun(w, events) && Opens(events, FetchBlocked(height)) && Intact(held, db.rows, rest)
        invariant After(w, events) == w.(blocked := Rest(held, rest), tip := height, rows := db.rows)
        decreases |rest|
      {
        var id := rest[0];
        IntactNext(held, db.rows, rest);
        RestNext(held, rest);
        SweptNext(w.rows, db.rows, rest, marked);
        Blocks(After(w, events), id);
        RunExtends(w, events, MarkBlocked(id));
        events := events + [MarkBlocked(id)];
        var nlocktime := db.rows[id].nlocktime;
        if nlocktime.Some? && 0 < nlocktime.value < 500_000_000 && height >= nlocktime.value {
          db.MarkDue(id, now);
        }
        rest := rest[1..];
      }
      NoRest(held, rest);
    }

    /** One pass of the rebroadcast loop. */
    method RebroadcastPending(healthy: bool, interval: nat, now: nat, answer: Id -> Answer, ghost w: World)
      returns (ghost events: seq<Event>)
      requires w.rows == db.rows && w.network == network && w.now == now && w.resending == map[]
      modifies db
      ensures IsRun(w, events) && After(w, events) == w.(rows := db.rows)
      ensures healthy ==> Opens(events, FetchResend(interval))
      ensures db.rows.Keys == old(db.rows).Keys
      ensures forall id :: id in old(db.rows) ==>
                var r := old(db.rows)[id];
                db.rows[id] == if healthy && r.status == Broadcast && r.confirmedAt.None? && r.network == network
                                  && (r.broadcastAt.None? || r.broadcastAt.value < now - interval) && answer(id).Accepted?
                               then r.(broadcastAt := Some(now)) else r
    {
      if !healthy {
        EmptyRun(w);
        return [];
      }
      var ids := db.Select(r => IsRebroadcastable(r, network, now - interval));
      ghost var held := ResendStarts(w, interval);
      RunOfOne(w, FetchResend(interval));
      IntactAtFirst(w.rows, ids, held);
      ghost var resent := (id: Id, r: Row) =>
        if IsRebroadcastable(r, network, now - interval) && answer(id).Accepted? then r.(broadcastAt := Some(now)) else r;
      SweptFirst(w.rows, ids, resent);
      events := ResendAll(ids, now, answer, w, held, interval, resent);
    }

    /** The loop over the rows fetched. */
    method ResendAll(ids: seq<Id>, now: nat, answer: Id -> Answer, ghost w: World, ghost held: Table, ghost interval: nat,
                     ghost resent: (Id, Row) -> Row)
      returns (ghost events: seq<Event>)
      requires w.now == now && IsRun(w, [FetchResend(interval)]) && Intact(held, db.rows, ids)
      requires After(w, [FetchResend(interval)]) == w.(resending := Rest(held, ids), rows := db.rows)
      requires Swept(w.rows, db.rows, ids, resent)
      requires forall id <- ids :: id in w.rows &&
                 resent(id, w.rows[id]) == if answer(id).Accepted? then w.rows[id].(broadcastAt := Some(now)) else w.rows[id]
      modifies db
      ensures IsRun(w, events) && After(w, events) == w.(resending := map[], rows := db.rows)
      ensures Opens(events, FetchResend(interval)) && Swept(w.rows, db.rows, [], resent)
    {
      hide Enabled, Step, Apply, After, IsRun, Rest, RepeatFree, Updated, Intact, Swept;
      events := [FetchResend(interval)];
      var rest := ids;
      while rest != []
        invariant Swept(w.rows, db.rows, rest, resent) && forall id <- rest :: id in ids
        invariant IsRun(w, events) && Opens(events, FetchResend(interval)) && Intact(held, db.rows, rest)
        invariant After(w, events) == w.(resending := Rest(held, rest), rows := db.rows)
        decreases |rest|
      {
        var id := rest[0];
        IntactNext(held, db.rows, rest);
        RestNext(held, rest);
        SweptNext(w.rows, db.rows, rest, resent);
        Resends(After(w, events), id, answer(id));
        RunExtends(w, events, ResendOne(id, answer(id)));
        events := events + [ResendOne(id, answer(id))];
        if answer(id).Accepted? {
          db.Touch(id, now);
        }
        rest := rest[1..];
      }
      NoRest(held, rest);
    }

    /** One pass of the confirmation checker over the node: seen is the height it reports for a transaction
        that is in a block. Without a node nothing is confirmed. */
    method CheckConfirmations(healthy: bool, node: bool, now: nat, seen: Id -> Option<nat>, ghost w: World)
      returns (ghost events: seq<Event>, ghost page: Table)
      requires w.rows == db.rows && w.network == network && w.now == now && w.confirming == map[]
      modifies db
      ensures IsRun(w, events) && After(w, events) == w.(rows := db.rows)
      ensures healthy && node ==> Opens(events, FetchConfirming(page))
      ensures healthy && node ==>
                IsPage(map id | id in old(db.rows) && old(db.rows)[id].status == Broadcast && old(db.rows)[id].network == network
                         :: old(db.rows)[id], 1000, page)
      ensures db.rows.Keys == old(db.rows).Keys
      ensures forall id :: id in old(db.rows) ==>
                var r := old(db.rows)[id];
                db.rows[id] == if healthy && node && id in page && r.txid.Some? && seen(id).Some?
                               then r.(status := Confirmed, blockHeight := Some(seen(id).value), confirmedAt := Some(now))
                               else r
    {
      hide IsPage;
      page := map[];
      if !healthy || !node {
        EmptyRun(w);
        return [], page;
      }
      var ids := db.ListBroadcastTxs(Broadcast, network, PAGE);
      page := Rest(db.rows, ids);
      BroadcastPage(w, page);
      RunOfOne(w, FetchConfirming(page));
      IntactAtFirst(w.rows, ids, page);
      ghost var pageIds := page.Keys;
      ghost var confirmed := (id: Id, r: Row) =>
        if id in pageIds && r.txid.Some? && seen(id).Some?
        then r.(status := Confirmed, blockHeight := Some(seen(id).value), confirmedAt := Some(now)) else r;
      SweptFirst(w.rows, ids, confirmed);
      events := ConfirmAll(ids, now, seen, w, page, confirmed);
    }

    /** The loop over the rows of the page. */
    method ConfirmAll(ids: seq<Id>, now: nat, seen: Id -> Option<nat>, ghost w: World, ghost page: Table,
                      ghost confirmed: (Id, Row) -> Row)
      returns (ghost events: seq<Event>)
      requires w.now == now && IsRun(w, [FetchConfirming(page)]) && Intact(page, db.rows, ids)
      requires After(w, [FetchConfirming(page)]) == w.(confirming := Rest(page, ids), rows := db.rows)
      requires Swept(w.rows, db.rows, ids, confirmed)
      requires forall id <- ids :: id in w.rows &&
                 var r := w.rows[id];
                 confirmed(id, r) == if r.txid.Some? && seen(id).Some?
                                     then r.(status := Confirmed, blockHeight := Some(seen(id).value), confirmedAt := Some(now))
                                     else r
      modifies db
      ensures IsRun(w, events) && After(w, events) == w.(confirming := map[], rows := db.rows)
      ensures Opens(events, FetchConfirming(page)) && Swept(w.rows, db.rows, [], confirmed)
    {
      hide IsPage, Enabled, Step, Apply, After, IsRun, Rest, RepeatFree, Updated, Intact, Swept;
      events := [FetchConfirming(page)];
      var rest := ids;
      while rest != []
        invariant Swept(w.rows, db.rows, rest, confirmed) && forall id <- rest :: id in ids
        invariant IsRun(w, events) && Opens(events, FetchConfirming(page)) && Intact(page, db.rows, rest)
        invariant After(w, events) == w.(confirming := Rest(page, rest), rows := db.rows)
        decreases |rest|
      {
        var id := rest[0];
        IntactNext(page, db.rows, rest);
        RestNext(page, rest);
        SweptNext(w.rows, db.rows, rest, confirmed);
        var found := if db.rows[id].txid.Some? then seen(id) else None;
        Confirms(After(w, events), id, found);
        RunExtends(w, events, ConfirmOne(id, found));
        events := events + [ConfirmOne(id, found)];
        if found.Some? {
          db.MarkConfirmed(id, found.value, now);
        }
        rest := rest[1..];
      }
      NoRest(page, rest);
    }

    /** One pass of the price monitor; a stale snapshot is not evaluated. */
    method CheckPriceTriggers(stale: bool, prices: map<Currency, real>, now: nat, ghost w: World)
      returns (triggered: nat, ghost events: seq<Event>)
      requires w.rows == db.rows && w.network == network && w.now == now && w.priced == map[]
      modifies db
      ensures IsRun(w, events)
      ensures After(w, events) == w.(rows := db.rows, prices := if stale then w.prices else prices)
      ensures if stale then events == [] && triggered == 0 else Opens(events, FetchPriced(prices))
      ensures triggered == |set id | id in db.rows && id in old(db.rows) && db.rows[id].trigger != old(db.rows)[id].trigger|
      ensures db.rows.Keys == old(db.rows).Keys
      ensures forall id :: id in old(db.rows) ==>
                var r := old(db.rows)[id];
                var currency := match r.currency case Some(c) => c case None => Usd;
                db.rows[id] == if !stale && (r.status == Pending || r.status == Scheduled) && r.network == network
                                  && r.trigger == Some(ByPrice) && r.targetPrice.Some? && currency in prices
                                  && (if r.condition == Some(Below) then prices[currency] <= r.targetPrice.value
                                      else r.targetPrice.value <= prices[currency])
                               then r.(status := Scheduled, scheduledTime := Some(now), trigger := Some(ByDate)) else r
    {
      hide PriceMet, IsPriceTriggered, Met, After, IsRun, Swept, Fired, Intact;
      if stale {
        EmptyRun(w);
        triggered, events := 0, [];
        WhatIsFired(stale, w.rows, db.rows, network, prices, now);
        return;
      }
      var ids := db.Select(r => IsPriceTriggered(r, network));
      ghost var held := PriceStarts(w, prices);
      RunOfOne(w, FetchPriced(prices));
      IntactAtFirst(w.rows, ids, held);
      Unfired(w.rows, ids, network, prices, now);
      triggered, events := FireAll(ids, prices, now, w, held);
      WhatIsFired(stale, w.rows, db.rows, network, prices, now);
    }

    /** The loop over the rows fetched. */
    method FireAll(ids: seq<Id>, prices: map<Currency, real>, now: nat, ghost w: World, ghost held: Table)
      returns (triggered: nat, ghost events: seq<Event>)
      requires w.now == now && IsRun(w, [FetchPriced(prices)]) && Intact(held, db.rows, ids) && Rest(held, ids) == held
      requires After(w, [FetchPriced(prices)]) == w.(priced := Rest(held, ids), prices := prices, rows := db.rows)
      requires w.network == network && Swept(w.rows, db.rows, ids, Fired(network, prices, now))
      requires forall id <- ids :: id in w.rows && IsPriceTriggered(w.rows[id], network)
      modifies db
      ensures IsRun(w, events) && After(w, events) == w.(priced := map[], prices := prices, rows := db.rows)
      ensures Opens(events, FetchPriced(prices)) && Swept(w.rows, db.rows, [], Fired(network, prices, now))
      ensures triggered == |Met(held, prices).Keys|
    {
      hide IsPriceTriggered;
      hide Enabled, Step, Apply, PriceMet, After, IsRun, Rest, RepeatFree, Updated, Intact, Met, Swept;
      triggered, events := 0, [FetchPriced(prices)];
      var rest := ids;
      while rest != []
        invariant Swept(w.rows, db.rows, rest, Fired(network, prices, now)) && forall id <- rest :: id in ids
        invariant IsRun(w, events) && Opens(events, FetchPriced(prices)) && Intact(held, db.rows, rest)
        invariant After(w, events) == w.(priced := Rest(held, rest), prices := prices, rows := db.rows)
        invariant triggered + |Met(Rest(held, rest), prices).Keys| == |Met(held, prices).Keys|
        decreases |rest|
      {
        var id := rest[0];
        IntactNext(held, db.rows, rest);
        RestNext(held, rest);
        MetNext(Rest(held, rest), id, prices);
        SweptNext(w.rows, db.rows, rest, Fired(network, prices, now));
        Fires(After(w, events), id);
        RunExtends(w, events, FireOne(id));
        events := events + [FireOne(id)];
        var met := ConditionMet(db.rows[id], prices);
        if met {
          db.MarkDueFromPriceTrigger(id, now);
          triggered := triggered + 1;
        }
        rest := rest[1..];
      }
      NoRest(held, rest);
      NoneMet(prices);
    }

    method ConditionMet(r: Row, prices: map<Currency, real>) returns (met: bool)
      ensures met <==> PriceMet(r, prices)
    {
      var currency := match r.currency case Some(c) => c case None => Usd;
      var condition := match r.condition case Some(c) => c case None => Above;
      if r.targetPrice.None? || currency !in prices {
        return false;
      }
      met := match condition
             case Below => prices[currency] <= r.targetPrice.value
             case Above => prices[currency] >= r.targetPrice.value;
    }

    /** schedule_by_price: refused unless every check passes; a step of the machine. */
    method ScheduleByPrice(id: Id, target: real, currency: Option<Currency>, condition: Option<Condition>, fee: real, ghost w: World)
      returns (ok: bool)
      requires w.rows == db.rows
      modifies db
      ensures ok <==> currency.Some? && condition.Some? && target > 0.0 && id in old(db.rows) &&
                      var r := old(db.rows)[id];
                      && (r.status == Pending || r.status == Scheduled) && r.mode == Some(Manual)
                      && (r.nlocktime.None? || r.nlocktime.value == 0)
      ensures db.rows == if !ok then old(db.rows) else
                old(db.rows)[id := old(db.rows)[id].(status := Pending, scheduledTime := None, deferUntil := None, error := None,
                                                     targetFee := Some(fee), trigger := Some(ByPrice), targetPrice := Some(target),
                                                     currency := currency, condition := condition)]
      ensures currency.Some? && condition.Some? ==>
                var e := Event.ScheduleByPrice(id, target, currency.value, condition.value, fee);
                (ok <==> Enabled(w, e)) && (ok ==> Step(w, e) == w.(rows := db.rows))
    {
      hide Step, Enabled, Updated;
      if currency.Some? && condition.Some? {
        ArmStep(w, id, target, currency.value, condition.value, fee);
      }
      if target <= 0.0 || currency.None? || condition.None? || id !in db.rows {
        return false;
      }
      var r := db.rows[id];
      if r.status != Pending && r.status != Scheduled {
        return false;
      }
      if r.mode != Some(Manual) || (r.nlocktime.Some? && r.nlocktime.value > 0) {
        return false;
      }
      db.UpdatePriceSchedule(id, target, currency.value, condition.value, fee);
      ok := true;
    }

    /** schedule_at: in the future, and not before a timestamp lock; a row that is waiting for something already is
        put off. A step of the machine. */
    method ScheduleAt(id: Id, time: nat, fee: real, now: nat, ghost w: World) returns (ok: bool)
      requires w.rows == db.rows && w.now == now
      modifies db
      ensures ok <==> id in old(db.rows) && time > now &&
                      var r := old(db.rows)[id];
                      (r.nlocktime.Some? && r.nlocktime.value > 500_000_000 ==> r.nlocktime.value <= time)
      ensures db.rows == if !ok then old(db.rows) else
                var r := old(db.rows)[id];
                old(db.rows)[id := r.(status := Scheduled, scheduledTime := Some(time), targetFee := Some(fee), error := None,
                                      trigger := Some(ByDate), targetPrice := None, currency := None, condition := None,
                                      deferUntil := if r.missedAt.Some? || r.deferUntil.Some? || r.scheduledTime.Some?
                                                       || r.trigger == Some(ByPrice) || r.mode == Some(AtTime) || r.mode == Some(Manual)
                                                    then Some(time) else None)]
      ensures ok <==> Enabled(w, Event.ScheduleAt(id, time, fee))
      ensures ok ==> Step(w, Event.ScheduleAt(id, time, fee)) == w.(rows := db.rows)
    {
      hide Step, Enabled, Updated;
      RescheduleStep(w, id, time, fee);
      if id !in db.rows || time <= now {
        return false;
      }
      var r := db.rows[id];
      if r.nlocktime.Some? && r.nlocktime.value > THRESHOLD && time < r.nlocktime.value {
        return false;
      }
      db.UpdateReschedule(id, time, if IsReschedule(r) then Some(time) else None, fee);
      ok := true;
    }
  }

  /** The fetched rows still to be looked at are as they were, and those that do not wait for a price are held. */
  ghost predicate Waiting(held: Table, was: Table, rows: Table, ids: seq<Id>) {
    RepeatFree(ids) && forall id <- ids ::
      && id in was && id in rows && rows[id] == was[id]
      && (was[id].mode == Some(AtTime) || was[id].mode == Some(Manual))
      && (id in held <==> was[id].trigger != Some(ByPrice))
  }

  lemma WaitingNext(held: Table, was: Table, rows: Table, ids: seq<Id>, u: Update)
    requires Waiting(held, was, rows, ids) && ids != []
    ensures RepeatFree(ids) && ids[0] in rows && (ids[0] in held <==> rows[ids[0]].trigger != Some(ByPrice))
    ensures rows[ids[0]].mode == Some(AtTime) || rows[ids[0]].mode == Some(Manual)
    ensures Waiting(held, was, rows, ids[1..]) && Waiting(held, was, Updated(rows, ids[0], u), ids[1..])
  {
    hide Apply;
    assert ids == [ids[0]] + ids[1..] && forall id <- ids[1..] :: id != ids[0] && id in ids;
  }

  lemma Starts(w: World, ids: seq<Id>) returns (held: Table)
    requires w.phase.Idle? && Lists(ids, Where(w.rows, r => IsPendingByTime(r, w.network, w.now)))
    ensures Enabled(w, StartTick) && Step(w, StartTick) == w.(phase := Marking(held)) && Rest(held, ids) == held
    ensures Waiting(held, w.rows, w.rows, ids)
  {
    held := PendingByTime(w);
    ListedIn(ids, w.rows, r => IsPendingByTime(r, w.network, w.now));
  }

  lemma RestSkips(rows: Table, ids: seq<Id>)
    requires ids != [] && ids[0] !in rows
    ensures Rest(rows, ids) == Rest(rows, ids[1..])
  {
    assert ids == [ids[0]] + ids[1..];
  }

  /** The cache holds what some prefix of the chain gives. */
  ghost predicate Backed(cache: Option<Cached>, chain: seq<nat>) {
    ValidChain(chain) && chain != [] && CacheHonest(cache, chain)
  }

  lemma StaysBacked(before: Option<Cached>, now: Option<Cached>, time: nat, reply: Reading, chain: seq<nat>)
    requires Backed(before, chain) && HonestReading(reply, chain)
    requires now == before || now == CacheAfter(before, time, reply.mtp)
    ensures Backed(now, chain) && HonestReading(Reading(CachedRead(before, time, reply.mtp), reply.height), chain)
  {
    CacheIsSafe(before, time, reply.mtp, chain, 0);
  }

  /** A reading as the cache lets it through, ten seconds long: the height is the reply's, and the median time past the
      one cached before the tick while that is fresh, else the reply's own or one that another reply of the tick brought. */
  ghost predicate Through(cache: Option<Cached>, now: nat, reply: Reading, first: Id -> Reading, second: Id -> Reading,
                          reading: Reading) {
    && reading.height == reply.height
    && if cache.Some? && now < cache.value.at + 10 then reading.mtp == Some(cache.value.mtp)
       else reading.mtp == reply.mtp || (reading.mtp.Some? && Brought(first, second, reading.mtp.value))
  }

  ghost predicate Brought(first: Id -> Reading, second: Id -> Reading, mtp: nat) {
    exists id :: first(id).mtp == Some(mtp) || second(id).mtp == Some(mtp)
  }

  /** The cache during the tick: as before, or with a value fetched in the tick. */
  ghost predicate Refreshed(cache: Option<Cached>, now: nat, first: Id -> Reading, second: Id -> Reading, next: Option<Cached>) {
    next == cache ||
    (!(cache.Some? && now < cache.value.at + 10) && next.Some? && next.value.at == now && Brought(first, second, next.value.mtp))
  }

  lemma NotRefreshed(cache: Option<Cached>, now: nat, first: Id -> Reading, second: Id -> Reading)
    ensures Refreshed(cache, now, first, second, cache)
  {
  }

  lemma ReadsThrough(cache: Option<Cached>, now: nat, first: Id -> Reading, second: Id -> Reading, before: Option<Cached>,
                     next: Option<Cached>, id: Id, reply: Reading)
    requires Refreshed(cache, now, first, second, before) && (reply == first(id) || reply == second(id))
    requires next == before || next == CacheAfter(before, now, reply.mtp)
    ensures Refreshed(cache, now, first, second, next)
    ensures Through(cache, now, reply, first, second, Reading(CachedRead(before, now, reply.mtp), reply.height))
  {
    if reply.mtp.Some? {
      assert Brought(first, second, reply.mtp.value);
    }
  }

  /** The events of a tick carry what the backends replied: the readings of the filter, and the reading and the
      answer of each send. */
  ghost predicate FromReplies(e: Event, cache: Option<Cached>, now: nat, first: Id -> Reading, second: Id -> Reading,
                              answer: Id -> Answer) {
    match e
    case FetchDue(readings) => forall id :: id in readings ==> Through(cache, now, first(id), first, second, readings[id])
    case SendOne(id, reading, a) => a == answer(id) && Through(cache, now, second(id), first, second, reading)
    case _ => e.StartTick? || e.MarkOne? || e.FetchFailed? || e.RequeueOne? || e.EndTick?
  }

  lemma NoReplies(events: seq<Event>, cache: Option<Cached>, now: nat, first: Id -> Reading, second: Id -> Reading,
                  answer: Id -> Answer)
    requires forall e <- events :: e.StartTick? || e.MarkOne? || e.FetchFailed? || e.RequeueOne?
    ensures forall e <- events :: FromReplies(e, cache, now, first, second, answer)
  {
    hide Through;
  }

  lemma AllFromReplies(events: seq<Event>, firsts: map<Id, Reading>, seconds: map<Id, Reading>, cache: Option<Cached>, now: nat,
                       first: Id -> Reading, second: Id -> Reading, answer: Id -> Answer)
    requires SendsOnly(events, firsts, seconds, answer)
    requires forall id :: id in firsts ==> Through(cache, now, first(id), first, second, firsts[id])
    requires forall id :: id in seconds ==> Through(cache, now, second(id), first, second, seconds[id])
    ensures forall e <- events :: FromReplies(e, cache, now, first, second, answer)
  {
    hide Through;
    forall i | 0 <= i < |events| ensures FromReplies(events[i], cache, now, first, second, answer) {
    }
  }

  /** The fetch of the due rows, and then sends with the readings and answers given, and the end. */
  predicate SendsOnly(events: seq<Event>, firsts: map<Id, Reading>, seconds: map<Id, Reading>, answer: Id -> Answer) {
    && events != [] && events[0] == FetchDue(firsts)
    && forall i :: 0 < i < |events| ==> events[i] == EndTick || IsSend(events[i], seconds, answer)
  }

  predicate IsSend(e: Event, seconds: map<Id, Reading>, answer: Id -> Answer) {
    e.SendOne? && e.id in seconds && e.reading == seconds[e.id] && e.answer == answer(e.id)
  }

  /** What stays the same during a send loop: where it starts, what the backends reply, the readings of the filter, the
      due ids and their rows. */
  datatype SendLoop = SendLoop(w: World, cache: Option<Cached>, now: nat, first: Id -> Reading, second: Id -> Reading,
                               answer: Id -> Answer, firsts: map<Id, Reading>, ids: seq<Id>, held: Table) {
    /** With left still to be sent. */
    ghost predicate Reached(events: seq<Event>, seconds: map<Id, Reading>, left: seq<Id>, next: Option<Cached>, rows: Table) {
      && IsRun(w, events) && BusyBetween(w, events, 0, |events|)
      && After(w, events) == w.(phase := Sending(Rest(held, left), now), rows := rows)
      && Backed(next, w.chain) && Refreshed(cache, now, first, second, next) && Intact(held, w.rows, left)
      && SendsOnly(events, firsts, seconds, answer) && AllThrough(seconds)
      && Handled(w.rows, rows, ids, left, seconds, answer, now) && AllReadable(w.rows, seconds)
    }

    ghost predicate Ended(ok: bool, events: seq<Event>, seconds: map<Id, Reading>, left: seq<Id>, next: Option<Cached>, rows: Table) {
      && IsRun(w, events) && (ok ==> Finished(w, events)) && After(w, events) == w.(phase := Idle, rows := rows)
      && Backed(next, w.chain) && SendsOnly(events, firsts, seconds, answer) && AllThrough(seconds)
      && (ok <==> events[|events| - 1] == EndTick)
      && Handled(w.rows, rows, ids, left, seconds, answer, now) && (ok ==> left == [] && AllReadable(w.rows, seconds))
    }

    ghost predicate AllThrough(seconds: map<Id, Reading>) {
      forall id :: id in seconds ==> Through(cache, now, second(id), first, second, seconds[id])
    }
  }

  lemma LoopStarts(l: SendLoop, next: Option<Cached>)
    requires IsRun(l.w, [FetchDue(l.firsts)]) && Backed(next, l.w.chain) && Refreshed(l.cache, l.now, l.first, l.second, next)
    requires After(l.w, [FetchDue(l.firsts)]) == l.w.(phase := Sending(Rest(l.held, l.ids), l.now))
    requires Intact(l.held, l.w.rows, l.ids) && Handled(l.w.rows, l.w.rows, l.ids, l.ids, map[], l.answer, l.now)
    ensures l.Reached([FetchDue(l.firsts)], map[], l.ids, next, l.w.rows)
  {
    hide Backed, Refreshed, Intact, Handled, Rest, IsRun;
    assert [FetchDue(l.firsts)][..1] == [FetchDue(l.firsts)];
    hide After;
  }

  lemma NextToSend(l: SendLoop, events: seq<Event>, seconds: map<Id, Reading>, left: seq<Id>, cache: Option<Cached>, rows: Table)
    requires l.Reached(events, seconds, left, cache, rows) && left != []
    ensures left[0] in l.w.rows && left[0] in l.held && l.held[left[0]] == l.w.rows[left[0]]
  {
    IntactNext(l.held, l.w.rows, left);
  }

  predicate IsRow(rows: Table, id: Id, r: Row) {
    id in rows && rows[id] == r
  }

  predicate IsNext(left: seq<Id>, id: Id, rest: seq<Id>) {
    left != [] && left[0] == id && left[1..] == rest
  }

  lemma Turn(l: SendLoop, events: seq<Event>, seconds: map<Id, Reading>, left: seq<Id>, id: Id, rest: seq<Id>, r: Row,
             before: Option<Cached>, rows: Table, reading: Reading, next: Option<Cached>)
    requires l.Reached(events, seconds, left, before, rows) && l.w.now == l.now
    requires IsNext(left, id, rest) && IsRow(l.w.rows, id, r) && HonestReading(l.second(id), l.w.chain)
    requires reading == Reading(CachedRead(before, l.now, l.second(id).mtp), l.second(id).height)
    requires next == before || next == CacheAfter(before, l.now, l.second(id).mtp)
    ensures var open := Gate(r.nlocktime, reading);
            var more := events + [SendOne(id, reading, l.answer(id))];
            var after := AfterSend(rows, id, SendOutcome(r, open, l.answer(id), l.now, l.now));
            if open.Some? then l.Reached(more, seconds[id := reading], rest, next, after)
            else l.Ended(false, more, seconds[id := reading], rest, next, after)
  {
    hide Gate, SendOutcome, HonestReading, AfterSend, CachedRead, CacheAfter, Backed, Refreshed, Handled, AllReadable, SendsOnly, Through;
    hide IsRun, After, BusyBetween, Rest, Intact, Finished, RepeatFree;
    IntactNext(l.held, l.w.rows, left);
    StaysBacked(before, next, l.now, l.second(id), l.w.chain);
    ReadsThrough(l.cache, l.now, l.first, l.second, before, next, id, l.second(id));
    HandledNext(l.w.rows, rows, l.ids, left, seconds, l.answer, l.now, reading);
    TurnRuns(l.w, events, l.held, left, l.now, rows, reading, l.answer(id));
    SendsMore(events, l.firsts, seconds, l.answer, id, reading);
    LastEvent(events, SendOne(id, reading, l.answer(id)));
  }

  lemma LastEvent(events: seq<Event>, e: Event)
    ensures (events + [e])[|events + [e]| - 1] == e
  {
  }

  lemma LoopEnds(l: SendLoop, events: seq<Event>, seconds: map<Id, Reading>, cache: Option<Cached>, rows: Table)
    requires l.Reached(events, seconds, [], cache, rows)
    ensures l.Ended(true, events + [EndTick], seconds, [], cache, rows)
  {
    hide IsRun, After, BusyBetween, Intact, Finished, SendsOnly, AllReadable, Handled, Backed, Refreshed, Through, Enabled, Step;
    NoRest(l.held, []);
    Ends(After(l.w, events));
    RunExtends(l.w, events, EndTick);
    Finishes(l.w, events);
    SendsEnd(events, l.firsts, seconds, l.answer);
    LastEvent(events, EndTick);
  }

  lemma SendsMore(events: seq<Event>, firsts: map<Id, Reading>, seconds: map<Id, Reading>, answer: Id -> Answer, id: Id,
                  reading: Reading)
    requires id !in seconds && SendsOnly(events, firsts, seconds, answer)
    ensures SendsOnly(events + [SendOne(id, reading, answer(id))], firsts, seconds[id := reading], answer)
  {
  }

  lemma SendsEnd(events: seq<Event>, firsts: map<Id, Reading>, seconds: map<Id, Reading>, answer: Id -> Answer)
    requires SendsOnly(events, firsts, seconds, answer)
    ensures SendsOnly(events + [EndTick], firsts, seconds, answer)
  {
  }

  /** What one turn of the send loop makes of a row. */
  function SentRow(r: Row, open: Option<bool>, answer: Answer, now: nat): Row {
    var outcome := SendOutcome(r, open, answer, now, now);
    if outcome.Write? then Apply(r, outcome.u) else r
  }

  /** Of the ids, those in rest are still to be sent; all others have been, with the readings of seconds. */
  ghost predicate Handled(was: Table, rows: Table, ids: seq<Id>, rest: seq<Id>, seconds: map<Id, Reading>, answer: Id -> Answer,
                          now: nat) {
    && rows.Keys == was.Keys && RepeatFree(rest) && (forall id <- ids :: id in was)
    && (forall id :: id in seconds <==> id in ids && id !in rest) && (forall id <- rest :: id in ids)
    && forall id :: id in was ==>
         rows[id] == if id in seconds then SentRow(was[id], Gate(was[id].nlocktime, seconds[id]), answer(id), now) else was[id]
  }

  lemma NoneHandled(was: Table, ids: seq<Id>, answer: Id -> Answer, now: nat)
    requires RepeatFree(ids) && forall id <- ids :: id in was
    ensures Handled(was, was, ids, ids, map[], answer, now)
  {
  }

  lemma HandledNext(was: Table, rows: Table, ids: seq<Id>, rest: seq<Id>, seconds: map<Id, Reading>, answer: Id -> Answer,
                    now: nat, reading: Reading)
    requires Handled(was, rows, ids, rest, seconds, answer, now) && rest != []
    ensures var id := rest[0];
            && id in was && id in rows && rows[id] == was[id] && id !in seconds
            && var outcome := SendOutcome(was[id], Gate(was[id].nlocktime, reading), answer(id), now, now);
               Handled(was, AfterSend(rows, id, outcome), ids, rest[1..], seconds[id := reading], answer, now)
    ensures AllReadable(was, seconds) && Gate(was[rest[0]].nlocktime, reading).Some? ==> AllReadable(was, seconds[rest[0] := reading])
  {
    hide SendOutcome, Gate, Apply;
    assert rest == [rest[0]] + rest[1..];
  }

  /** No gate of the send loop was unreadable. */
  predicate AllReadable(was: Table, seconds: map<Id, Reading>) {
    forall id :: id in seconds && id in was ==> Gate(was[id].nlocktime, seconds[id]).Some?
  }

  lemma WhatIsSent(was: Table, rows: Table, due: seq<Id>, left: seq<Id>, firsts: map<Id, Reading>, seconds: map<Id, Reading>,
                   answer: Id -> Answer, now: nat, network: string, ok: bool)
    requires forall id :: id in firsts <==> id in was && IsDueCandidate(was[id], network)
    requires forall id :: id in due <==> id in firsts && IsDue(was[id], Gate(was[id].nlocktime, firsts[id]), now)
    requires Handled(was, rows, due, left, seconds, answer, now) && (ok ==> left == [] && AllReadable(was, seconds))
    ensures rows.Keys == was.Keys
    ensures forall id :: id in was ==>
              var r := was[id];
              var timely := match r.deferUntil
                            case Some(d) => d <= now
                            case None => r.scheduledTime.Some? && r.scheduledTime.value <= now;
              var due := id in firsts && timely && Gate(r.nlocktime, firsts[id]) == Some(true);
              && (id in seconds ==> due) && (ok && due ==> id in seconds && Gate(r.nlocktime, seconds[id]).Some?)
              && rows[id] ==
                 if id !in seconds then r
                 else match Gate(r.nlocktime, seconds[id])
                      case None => r
                      case Some(false) =>
                        if r.nlocktime.Some? && r.nlocktime.value > 500_000_000 && r.missedAt.None? then
                          r.(missedAt := Some(now),
                             originalScheduled := if r.originalScheduled.Some? then r.originalScheduled else r.scheduledTime)
                        else r
                      case Some(true) =>
                        match answer(id)
                        case Accepted(txid) =>
                          r.(status := Broadcast, txid := Some(txid), broadcastAt := Some(now), missedAt := None, deferUntil := None,
                             actualFee := Some(match r.targetFee case Some(fee) => fee case None => 0.0))
                        case Refused(error) => if IsRetriable(error) then r else r.(status := Failed, error := Some(error))
  {
    hide Gate, IsRetriable;
  }

  lemma PageIsEnabled(w: World, page: Table)
    requires (w.phase == Marking(map[]) || w.phase.Idle?) && IsPage(Where(w.rows, r => HasStatus(r, Failed, w.network)), PAGE, page)
    ensures Enabled(w, FetchFailed(page)) && Step(w, FetchFailed(page)) == w.(phase := Requeueing(page, w.phase.Marking?))
    ensures forall id :: id in page ==> id in w.rows && page[id] == w.rows[id] && page[id].status == Failed
    ensures IsPage(map id | id in w.rows && w.rows[id].status == Failed && w.rows[id].network == w.network :: w.rows[id],
                   1000, page)
  {
    StatusRows(w, Failed);
    hide IsPage;
    PageOfFailed(w, page);
  }

  lemma PageOfFailed(w: World, page: Table)
    requires IsPage(WithStatus(w, Failed), PAGE, page)
    ensures forall id :: id in page ==> id in w.rows && page[id] == w.rows[id] && page[id].status == Failed
  {
    var failed := WithStatus(w, Failed);
    PageOfAll(failed, page);
    hide IsPage;
    assert forall id :: id in page ==> id in failed && page[id] == failed[id];
  }

  lemma MonitorStarts(w: World, height: nat) returns (held: Table)
    requires w.blocked == map[] && height < |w.chain|
    ensures held == Where(w.rows, r => IsPendingByBlock(r, w.network))
    ensures Enabled(w, FetchBlocked(height)) && Step(w, FetchBlocked(height)) == w.(blocked := held, tip := height)
  {
    held := Where(w.rows, r => IsPendingByBlock(r, w.network));
    assert held == BlockRows(w);
  }

  lemma ResendStarts(w: World, interval: nat) returns (held: Table)
    requires w.resending == map[]
    ensures held == Where(w.rows, r => IsRebroadcastable(r, w.network, w.now - interval))
    ensures Enabled(w, FetchResend(interval)) && Step(w, FetchResend(interval)) == w.(resending := held)
  {
    held := Where(w.rows, r => IsRebroadcastable(r, w.network, w.now - interval));
    assert held == ResendRows(w, interval);
  }

  /** The rows whose price is met. */
  function Met(t: Table, prices: map<Currency, real>): Table {
    Where(t, r => PriceMet(r, prices))
  }

  lemma MetNext(t: Table, id: Id, prices: map<Currency, real>)
    requires id in t
    ensures |Met(t, prices).Keys| == |Met(t - {id}, prices).Keys| + (if PriceMet(t[id], prices) then 1 else 0)
  {
    MetKeys(t, id, prices);
    hide Met, PriceMet;
  }

  lemma MetKeys(t: Table, id: Id, prices: map<Currency, real>)
    requires id in t
    ensures id !in Met(t - {id}, prices)
    ensures PriceMet(t[id], prices) ==> Met(t, prices).Keys == Met(t - {id}, prices).Keys + {id}
    ensures !PriceMet(t[id], prices) ==> Met(t, prices).Keys == Met(t - {id}, prices).Keys
  {
    hide PriceMet;
  }

  lemma NoneMet(prices: map<Currency, real>)
    ensures |Met(map[], prices).Keys| == 0
  {
    assert Met(map[], prices).Keys == {};
  }

  lemma PriceStarts(w: World, prices: map<Currency, real>) returns (held: Table)
    requires w.priced == map[]
    ensures held == Where(w.rows, r => IsPriceTriggered(r, w.network))
    ensures Enabled(w, FetchPriced(prices)) && Step(w, FetchPriced(prices)) == w.(priced := held, prices := prices)
  {
    held := Where(w.rows, r => IsPriceTriggered(r, w.network));
    assert held == PricedRows(w);
  }

  lemma BroadcastPage(w: World, page: Table)
    requires w.confirming == map[] && IsPage(Where(w.rows, r => HasStatus(r, Broadcast, w.network)), PAGE, page)
    ensures Enabled(w, FetchConfirming(page)) && Step(w, FetchConfirming(page)) == w.(confirming := page)
    ensures forall id :: id in page ==> id in w.rows && page[id] == w.rows[id]
    ensures IsPage(map id | id in w.rows && w.rows[id].status == Broadcast && w.rows[id].network == w.network :: w.rows[id],
                   1000, page)
  {
    StatusRows(w, Broadcast);
    hide IsPage;
    PageOfAll(WithStatus(w, Broadcast), page);
  }

  lemma StatusRows(w: World, status: Status)
    ensures Where(w.rows, r => HasStatus(r, status, w.network)) == WithStatus(w, status)
    ensures WithStatus(w, status) ==
            map id | id in w.rows && w.rows[id].status == status && w.rows[id].network == w.network :: w.rows[id]
  {
  }

  lemma PageOfAll(all: Table, page: Table)
    requires IsPage(all, PAGE, page)
    ensures forall id :: id in page ==> id in all && page[id] == all[id]
  {
  }

  lemma StartupEnds(w: World)
    requires w.phase == Requeueing(map[], false)
    ensures Enabled(w, EndStartup) && Step(w, EndStartup) == w.(phase := Idle)
  {
  }

  lemma Fetches(w: World, due: seq<Id>, readings: map<Id, Reading>) returns (held: Table)
    requires w.phase == Requeueing(map[], true) && forall id :: id in readings ==> HonestReading(readings[id], w.chain)
    requires forall id :: id in readings <==> id in w.rows && IsDueCandidate(w.rows[id], w.network)
    requires RepeatFree(due)
    requires forall id :: id in due <==> id in readings && IsDue(w.rows[id], Gate(w.rows[id].nlocktime, readings[id]), w.now)
    ensures held == DueRows(w, readings) && Rest(held, due) == held && Intact(held, w.rows, due)
    ensures Enabled(w, FetchDue(readings)) && Step(w, FetchDue(readings)) == w.(phase := Sending(held, w.now))
  {
    hide HonestReading, IsDueCandidate, IsDue, Gate;
    held := DueRows(w, readings);
  }

  lemma NoRest(rows: Table, ids: seq<Id>)
    requires ids == []
    ensures Rest(rows, ids) == map[]
  {
  }

  lemma Ends(w: World)
    requires w.phase.Sending? && w.phase.held == map[]
    ensures Enabled(w, EndTick) && Step(w, EndTick) == w.(phase := Idle)
  {
  }

  /** A tick from its start; complete when nothing ended it early. */
  predicate IsTick(w: World, events: seq<Event>, complete: bool) {
    events != [] && events[0].StartTick? && (complete ==> CompleteTick(w, events, 0, |events| - 1))
  }

  predicate Finished(w: World, events: seq<Event>) {
    events != [] && events[|events| - 1].EndTick? && BusyBetween(w, events, 0, |events| - 1)
  }

  lemma Finishes(w: World, events: seq<Event>)
    requires BusyBetween(w, events, 0, |events|)
    ensures Finished(w, events + [EndTick])
  {
    hide Step, After;
    BusyToo(w, events, [EndTick]);
  }

  /** The fetched rows still to be handled, each once and as fetched. */
  ghost predicate Intact(held: Table, rows: Table, ids: seq<Id>) {
    RepeatFree(ids) && forall id <- ids :: id in held && id in rows && held[id] == rows[id]
  }

  lemma IntactNext(held: Table, rows: Table, ids: seq<Id>)
    requires Intact(held, rows, ids) && ids != []
    ensures RepeatFree(ids) && ids[0] in held && ids[0] in rows && held[ids[0]] == rows[ids[0]]
    ensures Intact(held, rows, ids[1..]) && forall u :: Intact(held, Updated(rows, ids[0], u), ids[1..])
  {
    hide Apply;
    assert ids == [ids[0]] + ids[1..] && forall id <- ids[1..] :: id != ids[0];
  }

  lemma IntactAtFirst(rows: Table, ids: seq<Id>, found: Table)
    requires Lists(ids, found) && forall id :: id in found ==> id in rows && rows[id] == found[id]
    ensures Rest(found, ids) == found && Intact(found, rows, ids)
  {
  }

  predicate Begun(w: World, events: seq<Event>) {
    events != [] && events[0].StartTick? && BusyBetween(w, events, 0, |events|)
  }

  lemma StaysBegun(w: World, events: seq<Event>, e: Event)
    requires Begun(w, events) && !Step(After(w, events), e).phase.Idle?
    ensures Begun(w, events + [e])
  {
    hide Step;
    StaysBusy(w, events, e);
  }

  lemma StaysBusy(w: World, events: seq<Event>, e: Event)
    requires BusyBetween(w, events, 0, |events|)
    ensures !Step(After(w, events), e).phase.Idle? ==> BusyBetween(w, events + [e], 0, |events| + 1)
  {
    hide Step;
    var more := events + [e];
    assert more[..|events|] == events && more[..|more|] == more;
    BusyToo(w, events, [e]);
  }

  lemma BusyToo(w: World, events: seq<Event>, rest: seq<Event>)
    requires BusyBetween(w, events, 0, |events|)
    ensures BusyBetween(w, events + rest, 0, |events|)
  {
    hide Step, After;
    forall k | 0 < k <= |events| ensures At(w, events + rest, k) == At(w, events, k) {
      assert (events + rest)[..k] == events[..k];
    }
  }

  lemma BusyJoin(w: World, first: seq<Event>, rest: seq<Event>, b: nat)
    requires b <= |rest| && first != [] && BusyBetween(w, first, 0, |first|) && BusyBetween(After(w, first), rest, 0, b)
    ensures BusyBetween(w, first + rest, 0, |first| + b)
  {
    hide Step, After;
    BusyToo(w, first, rest);
    forall k | 0 < k <= b ensures At(w, first + rest, |first| + k) == At(After(w, first), rest, k) {
      assert (first + rest)[..|first| + k] == first + rest[..k];
      AfterAppend(w, first, rest[..k]);
    }
    forall k | 0 < k <= |first| + b ensures !At(w, first + rest, k).phase.Idle? {
      if k > |first| {
        assert At(w, first + rest, |first| + (k - |first|)) == At(After(w, first), rest, k - |first|);
      }
    }
  }
}
