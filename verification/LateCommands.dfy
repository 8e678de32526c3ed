/** Commands that come while a loop holds the row: exactly when deleting a transaction, or putting it off,
    keeps it from being sent. */
module LateCommands {
  import opened Prelude
  import opened Database
  import opened Locktime
  import opened Refusals
  import opened MedianTime
  import opened Machine
  import opened SendSafety
  import opened PriceTrigger

  /** A loop will hand the row it fetched to the network, whatever the table says by then. */
  predicate OnTheWayOut(w: World, id: Id) {
    (w.phase.Sending? && id in w.phase.held) || id in w.resending
  }

  /** The next step can send it: the gate that was open when the row was fetched is still open. */
  lemma CanGoOut(w: World, id: Id) returns (e: Event)
    requires Safe(w) && OnTheWayOut(w, id)
    ensures Enabled(w, e) && !IsUser(e) && EmitsId(w, e, id)
  {
    if id in w.resending {
      e := ResendOne(id, Accepted(""));
    } else {
      var reading := OpenReading(w.phase.held[id].nlocktime, w.chain);
      e := SendOne(id, reading, Accepted(""));
    }
  }

  lemma OpenReading(nlocktime: Option<nat>, chain: seq<nat>) returns (reading: Reading)
    requires LocktimeMet(nlocktime, chain)
    ensures HonestReading(reading, chain) && Gate(nlocktime, reading) == Some(true)
  {
    if chain == [] {
      reading := Reading(None, None);
    } else {
      reading := Current(chain, MedianTimePast(chain));
      assert chain[..|chain|] == chain;
      assert SeesTime(chain, |chain|, MedianTimePast(chain));
    }
  }

  /** What the sending loops hold next was held, or is a row of the table that is due or out. */
  lemma NextOnTheWay(w: World, e: Event, id: Id)
    requires OnTheWayOut(Step(w, e), id)
    ensures OnTheWayOut(w, id) || (id in w.rows && (w.rows[id].status == Broadcast || (e.FetchDue? && TimeHasCome(w.rows[id], w.now))))
  {
    SamePhase(w, e);
    ResendingOut(w, e);
    if NextPhase(w, e).Sending? && id in NextPhase(w, e).held {
      NextSending(w, e, id);
    }
    hide NextPhase, EffectOf, Written, Moved;
  }

  lemma NextSending(w: World, e: Event, id: Id)
    requires NextPhase(w, e).Sending? && id in NextPhase(w, e).held
    ensures (w.phase.Sending? && id in w.phase.held) || (e.FetchDue? && id in w.rows && TimeHasCome(w.rows[id], w.now))
  {
    hide Gate, EffectOf, IsRequeued;
  }

  // ----- deleting

  /** No run ever sends the transaction. */
  ghost predicate NeverSent(w: World, id: Id) {
    forall events :: IsRun(w, events) ==> NotSentIn(w, events, id)
  }

  predicate NotSentIn(w: World, events: seq<Event>, id: Id) {
    forall i :: 0 <= i < |events| ==> !EmitsId(At(w, events, i), events[i], id)
  }

  predicate Gone(w: World, id: Id) {
    id in w.used && id !in w.rows && !OnTheWayOut(w, id)
  }

  lemma KeepsGone(w: World, e: Event, id: Id)
    requires Identities(w) && Gone(w, id) && Enabled(w, e)
    ensures Gone(Step(w, e), id) && !EmitsId(w, e, id)
  {
    StaysDeleted(w, e, id);
    if OnTheWayOut(Step(w, e), id) {
      NextOnTheWay(w, e, id);
    }
  }

  lemma StaysDeleted(w: World, e: Event, id: Id)
    requires Identities(w) && id in w.used && id !in w.rows && Enabled(w, e)
    ensures id in Step(w, e).used && id !in Step(w, e).rows
  {
    hide Gate, NextPhase, IsRequeued, Apply, Inserted, SendOutcome, IsPage, HonestReading, MedianTimePast, IsReschedule;
  }

  lemma {:induction false} GoneForGood(w: World, events: seq<Event>, id: Id)
    requires Identities(w) && Gone(w, id) && IsRun(w, events)
    ensures NotSentIn(w, events, id) && Identities(After(w, events)) && Gone(After(w, events), id)
  {
    hide Step, Enabled, Identities, Gone, EmitsId;
    if events != [] {
      var n := |events| - 1;
      var init := events[..n];
      RunPrefix(w, events, n);
      GoneForGood(w, init, id);
      KeepsIdentities(After(w, init), events[n]);
      KeepsGone(After(w, init), events[n], id);
      SentInOneMore(w, events, id);
    }
  }

  lemma SentInOneMore(w: World, events: seq<Event>, id: Id)
    requires events != [] && NotSentIn(w, events[..|events| - 1], id)
    requires !EmitsId(After(w, events[..|events| - 1]), events[|events| - 1], id)
    ensures NotSentIn(w, events, id)
  {
    var n := |events| - 1;
    forall i | 0 <= i < |events| ensures !EmitsId(At(w, events, i), events[i], id) {
      if i < n {
        assert events[..i] == events[..n][..i] && events[..n][i] == events[i];
        assert At(w, events[..n], i) == At(w, events, i);
      }
    }
  }

  /** A deleted transaction is never sent if and only if no loop had it on its way out. */
  lemma DiscardExactly(w: World, id: Id)
    requires Identities(w) && Safe(w) && id in w.rows
    ensures NeverSent(Step(w, Discard(id)), id) <==> !OnTheWayOut(w, id)
  {
    var s := Step(w, Discard(id));
    DiscardKeepsHolds(w, id);
    KeepsIdentities(w, Discard(id));
    KeepsSafe(w, Discard(id));
    if OnTheWayOut(w, id) {
      var e := CanGoOut(s, id);
      SentAtOnce(s, id, e);
    } else {
      forall events | IsRun(s, events) ensures NotSentIn(s, events, id) {
        GoneForGood(s, events, id);
      }
    }
  }

  lemma DiscardKeepsHolds(w: World, id: Id)
    requires Identities(w) && id in w.rows
    ensures Enabled(w, Discard(id)) && (OnTheWayOut(Step(w, Discard(id)), id) <==> OnTheWayOut(w, id))
    ensures !OnTheWayOut(w, id) ==> Gone(Step(w, Discard(id)), id)
  {
  }

  lemma SentAtOnce(w: World, id: Id, e: Event)
    requires Enabled(w, e) && EmitsId(w, e, id)
    ensures IsRun(w, [e]) && !NotSentIn(w, [e], id) && !NeverSent(w, id)
  {
    RunOfOne(w, e);
    assert [e][..0] == [];
    assert At(w, [e], 0) == w;
  }

  /** A run in which a deleted transaction is sent: the tick had fetched it. */
  lemma DiscardTooLate(id: Id) returns (w: World, before: seq<Event>)
    ensures Init(w) && IsRun(w, before + [Discard(id)] + [Send(id)])
    ensures EmitsId(After(w, before + [Discard(id)]), Send(id), id)
  {
    hide Step, Enabled, EmitsId, AboutToSend, After, IsRun;
    w, before := FetchedRun(id);
    LateRun(w, before, id, Discard(id));
  }

  // ----- putting off

  /** No user command touches the row. */
  predicate LeftAlone(events: seq<Event>, id: Id) {
    forall i :: 0 <= i < |events| ==> !(IsUser(events[i]) && events[i].id == id)
  }

  /** The broadcast loop would take the row. */
  predicate DueNow(w: World, id: Id) {
    id in w.rows && w.rows[id].status == Scheduled && TimeHasCome(w.rows[id], w.now)
  }

  /** While its user leaves it alone, the row is neither sent nor due before a time. */
  ghost predicate WaitsUntil(w: World, id: Id, time: nat) {
    forall events :: IsRun(w, events) && LeftAlone(events, id) ==> NotBefore(w, events, id, time)
  }

  predicate NotBefore(w: World, events: seq<Event>, id: Id, time: nat) {
    && (After(w, events).now < time ==> !DueNow(After(w, events), id))
    && forall i :: 0 <= i < |events| && At(w, events, i).now < time ==> !EmitsId(At(w, events, i), events[i], id)
  }

  // ----- which rows the loops mark

  /** The rows that a tick marks, and those that wait for a price, are of the modes that commands schedule. */
  predicate Kinds(w: World) {
    && (w.phase.Marking? ==> AllScheduledByHand(w.phase.held))
    && (forall id :: id in w.rows && w.rows[id].trigger == Some(ByPrice) ==> w.rows[id].mode == Some(Manual))
    && (forall id :: id in w.priced ==> w.priced[id].mode == Some(Manual))
  }

  predicate AllScheduledByHand(held: Table) {
    forall id :: id in held ==> ByHand(held[id])
  }

  predicate ByHand(r: Row) {
    r.mode == Some(AtTime) || r.mode == Some(Manual)
  }

  predicate PricedByHand(rows: Table) {
    forall id :: id in rows && rows[id].trigger == Some(ByPrice) ==> rows[id].mode == Some(Manual)
  }

  lemma MarkingByHand(w: World, e: Event)
    requires Kinds(w)
    ensures NextPhase(w, e).Marking? ==> AllScheduledByHand(NextPhase(w, e).held)
  {
    hide Gate, EffectOf, DueRows;
  }

  lemma PricedHeldByHand(w: World, e: Event)
    requires Kinds(w)
    ensures forall id :: id in Moved(w, e).priced ==> Moved(w, e).priced[id].mode == Some(Manual)
  {
    PricedOrHeld(w, e);
    hide Moved;
  }

  lemma ArmsManual(w: World, e: Event)
    requires Enabled(w, e)
    ensures EffectOf(w, e).Change? && EffectOf(w, e).u.Arm? ==>
              EffectOf(w, e).id in w.rows && w.rows[EffectOf(w, e).id].mode == Some(Manual)
    ensures EffectOf(w, e).Insert? ==> EffectOf(w, e).row.trigger == Some(ByDate)
  {
    hide Gate, IsRequeued, IsRetriable, IsReschedule, IsPage, HonestReading, MedianTimePast, NextPhase;
  }

  lemma RowsByHand(rows: Table, f: Effect)
    requires PricedByHand(rows) && (f.Insert? ==> f.row.trigger == Some(ByDate))
    requires f.Change? && f.u.Arm? ==> f.id in rows && rows[f.id].mode == Some(Manual)
    ensures PricedByHand(Written(rows, f))
  {
    if f.Change? && f.id in rows {
      UpdateMode(rows[f.id], f.u);
    }
    hide Apply;
  }

  lemma KeepsKinds(w: World, e: Event)
    requires Kinds(w) && Enabled(w, e)
    ensures Kinds(Step(w, e))
  {
    MarkingByHand(w, e);
    PricedHeldByHand(w, e);
    ArmsManual(w, e);
    hide EffectOf, Written, Moved, NextPhase, Enabled;
    SamePhase(w, e);
    RowsByHand(w.rows, EffectOf(w, e));
  }

  lemma {:induction false} AlwaysKinds(w: World, events: seq<Event>)
    requires Init(w) && IsRun(w, events)
    ensures Kinds(After(w, events))
  {
    if events != [] {
      hide Step, Enabled, Kinds;
      var n := |events| - 1;
      RunPrefix(w, events, n);
      AlwaysKinds(w, events[..n]);
      KeepsKinds(After(w, events[..n]), events[n]);
    }
  }

  // ----- a row that is put off

  /** A loop will mark the row as due, because it took it up when it had no schedule: the ingest of an immediate
      transaction, or the block height monitor at a height that meets the lock. */
  predicate AboutToBeMarked(w: World, id: Id) {
    id in w.importing ||
    (id in w.blocked && w.blocked[id].nlocktime.Some? && w.tip >= w.blocked[id].nlocktime.value)
  }

  /** With a deferral the marks do not matter; without one, no loop may be about to mark the row. */
  predicate PutOff(w: World, id: Id, time: nat) {
    id in w.rows &&
    var r := w.rows[id];
    && r.status != Broadcast && !OnTheWayOut(w, id)
    && (r.deferUntil == Some(time) ||
        (r.deferUntil.None? && r.scheduledTime == Some(time) && r.status != Pending && !ByHand(r)
         && !AboutToBeMarked(w, id)))
  }

  predicate WaitsNow(w: World, id: Id, time: nat) {
    w.now >= time || PutOff(w, id, time)
  }

  lemma KeepsWaiting(w: World, e: Event, id: Id, time: nat)
    requires Identities(w) && Modes(w) && Kinds(w) && WaitsNow(w, id, time) && Enabled(w, e) && !(IsUser(e) && e.id == id)
    ensures WaitsNow(Step(w, e), id, time) && (w.now < time ==> !EmitsId(w, e, id))
  {
    TimePasses(w, e);
    if w.now < time {
      hide Step, Enabled, Identities, Modes, Kinds, PutOff, EmitsId;
      KeepsPutOff(w, e, id, time);
    }
  }

  lemma KeepsPutOff(w: World, e: Event, id: Id, time: nat)
    requires Identities(w) && Kinds(w) && PutOff(w, id, time) && w.now < time && Enabled(w, e) && !(IsUser(e) && e.id == id)
    ensures PutOff(Step(w, e), id, time) && !EmitsId(w, e, id)
  {
    hide Step, Enabled, Identities, Kinds, AboutToBeMarked, ByHand;
    StaysInside(w, e, id, time);
    if w.rows[id].deferUntil == Some(time) {
      DeferredRow(w, e, id, time);
    } else {
      QuietRow(w, e, id, time);
      StaysUnmarked(w, e, id);
    }
  }

  lemma StaysInside(w: World, e: Event, id: Id, time: nat)
    requires PutOff(w, id, time) && w.now < time
    ensures !OnTheWayOut(Step(w, e), id)
  {
    hide Step, ByHand, AboutToBeMarked;
    if OnTheWayOut(Step(w, e), id) {
      hide OnTheWayOut;
      NextOnTheWay(w, e, id);
    }
  }

  lemma TimePasses(w: World, e: Event)
    ensures Step(w, e).now >= w.now
  {
    hide NextPhase, EffectOf, Written;
  }

  /** The updates that a loop makes on a row it does not send. */
  lemma KeepsDeferral(r: Row, u: Update)
    requires u.Due? || u.Fire? || u.Requeue? || u.Confirm?
    ensures Apply(r, u).deferUntil == r.deferUntil && (r.status != Broadcast ==> Apply(r, u).status != Broadcast)
    ensures u.Requeue? || u.Confirm? ==>
              Apply(r, u).scheduledTime == r.scheduledTime && (r.status != Pending ==> Apply(r, u).status != Pending)
    ensures Apply(r, u).mode == r.mode
  {
  }

  lemma LoopUpdates(w: World, e: Event, id: Id)
    requires Identities(w) && Enabled(w, e) && !OnTheWayOut(w, id) && !(IsUser(e) && e.id == id) && id in w.rows
    ensures var f := EffectOf(w, e);
            && (f.Insert? || f.Delete? ==> f.id != id)
            && (f.Change? && f.id == id ==> f.u.Due? || f.u.Fire? || f.u.Requeue? || f.u.Confirm?)
  {
    hide Gate, IsRequeued, SendOutcome, IsReschedule;
  }

  /** Only a row of the modes that commands schedule, or one about to be marked, is marked due. */
  lemma MarksOnly(w: World, e: Event, id: Id)
    requires Identities(w) && Kinds(w) && Enabled(w, e) && id in w.rows && !ByHand(w.rows[id]) && !AboutToBeMarked(w, id)
    requires !OnTheWayOut(w, id) && !(IsUser(e) && e.id == id)
    ensures var f := EffectOf(w, e); f.Change? && f.id == id ==> !f.u.Due? && !f.u.Fire?
  {
    hide Gate, IsRequeued, SendOutcome, IsReschedule, IsPage, HonestReading, PriceMet;
  }

  lemma DeferredRow(w: World, e: Event, id: Id, time: nat)
    requires Identities(w) && Enabled(w, e) && !(IsUser(e) && e.id == id)
    requires id in w.rows && w.rows[id].deferUntil == Some(time) && w.rows[id].status != Broadcast && !OnTheWayOut(w, id)
    ensures Deferred(Step(w, e).rows, id, time)
  {
    LoopUpdates(w, e, id);
    hide EffectOf, Written, Enabled, Identities, NextPhase, OnTheWayOut;
    DeferredWrite(w.rows, EffectOf(w, e), id, time);
  }

  predicate Deferred(rows: Table, id: Id, time: nat) {
    id in rows && rows[id].deferUntil == Some(time) && rows[id].status != Broadcast
  }

  lemma DeferredWrite(rows: Table, f: Effect, id: Id, time: nat)
    requires Deferred(rows, id, time) && (f.Insert? || f.Delete? ==> f.id != id)
    requires f.Change? && f.id == id ==> f.u.Due? || f.u.Fire? || f.u.Requeue? || f.u.Confirm?
    ensures Deferred(Written(rows, f), id, time)
  {
    hide Apply;
    if f.Change? && f.id == id {
      KeepsDeferral(rows[id], f.u);
    }
  }

  lemma QuietRow(w: World, e: Event, id: Id, time: nat)
    requires Identities(w) && Kinds(w) && Enabled(w, e) && !(IsUser(e) && e.id == id)
    requires PutOff(w, id, time) && w.rows[id].deferUntil.None?
    ensures Quiet(Step(w, e).rows, id, time)
  {
    LoopUpdates(w, e, id);
    MarksOnly(w, e, id);
    hide EffectOf, Written, Enabled, Identities, NextPhase, Kinds, AboutToBeMarked, OnTheWayOut, ByHand;
    QuietWrite(w.rows, EffectOf(w, e), id, time);
  }

  /** Without a deferral, and no loop fetches it any more before its time. */
  predicate Quiet(rows: Table, id: Id, time: nat) {
    id in rows &&
    var r := rows[id];
    r.deferUntil.None? && r.scheduledTime == Some(time) && r.status != Pending && r.status != Broadcast && !ByHand(r)
  }

  lemma QuietWrite(rows: Table, f: Effect, id: Id, time: nat)
    requires Quiet(rows, id, time) && (f.Insert? || f.Delete? ==> f.id != id)
    requires f.Change? && f.id == id ==> f.u.Requeue? || f.u.Confirm?
    ensures Quiet(Written(rows, f), id, time)
  {
    hide Apply;
    if f.Change? && f.id == id {
      KeepsDeferral(rows[id], f.u);
    }
  }

  lemma StaysUnmarked(w: World, e: Event, id: Id)
    requires Identities(w) && Enabled(w, e) && id in w.rows && w.rows[id].status != Pending && !AboutToBeMarked(w, id)
    ensures !AboutToBeMarked(Step(w, e), id)
  {
    hide Step, Identities;
    if id in Step(w, e).importing {
      NextImport(w, e, id);
      hide Enabled;
      IngestIsNew(w, e);
    }
    SameTip(w, e);
    if id in Step(w, e).blocked {
      NextBlocked(w, e, id);
    }
  }

  lemma SameTip(w: World, e: Event)
    ensures !e.FetchBlocked? ==> Step(w, e).tip == w.tip
  {
    hide NextPhase, EffectOf, Written;
  }

  lemma WaitingMeans(w: World, id: Id, time: nat)
    requires WaitsNow(w, id, time)
    ensures w.now < time ==> !DueNow(w, id)
  {
  }

  lemma {:induction false} StaysWaiting(w: World, events: seq<Event>, id: Id, time: nat)
    requires Identities(w) && Modes(w) && Kinds(w) && WaitsNow(w, id, time) && IsRun(w, events) && LeftAlone(events, id)
    ensures NotBefore(w, events, id, time)
    ensures var s := After(w, events); Identities(s) && Modes(s) && Kinds(s) && WaitsNow(s, id, time)
  {
    hide Step, Enabled, Identities, Modes, Kinds, WaitsNow, EmitsId, DueNow;
    if events != [] {
      var n := |events| - 1;
      var init := events[..n];
      RunPrefix(w, events, n);
      StaysWaiting(w, init, id, time);
      KeepsIdentities(After(w, init), events[n]);
      KeepsModes(After(w, init), events[n]);
      KeepsKinds(After(w, init), events[n]);
      KeepsWaiting(After(w, init), events[n], id, time);
      forall i | 0 <= i < |events| && At(w, events, i).now < time ensures !EmitsId(At(w, events, i), events[i], id) {
        if i < n {
          assert events[..i] == init[..i] && init[i] == events[i];
          assert At(w, init, i) == At(w, events, i);
        }
      }
    }
    WaitingMeans(After(w, events), id, time);
  }

  /** Exactly when putting a row off holds it back until its new time: no loop had it on its way out, and if it
      had no schedule of any kind, so that the command sets no deferral, no loop was about to mark it. */
  lemma ScheduleAtExactly(w: World, id: Id, time: nat, fee: real)
    requires Identities(w) && Safe(w) && Modes(w) && Kinds(w) && Enabled(w, ScheduleAt(id, time, fee))
    ensures WaitsUntil(Step(w, ScheduleAt(id, time, fee)), id, time) <==>
            !OnTheWayOut(w, id) && (IsReschedule(w.rows[id]) || !AboutToBeMarked(w, id))
  {
    var e := ScheduleAt(id, time, fee);
    var s := Step(w, e);
    AfterPuttingOff(w, id, time, fee);
    KeepsIdentities(w, e);
    KeepsSafe(w, e);
    KeepsModes(w, e);
    KeepsKinds(w, e);
    if OnTheWayOut(w, id) {
      var out := CanGoOut(s, id);
      SentEarly(s, id, out, time);
    } else if !IsReschedule(w.rows[id]) && AboutToBeMarked(w, id) {
      var mark := MarkedAtOnce(s, id);
      DueEarly(s, id, mark, time);
    } else {
      forall events | IsRun(s, events) && LeftAlone(events, id) ensures NotBefore(s, events, id, time) {
        StaysWaiting(s, events, id, time);
      }
    }
  }

  lemma AfterPuttingOff(w: World, id: Id, time: nat, fee: real)
    requires Enabled(w, ScheduleAt(id, time, fee))
    ensures var s := Step(w, ScheduleAt(id, time, fee));
            && (OnTheWayOut(s, id) <==> OnTheWayOut(w, id)) && (AboutToBeMarked(s, id) <==> AboutToBeMarked(w, id))
            && s.now < time && id in s.rows
            && (s.rows[id].deferUntil.None? <==> !IsReschedule(w.rows[id]))
            && (!OnTheWayOut(w, id) && (IsReschedule(w.rows[id]) || !AboutToBeMarked(w, id)) ==> WaitsNow(s, id, time))
  {
  }

  lemma SentEarly(w: World, id: Id, e: Event, time: nat)
    requires Enabled(w, e) && !IsUser(e) && EmitsId(w, e, id) && w.now < time
    ensures !WaitsUntil(w, id, time)
  {
    RunOfOne(w, e);
    assert [e][..0] == [];
    assert At(w, [e], 0) == w;
    assert LeftAlone([e], id) && !NotBefore(w, [e], id, time);
  }

  /** One step of the loop that is about to mark the row. */
  lemma MarkedAtOnce(w: World, id: Id) returns (e: Event)
    requires AboutToBeMarked(w, id) && id in w.rows && w.rows[id].deferUntil.None?
    ensures Enabled(w, e) && !IsUser(e) && DueNow(Step(w, e), id) && Step(w, e).now == w.now
  {
    if id in w.importing {
      e := IngestDue(id);
    } else {
      e := MarkBlocked(id);
      MonitorMarks(w, id);
    }
  }

  /** The monitor holds the row at a height that meets its lock, and no deferral holds it back. */
  predicate HeightReached(w: World, id: Id) {
    && id in w.rows && w.rows[id].deferUntil.None?
    && id in w.blocked && w.blocked[id].nlocktime.Some? && w.tip >= w.blocked[id].nlocktime.value
  }

  lemma MonitorMarks(w: World, id: Id)
    requires HeightReached(w, id)
    ensures var e := MarkBlocked(id); Enabled(w, e) && DueNow(Step(w, e), id) && Step(w, e).now == w.now
  {
  }

  lemma DueEarly(w: World, id: Id, e: Event, time: nat)
    requires Enabled(w, e) && !IsUser(e) && DueNow(Step(w, e), id) && Step(w, e).now < time
    ensures !WaitsUntil(w, id, time)
  {
    RunOfOne(w, e);
    assert LeftAlone([e], id) && !NotBefore(w, [e], id, time);
  }

  /** A run in which a transaction that was put off until second 100 is sent in second 1. */
  lemma ScheduleAtTooLate(id: Id) returns (w: World, before: seq<Event>, later: Event)
    ensures later == ScheduleAt(id, 100, 5.0) && Init(w) && IsRun(w, before + [later] + [Send(id)])
    ensures EmitsId(After(w, before + [later]), Send(id), id) && After(w, before + [later]).now == 1
  {
    hide Step, Enabled, EmitsId, AboutToSend, After, IsRun;
    w, before := FetchedRun(id);
    later := ScheduleAt(id, 100, 5.0);
    LateRun(w, before, id, later);
  }

  /** A run in which the block height monitor makes a transaction due in second 0 that was just put off until
      second 100: it had fetched the row before. */
  lemma PutOffAndMarked(id: Id) returns (w: World, events: seq<Event>)
    ensures Init(w) && IsRun(w, events) && |events| == 4 && events[2] == ScheduleAt(id, 100, 5.0)
    ensures DueNow(After(w, events), id) && After(w, events).now == 0
  {
    hide Step, Enabled, DueNow, After, IsRun, WaitsForHeight;
    w := World("main", map[], {}, [0, 1], 0, Idle, {}, map[], 0, map[], map[], map[], map[]);
    var tx := NewTx("00", "main", Some(1), Some(ByBlock), None, None, None);
    TwoBlocks();
    EmptyRun(w);
    MonitorFetchesRow(w, id, tx);
    events := RunTwice(w, [], Ingest(id, tx), FetchBlocked(1));
    PutOffThenMarked(After(w, events), id);
    events := RunTwice(w, events, ScheduleAt(id, 100, 5.0), MarkBlocked(id));
  }

  lemma TwoBlocks()
    ensures ValidChain([0, 1])
  {
    MedianOfOne(0);
    assert [0, 1][..1] == [0];
  }

  /** The monitor holds a row whose height is reached. */
  predicate WaitsForHeight(w: World, id: Id) {
    && id in w.rows && id in w.blocked && w.rows[id].nlocktime == Some(1) && w.blocked[id].nlocktime == Some(1)
    && w.tip == 1 && w.now == 0 && w.rows[id].deferUntil.None? && !IsReschedule(w.rows[id])
  }

  lemma MonitorFetchesRow(w: World, id: Id, tx: NewTx)
    requires w.rows == map[] && w.used == {} && w.now == 0 && w.blocked == map[] && |w.chain| == 2
    requires tx == NewTx("00", w.network, Some(1), Some(ByBlock), None, None, None)
    ensures Enabled(w, Ingest(id, tx)) && Enabled(Step(w, Ingest(id, tx)), FetchBlocked(1))
    ensures WaitsForHeight(Step(Step(w, Ingest(id, tx)), FetchBlocked(1)), id)
  {
    var s := Step(w, Ingest(id, tx));
    assert s.rows == map[id := Inserted(tx, 0)];
  }

  lemma PutOffThenMarked(w: World, id: Id)
    requires WaitsForHeight(w, id)
    ensures var later := ScheduleAt(id, 100, 5.0);
            && Enabled(w, later) && Enabled(Step(w, later), MarkBlocked(id))
            && DueNow(Step(Step(w, later), MarkBlocked(id)), id) && Step(Step(w, later), MarkBlocked(id)).now == 0
  {
    StillWaits(w, id);
    hide Step, Enabled;
    MonitorMarks(Step(w, ScheduleAt(id, 100, 5.0)), id);
  }

  lemma StillWaits(w: World, id: Id)
    requires WaitsForHeight(w, id)
    ensures var later := ScheduleAt(id, 100, 5.0);
            Enabled(w, later) && HeightReached(Step(w, later), id) && Step(w, later).now == 0
  {
  }
}
