/** Transactions that wait for a price: when a loop may release them, and how often. */
module PriceTrigger {
  import opened Prelude
  import opened Database
  import opened Locktime
  import opened Refusals
  import opened MedianTime
  import opened Machine
  import opened SendSafety

  // ----- invariants that the user's commands keep too

  predicate Modes(w: World) {
    && (forall id :: id in w.blocked ==> w.blocked[id].mode == Some(ByBlock))
    && (forall id :: id in w.importing && id in w.rows ==> w.rows[id].mode == Some(Immediate))
  }

  /** No update changes a mode, and only arming makes a row wait for a price. */
  lemma UpdateMode(r: Row, u: Update)
    ensures Apply(r, u).mode == r.mode
    ensures !u.Arm? && r.trigger != Some(ByPrice) ==> Apply(r, u).trigger != Some(ByPrice)
  {
  }

  lemma ArmsOnlyForUser(w: World, e: Event)
    ensures EffectOf(w, e).Change? && EffectOf(w, e).u.Arm? ==> e.ScheduleByPrice?
    ensures EffectOf(w, e).Insert? ==> e.Ingest? && EffectOf(w, e).id == e.id
  {
    hide Gate, IsRequeued, IsRetriable;
  }

  lemma WrittenMode(w: World, e: Event, id: Id)
    requires id in w.rows && Enabled(w, e) && Identities(w)
    ensures id in Step(w, e).rows ==> Step(w, e).rows[id].mode == w.rows[id].mode
    ensures !e.ScheduleByPrice? && id in Step(w, e).rows && w.rows[id].trigger != Some(ByPrice)
            ==> Step(w, e).rows[id].trigger != Some(ByPrice)
  {
    ArmsOnlyForUser(w, e);
    InsertsNew(w, e);
    ModeAfterWrite(w.rows, EffectOf(w, e), id);
  }

  lemma InsertsNew(w: World, e: Event)
    requires Enabled(w, e) && Identities(w)
    ensures EffectOf(w, e).Insert? ==> EffectOf(w, e).id !in w.rows
  {
    hide Gate, IsRequeued;
  }

  lemma ModeAfterWrite(rows: Table, f: Effect, id: Id)
    requires id in rows && (f.Insert? ==> f.id !in rows)
    ensures var written := Written(rows, f);
            id in written ==>
              && written[id].mode == rows[id].mode
              && (!(f.Change? && f.u.Arm?) && rows[id].trigger != Some(ByPrice) ==> written[id].trigger != Some(ByPrice))
  {
    if f.Change? && f.id in rows {
      UpdateMode(rows[f.id], f.u);
    }
  }

  lemma NextMode(w: World, e: Event, id: Id)
    requires Identities(w) && Modes(w) && Enabled(w, e)
    ensures id in Step(w, e).importing && id in Step(w, e).rows ==> Step(w, e).rows[id].mode == Some(Immediate)
  {
    if e.Ingest? && e.id == id {
    } else {
      if id in w.rows {
        WrittenMode(w, e, id);
      }
      NotInserted(w, e, id);
    }
  }

  lemma NotInserted(w: World, e: Event, id: Id)
    requires !(e.Ingest? && e.id == id)
    ensures id in Step(w, e).rows ==> id in w.rows
    ensures id in Step(w, e).importing ==> id in w.importing
  {
    NotImported(w, e, id);
    ArmsOnlyForUser(w, e);
    hide Moved, EffectOf, Apply;
  }

  lemma NotImported(w: World, e: Event, id: Id)
    requires !(e.Ingest? && e.id == id)
    ensures id in Moved(w, e).importing ==> id in w.importing
  {
    hide NextPhase;
  }

  lemma KeepsModes(w: World, e: Event)
    requires Identities(w) && Modes(w) && Enabled(w, e)
    ensures Modes(Step(w, e))
  {
    hide Step, Enabled, Identities;
    forall id | id in Step(w, e).blocked ensures Step(w, e).blocked[id].mode == Some(ByBlock) {
      NextBlocked(w, e, id);
    }
    forall id | id in Step(w, e).importing && id in Step(w, e).rows ensures Step(w, e).rows[id].mode == Some(Immediate) {
      NextMode(w, e, id);
    }
  }

  lemma {:induction false} AlwaysModes(w: World, events: seq<Event>)
    requires Init(w) && IsRun(w, events)
    ensures Identities(After(w, events)) && Modes(After(w, events))
  {
    if events != [] {
      hide Step, Enabled, Identities, Modes;
      var n := |events| - 1;
      RunPrefix(w, events, n);
      AlwaysModes(w, events[..n]);
      KeepsIdentities(After(w, events[..n]), events[n]);
      KeepsModes(After(w, events[..n]), events[n]);
    }
  }

  // ----- armed rows

  /** A row as schedule_by_price leaves it. */
  predicate Armed(r: Row) {
    && r.status == Pending && r.trigger == Some(ByPrice) && r.mode == Some(Manual)
    && (r.nlocktime.None? || r.nlocktime.value == 0) && r.targetPrice.Some?
  }

  /** A loop already holds the row, fetched before it was armed, and can still act on it. */
  predicate Grabbed(w: World, id: Id) {
    || (w.phase.Marking? && id in w.phase.held)
    || (w.phase.Sending? && id in w.phase.held)
    || id in w.resending || id in w.confirming
    || (id in w.priced && PriceMet(w.priced[id], w.prices))
  }

  predicate ArmedIn(w: World, id: Id, r: Row) {
    id in w.rows && w.rows[id] == r && Armed(r)
  }

  predicate Meets(e: Event, r: Row) {
    e.FetchPriced? && PriceMet(r, e.prices)
  }

  predicate NeverMet(events: seq<Event>, r: Row) {
    forall i :: 0 <= i < |events| ==> !Meets(events[i], r)
  }

  predicate EmitsId(w: World, e: Event, id: Id) {
    Emits(w, e) && e.id == id
  }

  /** Untouched and unsent through a run. */
  predicate StillArmed(w: World, events: seq<Event>, id: Id, r: Row) {
    && ArmedIn(After(w, events), id, r)
    && forall i :: 0 <= i < |events| ==> !EmitsId(At(w, events, i), events[i], id)
  }

  lemma KeepsArmed(w: World, e: Event, id: Id, r: Row)
    requires Identities(w) && Modes(w) && Enabled(w, e) && !IsUser(e)
    requires ArmedIn(w, id, r) && !Grabbed(w, id) && !Meets(e, r)
    ensures ArmedIn(Step(w, e), id, r) && !Grabbed(Step(w, e), id) && !EmitsId(w, e, id)
  {
    ArmedRowKept(w, e, id, r);
    ArmedNotGrabbed(w, e, id, r);
  }

  lemma ArmedRowKept(w: World, e: Event, id: Id, r: Row)
    requires Identities(w) && Modes(w) && Enabled(w, e) && !IsUser(e)
    requires ArmedIn(w, id, r) && !Grabbed(w, id)
    ensures ArmedIn(Step(w, e), id, r) && !EmitsId(w, e, id)
  {
    hide Gate, IsRequeued, NextPhase, IsPage, HonestReading, IsRetriable, SendOutcome, PriceMet, MedianTimePast;
  }

  lemma ArmedNotGrabbed(w: World, e: Event, id: Id, r: Row)
    requires Identities(w) && Modes(w) && Enabled(w, e) && !IsUser(e)
    requires ArmedIn(w, id, r) && !Grabbed(w, id) && !Meets(e, r)
    ensures !Grabbed(Step(w, e), id)
  {
    PhaseNotGrabbing(w, e, id, r);
    ResendingOut(w, e);
    ConfirmingOut(w, e);
    PricedNotMet(w, e, id, r);
    SamePhase(w, e);
    hide NextPhase, Enabled, Identities, EffectOf, Written, Moved, PriceMet;
  }

  lemma PhaseNotGrabbing(w: World, e: Event, id: Id, r: Row)
    requires Enabled(w, e) && ArmedIn(w, id, r) && !Grabbed(w, id)
    ensures var p := NextPhase(w, e); (p.Marking? || p.Sending?) ==> id !in p.held
  {
    hide Gate, IsRequeued, HonestReading, EffectOf, PriceMet, MedianTimePast;
  }

  lemma PricedNotMet(w: World, e: Event, id: Id, r: Row)
    requires ArmedIn(w, id, r) && !Grabbed(w, id) && !Meets(e, r)
    ensures var m := Moved(w, e); id in m.priced ==> !PriceMet(m.priced[id], m.prices)
  {
    hide PriceMet, NextPhase;
  }

  lemma {:induction false} StaysArmed(w: World, events: seq<Event>, id: Id, r: Row)
    requires Identities(w) && Modes(w) && ArmedIn(w, id, r) && !Grabbed(w, id)
    requires IsRun(w, events) && NoUser(events) && NeverMet(events, r)
    ensures StillArmed(w, events, id, r)
    ensures var s := After(w, events); Identities(s) && Modes(s) && !Grabbed(s, id)
  {
    hide Step, Enabled, Identities, Modes, ArmedIn, Grabbed, EmitsId, Meets;
    if events != [] {
      var n := |events| - 1;
      var init, before := events[..n], After(w, events[..n]);
      RunPrefix(w, events, n);
      StaysArmed(w, init, id, r);
      KeepsIdentities(before, events[n]);
      KeepsModes(before, events[n]);
      KeepsArmed(before, events[n], id, r);
      forall i | 0 <= i < |events| ensures !EmitsId(At(w, events, i), events[i], id) {
        if i < n {
          assert events[..i] == init[..i] && init[i] == events[i];
          assert At(w, init, i) == At(w, events, i);
        }
      }
    }
  }

  /** No loop releases or sends the row before a price snapshot meets its condition, in any run without
      further user commands. */
  ghost predicate WaitsForPrice(w: World, id: Id, r: Row) {
    forall events :: IsRun(w, events) && NoUser(events) && NeverMet(events, r) ==> StillArmed(w, events, id, r)
  }

  /** One step of a loop that grabbed the row before it was armed: it marks the row, sends it, or confirms it. */
  lemma GrabbedIsReleased(w: World, id: Id, r: Row) returns (e: Event)
    requires Identities(w) && ArmedIn(w, id, r) && Grabbed(w, id)
    ensures Enabled(w, e) && !IsUser(e) && !e.FetchPriced?
    ensures EmitsId(w, e, id) || !ArmedIn(Step(w, e), id, r)
  {
    hide Step;
    if w.phase.Sending? && id in w.phase.held {
      e := SendOne(id, Reading(None, None), Accepted(""));
    } else if id in w.resending {
      e := ResendOne(id, Accepted(""));
    } else {
      e := if w.phase.Marking? && id in w.phase.held then MarkOne(id)
           else if id in w.confirming then ConfirmOne(id, Some(0))
           else FireOne(id);
      Releases(w, id, e);
    }
  }

  lemma Releases(w: World, id: Id, e: Event)
    requires id in w.rows
    requires e == MarkOne(id) || e == ConfirmOne(id, Some(0)) || Fires(w, e, id)
    ensures id in Step(w, e).rows && Step(w, e).rows[id].status != Pending
  {
    hide NextPhase, PriceMet;
  }

  /** Exactly when an armed row waits for its price: when no loop grabbed it before it was armed. The check
      in schedule_by_price does not look at what the loops hold, so that a price trigger set while the
      broadcast loop holds the row comes too late. */
  lemma WaitsExactly(w: World, id: Id, r: Row)
    requires Identities(w) && Modes(w) && ArmedIn(w, id, r)
    ensures WaitsForPrice(w, id, r) <==> !Grabbed(w, id)
  {
    hide Step, Enabled, Identities, Modes, ArmedIn, Grabbed, EmitsId;
    if Grabbed(w, id) {
      var e := GrabbedIsReleased(w, id, r);
      var events := [e];
      assert events[..0] == [];
      assert IsRun(w, events) && NoUser(events) && NeverMet(events, r);
      assert After(w, events) == Step(w, e) && At(w, events, 0) == w;
      assert !StillArmed(w, events, id, r);
    } else {
      forall events | IsRun(w, events) && NoUser(events) && NeverMet(events, r) ensures StillArmed(w, events, id, r) {
        StaysArmed(w, events, id, r);
      }
    }
  }

  /** Arming is what makes a row wait, and whether a loop has grabbed the row is decided before. */
  lemma ArmingArms(w: World, e: Event)
    requires e.ScheduleByPrice? && Enabled(w, e)
    ensures var s := Step(w, e);
            && ArmedIn(s, e.id, Apply(w.rows[e.id], Arm(e.target, e.currency, e.condition, e.fee)))
            && (Grabbed(s, e.id) <==> Grabbed(w, e.id))
            && forall prices :: PriceMet(s.rows[e.id], prices) <==>
                 e.currency in prices &&
                 if e.condition == Below then prices[e.currency] <= e.target else prices[e.currency] >= e.target
  {
    hide Gate;
  }

  /** A snapshot that meets the condition, then the monitor's write: the row is due at once, no longer waits
      for a price, and the next tick of the broadcast loop fetches it. */
  lemma MetMeansDue(w: World, id: Id, r: Row, prices: map<Currency, real>, readings: map<Id, Reading>)
    requires ArmedIn(w, id, r) && r.network == w.network && w.priced == map[] && PriceMet(r, prices) && r.deferUntil.None?
    requires id in readings
    ensures var s := Step(Step(w, FetchPriced(prices)), FireOne(id));
            && id in s.rows && s.rows[id].status == Scheduled && s.rows[id].trigger == Some(ByDate)
            && id in DueRows(s, readings)
  {
    hide Step, PriceMet, DueRows;
    MonitorFetches(w, id, r, prices);
    var s := Step(w, FetchPriced(prices));
    MonitorFires(s, id, r);
    FiredIsDue(Step(s, FireOne(id)), id, r, readings);
  }

  lemma MonitorFetches(w: World, id: Id, r: Row, prices: map<Currency, real>)
    requires ArmedIn(w, id, r) && r.network == w.network
    ensures var s := Step(w, FetchPriced(prices));
            && id in s.priced && s.priced[id] == r && s.prices == prices
            && s.rows == w.rows && s.now == w.now && s.network == w.network
  {
    hide Gate;
  }

  lemma MonitorFires(w: World, id: Id, r: Row)
    requires id in w.priced && w.priced[id] == r && id in w.rows && w.rows[id] == r && PriceMet(r, w.prices)
    ensures var s := Step(w, FireOne(id));
            id in s.rows && s.rows[id] == Apply(r, Fire(w.now)) && s.now == w.now && s.network == w.network
  {
    hide Gate, PriceMet, Apply;
  }

  lemma FiredIsDue(w: World, id: Id, r: Row, readings: map<Id, Reading>)
    requires id in w.rows && w.rows[id] == Apply(r, Fire(w.now)) && id in readings
    requires r.network == w.network && r.deferUntil.None? && (r.nlocktime.None? || r.nlocktime.value == 0)
    ensures id in DueRows(w, readings)
  {
  }

  /** A table of one manual transaction without a lock. */
  predicate OneRow(w: World, id: Id) {
    w.rows.Keys == {id} && w.rows[id].network == w.network && w.rows[id].mode == Some(Manual) && w.rows[id].nlocktime == Some(0)
  }

  predicate DueRow(w: World, id: Id) {
    OneRow(w, id) && w.rows[id].status == Scheduled && TimeHasCome(w.rows[id], w.now)
  }

  lemma UserSchedules(w: World, id: Id, tx: NewTx)
    requires w.rows == map[] && w.used == {} && w.phase.Idle? && w.now == 0
    requires tx == NewTx("00", w.network, None, Some(Manual), None, None, None)
    ensures Enabled(w, Ingest(id, tx)) && Enabled(Step(w, Ingest(id, tx)), ScheduleAt(id, 1, 5.0))
    ensures var s := Step(Step(w, Ingest(id, tx)), ScheduleAt(id, 1, 5.0));
            OneRow(s, id) && s.rows[id].status == Scheduled && s.rows[id].deferUntil == Some(1) && s.phase.Idle? && s.now == 0
  {
    var w1 := Step(w, Ingest(id, tx));
    assert w1.rows == map[id := Inserted(tx, 0)];
  }

  lemma TickStarts(w: World, id: Id)
    requires OneRow(w, id) && w.rows[id].status == Scheduled && w.rows[id].deferUntil == Some(1) && w.phase.Idle? && w.now == 0
    ensures Enabled(w, Clock(1)) && Enabled(Step(w, Clock(1)), StartTick)
    ensures var s := Step(Step(w, Clock(1)), StartTick); DueRow(s, id) && s.phase == Marking(map[]) && s.now == 1
  {
    var s := Step(w, Clock(1));
    assert s.rows == w.rows && s.now == 1 && s.phase == w.phase;
    assert PendingByTime(s) == map[];
  }

  lemma TickFetches(w: World, id: Id, readings: map<Id, Reading>)
    requires DueRow(w, id) && w.phase == Marking(map[]) && readings == map[id := Reading(None, None)]
    ensures Enabled(w, FetchFailed(map[])) && Enabled(Step(w, FetchFailed(map[])), FetchDue(readings))
    ensures var s := Step(Step(w, FetchFailed(map[])), FetchDue(readings));
            AboutToSend(s, id) && s.now == w.now
  {
    var none: Table := map[];
    assert WithStatus(w, Failed) == none && IsPage(none, PAGE, none);
    var s := Step(w, FetchFailed(none));
    assert s == w.(phase := Requeueing(none, true));
  }

  /** The tick holds the row it is about to send. */
  predicate AboutToSend(w: World, id: Id) {
    DueRow(w, id) && w.phase.Sending? && id in w.phase.held && w.phase.held[id] == w.rows[id]
  }

  /** A command about the row that its checks let through: arming, deleting, or putting off. */
  predicate LateCommand(e: Event, id: Id, now: nat) {
    match e
    case ScheduleByPrice(i, target, _, _, _) => i == id && target > 0.0
    case Discard(i) => i == id
    case ScheduleAt(i, time, _) => i == id && time > now
    case _ => false
  }

  function Send(id: Id): Event {
    SendOne(id, Reading(None, None), Accepted(""))
  }

  lemma TooLate(w: World, id: Id, e: Event)
    requires AboutToSend(w, id) && LateCommand(e, id, w.now)
    ensures Enabled(w, e) && Enabled(Step(w, e), Send(id)) && EmitsId(Step(w, e), Send(id), id)
    ensures Step(w, e).now == w.now
  {
    hide Apply;
    assert Step(w, e).phase == w.phase;
  }

  predicate NoPrices(events: seq<Event>) {
    forall i :: 0 <= i < |events| ==> !events[i].FetchPriced?
  }

  /** A run in which a tick has fetched a transaction that was scheduled by date. */
  lemma FetchedRun(id: Id) returns (w: World, before: seq<Event>)
    ensures Init(w) && IsRun(w, before) && NoPrices(before) && AboutToSend(After(w, before), id) && After(w, before).now == 1
  {
    hide Step, Enabled, AboutToSend, DueRow, OneRow, After, IsRun;
    w := World("main", map[], {}, [0], 0, Idle, {}, map[], 0, map[], map[], map[], map[]);
    var tx := NewTx("00", "main", None, Some(Manual), None, None, None);
    var open := Reading(None, None);
    EmptyRun(w);
    UserSchedules(w, id, tx);
    before := RunTwice(w, [], Ingest(id, tx), ScheduleAt(id, 1, 5.0));
    TickStarts(After(w, before), id);
    before := RunTwice(w, before, Clock(1), StartTick);
    TickFetches(After(w, before), id, map[id := open]);
    before := RunTwice(w, before, FetchFailed(map[]), FetchDue(map[id := open]));
  }

  /** The run goes on with the command, and then with the send that the command no longer stops. */
  lemma LateRun(w: World, before: seq<Event>, id: Id, e: Event)
    requires IsRun(w, before) && AboutToSend(After(w, before), id) && LateCommand(e, id, After(w, before).now)
    ensures IsRun(w, before + [e] + [Send(id)]) && EmitsId(After(w, before + [e]), Send(id), id)
    ensures After(w, before + [e]).now == After(w, before).now
  {
    hide Step, Enabled, EmitsId, AboutToSend, After, IsRun;
    TooLate(After(w, before), id, e);
    RunExtends(w, before, e);
    var all := RunTwice(w, before, e, Send(id));
  }

  /** A run in which a price trigger comes too late: a tick fetched the transaction when it was scheduled by
      date, the user then arms it, and the tick sends it with no price ever fetched. */
  lemma ArmingTooLate(id: Id) returns (w: World, before: seq<Event>, arm: Event)
    ensures Init(w) && IsRun(w, before + [arm] + [Send(id)]) && NoPrices(before) && arm.ScheduleByPrice? && arm.id == id
    ensures EmitsId(After(w, before + [arm]), Send(id), id)
  {
    hide Step, Enabled, EmitsId, AboutToSend, After, IsRun;
    w, before := FetchedRun(id);
    arm := ScheduleByPrice(id, 1.0, Usd, Above, 5.0);
    LateRun(w, before, id, arm);
  }

  lemma RunTwice(w: World, events: seq<Event>, d: Event, e: Event) returns (more: seq<Event>)
    requires IsRun(w, events) && Enabled(After(w, events), d) && Enabled(Step(After(w, events), d), e)
    ensures more == events + [d] + [e] && IsRun(w, more) && After(w, more) == Step(Step(After(w, events), d), e)
    ensures NoPrices(events) && !d.FetchPriced? && !e.FetchPriced? ==> NoPrices(more)
  {
    hide Step, Enabled, After, IsRun;
    RunExtends(w, events, d);
    RunExtends(w, events + [d], e);
    more := events + [d] + [e];
  }

  // ----- at most once

  predicate Fires(w: World, e: Event, id: Id) {
    e == FireOne(id) && id in w.priced && PriceMet(w.priced[id], w.prices)
  }

  predicate FiresAt(w: World, events: seq<Event>, i: nat, id: Id) {
    i < |events| && Fires(At(w, events, i), events[i], id)
  }

  predicate NotArmedBetween(events: seq<Event>, i: nat, j: nat, id: Id) {
    forall k :: i < k < j && k < |events| ==> !Arms(events[k], id)
  }

  /** Never to fire again: not held by the monitor, and not waiting for a price. */
  predicate Spent(w: World, id: Id) {
    id in w.used && id !in w.priced && (id in w.rows ==> w.rows[id].trigger != Some(ByPrice))
  }

  /** The event arms this row. */
  predicate Arms(e: Event, id: Id) {
    e.ScheduleByPrice? && e.id == id
  }

  /** No event but an arming of this very row undoes it, whatever the user commands otherwise. */
  lemma KeepsSpent(w: World, e: Event, id: Id)
    requires Identities(w) && Spent(w, id) && Enabled(w, e) && !Arms(e, id)
    ensures Spent(Step(w, e), id)
  {
    SpentNotHeld(w, e, id);
    SpentRow(w, e, id);
    hide Step;
  }

  lemma SpentNotHeld(w: World, e: Event, id: Id)
    requires Spent(w, id)
    ensures id in Step(w, e).used && id !in Step(w, e).priced
  {
    hide EffectOf, Written, NextPhase;
  }

  lemma SpentRow(w: World, e: Event, id: Id)
    requires Identities(w) && Spent(w, id) && Enabled(w, e) && !Arms(e, id)
    ensures NotWaiting(Step(w, e).rows, id)
  {
    ArmsOnlyForUser(w, e);
    ArmsItsRow(w, e);
    InsertsFresh(w, e, id);
    hide EffectOf, Written, Enabled, Identities, Moved;
    NotWaitingAfter(w.rows, EffectOf(w, e), id);
  }

  predicate NotWaiting(rows: Table, id: Id) {
    id in rows ==> rows[id].trigger != Some(ByPrice)
  }

  lemma InsertsFresh(w: World, e: Event, id: Id)
    requires Enabled(w, e) && id in w.used
    ensures EffectOf(w, e).Insert? ==> EffectOf(w, e).id != id
  {
    hide Gate, IsRequeued, SendOutcome;
  }

  lemma NotWaitingAfter(rows: Table, f: Effect, id: Id)
    requires NotWaiting(rows, id) && (f.Insert? ==> f.id != id) && (f.Change? && f.id == id ==> !f.u.Arm?)
    ensures NotWaiting(Written(rows, f), id)
  {
    hide Apply;
    if f.Change? && f.id in rows {
      UpdateMode(rows[f.id], f.u);
    }
  }

  lemma ArmsItsRow(w: World, e: Event)
    ensures e.ScheduleByPrice? && EffectOf(w, e).Change? ==> EffectOf(w, e).id == e.id
  {
  }

  lemma FiredIsSpent(w: World, e: Event, id: Id)
    requires Identities(w) && Fires(w, e, id)
    ensures Spent(Step(w, e), id)
  {
    hide PriceMet;
  }

  lemma {:induction false} SpentUntil(w: World, events: seq<Event>, i: nat, j: nat, id: Id)
    requires Init(w) && IsRun(w, events) && i < j <= |events| && FiresAt(w, events, i, id)
    requires NotArmedBetween(events, i, j, id)
    ensures Spent(At(w, events, j), id)
  {
    hide At, Step, Enabled, Identities, Spent, Fires, After, IsRun, Init;
    AtNext(w, events, j - 1);
    AlwaysIdentities(w, events, j - 1);
    if i == j - 1 {
      FiredIsSpent(At(w, events, i), events[i], id);
    } else {
      SpentUntil(w, events, i, j - 1, id);
      KeepsSpent(At(w, events, j - 1), events[j - 1], id);
    }
  }

  lemma AlwaysIdentities(w: World, events: seq<Event>, i: nat)
    requires Init(w) && IsRun(w, events) && i <= |events|
    ensures Identities(At(w, events, i)) && (i < |events| ==> Enabled(At(w, events, i), events[i]))
  {
    hide Identities, Enabled, Safe;
    RunPrefix(w, events, i);
    AlwaysSafe(w, events[..i]);
  }

  /** At most once per arming: between two firings of a row the user armed that row again. */
  lemma FiresOnce(w: World, events: seq<Event>, i: nat, j: nat, id: Id)
    requires Init(w) && IsRun(w, events) && i < j && FiresAt(w, events, i, id) && FiresAt(w, events, j, id)
    ensures exists k :: i < k < j && k < |events| && events[k].ScheduleByPrice? && events[k].id == id
  {
    hide At, Step;
    if NotArmedBetween(events, i, j, id) {
      SpentUntil(w, events, i, j, id);
    } else {
      var k :| i < k < j && k < |events| && Arms(events[k], id);
      assert events[k].ScheduleByPrice? && events[k].id == id;
    }
  }
}
