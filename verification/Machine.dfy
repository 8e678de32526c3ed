/** The daemon as a state machine: the ingest, the five scheduler loops and the user's commands act on one
    table, one statement at a time and in any order. A loop works on the rows it fetched, which may be out
    of date by the time it writes. */
module Machine {
  import opened Prelude
  import opened Database
  import opened Locktime
  import opened Refusals
  import opened MedianTime

  /** The broadcast loop: its tick marks due, requeues and sends, each over rows fetched before. A requeueing
      outside a tick is the one when the daemon starts. */
  datatype Phase =
    | Idle
    | Marking(held: Table)
    | Requeueing(held: Table, tick: bool)
    | Sending(held: Table, at: nat)

  /** The table and every id ever used; chain and clock; and what each loop holds. */
  datatype World = World(
    network: string,
    rows: Table,
    used: set<Id>,
    chain: seq<nat>,
    now: nat,
    phase: Phase,
    importing: set<Id>,
    blocked: Table,
    tip: nat,
    resending: Table,
    confirming: Table,
    priced: Table,
    prices: map<Currency, real>)

  datatype Event =
    // the world
    | Clock(seconds: nat)
    | NewBlock(time: nat)
    | Restart
    // ingest: the insert, then the mark of an immediate transaction
    | Ingest(id: Id, tx: NewTx)
    | IngestDue(id: Id)
    // the broadcast loop
    | StartTick
    | MarkOne(id: Id)
    | FetchFailed(page: Table)
    | RequeueOne(id: Id)
    | FetchDue(readings: map<Id, Reading>)
    | SendOne(id: Id, reading: Reading, answer: Answer)
    | EndTick
    | EndStartup
    // the block height monitor
    | FetchBlocked(height: nat)
    | MarkBlocked(id: Id)
    // the rebroadcast loop
    | FetchResend(interval: nat)
    | ResendOne(id: Id, answer: Answer)
    // the confirmation checker
    | FetchConfirming(page: Table)
    | ConfirmOne(id: Id, seen: Option<nat>)
    // the price monitor, on a snapshot that is not stale
    | FetchPriced(prices: map<Currency, real>)
    | FireOne(id: Id)
    // the user
    | ScheduleAt(id: Id, time: nat, fee: real)
    | ScheduleLater(id: Id, time: nat, fee: real)
    | ScheduleByPrice(id: Id, target: real, currency: Currency, condition: Condition, fee: real)
    | Retry(id: Id)
    | Discard(id: Id)

  predicate IsUser(e: Event) {
    e.ScheduleAt? || e.ScheduleLater? || e.ScheduleByPrice? || e.Retry? || e.Discard?
  }

  // ----- decisions

  /** is_tx_due_for_broadcast; an error counts as not due. */
  predicate IsDue(r: Row, open: Option<bool>, now: nat) {
    && !(r.trigger == Some(ByPrice) && r.status == Pending)
    && open == Some(true)
    && TimeHasCome(r, now)
  }

  /** Past the deferral, or past the scheduled time if there is none. */
  predicate TimeHasCome(r: Row, now: nat) {
    match r.deferUntil
    case Some(d) => d <= now
    case None => r.scheduledTime.Some? && r.scheduledTime.value <= now
  }

  datatype Outcome = Abort | Leave | Write(u: Update)

  /** What the send loop does with a fetched row: an unreadable gate ends the tick, a shut one is recorded
      as a miss for a timestamp lock, and a refusal for good fails the transaction. */
  function SendOutcome(r: Row, open: Option<bool>, answer: Answer, at: nat, now: nat): Outcome {
    match open
    case None => Abort
    case Some(false) =>
      if r.nlocktime.Some? && r.nlocktime.value > THRESHOLD && r.missedAt.None? then Write(Miss(at, r.scheduledTime))
      else Leave
    case Some(true) =>
      match answer
      case Accepted(txid) => Write(Sent(txid, r.targetFee.GetOr(0.0), now))
      case Refused(error) => if IsRetriable(error) then Leave else Write(Report(Failed, Some(error)))
  }

  predicate PriceMet(r: Row, prices: map<Currency, real>) {
    var currency := r.currency.GetOr(Usd);
    r.targetPrice.Some? && currency in prices &&
    if r.condition == Some(Below) then prices[currency] <= r.targetPrice.value else prices[currency] >= r.targetPrice.value
  }

  /** The checks of schedule_by_price. */
  predicate CanArm(r: Row, target: real) {
    && target > 0.0 && (r.status == Pending || r.status == Scheduled) && r.mode == Some(Manual)
    && (r.nlocktime.None? || r.nlocktime.value == 0)
  }

  /** The checks of schedule_at. */
  predicate CanScheduleAt(r: Row, time: nat, now: nat) {
    time > now && (r.nlocktime.Some? && r.nlocktime.value > THRESHOLD ==> time >= r.nlocktime.value)
  }

  predicate IsReschedule(r: Row) {
    || r.missedAt.Some? || r.deferUntil.Some? || r.scheduledTime.Some?
    || r.trigger == Some(ByPrice) || r.mode == Some(AtTime) || r.mode == Some(Manual)
  }

  // ----- steps

  function DueRows(w: World, readings: map<Id, Reading>): Table {
    map id | id in w.rows && id in readings && IsDueCandidate(w.rows[id], w.network)
             && IsDue(w.rows[id], Gate(w.rows[id].nlocktime, readings[id]), w.now) :: w.rows[id]
  }

  function PendingByTime(w: World): Table {
    map id | id in w.rows && IsPendingByTime(w.rows[id], w.network, w.now) && w.rows[id].trigger != Some(ByPrice)
      :: w.rows[id]
  }

  function WithStatus(w: World, status: Status): Table {
    map id | id in w.rows && HasStatus(w.rows[id], status, w.network) :: w.rows[id]
  }

  function BlockRows(w: World): Table {
    map id | id in w.rows && IsPendingByBlock(w.rows[id], w.network) :: w.rows[id]
  }

  function ResendRows(w: World, interval: nat): Table {
    map id | id in w.rows && IsRebroadcastable(w.rows[id], w.network, w.now - interval) :: w.rows[id]
  }

  function PricedRows(w: World): Table {
    map id | id in w.rows && IsPriceTriggered(w.rows[id], w.network) :: w.rows[id]
  }

  const PAGE: nat := 1000

  ghost predicate Enabled(w: World, e: Event) {
    match e
    case Clock(_) => true
    case NewBlock(t) => w.chain != [] ==> t > MedianTimePast(w.chain)
    case Restart => true
    case Ingest(id, tx) => id !in w.used
    case IngestDue(id) => id in w.importing
    case StartTick => w.phase.Idle?
    case MarkOne(id) => w.phase.Marking? && id in w.phase.held
    case FetchFailed(page) => (w.phase == Marking(map[]) || w.phase.Idle?) && IsPage(WithStatus(w, Failed), PAGE, page)
    case RequeueOne(id) => w.phase.Requeueing? && id in w.phase.held
    case FetchDue(readings) =>
      && w.phase == Requeueing(map[], true)
      && (forall id :: id in readings ==> HonestReading(readings[id], w.chain))
      && forall id :: id in w.rows && IsDueCandidate(w.rows[id], w.network) ==> id in readings
    case SendOne(id, reading, _) => w.phase.Sending? && id in w.phase.held && HonestReading(reading, w.chain)
    case EndTick => w.phase.Sending? && w.phase.held == map[]
    case EndStartup => w.phase == Requeueing(map[], false)
    case FetchBlocked(height) => w.blocked == map[] && height < |w.chain|
    case MarkBlocked(id) => id in w.blocked
    case FetchResend(_) => w.resending == map[]
    case ResendOne(id, _) => id in w.resending
    case FetchConfirming(page) => w.confirming == map[] && IsPage(WithStatus(w, Broadcast), PAGE, page)
    case ConfirmOne(id, _) => id in w.confirming
    case FetchPriced(_) => w.priced == map[]
    case FireOne(id) => id in w.priced
    case ScheduleAt(id, time, _) => id in w.rows && CanScheduleAt(w.rows[id], time, w.now)
    case ScheduleLater(id, time, _) => id in w.rows && w.now <= time
    case ScheduleByPrice(id, target, _, _, _) => id in w.rows && CanArm(w.rows[id], target)
    case Retry(id) => id in w.rows && w.rows[id].status == Failed
    case Discard(id) => id in w.rows
  }

  datatype Effect = Nothing | Change(id: Id, u: Update) | Insert(id: Id, row: Row) | Delete(id: Id)

  /** What a step writes to the table. */
  function EffectOf(w: World, e: Event): Effect {
    match e
    case Ingest(id, tx) => Insert(id, Inserted(tx, w.now))
    case IngestDue(id) => Change(id, Due(w.now))
    case MarkOne(id) => Change(id, Due(w.now))
    case RequeueOne(id) =>
      if w.phase.Requeueing? && id in w.phase.held && IsRequeued(w.phase.held[id].nlocktime, w.phase.held[id].error)
      then Change(id, Requeue) else Nothing
    case SendOne(id, reading, answer) =>
      if w.phase.Sending? && id in w.phase.held then
        var r := w.phase.held[id];
        var outcome := SendOutcome(r, Gate(r.nlocktime, reading), answer, w.phase.at, w.now);
        if outcome.Write? then Change(id, outcome.u) else Nothing
      else Nothing
    case MarkBlocked(id) =>
      if id in w.blocked && w.blocked[id].nlocktime.Some? && w.tip >= w.blocked[id].nlocktime.value
      then Change(id, Due(w.now)) else Nothing
    case ResendOne(id, answer) => if answer.Accepted? then Change(id, Resent(w.now)) else Nothing
    case ConfirmOne(id, seen) => if seen.Some? then Change(id, Confirm(seen.value, w.now)) else Nothing
    case FireOne(id) => if id in w.priced && PriceMet(w.priced[id], w.prices) then Change(id, Fire(w.now)) else Nothing
    case ScheduleAt(id, time, fee) =>
      if id in w.rows then Change(id, Reschedule(time, if IsReschedule(w.rows[id]) then Some(time) else None, fee))
      else Nothing
    case ScheduleLater(id, time, fee) => Change(id, Delay(time, fee))
    case ScheduleByPrice(id, target, currency, condition, fee) => Change(id, Arm(target, currency, condition, fee))
    case Retry(id) => Change(id, Requeue)
    case Discard(id) => Delete(id)
    case _ => Nothing
  }

  function Written(rows: Table, f: Effect): Table {
    match f
    case Nothing => rows
    case Change(id, u) => Updated(rows, id, u)
    case Insert(id, row) => rows[id := row]
    case Delete(id) => rows - {id}
  }

  /** The next phase of the broadcast loop. */
  function NextPhase(w: World, e: Event): Phase {
    match e
    case Restart => Idle
    case StartTick => Marking(PendingByTime(w))
    case MarkOne(id) => if w.phase.Marking? then Marking(w.phase.held - {id}) else w.phase
    case FetchFailed(page) => Requeueing(page, w.phase.Marking?)
    case RequeueOne(id) =>
      if EffectOf(w, e).Change? && !(id in w.rows && w.rows[id].status == Failed) then
        Requeueing(map[], w.phase.Requeueing? && w.phase.tick)
      else if w.phase.Requeueing? then Requeueing(w.phase.held - {id}, w.phase.tick)
      else w.phase
    case FetchDue(readings) => Sending(DueRows(w, readings), w.now)
    case SendOne(id, reading, _) =>
      if w.phase.Sending? && id in w.phase.held then
        if Gate(w.phase.held[id].nlocktime, reading).None? then Idle else Sending(w.phase.held - {id}, w.phase.at)
      else w.phase
    case EndTick => Idle
    case EndStartup => Idle
    case _ => w.phase
  }

  /** Everything but the table. */
  function Moved(w: World, e: Event): World {
    match e
    case Clock(d) => w.(now := w.now + d)
    case NewBlock(t) => w.(chain := w.chain + [t])
    case Restart =>
      w.(phase := Idle, importing := {}, blocked := map[], resending := map[], confirming := map[], priced := map[])
    case Ingest(id, tx) =>
      w.(used := w.used + {id}, importing := if tx.mode == Some(Immediate) then w.importing + {id} else w.importing)
    case IngestDue(id) => w.(importing := w.importing - {id})
    case FetchBlocked(height) => w.(blocked := BlockRows(w), tip := height)
    case MarkBlocked(id) => w.(blocked := w.blocked - {id})
    case FetchResend(interval) => w.(resending := ResendRows(w, interval))
    case ResendOne(id, _) => w.(resending := w.resending - {id})
    case FetchConfirming(page) => w.(confirming := page)
    case ConfirmOne(id, _) => w.(confirming := w.confirming - {id})
    case FetchPriced(prices) => w.(priced := PricedRows(w), prices := prices)
    case FireOne(id) => w.(priced := w.priced - {id})
    case _ => w.(phase := NextPhase(w, e))
  }

  function Step(w: World, e: Event): World {
    Moved(w, e).(rows := Written(w.rows, EffectOf(w, e)))
  }

  // ----- runs

  function After(w: World, events: seq<Event>): World {
    if events == [] then w else Step(After(w, events[..|events| - 1]), events[|events| - 1])
  }

  /** Every event could happen when it did. */
  ghost predicate IsRun(w: World, events: seq<Event>) {
    forall i :: 0 <= i < |events| ==> Enabled(After(w, events[..i]), events[i])
  }

  /** The state before event i. */
  function At(w: World, events: seq<Event>, i: nat): World {
    if i <= |events| then After(w, events[..i]) else After(w, events)
  }

  lemma AtNext(w: World, events: seq<Event>, i: nat)
    requires i < |events|
    ensures At(w, events, i + 1) == Step(At(w, events, i), events[i])
  {
    assert events[..i + 1][..i] == events[..i];
  }

  lemma {:induction false} AfterAppend(w: World, a: seq<Event>, b: seq<Event>)
    ensures After(w, a + b) == After(After(w, a), b)
  {
    if b == [] {
      assert a + b == a;
    } else {
      var n := |b| - 1;
      AfterAppend(w, a, b[..n]);
      assert (a + b)[..|a + b| - 1] == a + b[..n];
    }
  }

  lemma RunExtends(w: World, events: seq<Event>, e: Event)
    requires IsRun(w, events) && Enabled(After(w, events), e)
    ensures IsRun(w, events + [e]) && After(w, events + [e]) == Step(After(w, events), e)
  {
    var more := events + [e];
    assert more[..|events|] == events;
    forall i | 0 <= i < |more| ensures Enabled(After(w, more[..i]), more[i]) {
      if i < |events| {
        assert more[..i] == events[..i];
      }
    }
  }

  lemma RunJoin(w: World, a: seq<Event>, b: seq<Event>)
    requires IsRun(w, a) && IsRun(After(w, a), b)
    ensures IsRun(w, a + b) && After(w, a + b) == After(After(w, a), b)
  {
    hide Step, Enabled;
    AfterAppend(w, a, b);
    forall i | 0 <= i < |a + b| ensures Enabled(After(w, (a + b)[..i]), (a + b)[i]) {
      if i < |a| {
        assert (a + b)[..i] == a[..i];
      } else {
        assert (a + b)[..i] == a + b[..i - |a|];
        AfterAppend(w, a, b[..i - |a|]);
      }
    }
  }

  lemma EmptyRun(w: World)
    ensures IsRun(w, []) && After(w, []) == w
  {
  }

  lemma RunOfOne(w: World, e: Event)
    requires Enabled(w, e)
    ensures IsRun(w, [e]) && After(w, [e]) == Step(w, e)
  {
    assert [e][..0] == [];
  }

  lemma RunPrefix(w: World, events: seq<Event>, i: nat)
    requires IsRun(w, events) && i <= |events|
    ensures IsRun(w, events[..i])
  {
    forall k | 0 <= k < i ensures Enabled(After(w, events[..i][..k]), events[..i][k]) {
      assert events[..i][..k] == events[..k];
    }
  }

  /** A daemon that starts on an empty table. */
  ghost predicate Init(w: World) {
    && w.rows == map[] && w.used == {} && ValidChain(w.chain) && w.phase.Idle? && w.importing == {}
    && w.blocked == map[] && w.resending == map[] && w.confirming == map[] && w.priced == map[]
  }

  /** events[a] starts a tick that ends, without an abort or a restart, at events[b]. */
  predicate CompleteTick(w: World, events: seq<Event>, a: nat, b: nat) {
    a < b < |events| && events[a].StartTick? && events[b].EndTick? && BusyBetween(w, events, a, b)
  }

  /** The broadcast loop works on its tick in the states after a up to b. */
  predicate BusyBetween(w: World, events: seq<Event>, a: nat, b: nat) {
    forall k :: a < k <= b ==> !At(w, events, k).phase.Idle?
  }
}
