/** The plan a transaction gets when a wallet broadcasts it. */
module Ingest {
  import opened Prelude
  import opened Database
  import opened Locktime
  import opened Machine

  datatype Plan = Plan(mode: Mode, scheduledTime: Option<nat>)

  /** The configured default: its mode, a fixed time, and the random delay that is drawn otherwise. */
  datatype Config = Config(mode: Mode, at: Option<nat>, delayHours: nat)

  function ResolveBroadcastPlan(config: Config, now: nat): Plan {
    match config.mode
    case Immediate => Plan(Immediate, Some(now))
    case AtTime => Plan(AtTime, if config.at.Some? then config.at else Some(now + config.delayHours * 3600))
    case ByBlock => Plan(ByBlock, None)
    case Manual => Plan(Manual, None)
  }

  function ResolveIngestPlan(source: string, nlocktime: nat, config: Config, now: nat): Plan {
    if source == "liana" then Plan(Manual, None)
    else if source == "sparrow" && nlocktime == 0 then Plan(Manual, None)
    else if nlocktime > THRESHOLD then Plan(AtTime, Some(nlocktime))
    else if 0 < nlocktime < THRESHOLD then Plan(ByBlock, None)
    else ResolveBroadcastPlan(config, now)
  }

  /** What handle_broadcast imports. */
  function Imported(hex: string, network: string, source: string, nlocktime: nat, plan: Plan): NewTx {
    NewTx(hex, network, if nlocktime > 0 then Some(nlocktime) else None, Some(plan.mode), plan.scheduledTime, None,
          Some(source))
  }

  /** The import of a wallet's broadcast: its row, by source, nLockTime and configuration. The pass is a run of the
      machine: the insert, and in immediate mode the mark. */
  method HandleBroadcast(db: Database, id: Id, hex: string, network: string, source: string, nlocktime: nat,
                         config: Config, now: nat, ghost w: World)
    returns (ghost events: seq<Event>)
    requires w.rows == db.rows && w.now == now && id !in w.used
    modifies db
    ensures id in db.rows && db.rows == old(db.rows)[id := db.rows[id]]
    ensures var r := db.rows[id];
            && r.hex == hex && r.network == network && r.nlocktime == Some(nlocktime) && r.source == Some(source)
            && r.txid.None? && r.deferUntil.None? && r.missedAt.None? && r.error.None? && r.trigger == Some(ByDate)
            && (r.mode, r.status, r.scheduledTime) ==
               if source == "liana" || (source == "sparrow" && nlocktime == 0) then (Some(Manual), Pending, None)
               else if nlocktime > 500_000_000 then (Some(AtTime), Pending, Some(nlocktime))
               else if 0 < nlocktime < 500_000_000 then (Some(ByBlock), Pending, None)
               else match config.mode
                    case Immediate => (Some(Immediate), Scheduled, Some(now))
                    case AtTime =>
                      (Some(AtTime), Pending, Some(match config.at case Some(t) => t case None => now + 3600 * config.delayHours))
                    case ByBlock => (Some(ByBlock), Pending, None)
                    case Manual => (Some(Manual), Pending, None)
    ensures IsRun(w, events) && After(w, events).rows == db.rows && events != []
    ensures events[0] == Event.Ingest(id, Imported(hex, network, source, nlocktime, ResolveIngestPlan(source, nlocktime, config, now)))
  {
    var plan := ResolveIngestPlan(source, nlocktime, config, now);
    var tx := Imported(hex, network, source, nlocktime, plan);
    events := [Event.Ingest(id, tx)];
    Inserts(w, id, tx);
    db.InsertBroadcastTx(id, tx, now);
    if plan.mode == Immediate {
      MarksDue(w, id, tx);
      events := events + [IngestDue(id)];
      db.MarkDue(id, now);
    }
  }

  lemma Inserts(w: World, id: Id, tx: NewTx)
    requires id !in w.used
    ensures IsRun(w, [Event.Ingest(id, tx)]) && After(w, [Event.Ingest(id, tx)]) == Step(w, Event.Ingest(id, tx))
    ensures Step(w, Event.Ingest(id, tx)).rows == w.rows[id := Inserted(tx, w.now)]
  {
    RunOfOne(w, Event.Ingest(id, tx));
  }

  lemma MarksDue(w: World, id: Id, tx: NewTx)
    requires id !in w.used && tx.mode == Some(Immediate)
    ensures var events := [Event.Ingest(id, tx)] + [IngestDue(id)];
            IsRun(w, events) && After(w, events).rows == w.rows[id := Apply(Inserted(tx, w.now), Due(w.now))]
  {
    Inserts(w, id, tx);
    RunExtends(w, [Event.Ingest(id, tx)], IngestDue(id));
  }
}
