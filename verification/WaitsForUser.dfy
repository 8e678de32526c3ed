/** Transactions that wait for their user: those of Liana, and those of Sparrow without an nLockTime. */
module WaitsForUser {
  import opened Prelude
  import opened Database
  import opened Locktime
  import opened Machine
  import opened SendSafety
  import opened Liveness
  import opened PriceTrigger
  import opened Ingest

  /** Pending and unscheduled, and in the hands of no loop. */
  predicate Aside(w: World, id: Id) {
    && id in w.rows && Unscheduled(w.rows[id])
    && id !in HeldByBroadcaster(w.phase) && id !in w.blocked && id !in w.importing
    && id !in w.resending && id !in w.confirming && id !in w.priced
  }

  predicate Unscheduled(r: Row) {
    r.status == Pending && r.mode == Some(Manual) && r.scheduledTime.None?
  }

  lemma NobodyWrites(w: World, e: Event, id: Id)
    requires Aside(w, id)
    ensures !WritesTo(w, e, id) && !EmitsId(w, e, id)
  {
    hide Gate;
  }

  lemma PhasePassesOver(w: World, e: Event, id: Id)
    requires Owned(w) && Enabled(w, e) && Aside(w, id)
    ensures id !in HeldByBroadcaster(Step(w, e).phase)
  {
    hide NextPhase, Step, Owned, Gate, IsDue;
    PhaseMovesInStep(w, e);
    SamePhase(w, e);
    if e.FetchFailed? {
      PageOfFailures(w, e);
    }
    hide Enabled;
  }

  lemma PageOfFailures(w: World, e: Event)
    requires Enabled(w, e) && e.FetchFailed?
    ensures forall id :: id in e.page ==> id in w.rows && w.rows[id].status == Failed
  {
  }

  lemma LoopsPassOver(w: World, e: Event, id: Id)
    requires Identities(w) && Owned(w) && Enabled(w, e) && !IsUser(e) && Aside(w, id)
    ensures var s := Step(w, e);
            && id !in s.blocked && id !in s.importing && id !in s.resending && id !in s.confirming && id !in s.priced
  {
    hide Step, Moved, EffectOf, Identities, HeldByBroadcaster, BlockedPending, ImportsPending, OutThere, PhaseOwns;
    ResendingOut(w, e);
    ConfirmingOut(w, e);
    PricedOrHeld(w, e);
    SameHolds(w, e);
    if id in Step(w, e).blocked {
      NextBlocked(w, e, id);
    }
    IngestIsNew(w, e);
    if id in Step(w, e).importing {
      NextImport(w, e, id);
    }
    hide Enabled;
  }

  lemma SameHolds(w: World, e: Event)
    ensures Step(w, e).resending == Moved(w, e).resending && Step(w, e).confirming == Moved(w, e).confirming
    ensures Step(w, e).priced == Moved(w, e).priced
  {
    hide Moved, EffectOf, Written;
  }

  lemma StaysAside(w: World, e: Event, id: Id)
    requires Identities(w) && Owned(w) && Enabled(w, e) && !IsUser(e) && Aside(w, id)
    ensures Aside(Step(w, e), id) && !EmitsId(w, e, id)
  {
    hide Step, Enabled, Identities, Owned, HeldByBroadcaster, WritesTo, EmitsId;
    NobodyWrites(w, e, id);
    Untouched(w, e, id);
    PhasePassesOver(w, e, id);
    LoopsPassOver(w, e, id);
  }

  /** The event of a wallet's broadcast, as handle_broadcast plans it. */
  predicate Imports(w: World, e: Event, id: Id, hex: string, source: string, n: nat, config: Config) {
    e == Event.Ingest(id, Imported(hex, w.network, source, n, ResolveIngestPlan(source, n, config, w.now)))
  }

  lemma ImportedAside(w: World, e: Event, id: Id, hex: string, source: string, n: nat, config: Config)
    requires Identities(w) && Owned(w) && Enabled(w, e) && Imports(w, e, id, hex, source, n, config)
    requires source == "liana" || (source == "sparrow" && n == 0)
    ensures Aside(Step(w, e), id)
  {
    hide SameWhereBoth, BlockedPending, ImportsPending, OutThere, PhaseOwns;
  }

  lemma {:induction false} AsideFrom(w: World, events: seq<Event>, s: nat, i: nat, id: Id)
    requires Init(w) && IsRun(w, events) && NoUser(events) && s <= i <= |events| && Aside(At(w, events, s), id)
    ensures Aside(At(w, events, i), id)
  {
    hide At, Step, Identities, Owned, Enabled, Aside;
    if s < i {
      AsideFrom(w, events, s, i - 1, id);
      InvariantsAt(w, events, i - 1);
      AtNext(w, events, i - 1);
      StaysAside(At(w, events, i - 1), events[i - 1], id);
    }
  }

  /** Whatever the loops do, a Liana transaction, and a Sparrow transaction without an nLockTime, stays pending and is
      not sent as long as no user command comes. */
  lemma NothingWithoutTheUser(w: World, events: seq<Event>, s: nat, i: nat, id: Id, hex: string, source: string, n: nat,
                              config: Config)
    requires Init(w) && IsRun(w, events) && NoUser(events) && s < i <= |events|
    requires Imports(At(w, events, s), events[s], id, hex, source, n, config)
    requires source == "liana" || (source == "sparrow" && n == 0)
    ensures id in At(w, events, i).rows && At(w, events, i).rows[id].status == Pending
    ensures i < |events| ==> !EmitsId(At(w, events, i), events[i], id)
  {
    hide At, Step, Identities, Owned, Enabled, Imports, EmitsId;
    InvariantsAt(w, events, s);
    AtNext(w, events, s);
    ImportedAside(At(w, events, s), events[s], id, hex, source, n, config);
    AsideFrom(w, events, s + 1, i, id);
    if i < |events| {
      InvariantsAt(w, events, i);
      NobodyWrites(At(w, events, i), events[i], id);
    }
  }
}
