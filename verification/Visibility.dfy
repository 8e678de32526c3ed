/** Which transactions a wallet sees after its broadcast is acknowledged, whatever the background
    ingest, the input enrichment, the other sessions, the broadcast loop and restarts do in between. */
module Visibility {
  import opened Prelude
  import opened PendingPool
  import opened WalletAnswers

  type SessionId = nat

  /** Shared index, each session's most recently acknowledged transaction, the background ingests that
      acknowledged broadcasts have started and that have not inserted their row yet, those that have inserted it
      and not stored the transaction yet, and the rows of the table that are pending or scheduled, and failed. */
  datatype State = State(index: Index, recent: map<SessionId, Txid>, ingests: multiset<Txid>, storing: multiset<Txid>,
                         rows: multiset<Txid>, failed: multiset<Txid>)

  /** The status of the row that is sent or deleted. */
  datatype Kind = Waiting | Refused | Sent

  datatype Event =
    | Ack(session: SessionId, txid: Txid, hex: string, scripthashes: seq<Scripthash>) // store, remember, acknowledge
    | Insert(txid: Txid)                                                             // the background ingest's row
    | Ingest(txid: Txid, hex: string, scripthashes: seq<Scripthash>)                 // and its second store
    | IngestFailed(txid: Txid)                                                       // or its failure
    | Enrich(txid: Txid, extra: seq<Scripthash>)                                     // input scripthashes arrive
    | Remove(txid: Txid, kind: Kind)                                                 // broadcast to the network, or deleted
    | Fails(txid: Txid)                                                              // a broadcast fails for good
    | Requeues(txid: Txid)                                                           // a failed row is tried again
    | Notified(session: SessionId)                                                   // a change notification is handled
    | Restart(loaded: Index)                                                         // the table's rows are loaded again

  /** The outputs of every transaction, as decoding gives them. */
  type Decoding = Txid -> seq<(nat, Scripthash)>

  predicate PaysTo(outputs: Decoding, t: Txid, sh: Scripthash) {
    exists i :: 0 <= i < |outputs(t)| && outputs(t)[i].1 == sh
  }

  /** A store lists at least the output scripthashes. */
  ghost predicate Faithful(outputs: Decoding, e: Event) {
    && ((e.Ack? || e.Ingest?) ==> forall sh :: PaysTo(outputs, e.txid, sh) ==> sh in e.scripthashes)
    && (e.Restart? ==> forall t :: t in e.loaded ==> ListsOutputs(outputs, e.loaded, t))
  }

  ghost predicate ListsOutputs(outputs: Decoding, index: Index, t: Txid)
    requires t in index
  {
    forall sh :: PaysTo(outputs, t, sh) ==> sh in index[t].scripthashes
  }

  function StoredAs(outputs: Decoding, t: Txid, hex: string, scripthashes: seq<Scripthash>): Info {
    Info(hex, scripthashes, ExtractOutputs(outputs(t)))
  }

  const EMPTY := State(map[], map[], multiset{}, multiset{}, multiset{}, multiset{})

  function Step(outputs: Decoding, s: State, e: Event): State {
    match e
    case Ack(session, t, hex, shs) =>
      s.(index := s.index[t := StoredAs(outputs, t, hex, shs)], recent := s.recent[session := t], ingests := s.ingests + multiset{t})
    case Insert(t) => s.(ingests := s.ingests - multiset{t}, storing := s.storing + multiset{t}, rows := s.rows + multiset{t})
    case Ingest(t, hex, shs) => s.(index := s.index[t := StoredAs(outputs, t, hex, shs)], storing := s.storing - multiset{t})
    case IngestFailed(t) => s.(ingests := s.ingests - multiset{t})
    case Enrich(t, extra) => s.(index := MergeInto(s.index, t, extra))
    case Remove(t, kind) =>
      s.(index := s.index - {t},
         rows := if kind.Waiting? then s.rows - multiset{t} else s.rows,
         failed := if kind.Refused? then s.failed - multiset{t} else s.failed)
    case Fails(t) => s.(rows := s.rows - multiset{t}, failed := s.failed + multiset{t})
    case Requeues(t) => s.(failed := s.failed - multiset{t}, rows := s.rows + multiset{t})
    case Notified(session) =>
      if session in s.recent && s.recent[session] !in s.index then s.(recent := s.recent - {session}) else s
    case Restart(loaded) => s.(index := loaded, recent := map[], ingests := multiset{}, storing := multiset{})
  }

  function Run(outputs: Decoding, events: seq<Event>): State {
    RunFrom(outputs, EMPTY, events)
  }

  function RunFrom(outputs: Decoding, s: State, events: seq<Event>): State {
    if events == [] then s
    else Step(outputs, RunFrom(outputs, s, events[..|events| - 1]), events[|events| - 1])
  }

  /** Every acknowledged broadcast starts one ingest, which inserts one row before it stores; a restart loads
      only what is pending or scheduled. */
  predicate Enabled(s: State, e: Event) {
    match e
    case Insert(t) => t in s.ingests
    case IngestFailed(t) => t in s.ingests
    case Ingest(t, _, _) => t in s.storing
    case Remove(t, kind) => (kind.Waiting? ==> t in s.rows) && (kind.Refused? ==> t in s.failed)
    case Fails(t) => t in s.rows
    case Requeues(t) => t in s.failed
    case Restart(loaded) => forall t :: t in loaded ==> t in s.rows
    case _ => true
  }

  predicate IsRun(outputs: Decoding, s: State, events: seq<Event>) {
    forall i :: 0 <= i < |events| ==> Enabled(RunFrom(outputs, s, events[..i]), events[i])
  }

  // ----- polls

  /** pending_txids_for_scripthash_with_session, over one order of the map. */
  function PollList(index: Index, recent: Option<Txid>, order: seq<Txid>, sh: Scripthash): seq<Txid> {
    if recent.Some? && recent.value in index then
      [recent.value] + Filter(Touching(index, order, sh), t => t != recent.value)
    else Touching(index, order, sh)
  }

  datatype Method = GetHistory | GetMempool

  /** The answer to a poll: history entries or mempool entries with height 0, or the server is asked. */
  datatype Answer =
    | History(entries: seq<(Txid, int)>)
    | Mempool(feeTotal: int, entries3: seq<(Txid, int, int)>)
    | Forwarded

  predicate Lists(a: Answer, t: Txid) {
    match a
    case History(entries) => (t, 0) in entries
    case Mempool(_, entries) => (t, 0, 0) in entries
    case Forwarded => false
  }

  function HistoryEntries(txids: seq<Txid>): (r: seq<(Txid, int)>)
    ensures |r| == |txids| && forall i :: 0 <= i < |r| ==> r[i] == (txids[i], 0)
  {
    seq(|txids|, i requires 0 <= i < |txids| => (txids[i], 0))
  }

  function MempoolEntries(txids: seq<Txid>): (r: seq<(Txid, int, int)>)
    ensures |r| == |txids| && forall i :: 0 <= i < |r| ==> r[i] == (txids[i], 0, 0)
  {
    seq(|txids|, i requires 0 <= i < |txids| => (txids[i], 0, 0))
  }

  /** The fast path of handle_one_subrequest. */
  function AnswerPoll(m: Method, pending: seq<Txid>): Answer {
    if pending == [] then Forwarded
    else if m == GetMempool then Mempool(0, MempoolEntries(pending))
    else History(HistoryEntries(pending))
  }

  class Session {
    var recentBroadcastTxid: Option<Txid>

    constructor ()
      ensures recentBroadcastTxid == None
    {
      recentBroadcastTxid := None;
    }

    /** intercept_and_handle_broadcast up to the acknowledgement: a transaction that does not decode is
        answered with an error and changes nothing; any other is stored and remembered before the ack. */
    method InterceptBroadcast(pool: PendingTxs, preview: Option<Txid>, hex: string, scripthashes: seq<Scripthash>,
                              outputs: seq<(nat, Scripthash)>)
      returns (acked: Option<Txid>)
      modifies this, pool
      ensures acked == preview
      ensures match preview
              case None => pool.index == old(pool.index) && recentBroadcastTxid == old(recentBroadcastTxid)
              case Some(t) =>
                && pool.index == old(pool.index)[t := Info(hex, scripthashes, ExtractOutputs(outputs))]
                && recentBroadcastTxid == Some(t)
    {
      if preview.None? {
        return None;
      }
      pool.Store(preview.value, hex, scripthashes, ExtractOutputs(outputs));
      recentBroadcastTxid := preview;
      return preview;
    }

    /** The stale entry is dropped when a notification arrives. */
    method HandleNotification(pool: PendingTxs)
      modifies this
      ensures recentBroadcastTxid ==
              if old(recentBroadcastTxid).Some? && old(recentBroadcastTxid).value !in pool.index then None
              else old(recentBroadcastTxid)
    {
      if recentBroadcastTxid.Some? {
        if recentBroadcastTxid.value !in pool.index {
          recentBroadcastTxid := None;
        }
      }
    }

    /** The session's latest broadcast, and then the others. */
    method LatestFirst(latest: Txid, own: seq<Txid>) returns (pending: seq<Txid>)
      requires RepeatFree(own)
      ensures pending == [latest] + Filter(own, t => t != latest)
      ensures RepeatFree(pending) && pending[0] == latest && forall t :: t in pending <==> t == latest || t in own
    {
      ghost var others := (t: Txid) => t != latest;
      pending := [latest];
      for i := 0 to |own|
        invariant pending == [latest] + Filter(own[..i], others)
        invariant pending[0] == latest
      {
        assert own[..i + 1] == own[..i] + [own[i]];
        FilterAppend(own[..i], [own[i]], others);
        FilterElements(own[..i], others);
        if own[i] !in pending {
          pending := pending + [own[i]];
        }
      }
      assert own[..|own|] == own;
      FilterRepeatFree(own, others);
      FilterElements(own, others);
    }

    method Poll(pool: PendingTxs, m: Method, sh: Scripthash) returns (a: Answer, ghost order: seq<Txid>)
      ensures IsOrder(pool.index, order)
      ensures a == AnswerPoll(m, PollList(pool.index, recentBroadcastTxid, order, sh))
      ensures forall t :: Lists(a, t) <==>
                t in pool.index && (sh in pool.index[t].scripthashes || recentBroadcastTxid == Some(t))
      ensures a.History? <==> m == GetHistory && !a.Forwarded?
      ensures a.Forwarded? <==> forall t :: t in pool.index ==> sh !in pool.index[t].scripthashes && recentBroadcastTxid != Some(t)
      ensures match a
              case Forwarded => true
              case History(entries) =>
                && (forall k :: 0 <= k < |entries| ==> entries[k].1 == 0)
                && (forall k, l :: 0 <= k < l < |entries| ==> entries[k].0 != entries[l].0)
                && (forall t :: recentBroadcastTxid == Some(t) && t in pool.index ==> entries != [] && entries[0].0 == t)
                && (forall t :: (t, 0) in entries <==>
                      t in pool.index && (sh in pool.index[t].scripthashes || recentBroadcastTxid == Some(t)))
              case Mempool(total, entries) =>
                && total == 0
                && (forall k :: 0 <= k < |entries| ==> entries[k].1 == 0 && entries[k].2 == 0)
                && (forall k, l :: 0 <= k < l < |entries| ==> entries[k].0 != entries[l].0)
                && (forall t :: recentBroadcastTxid == Some(t) && t in pool.index ==> entries != [] && entries[0].0 == t)
                && (forall t :: (t, 0, 0) in entries <==>
                      t in pool.index && (sh in pool.index[t].scripthashes || recentBroadcastTxid == Some(t)))
    {
      hide AnswerPoll, Lists;
      var pending;
      pending, order := pool.TxidsFor(sh);
      if recentBroadcastTxid.Some? && recentBroadcastTxid.value in pool.index {
        OrderHasNoRepeats(pool.index, order);
        FilterRepeatFree(order, Touches(pool.index, sh));
        pending := LatestFirst(recentBroadcastTxid.value, pending);
      }
      a := AnswerPoll(m, pending);
      forall t ensures Lists(a, t) <==> t in pool.index && (sh in pool.index[t].scripthashes || recentBroadcastTxid == Some(t)) {
        PollListsExactly(pool.index, recentBroadcastTxid, order, m, sh, t);
        ListedIn(m, pending, t);
      }
      AnswerSays(m, pending, a);
    }
  }

  /** Each entry is one of the pending transactions, in order, with zeros. */
  lemma AnswerSays(m: Method, pending: seq<Txid>, a: Answer)
    requires a == AnswerPoll(m, pending) && RepeatFree(pending)
    ensures (a.History? <==> m == GetHistory && !a.Forwarded?) && (a.Forwarded? <==> pending == [])
    ensures forall t :: Lists(a, t) <==> t in pending
    ensures match a
            case Forwarded => true
            case History(entries) =>
              && (forall k :: 0 <= k < |entries| ==> entries[k].1 == 0)
              && (forall k, l :: 0 <= k < l < |entries| ==> entries[k].0 != entries[l].0)
              && entries != [] && pending != [] && entries[0].0 == pending[0]
              && (forall t :: (t, 0) in entries <==> t in pending)
            case Mempool(total, entries) =>
              && total == 0
              && (forall k :: 0 <= k < |entries| ==> entries[k].1 == 0 && entries[k].2 == 0)
              && (forall k, l :: 0 <= k < l < |entries| ==> entries[k].0 != entries[l].0)
              && entries != [] && pending != [] && entries[0].0 == pending[0]
              && (forall t :: (t, 0, 0) in entries <==> t in pending)
  {
    forall t ensures Lists(a, t) <==> t in pending {
      ListedIn(m, pending, t);
    }
  }

  // ----- safety over every interleaving

  /** No event of events[from..] removes t. */
  ghost predicate NotRemoved(events: seq<Event>, from: nat, t: Txid) {
    forall k :: from <= k < |events| ==> !(events[k].Remove? && events[k].txid == t)
  }

  ghost predicate AllFaithful(outputs: Decoding, events: seq<Event>) {
    forall k :: 0 <= k < |events| ==> Faithful(outputs, events[k])
  }

  /** Every restart finds t among the pending and scheduled rows, and loads those. */
  ghost predicate SurvivesRestarts(outputs: Decoding, events: seq<Event>, from: nat, t: Txid) {
    forall k :: from <= k < |events| && events[k].Restart? ==> FoundAt(outputs, events, k, t)
  }

  ghost predicate FoundAt(outputs: Decoding, events: seq<Event>, k: nat, t: Txid)
    requires k < |events| && events[k].Restart?
  {
    var s := Run(outputs, events[..k]);
    t in s.rows && LoadsAll(s, events[k].loaded)
  }

  /** An indexer is configured, and no row is cut off or unreadable. */
  predicate LoadsAll(s: State, loaded: Index) {
    forall t :: t in s.rows ==> t in loaded
  }

  /** t is in the index under all its output scripthashes. */
  ghost predicate Indexed(outputs: Decoding, s: State, t: Txid) {
    t in s.index && ListsOutputs(outputs, s.index, t)
  }

  lemma KeepsIndexed(outputs: Decoding, s: State, e: Event, t: Txid)
    requires Faithful(outputs, e) && !(e.Remove? && e.txid == t)
    requires Indexed(outputs, s, t) || (e.Ack? && e.txid == t)
    requires e.Restart? ==> t in e.loaded
    ensures Indexed(outputs, Step(outputs, s, e), t)
  {
    if e.Enrich? && t == e.txid {
      MergedHas(s.index[t].scripthashes, e.extra);
    }
  }

  lemma SurvivesBefore(outputs: Decoding, events: seq<Event>, from: nat, t: Txid)
    requires events != [] && SurvivesRestarts(outputs, events, from, t)
    ensures SurvivesRestarts(outputs, events[..|events| - 1], from, t)
  {
    hide Run;
    var init := events[..|events| - 1];
    forall k | from <= k < |init| && init[k].Restart? ensures FoundAt(outputs, init, k, t) {
      assert init[..k] == events[..k] && FoundAt(outputs, events, k, t);
    }
  }

  lemma LastLoads(outputs: Decoding, events: seq<Event>, from: nat, t: Txid)
    requires from < |events| && SurvivesRestarts(outputs, events, from, t)
    ensures var e := events[|events| - 1]; e.Restart? ==> t in e.loaded
  {
    hide Run;
    var n := |events| - 1;
    assert events[n].Restart? ==> FoundAt(outputs, events, n, t);
  }

  lemma {:induction false} StaysIndexed(outputs: Decoding, events: seq<Event>, i: nat)
    requires AllFaithful(outputs, events) && i < |events| && events[i].Ack?
    requires NotRemoved(events, i, events[i].txid) && SurvivesRestarts(outputs, events, i, events[i].txid)
    ensures Indexed(outputs, Run(outputs, events), events[i].txid)
  {
    hide Step, Faithful, Indexed, SurvivesRestarts;
    var n, t := |events| - 1, events[i].txid;
    assert Faithful(outputs, events[n]);
    LastLoads(outputs, events, i, t);
    if i < n {
      assert events[..n][i] == events[i];
      SurvivesBefore(outputs, events, i, t);
      StaysIndexed(outputs, events[..n], i);
    }
    KeepsIndexed(outputs, Run(outputs, events[..n]), events[n], t);
  }

  /** The last acknowledgement of a session of the running daemon. */
  ghost predicate LastAck(events: seq<Event>, i: nat, session: SessionId) {
    && i < |events| && events[i].Ack? && events[i].session == session
    && forall k :: i < k < |events| ==> !(events[k].Ack? && events[k].session == session) && !events[k].Restart?
  }

  lemma {:induction false} StaysRecent(outputs: Decoding, events: seq<Event>, i: nat, session: SessionId)
    requires AllFaithful(outputs, events) && LastAck(events, i, session) && NotRemoved(events, i, events[i].txid)
    ensures var s := Run(outputs, events); session in s.recent && s.recent[session] == events[i].txid
  {
    hide Faithful, ListsOutputs, SurvivesRestarts, Step;
    var n := |events| - 1;
    if i < n {
      assert events[..n][i] == events[i];
      StaysRecent(outputs, events[..n], i, session);
      NoRestart(outputs, events[..n], i, events[i].txid);
      StaysIndexed(outputs, events[..n], i);
    }
    KeepsRecent(outputs, Run(outputs, events[..n]), events[n], session, events[i].txid);
  }

  lemma KeepsRecent(outputs: Decoding, s: State, e: Event, session: SessionId, t: Txid)
    requires !e.Restart? && (e.Ack? && e.session == session ==> e.txid == t)
    requires (e.Ack? && e.session == session) || (session in s.recent && s.recent[session] == t && t in s.index)
    ensures var after := Step(outputs, s, e); session in after.recent && after.recent[session] == t
  {
  }

  lemma NoRestart(outputs: Decoding, events: seq<Event>, from: nat, t: Txid)
    requires forall k :: from <= k < |events| ==> !events[k].Restart?
    ensures SurvivesRestarts(outputs, events, from, t)
  {
  }

  function RecentOf(s: State, session: SessionId): Option<Txid> {
    if session in s.recent then Some(s.recent[session]) else None
  }

  lemma ListedIn(m: Method, pending: seq<Txid>, t: Txid)
    ensures Lists(AnswerPoll(m, pending), t) <==> t in pending
  {
    var h, p := HistoryEntries(pending), MempoolEntries(pending);
    if t in pending {
      var i :| 0 <= i < |pending| && pending[i] == t;
      assert h[i] == (t, 0) && p[i] == (t, 0, 0);
    }
  }

  /** Exactly when a poll lists a transaction, in any order of the map. */
  lemma PollListsExactly(index: Index, recent: Option<Txid>, order: seq<Txid>, m: Method, sh: Scripthash, t: Txid)
    requires IsOrder(index, order)
    ensures Lists(AnswerPoll(m, PollList(index, recent, order, sh)), t) <==>
            t in index && (sh in index[t].scripthashes || recent == Some(t))
  {
    OrderHasNoRepeats(index, order);
    FilterElements(order, Touches(index, sh));
    if recent.Some? {
      FilterElements(Touching(index, order, sh), x => x != recent.value);
    }
    ListedIn(m, PollList(index, recent, order, sh), t);
  }

  /** In every interleaving: after a broadcast is acknowledged and until the transaction is removed, every
      get_history or get_mempool poll of any session on one of its output scripthashes lists it, and the
      acknowledging session sees it on every scripthash while it is that session's latest broadcast. */
  lemma AckedStaysVisible(outputs: Decoding, events: seq<Event>, i: nat, session: SessionId, order: seq<Txid>,
                          m: Method, sh: Scripthash)
    requires AllFaithful(outputs, events) && i < |events| && events[i].Ack?
    requires NotRemoved(events, i, events[i].txid) && SurvivesRestarts(outputs, events, i, events[i].txid)
    requires IsOrder(Run(outputs, events).index, order)
    requires PaysTo(outputs, events[i].txid, sh) || LastAck(events, i, session)
    ensures var s := Run(outputs, events);
            Lists(AnswerPoll(m, PollList(s.index, RecentOf(s, session), order, sh)), events[i].txid)
  {
    var s := Run(outputs, events);
    StaysIndexed(outputs, events, i);
    if LastAck(events, i, session) {
      StaysRecent(outputs, events, i, session);
    }
    PollListsExactly(s.index, RecentOf(s, session), order, m, sh, events[i].txid);
  }

  /** Exactly when a restart leaves a transaction where polls on its outputs list it. */
  lemma RestartKeepsExactly(outputs: Decoding, s: State, loaded: Index, t: Txid, order: seq<Txid>, m: Method, sh: Scripthash)
    requires Enabled(s, Restart(loaded)) && LoadsAll(s, loaded) && Faithful(outputs, Restart(loaded))
    requires PaysTo(outputs, t, sh) && IsOrder(loaded, order)
    ensures Lists(AnswerPoll(m, PollList(loaded, None, order, sh)), t) <==> t in s.rows
    ensures Step(outputs, s, Restart(loaded)).index == loaded
  {
    PollListsExactly(loaded, None, order, m, sh, t);
    if t in loaded {
      assert ListsOutputs(outputs, loaded, t);
    }
  }

  /** A broadcast is acknowledged and lost: the daemon restarts before the background ingest inserts its row. */
  lemma AckedIsLost(outputs: Decoding, t: Txid, hex: string, shs: seq<Scripthash>)
    ensures var lost := [Ack(0, t, hex, shs), Restart(map[])];
            IsRun(outputs, EMPTY, lost) && NotRemoved(lost, 0, t) && Run(outputs, lost) == EMPTY
  {
    hide IsRun, RunFrom;
    NoEvents(outputs, EMPTY);
    RunExtends(outputs, EMPTY, [], Ack(0, t, hex, shs));
    RunExtends(outputs, EMPTY, [] + [Ack(0, t, hex, shs)], Restart(map[]));
    assert [] + [Ack(0, t, hex, shs)] + [Restart(map[])] == [Ack(0, t, hex, shs), Restart(map[])];
  }

  predicate NoAck(events: seq<Event>, t: Txid) {
    forall i :: 0 <= i < |events| ==> !(events[i].Ack? && events[i].txid == t)
  }

  /** Once removed, t is never in the index again without a new broadcast of it. */
  ghost predicate StaysOut(outputs: Decoding, s: State, t: Txid) {
    forall events :: IsRun(outputs, s, events) && NoAck(events, t) ==> t !in RunFrom(outputs, s, events).index
  }

  /** Nothing is left that can bring t back: no background ingest, no row. */
  predicate NothingLeft(s: State, t: Txid) {
    t !in s.ingests && t !in s.storing && t !in s.rows && t !in s.failed
  }

  predicate GoneFor(s: State, t: Txid) {
    t !in s.index && NothingLeft(s, t)
  }

  lemma KeepsGone(outputs: Decoding, s: State, e: Event, t: Txid)
    requires GoneFor(s, t) && Enabled(s, e) && !(e.Ack? && e.txid == t)
    ensures GoneFor(Step(outputs, s, e), t)
  {
  }

  lemma RunInit(outputs: Decoding, s: State, events: seq<Event>)
    requires IsRun(outputs, s, events) && events != []
    ensures var n := |events| - 1; IsRun(outputs, s, events[..n]) && Enabled(RunFrom(outputs, s, events[..n]), events[n])
  {
    hide Step, Enabled, RunFrom;
    var init := events[..|events| - 1];
    forall i | 0 <= i < |init| ensures Enabled(RunFrom(outputs, s, init[..i]), init[i]) {
      assert init[..i] == events[..i];
    }
  }

  lemma {:induction false} NoIngestLeft(outputs: Decoding, s: State, events: seq<Event>, t: Txid)
    requires IsRun(outputs, s, events) && NoAck(events, t) && GoneFor(s, t)
    ensures GoneFor(RunFrom(outputs, s, events), t)
  {
    hide Step, Enabled, GoneFor, IsRun;
    if events != [] {
      var n := |events| - 1;
      RunInit(outputs, s, events);
      NoIngestLeft(outputs, s, events[..n], t);
      KeepsGone(outputs, RunFrom(outputs, s, events[..n]), events[n], t);
    }
  }

  /** Exactly when a removal is final: when no background ingest of the transaction is outstanding and no
      other row of it is pending, scheduled or failed. */
  lemma RemovalIsFinalExactly(outputs: Decoding, s: State, t: Txid, kind: Kind)
    requires Enabled(s, Remove(t, kind))
    ensures var removed := Step(outputs, s, Remove(t, kind)); StaysOut(outputs, removed, t) <==> NothingLeft(removed, t)
  {
    hide StaysOut, NothingLeft;
    var removed := Step(outputs, s, Remove(t, kind));
    if NothingLeft(removed, t) {
      StaysAway(outputs, removed, t);
    } else {
      var events := ComesBack(outputs, removed, t);
      NotFinal(outputs, removed, events, t);
    }
  }

  lemma StaysAway(outputs: Decoding, s: State, t: Txid)
    requires GoneFor(s, t)
    ensures StaysOut(outputs, s, t)
  {
    forall events | IsRun(outputs, s, events) && NoAck(events, t) ensures t !in RunFrom(outputs, s, events).index {
      NoIngestLeft(outputs, s, events, t);
    }
  }

  lemma NotFinal(outputs: Decoding, s: State, events: seq<Event>, t: Txid)
    requires IsRun(outputs, s, events) && NoAck(events, t) && t in RunFrom(outputs, s, events).index
    ensures !StaysOut(outputs, s, t)
  {
  }

  /** The late ingest stores it, or a restart loads the other row. */
  lemma ComesBack(outputs: Decoding, s: State, t: Txid) returns (events: seq<Event>)
    requires !NothingLeft(s, t)
    ensures IsRun(outputs, s, events) && NoAck(events, t) && t in RunFrom(outputs, s, events).index
  {
    if t in s.ingests || t in s.storing {
      events := IngestComes(outputs, s, t);
    } else {
      events := RestartLoads(outputs, s, t);
    }
  }

  lemma IngestComes(outputs: Decoding, s: State, t: Txid) returns (events: seq<Event>)
    requires t in s.ingests || t in s.storing
    ensures IsRun(outputs, s, events) && NoAck(events, t) && t in RunFrom(outputs, s, events).index
  {
    hide IsRun, RunFrom;
    NoEvents(outputs, s);
    events := [];
    if t in s.ingests {
      RunExtends(outputs, s, events, Insert(t));
      events := events + [Insert(t)];
    }
    RunExtends(outputs, s, events, Ingest(t, "", []));
    events := events + [Ingest(t, "", [])];
  }

  lemma RestartLoads(outputs: Decoding, s: State, t: Txid) returns (events: seq<Event>)
    requires t in s.rows || t in s.failed
    ensures IsRun(outputs, s, events) && NoAck(events, t) && t in RunFrom(outputs, s, events).index
  {
    hide IsRun, RunFrom;
    NoEvents(outputs, s);
    events := [];
    if t !in s.rows {
      RunExtends(outputs, s, events, Requeues(t));
      events := events + [Requeues(t)];
    }
    var loaded := map[t := Info("", [], [])];
    RunExtends(outputs, s, events, Restart(loaded));
    events := events + [Restart(loaded)];
  }

  lemma RunExtends(outputs: Decoding, s: State, events: seq<Event>, e: Event)
    requires IsRun(outputs, s, events) && Enabled(RunFrom(outputs, s, events), e)
    ensures IsRun(outputs, s, events + [e])
    ensures RunFrom(outputs, s, events + [e]) == Step(outputs, RunFrom(outputs, s, events), e)
  {
    hide Step, Enabled;
    var more := events + [e];
    assert more[..|events|] == events;
    forall i | 0 <= i < |more| ensures Enabled(RunFrom(outputs, s, more[..i]), more[i]) {
      if i < |events| {
        assert more[..i] == events[..i];
      }
    }
  }

  /** From an empty index: a broadcast is acknowledged, its row is inserted and sent, the transaction is removed,
      and then its own background ingest stores it again. */
  lemma RemovedComesBack(outputs: Decoding, t: Txid, hex: string, shs: seq<Scripthash>)
    ensures var late := [Ack(0, t, hex, shs), Insert(t), Remove(t, Waiting), Ingest(t, hex, shs)];
            IsRun(outputs, EMPTY, late) && t in Run(outputs, late).index
  {
    hide IsRun, RunFrom;
    var ack, insert, remove, ingest := Ack(0, t, hex, shs), Insert(t), Remove(t, Waiting), Ingest(t, hex, shs);
    NoEvents(outputs, EMPTY);
    RunExtends(outputs, EMPTY, [], ack);
    RunExtends(outputs, EMPTY, [] + [ack], insert);
    RunExtends(outputs, EMPTY, [] + [ack] + [insert], remove);
    RunExtends(outputs, EMPTY, [] + [ack] + [insert] + [remove], ingest);
    assert [] + [ack] + [insert] + [remove] + [ingest] == [ack, insert, remove, ingest];
  }

  lemma NoEvents(outputs: Decoding, s: State)
    ensures IsRun(outputs, s, []) && RunFrom(outputs, s, []) == s
  {
  }
}
