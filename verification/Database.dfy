/** The table of pool transactions: its row transitions and selection queries. */
module Database {
  import opened Prelude

  type Id = string

  datatype Status = Pending | Scheduled | Broadcast | Confirmed | Expired | Failed
  datatype Mode = Immediate | AtTime | ByBlock | Manual
  datatype Trigger = ByDate | ByPrice
  datatype Currency = Eur | Usd
  datatype Condition = Above | Below

  /** One transaction. Times are in seconds. */
  datatype Row = Row(
    hex: string,
    txid: Option<string>,
    status: Status,
    network: string,
    nlocktime: Option<nat>,
    mode: Option<Mode>,
    scheduledTime: Option<nat>,
    broadcastAt: Option<nat>,
    confirmedAt: Option<nat>,
    blockHeight: Option<nat>,
    targetFee: Option<real>,
    actualFee: Option<real>,
    source: Option<string>,
    error: Option<string>,
    missedAt: Option<nat>,
    originalScheduled: Option<nat>,
    deferUntil: Option<nat>,
    trigger: Option<Trigger>,
    targetPrice: Option<real>,
    currency: Option<Currency>,
    condition: Option<Condition>,
    created: nat)

  datatype NewTx = NewTx(
    hex: string,
    network: string,
    nlocktime: Option<nat>,
    mode: Option<Mode>,
    scheduledTime: Option<nat>,
    targetFee: Option<real>,
    source: Option<string>)

  type Table = map<Id, Row>

  function Inserted(tx: NewTx, now: nat): Row {
    Row(tx.hex, None, Pending, tx.network, Some(tx.nlocktime.GetOr(0)), Some(tx.mode.GetOr(Immediate)),
        tx.scheduledTime, None, None, None, tx.targetFee, None, tx.source, None, None, None, None,
        Some(ByDate), None, None, None, now)
  }

  // ----- what each UPDATE statement does to a row it finds

  datatype Update =
    | Due(now: nat)
    | Fire(now: nat)
    | Sent(txid: string, fee: real, now: nat)
    | Resent(now: nat)
    | Confirm(height: nat, now: nat)
    | Report(status: Status, error: Option<string>)
    | Requeue
    | Miss(at: nat, original: Option<nat>)
    | Reschedule(time: nat, defer: Option<nat>, fee: real)
    | Delay(time: nat, fee: real)
    | Arm(target: real, currency: Currency, condition: Condition, fee: real)

  function Apply(r: Row, u: Update): Row {
    match u
    case Due(now) => r.(status := Scheduled, scheduledTime := Some(now))
    case Fire(now) => r.(status := Scheduled, scheduledTime := Some(now), trigger := Some(ByDate))
    case Sent(txid, fee, now) =>
      r.(status := Broadcast, txid := Some(txid), actualFee := Some(fee), broadcastAt := Some(now),
         missedAt := None, deferUntil := None)
    case Resent(now) => r.(broadcastAt := Some(now))
    case Confirm(height, now) => r.(status := Confirmed, blockHeight := Some(height), confirmedAt := Some(now))
    case Report(status, error) => r.(status := status, error := error)
    case Requeue => if r.status == Failed then r.(status := Scheduled, error := None) else r
    case Miss(at, original) =>
      if r.missedAt.Some? then r
      else if original.Some? && r.originalScheduled.None? then
        r.(missedAt := Some(at), originalScheduled := original)
      else r.(missedAt := Some(at))
    case Reschedule(time, defer, fee) =>
      r.(status := Scheduled, scheduledTime := Some(time), deferUntil := defer, targetFee := Some(fee), error := None,
         trigger := Some(ByDate), targetPrice := None, currency := None, condition := None)
    case Delay(time, fee) => r.(status := Scheduled, scheduledTime := Some(time), targetFee := Some(fee))
    case Arm(target, currency, condition, fee) =>
      r.(status := Pending, scheduledTime := None, deferUntil := None, targetFee := Some(fee), error := None,
         trigger := Some(ByPrice), targetPrice := Some(target), currency := Some(currency), condition := Some(condition))
  }

  function Updated(rows: Table, id: Id, u: Update): Table {
    if id in rows then rows[id := Apply(rows[id], u)] else rows
  }

  /** What no statement changes. */
  predicate SameTransaction(a: Row, b: Row) {
    && a.hex == b.hex && a.network == b.network && a.nlocktime == b.nlocktime && a.mode == b.mode
    && a.source == b.source && a.created == b.created
  }

  // ----- selections

  predicate IsDueCandidate(r: Row, network: string) {
    r.status == Scheduled && r.network == network
  }

  predicate IsPendingByTime(r: Row, network: string, now: nat) {
    && r.status == Pending && (r.mode == Some(AtTime) || r.mode == Some(Manual)) && r.network == network
    && r.scheduledTime.Some? && r.scheduledTime.value <= now
  }

  predicate IsPendingByBlock(r: Row, network: string) {
    && r.status == Pending && r.mode == Some(ByBlock) && r.network == network
    && r.nlocktime.Some? && 0 < r.nlocktime.value < 500_000_000
  }

  predicate IsPriceTriggered(r: Row, network: string) {
    && (r.status == Pending || r.status == Scheduled) && r.trigger == Some(ByPrice) && r.targetPrice.Some?
    && r.network == network
  }

  predicate IsRebroadcastable(r: Row, network: string, cutoff: int) {
    && r.status == Broadcast && r.confirmedAt.None? && r.network == network
    && (r.broadcastAt.None? || r.broadcastAt.value < cutoff)
  }

  predicate HasStatus(r: Row, status: Status, network: string) {
    r.status == status && r.network == network
  }

  /** The rows that satisfy a condition. */
  function Where(rows: Table, p: Row -> bool): Table {
    map id | id in rows && p(rows[id]) :: rows[id]
  }

  /** The rows of a list of ids. */
  function Rest(rows: Table, ids: seq<Id>): Table {
    map id | id in ids && id in rows :: rows[id]
  }

  /** A page of list_broadcast_txs: the newest rows, at most limit of them. */
  ghost predicate IsPage(all: Table, limit: nat, page: Table) {
    && page.Keys <= all.Keys && (forall id :: id in page ==> page[id] == all[id])
    && |page.Keys| == (if |all.Keys| <= limit then |all.Keys| else limit)
    && forall id, other :: id in page && other in all && other !in page ==> all[other].created <= page[id].created
  }

  /** The rows at least as new as one, and those strictly newer. */
  function NoOlder(all: Table, id: Id): set<Id>
    requires id in all
  {
    set other | other in all && all[other].created >= all[id].created
  }

  function Newer(all: Table, id: Id): set<Id>
    requires id in all
  {
    set other | other in all && all[other].created > all[id].created
  }

  lemma OneNewer(all: Table, id: Id, x: Id, r: Row)
    requires id in all && x !in all && r.created > all[id].created
    ensures |Newer(all[x := r], id)| == |Newer(all, id)| + 1
  {
    assert Newer(all[x := r], id) == Newer(all, id) + {x};
  }

  lemma NoneNewer(id: Id, r: Row)
    ensures |Newer(map[id := r], id)| == 0
  {
    assert Newer(map[id := r], id) == {};
  }

  lemma SmallerSet(a: set<Id>, b: set<Id>)
    requires a <= b
    ensures |a| <= |b|
    ensures a != b ==> |a| < |b|
  {
    assert b == a + (b - a);
    assert |b| == |a| + |b - a|;
  }

  /** Which rows a page surely has, and which it surely leaves out: with limit or more strictly newer
      rows a row is not on the page, with at most limit rows that are no older it is. */
  lemma OnPage(all: Table, limit: nat, page: Table, id: Id)
    requires IsPage(all, limit, page) && id in all
    ensures |NoOlder(all, id)| <= limit ==> id in page
    ensures |Newer(all, id)| >= limit ==> id !in page
  {
    SmallerSet(page.Keys, all.Keys);
    if id !in page {
      assert page.Keys <= NoOlder(all, id) && id in NoOlder(all, id);
      SmallerSet(page.Keys, NoOlder(all, id));
    } else {
      SmallerSet(NoOlder(all, id), all.Keys);
      if other :| other in Newer(all, id) && other !in page {
        assert false;
      }
      assert id !in Newer(all, id);
      SmallerSet(Newer(all, id), page.Keys);
    }
  }

  /** The newest row of a table; among equally new ones, id if wanted and another one otherwise, where there is a choice. */
  ghost predicate IsNewest(all: Table, x: Id) {
    x in all && forall other :: other in all ==> all[other].created <= all[x].created
  }

  lemma NewestExists(all: Table)
    requires all.Keys != {}
    ensures exists x :: IsNewest(all, x)
  {
    var y :| y in all;
    var rest := all - {y};
    if rest.Keys == {} {
      assert all.Keys == {y} by {
        assert forall k :: k in all ==> k == y || k in rest;
      }
      assert IsNewest(all, y);
    } else {
      assert rest.Keys < all.Keys;
      NewestExists(rest);
      var x :| IsNewest(rest, x);
      assert forall other :: other in all ==> other == y || other in rest;
      assert IsNewest(all, if all[x].created >= all[y].created then x else y);
    }
  }

  /** A page is its newest row and a page of the others. */
  lemma PageGrows(all: Table, limit: nat, x: Id, rest: Table)
    requires IsNewest(all, x) && limit > 0 && IsPage(all - {x}, limit - 1, rest)
    ensures IsPage(all, limit, rest[x := all[x]])
  {
    var page, others := rest[x := all[x]], all - {x};
    WithOne(others, all, x);
    assert x !in rest;
    WithOne(rest, page, x);
    forall id, other | id in page && other in all && other !in page ensures all[other].created <= page[id].created {
      assert other in others;
    }
  }

  lemma WithOne(t: Table, more: Table, x: Id)
    requires x !in t && x in more && forall id :: id in more <==> id in t || id == x
    ensures |more.Keys| == |t.Keys| + 1
  {
    assert more.Keys == t.Keys + {x};
  }

  lemma NoPage(all: Table, limit: nat)
    requires limit == 0 || all.Keys == {}
    ensures IsPage(all, limit, map[])
  {
    var none: Table := map[];
    assert none.Keys == {};
  }

  /** With fewer than limit newer rows there is a page that shows a row. */
  lemma {:induction false} ShownOnSome(all: Table, limit: nat, id: Id) returns (page: Table)
    requires id in all && |Newer(all, id)| < limit
    ensures IsPage(all, limit, page) && id in page
    decreases limit
  {
    if IsNewest(all, id) {
      var rest := SomePage(all - {id}, limit - 1);
      PageGrows(all, limit, id, rest);
      page := rest[id := all[id]];
    } else {
      NewestExists(all);
      var x :| IsNewest(all, x);
      assert x in Newer(all, id) && Newer(all - {x}, id) == Newer(all, id) - {x};
      var rest := ShownOnSome(all - {x}, limit - 1, id);
      PageGrows(all, limit, x, rest);
      page := rest[x := all[x]];
    }
  }

  lemma {:induction false} SomePage(all: Table, limit: nat) returns (page: Table)
    ensures IsPage(all, limit, page)
    decreases limit
  {
    if limit == 0 || all.Keys == {} {
      NoPage(all, limit);
      page := map[];
    } else {
      NewestExists(all);
      var x :| IsNewest(all, x);
      var rest := SomePage(all - {x}, limit - 1);
      PageGrows(all, limit, x, rest);
      page := rest[x := all[x]];
    }
  }

  /** With more than limit rows no older, itself included, there is a page that leaves a row out. */
  lemma {:induction false} LeftOutOfSome(all: Table, limit: nat, id: Id) returns (page: Table)
    requires id in all && |NoOlder(all, id)| > limit
    ensures IsPage(all, limit, page) && id !in page
    decreases limit
  {
    if limit == 0 {
      NoPage(all, limit);
      page := map[];
    } else {
      var x := AnotherNewest(all, id);
      assert NoOlder(all - {x}, id) == NoOlder(all, id) - {x};
      var rest := LeftOutOfSome(all - {x}, limit - 1, id);
      PageGrows(all, limit, x, rest);
      page := rest[x := all[x]];
    }
  }

  lemma AnotherNewest(all: Table, id: Id) returns (x: Id)
    requires id in all && |NoOlder(all, id)| > 1
    ensures IsNewest(all, x) && x != id && x in NoOlder(all, id)
  {
    var others := all - {id};
    if forall other :: other in others ==> all[other].created < all[id].created {
      OnlyNewest(all, id);
    }
    NewestExists(others);
    x :| IsNewest(others, x);
    assert forall other :: other in all ==> other == id || other in others;
  }

  lemma OnlyNewest(all: Table, id: Id)
    requires id in all && forall other :: other in all && other != id ==> all[other].created < all[id].created
    ensures |NoOlder(all, id)| == 1
  {
    assert NoOlder(all, id) == {id};
  }

  /** Exactly which rows every page shows, and exactly which no page shows. */
  lemma OnPageExactly(all: Table, limit: nat, id: Id)
    requires id in all
    ensures (forall page :: IsPage(all, limit, page) ==> id in page) <==> |NoOlder(all, id)| <= limit
    ensures (forall page :: IsPage(all, limit, page) ==> id !in page) <==> |Newer(all, id)| >= limit
  {
    forall page | IsPage(all, limit, page)
      ensures (|NoOlder(all, id)| <= limit ==> id in page) && (|Newer(all, id)| >= limit ==> id !in page)
    {
      OnPage(all, limit, page, id);
    }
    if |NoOlder(all, id)| > limit {
      var page := LeftOutOfSome(all, limit, id);
    }
    if |Newer(all, id)| < limit {
      var page := ShownOnSome(all, limit, id);
    }
  }

  // ----- the code

  class Database {
    var rows: Table

    constructor ()
      ensures rows == map[]
    {
      rows := map[];
    }

    method InsertBroadcastTx(id: Id, tx: NewTx, now: nat)
      modifies this
      ensures rows == old(rows)[id := Inserted(tx, now)]
      ensures rows == old(rows)[id := Row(tx.hex, None, Pending, tx.network,
                                          Some(match tx.nlocktime case Some(n) => n case None => 0),
                                          Some(match tx.mode case Some(m) => m case None => Immediate),
                                          tx.scheduledTime, None, None, None, tx.targetFee, None, tx.source, None, None,
                                          None, None, Some(ByDate), None, None, None, now)]
    {
      var nlocktime := match tx.nlocktime case Some(n) => n case None => 0;
      var mode := match tx.mode case Some(m) => m case None => Immediate;
      rows := rows[id := Row(tx.hex, None, Pending, tx.network, Some(nlocktime), Some(mode), tx.scheduledTime, None,
                             None, None, tx.targetFee, None, tx.source, None, None, None, None, Some(ByDate), None, None,
                             None, now)];
    }

    method UpdateTxStatus(id: Id, status: Status, error: Option<string>)
      modifies this
      ensures rows == Updated(old(rows), id, Report(status, error))
      ensures rows == if id !in old(rows) then old(rows) else
                        var r := old(rows)[id];
                        old(rows)[id := r.(status := status, error := error)]
    {
      if id in rows {
        rows := rows[id := rows[id].(status := status, error := error)];
      }
    }

    /** Reports whether a failed row was found. */
    method ResetFailedToScheduled(id: Id) returns (found: bool)
      modifies this
      ensures rows == Updated(old(rows), id, Requeue)
      ensures rows == if id !in old(rows) then old(rows) else
                        var r := old(rows)[id];
                        old(rows)[id := if r.status == Failed then r.(status := Scheduled, error := None) else r]
      ensures found <==> id in old(rows) && old(rows)[id].status == Failed
    {
      found := id in rows && rows[id].status == Failed;
      if found {
        rows := rows[id := rows[id].(status := Scheduled, error := None)];
      } else {
        assert id in rows ==> rows[id := rows[id]] == rows;
      }
    }

    method MarkBroadcast(id: Id, txid: string, fee: real, now: nat)
      modifies this
      ensures rows == Updated(old(rows), id, Sent(txid, fee, now))
      ensures rows == if id !in old(rows) then old(rows) else
                        var r := old(rows)[id];
                        old(rows)[id := r.(status := Broadcast, txid := Some(txid), actualFee := Some(fee), broadcastAt := Some(now),
                                           missedAt := None, deferUntil := None)]
    {
      if id in rows {
        var r := rows[id].(status := Broadcast, txid := Some(txid), actualFee := Some(fee), broadcastAt := Some(now));
        rows := rows[id := r.(missedAt := None, deferUntil := None)];
      }
    }

    method Touch(id: Id, now: nat)
      modifies this
      ensures rows == Updated(old(rows), id, Resent(now))
      ensures rows == if id !in old(rows) then old(rows) else
                        var r := old(rows)[id];
                        old(rows)[id := r.(broadcastAt := Some(now))]
    {
      if id in rows {
        rows := rows[id := rows[id].(broadcastAt := Some(now))];
      }
    }

    method MarkConfirmed(id: Id, height: nat, now: nat)
      modifies this
      ensures rows == Updated(old(rows), id, Confirm(height, now))
      ensures rows == if id !in old(rows) then old(rows) else
                        var r := old(rows)[id];
                        old(rows)[id := r.(status := Confirmed, blockHeight := Some(height), confirmedAt := Some(now))]
    {
      if id in rows {
        rows := rows[id := rows[id].(status := Confirmed, blockHeight := Some(height), confirmedAt := Some(now))];
      }
    }

    method RecordBroadcastMiss(id: Id, at: nat, original: Option<nat>)
      modifies this
      ensures rows == Updated(old(rows), id, Miss(at, original))
      ensures rows == if id !in old(rows) then old(rows) else
                        var r := old(rows)[id];
                        old(rows)[id := if r.missedAt.Some? then r
                                   else r.(missedAt := Some(at),
                                           originalScheduled := if r.originalScheduled.Some? then r.originalScheduled else original)]
    {
      if id in rows && rows[id].missedAt.None? {
        var r := rows[id].(missedAt := Some(at));
        if original.Some? {
          r := r.(originalScheduled := if r.originalScheduled.Some? then r.originalScheduled else original);
        }
        rows := rows[id := r];
      } else {
        assert id in rows ==> rows[id := rows[id]] == rows;
      }
    }

    method UpdateReschedule(id: Id, time: nat, defer: Option<nat>, fee: real)
      modifies this
      ensures rows == Updated(old(rows), id, Reschedule(time, defer, fee))
      ensures rows == if id !in old(rows) then old(rows) else
                        var r := old(rows)[id];
                        old(rows)[id := r.(status := Scheduled, scheduledTime := Some(time), deferUntil := defer,
                                           targetFee := Some(fee), error := None, trigger := Some(ByDate),
                                           targetPrice := None, currency := None, condition := None)]
    {
      if id in rows {
        var r := rows[id].(status := Scheduled, scheduledTime := Some(time), deferUntil := defer, targetFee := Some(fee));
        r := r.(error := None, trigger := Some(ByDate), targetPrice := None, currency := None, condition := None);
        rows := rows[id := r];
      }
    }

    method UpdatePriceSchedule(id: Id, target: real, currency: Currency, condition: Condition, fee: real)
      modifies this
      ensures rows == Updated(old(rows), id, Arm(target, currency, condition, fee))
      ensures rows == if id !in old(rows) then old(rows) else
                        var r := old(rows)[id];
                        old(rows)[id := r.(status := Pending, scheduledTime := None, deferUntil := None, targetFee := Some(fee),
                                           error := None, trigger := Some(ByPrice), targetPrice := Some(target),
                                           currency := Some(currency), condition := Some(condition))]
    {
      if id in rows {
        var r := rows[id].(status := Pending, scheduledTime := None, deferUntil := None, targetFee := Some(fee), error := None);
        r := r.(trigger := Some(ByPrice), targetPrice := Some(target), currency := Some(currency), condition := Some(condition));
        rows := rows[id := r];
      }
    }

    method MarkDue(id: Id, now: nat)
      modifies this
      ensures rows == Updated(old(rows), id, Due(now))
      ensures rows == if id !in old(rows) then old(rows) else
                        var r := old(rows)[id];
                        old(rows)[id := r.(status := Scheduled, scheduledTime := Some(now))]
    {
      if id in rows {
        rows := rows[id := rows[id].(status := Scheduled, scheduledTime := Some(now))];
      }
    }

    method MarkDueFromPriceTrigger(id: Id, now: nat)
      modifies this
      ensures rows == Updated(old(rows), id, Fire(now))
      ensures rows == if id !in old(rows) then old(rows) else
                        var r := old(rows)[id];
                        old(rows)[id := r.(status := Scheduled, scheduledTime := Some(now), trigger := Some(ByDate))]
    {
      if id in rows {
        rows := rows[id := rows[id].(status := Scheduled, scheduledTime := Some(now), trigger := Some(ByDate))];
      }
    }

    method RemoveBroadcastTx(id: Id) returns (removed: nat)
      modifies this
      ensures rows == old(rows) - {id}
      ensures removed == if id in old(rows) then 1 else 0
    {
      removed := if id in rows then 1 else 0;
      rows := rows - {id};
    }

    /** A query without a limit: the rows that satisfy p, in some order. */
    method Select(p: Row -> bool) returns (ids: seq<Id>)
      ensures Lists(ids, Where(rows, p))
    {
      ids := [];
      var keys := rows.Keys;
      while keys != {}
        invariant keys <= rows.Keys
        invariant RepeatFree(ids) && forall id :: id in ids <==> id in rows && id !in keys && p(rows[id])
        decreases keys
      {
        var id :| id in keys;
        if p(rows[id]) {
          ids := ids + [id];
        }
        keys := keys - {id};
      }
    }

    /** list_broadcast_txs: newest first, at most limit. */
    method ListBroadcastTxs(status: Status, network: string, limit: nat) returns (ids: seq<Id>)
      ensures IsPage(Where(rows, r => HasStatus(r, status, network)), limit, Rest(rows, ids)) && Lists(ids, Rest(rows, ids))
      ensures RepeatFree(ids) && |ids| <= limit
      ensures forall id <- ids :: id in rows && rows[id].status == status && rows[id].network == network
      ensures forall b :: b in rows && rows[b].status == status && rows[b].network == network && b !in ids ==>
                |ids| == limit && forall a <- ids :: rows[b].created <= rows[a].created
    {
      var p := (r: Row) => HasStatus(r, status, network);
      var left := Select(p);
      ghost var found := Where(rows, p);
      ListsAll(left, found);
      ids := [];
      while left != [] && |ids| < limit
        invariant Paging(found, ids, left) && |ids| <= limit
        decreases |left|
      {
        PagingKnows(found, ids, left);
        var k := Newest(left);
        PageTakes(found, ids, left, k);
        ids, left := ids + [left[k]], left[..k] + left[k + 1..];
      }
      ghost var page := PageOf(found, ids, left, limit);
      assert page == Rest(rows, ids);
      PageSays(rows, status, network, limit, ids, left);
    }

    method Newest(ids: seq<Id>) returns (k: nat)
      requires ids != [] && forall id <- ids :: id in rows
      ensures k < |ids| && forall j :: 0 <= j < |ids| ==> rows[ids[j]].created <= rows[ids[k]].created
    {
      k := 0;
      for i := 1 to |ids|
        invariant k < |ids| && forall j :: 0 <= j < i ==> rows[ids[j]].created <= rows[ids[k]].created
      {
        if rows[ids[i]].created > rows[ids[k]].created {
          k := i;
        }
      }
    }
  }

  /** Each row once. */
  ghost predicate Lists(ids: seq<Id>, found: Table) {
    RepeatFree(ids) && forall id :: id in ids <==> id in found
  }

  lemma {:induction false} ListsAll(ids: seq<Id>, found: Table)
    requires Lists(ids, found)
    ensures |ids| == |found.Keys|
  {
    if ids == [] {
      assert found.Keys == {};
    } else {
      var rest := found - {ids[0]};
      assert Lists(ids[1..], rest);
      ListsAll(ids[1..], rest);
      assert found.Keys == rest.Keys + {ids[0]};
    }
  }

  /** Part of the page is taken, and what is left is no newer. */
  ghost predicate Paging(found: Table, ids: seq<Id>, left: seq<Id>) {
    && Lists(ids + left, found)
    && forall a, b :: a in ids && b in left && a in found && b in found ==> found[b].created <= found[a].created
  }

  lemma PageSays(rows: Table, status: Status, network: string, limit: nat, ids: seq<Id>, left: seq<Id>)
    requires Paging(Where(rows, r => HasStatus(r, status, network)), ids, left) && (left != [] ==> |ids| == limit)
    ensures RepeatFree(ids)
    ensures forall id <- ids :: id in rows && rows[id].status == status && rows[id].network == network
    ensures forall b :: b in rows && rows[b].status == status && rows[b].network == network && b !in ids ==>
              |ids| == limit && forall a <- ids :: rows[b].created <= rows[a].created
  {
    PagingSays(Where(rows, r => HasStatus(r, status, network)), ids, left);
  }

  lemma PagingSays(found: Table, ids: seq<Id>, left: seq<Id>)
    requires Paging(found, ids, left)
    ensures RepeatFree(ids) && (forall id <- ids :: id in found)
    ensures forall b :: b in found && b !in ids ==> left != [] && forall a <- ids :: found[b].created <= found[a].created
  {
    forall i, j | 0 <= i < j < |ids| ensures ids[i] != ids[j] {
      assert (ids + left)[i] != (ids + left)[j];
    }
    forall id | id in ids ensures id in found {
      assert id in ids + left;
    }
    forall b | b in found && b !in ids ensures b in left {
      assert b in ids + left;
    }
  }

  lemma PagingKnows(found: Table, ids: seq<Id>, left: seq<Id>)
    requires Paging(found, ids, left)
    ensures forall id <- left :: id in found
  {
    forall id | id in left ensures id in found {
      assert id in ids + left;
    }
  }

  lemma PageTakes(found: Table, ids: seq<Id>, left: seq<Id>, k: nat)
    requires Paging(found, ids, left) && k < |left| && forall id <- left :: id in found
    requires forall j :: 0 <= j < |left| ==> found[left[j]].created <= found[left[k]].created
    ensures Paging(found, ids + [left[k]], left[..k] + left[k + 1..])
  {
    var rest := left[..k] + left[k + 1..];
    MovedUp(ids, left, k);
    forall b | b in rest ensures b in left {
    }
  }

  lemma MovedUp(ids: seq<Id>, left: seq<Id>, k: nat)
    requires k < |left| && RepeatFree(ids + left)
    ensures RepeatFree(ids + [left[k]] + (left[..k] + left[k + 1..]))
    ensures forall id :: id in ids + [left[k]] + (left[..k] + left[k + 1..]) <==> id in ids + left
  {
    var was, now := ids + left, ids + [left[k]] + (left[..k] + left[k + 1..]);
    forall i | 0 <= i < |now| ensures now[i] == was[MovedFrom(i, |ids|, k)] {
    }
    assert forall i, j :: 0 <= i < j < |now| ==> MovedFrom(i, |ids|, k) != MovedFrom(j, |ids|, k);
    assert left == left[..k] + [left[k]] + left[k + 1..];
  }

  function MovedFrom(i: nat, n: nat, k: nat): nat {
    if i < n then i else if i == n then n + k else if i <= n + k then i - 1 else i
  }

  lemma PageOf(found: Table, ids: seq<Id>, left: seq<Id>, limit: nat) returns (page: Table)
    requires Paging(found, ids, left) && |ids| <= limit && (left == [] || |ids| == limit)
    ensures IsPage(found, limit, page) && Lists(ids, page)
  {
    ListsAll(ids + left, found);
    forall id | id in ids ensures id in found {
      assert id in ids + left;
    }
    page := map id | id in ids :: found[id];
    forall i, j | 0 <= i < j < |ids| ensures ids[i] != ids[j] {
      assert ids[i] == (ids + left)[i] && ids[j] == (ids + left)[j];
    }
    ListsAll(ids, page);
    forall id, other | id in page && other in found && other !in page ensures found[other].created <= page[id].created {
      assert other in ids + left;
    }
  }
}
