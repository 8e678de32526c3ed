/** How pending transactions are merged into the server's answers about a scripthash. */
module WalletAnswers {
  import opened Prelude
  import opened PendingPool

  const U32: nat := 0x1_0000_0000

  /** An unspent output as the server lists it; any field may be missing or of the wrong type. */
  datatype Listed = Listed(txHash: Option<string>, txPos: Option<nat>, height: Option<int>, value: Option<int>)

  type Outpoint = (string, nat)

  /** The outpoint of a listed output; the position is cut to 32 bits. */
  function OutpointOf(u: Listed): Option<Outpoint> {
    match (u.txHash, u.txPos)
    case (Some(t), Some(p)) => Some((t, p % U32))
    case _ => None
  }

  function Existing(utxos: seq<Listed>): set<Outpoint> {
    set u <- utxos | OutpointOf(u).Some? :: OutpointOf(u).value
  }

  function IsNew(existing: set<Outpoint>): Utxo -> bool {
    (u: Utxo) => (u.txid, u.index) !in existing
  }

  function Append(pending: seq<Utxo>): (r: seq<Listed>)
    ensures |r| == |pending|
  {
    seq(|pending|, i requires 0 <= i < |pending| =>
      Listed(Some(pending[i].txid), Some(pending[i].index), Some(0), Some(pending[i].value)))
  }

  /** The pending outputs that listunspent gets. */
  function Added(utxos: seq<Listed>, pending: seq<Utxo>): seq<Utxo> {
    Filter(pending, IsNew(Existing(utxos)))
  }

  /** inject_listunspent: the server's list, then every pending output it does not list. */
  method InjectListunspent(utxos: seq<Listed>, pending: seq<Utxo>) returns (result: seq<Listed>)
    ensures result == utxos + Append(Added(utxos, pending))
    ensures utxos <= result
    ensures forall k :: |utxos| <= k < |result| ==> AnswersNew(utxos, pending, result[k])
    ensures forall u <- pending :: !IsListed(utxos, u) ==> AnsweredIn(result[|utxos|..], u)
  {
    var existing := Existing(utxos);
    result := utxos;
    for i := 0 to |pending|
      invariant result == utxos + Append(Added(utxos, pending[..i]))
    {
      assert pending[..i + 1] == pending[..i] + [pending[i]];
      FilterAppend(pending[..i], [pending[i]], IsNew(existing));
      if (pending[i].txid, pending[i].index) !in existing {
        result := result + [Listed(Some(pending[i].txid), Some(pending[i].index), Some(0), Some(pending[i].value))];
      }
    }
    assert pending[..|pending|] == pending;
    WhatIsAdded(utxos, pending);
  }

  /** The server lists the output: same transaction, and same position in 32 bits. */
  predicate IsListed(utxos: seq<Listed>, u: Utxo) {
    exists l <- utxos :: l.txHash == Some(u.txid) && l.txPos.Some? && l.txPos.value % 0x1_0000_0000 == u.index
  }

  /** As the answer lists it: unconfirmed. */
  predicate IsAnswer(l: Listed, u: Utxo) {
    l.txHash == Some(u.txid) && l.txPos == Some(u.index) && l.height == Some(0) && l.value == Some(u.value)
  }

  /** The entry is a pending output that the server does not list. */
  predicate AnswersNew(utxos: seq<Listed>, pending: seq<Utxo>, l: Listed) {
    exists u <- pending :: !IsListed(utxos, u) && IsAnswer(l, u)
  }

  predicate AnsweredIn(answer: seq<Listed>, u: Utxo) {
    exists l <- answer :: IsAnswer(l, u)
  }

  lemma WhatIsAdded(utxos: seq<Listed>, pending: seq<Utxo>)
    ensures var result := utxos + Append(Added(utxos, pending));
            && (forall k :: |utxos| <= k < |result| ==> AnswersNew(utxos, pending, result[k]))
            && (forall u <- pending :: !IsListed(utxos, u) ==> AnsweredIn(result[|utxos|..], u))
  {
    var us := Added(utxos, pending);
    var added := Append(us);
    var result := utxos + added;
    AddedElements(utxos, pending);
    hide IsListed, Added;
    forall u | u in pending && !IsListed(utxos, u) ensures AnsweredIn(result[|utxos|..], u) {
      var i :| 0 <= i < |us| && us[i] == u;
      assert result[|utxos|..] == added && added[i] in added && IsAnswer(added[i], u);
    }
    forall k | |utxos| <= k < |result| ensures AnswersNew(utxos, pending, result[k]) {
      var u := us[k - |utxos|];
      assert u in us && result[k] == added[k - |utxos|] && IsAnswer(added[k - |utxos|], u);
    }
  }

  lemma AddedElements(utxos: seq<Listed>, pending: seq<Utxo>)
    ensures forall u :: u in Added(utxos, pending) <==> u in pending && !IsListed(utxos, u)
  {
    FilterElements(pending, IsNew(Existing(utxos)));
    forall u: Utxo ensures IsListed(utxos, u) <==> (u.txid, u.index) in Existing(utxos) {
      ListedExists(utxos, u);
    }
  }

  lemma ListedExists(utxos: seq<Listed>, u: Utxo)
    ensures IsListed(utxos, u) <==> (u.txid, u.index) in Existing(utxos)
  {
    if (u.txid, u.index) in Existing(utxos) {
      var l :| l in utxos && OutpointOf(l).Some? && OutpointOf(l).value == (u.txid, u.index);
    }
    if IsListed(utxos, u) {
      var l :| l in utxos && l.txHash == Some(u.txid) && l.txPos.Some? && l.txPos.value % 0x1_0000_0000 == u.index;
      assert OutpointOf(l) == Some((u.txid, u.index));
    }
  }

  // ----- never twice, and stable

  predicate DistinctOutpoints(pending: seq<Utxo>) {
    forall i, j :: 0 <= i < j < |pending| ==> pending[i].txid != pending[j].txid || pending[i].index != pending[j].index
  }

  predicate Indices32(pending: seq<Utxo>) {
    forall i :: 0 <= i < |pending| ==> pending[i].index < U32
  }

  /** Each transaction's outputs carry their positions, as extract_outputs numbers them. */
  predicate Numbered(index: Index) {
    forall t <- index :: |index[t].outputs| <= U32 && forall i :: 0 <= i < |index[t].outputs| ==> index[t].outputs[i].index == i
  }

  function ExtractOutputs(outputs: seq<(nat, Scripthash)>): seq<Output> {
    seq(|outputs|, i requires 0 <= i < |outputs| => Output(i, outputs[i].0, outputs[i].1))
  }

  datatype Op =
    | StoreOp(txid: Txid, hex: string, scripthashes: seq<Scripthash>, outputs: seq<(nat, Scripthash)>)
    | MergeOp(txid: Txid, extra: seq<Scripthash>)
    | RemoveOp(txid: Txid)

  function Apply(index: Index, op: Op): Index {
    match op
    case StoreOp(txid, hex, scripthashes, outputs) => index[txid := Info(hex, scripthashes, ExtractOutputs(outputs))]
    case MergeOp(txid, extra) => MergeInto(index, txid, extra)
    case RemoveOp(txid) => index - {txid}
  }

  function ApplyAll(ops: seq<Op>): Index {
    if ops == [] then map[] else Apply(ApplyAll(ops[..|ops| - 1]), ops[|ops| - 1])
  }

  /** A transaction has at most 2^32 outputs. */
  predicate RealOps(ops: seq<Op>) {
    forall op <- ops :: op.StoreOp? ==> |op.outputs| <= U32
  }

  lemma {:induction false} AlwaysNumbered(ops: seq<Op>)
    requires RealOps(ops)
    ensures Numbered(ApplyAll(ops))
  {
    if ops != [] {
      var n := |ops| - 1;
      assert forall op <- ops[..n] :: op in ops;
      AlwaysNumbered(ops[..n]);
      assert ops[n] in ops;
    }
  }

  /** Outputs of one transaction in increasing positions. */
  predicate Increasing(us: seq<Utxo>, txid: Txid, bound: nat) {
    && (forall i :: 0 <= i < |us| ==> us[i].txid == txid && us[i].index < bound)
    && (forall i, j :: 0 <= i < j < |us| ==> us[i].index < us[j].index)
  }

  lemma {:induction false} UtxosOfIncreasing(txid: Txid, outputs: seq<Output>, sh: Scripthash)
    requires forall i :: 0 <= i < |outputs| ==> outputs[i].index == i
    ensures Increasing(UtxosOf(txid, outputs, sh), txid, |outputs|)
  {
    if outputs != [] {
      var n := |outputs| - 1;
      assert forall i :: 0 <= i < n ==> outputs[..n][i] == outputs[i];
      UtxosOfIncreasing(txid, outputs[..n], sh);
      var us := UtxosOf(txid, outputs, sh);
      var init := UtxosOf(txid, outputs[..n], sh);
      assert forall i :: 0 <= i < |init| ==> us[i] == init[i];
      assert |us| == |init| || us[|init|].index == n;
    }
  }

  lemma {:induction false} UtxosDistinct(index: Index, order: seq<Txid>, sh: Scripthash)
    requires Numbered(index) && forall t <- order :: t in index
    requires forall i, j :: 0 <= i < j < |order| ==> order[i] != order[j]
    ensures DistinctOutpoints(Utxos(index, order, sh)) && Indices32(Utxos(index, order, sh))
    ensures forall i :: 0 <= i < |Utxos(index, order, sh)| ==> Utxos(index, order, sh)[i].txid in order
  {
    if order != [] {
      var n := |order| - 1;
      assert forall t <- order[..n] :: t in order;
      assert order[n] in order && order[n] !in order[..n];
      UtxosDistinct(index, order[..n], sh);
      UtxosOfIncreasing(order[n], index[order[n]].outputs, sh);
      var us, init := Utxos(index, order, sh), Utxos(index, order[..n], sh);
      var last := UtxosOf(order[n], index[order[n]].outputs, sh);
      assert us == init + last;
      forall i | 0 <= i < |us| ensures us[i].txid in order && us[i].index < U32 {
        assert us[i] == if i < |init| then init[i] else last[i - |init|];
      }
    }
  }

  /** After any operations, in any order of the map: what is added to a server's list is new there and
      no outpoint of it repeats, and adding again changes nothing. */
  lemma InjectionIsClean(ops: seq<Op>, order: seq<Txid>, sh: Scripthash, utxos: seq<Listed>)
    requires RealOps(ops) && IsOrder(ApplyAll(ops), order)
    ensures forall t <- order :: t in ApplyAll(ops)
    ensures var pending := Utxos(ApplyAll(ops), order, sh);
            var added := Added(utxos, pending);
            && DistinctOutpoints(added)
            && (forall u <- added :: u in pending && (u.txid, u.index) !in Existing(utxos))
            && Added(utxos + Append(added), pending) == []
  {
    hide Utxos, Added, Existing, DistinctOutpoints;
    OrderHasNoRepeats(ApplyAll(ops), order);
    AlwaysNumbered(ops);
    UtxosDistinct(ApplyAll(ops), order, sh);
    AddedIsNew(utxos, Utxos(ApplyAll(ops), order, sh));
    InjectIdempotent(utxos, Utxos(ApplyAll(ops), order, sh));
  }

  /** Injection never lists an outpoint twice: what it adds is not in the server's list and not repeated. */
  lemma {:induction false} AddedIsNew(utxos: seq<Listed>, pending: seq<Utxo>)
    requires DistinctOutpoints(pending)
    ensures DistinctOutpoints(Added(utxos, pending))
    ensures forall u <- Added(utxos, pending) :: u in pending && (u.txid, u.index) !in Existing(utxos)
  {
    if pending != [] {
      AddedIsNew(utxos, pending[1..]);
      FilterElements(pending[1..], IsNew(Existing(utxos)));
      forall u <- Added(utxos, pending[1..]) ensures u.txid != pending[0].txid || u.index != pending[0].index {
        var j :| 0 <= j < |pending[1..]| && pending[1..][j] == u;
        assert pending[j + 1] == u;
      }
    }
  }

  /** Injecting again adds nothing. */
  lemma InjectIdempotent(utxos: seq<Listed>, pending: seq<Utxo>)
    requires Indices32(pending)
    ensures var once := utxos + Append(Added(utxos, pending));
            Added(once, pending) == []
  {
    var added := Added(utxos, pending);
    var once := utxos + Append(added);
    FilterElements(pending, IsNew(Existing(utxos)));
    forall k | 0 <= k < |pending| ensures !IsNew(Existing(once))(pending[k]) {
      var u := pending[k];
      if (u.txid, u.index) in Existing(utxos) {
        var l :| l in utxos && OutpointOf(l).Some? && OutpointOf(l).value == (u.txid, u.index);
        assert l in once;
      } else {
        assert u in added;
        var i :| 0 <= i < |added| && added[i] == u;
        assert Append(added)[i] in once;
        assert OutpointOf(Append(added)[i]) == Some((u.txid, u.index));
      }
    }
    FilterNone(pending, IsNew(Existing(once)));
  }

  // ----- balances

  /** A balance answer; fields may be missing. */
  datatype Balance = Balance(confirmed: Option<int>, unconfirmed: Option<int>)

  /** The 64-bit number reinterpreted as signed. */
  function AsI64(n: nat): int {
    if n < I64 then n else n - U64
  }

  /** inject_balance_unconfirmed */
  function InjectBalance(balance: Balance, extra: nat): Balance {
    if extra == 0 then balance
    else Balance(Some(balance.confirmed.GetOr(0)), Some(balance.unconfirmed.GetOr(0) + AsI64(extra)))
  }

  /** Without pending value the answer is the server's; else missing fields count as 0 and the value is added, as a signed
      64-bit number. */
  lemma BalanceGains(balance: Balance, extra: nat)
    requires extra < 0x1_0000_0000_0000_0000
    ensures extra == 0 ==> InjectBalance(balance, extra) == balance
    ensures extra > 0 ==>
              && InjectBalance(balance, extra).confirmed == Some(match balance.confirmed case Some(n) => n case None => 0)
              && InjectBalance(balance, extra).unconfirmed ==
                 Some((match balance.unconfirmed case Some(n) => n case None => 0)
                      + if extra < 0x8000_0000_0000_0000 then extra else extra - 0x1_0000_0000_0000_0000)
  {
  }

  lemma {:induction false} FilterSplitsTotal(us: seq<Utxo>, p: Utxo -> bool)
    ensures Total(Filter(us, p)) + Total(Filter(us, u => !p(u))) == Total(us)
  {
    if us != [] {
      FilterSplitsTotal(us[1..], p);
      var f := (u: Utxo) => u.value;
      assert us == [us[0]] + us[1..];
      SumByAppend([us[0]], us[1..], f);
      SumByAppend([us[0]], Filter(us[1..], p), f);
      SumByAppend([us[0]], Filter(us[1..], u => !p(u)), f);
    }
  }

  lemma {:induction false} TotalZero(us: seq<Utxo>)
    ensures Total(us) == 0 <==> forall i :: 0 <= i < |us| ==> us[i].value == 0
  {
    if us != [] {
      var n := |us| - 1;
      TotalZero(us[..n]);
      if forall i :: 0 <= i < |us| ==> us[i].value == 0 {
        assert us[n].value == 0;
        assert forall i :: 0 <= i < n ==> us[..n][i] == us[i];
      }
    }
  }

  /** No pending output of value that the server already lists. */
  ghost predicate NoneListed(utxos: seq<Listed>, pending: seq<Utxo>) {
    forall i :: 0 <= i < |pending| ==> (pending[i].txid, pending[i].index) in Existing(utxos) ==> pending[i].value == 0
  }

  /** Conservation: in any orders of the map, and where no total overflows, the satoshis added to the
      unconfirmed balance are the value of the outputs added to listunspent exactly when the server
      lists none of the pending outputs of value itself; otherwise the balance counts those twice. */
  lemma BalanceMatchesUtxos(index: Index, o: seq<Txid>, p: seq<Txid>, sh: Scripthash,
                            extra: nat, balance: Balance, utxos: seq<Listed>)
    requires IsOrder(index, o) && IsOrder(index, p)
    requires (forall t <- o :: t in index) && (forall t <- p :: t in index)
    requires Total(Utxos(index, o, sh)) < I64
    requires extra == Total(Utxos(index, o, sh)) % U64
    ensures var added := Added(utxos, Utxos(index, p, sh));
            var gained := InjectBalance(balance, extra).unconfirmed.GetOr(0) - balance.unconfirmed.GetOr(0);
            && gained >= Total(added)
            && (gained == Total(added) <==> NoneListed(utxos, Utxos(index, p, sh)))
  {
    hide Total, Utxos, IsOrder;
    OrderIrrelevant(index, o, p, sh);
    var pending := Utxos(index, p, sh);
    var isNew := IsNew(Existing(utxos));
    FilterSplitsTotal(pending, isNew);
    var known := Filter(pending, u => !isNew(u));
    TotalZero(known);
    FilterElements(pending, u => !isNew(u));
    if NoneListed(utxos, pending) {
      forall i | 0 <= i < |known| ensures known[i].value == 0 {
        assert known[i] in known;
        var k :| 0 <= k < |pending| && pending[k] == known[i];
      }
    }
    if forall i :: 0 <= i < |known| ==> known[i].value == 0 {
      forall i | 0 <= i < |pending| && (pending[i].txid, pending[i].index) in Existing(utxos) ensures pending[i].value == 0 {
        assert pending[i] in known;
      }
    }
  }

  /** A pending output of 5 satoshis that the server already lists: the balance gains 5, listunspent nothing. */
  lemma ListedOutputCountsTwice()
    ensures var index := map["t" := Info("00", ["s"], [Output(0, 5, "s")])];
            var pending := Utxos(index, ["t"], "s");
            var utxos := [Listed(Some("t"), Some(0), Some(0), Some(5))];
            var balance := Balance(Some(0), Some(0));
            && IsOrder(index, ["t"])
            && InjectBalance(balance, Total(pending) % U64).unconfirmed == Some(5) && Added(utxos, pending) == []
  {
    var index := map["t" := Info("00", ["s"], [Output(0, 5, "s")])];
    OneOutput("t", Output(0, 5, "s"));
    OneTransaction(index, "t", "s");
    var pending := Utxos(index, ["t"], "s");
    assert pending == [Utxo("t", 0, 5)];
    OneTotal(pending[0]);
    var utxos := [Listed(Some("t"), Some(0), Some(0), Some(5))];
    assert utxos[0] in utxos && ("t", 0) in Existing(utxos);
    FilterNone(pending, IsNew(Existing(utxos)));
  }

  lemma OneOutput(t: Txid, o: Output)
    ensures UtxosOf(t, [o], o.scripthash) == [Utxo(t, o.index, o.value)]
  {
    assert [o][..0] == [];
  }

  lemma OneTransaction(index: Index, t: Txid, sh: Scripthash)
    requires t in index
    ensures Utxos(index, [t], sh) == UtxosOf(t, index[t].outputs, sh)
  {
    assert [t][..0] == [];
  }

  lemma OneTotal(u: Utxo)
    ensures Total([u]) == u.value
  {
    NoTotal();
    TotalStep([], u);
    assert [] + [u] == [u];
  }
}
