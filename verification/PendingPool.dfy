/** The in-memory index of retained transactions (the virtual mempool), and the parts of wallet answers
    that come from it. */
module PendingPool {
  import opened Prelude

  type Txid = string
  type Scripthash = string

  datatype Output = Output(index: nat, value: nat, scripthash: Scripthash)

  datatype Info = Info(hex: string, scripthashes: seq<Scripthash>, outputs: seq<Output>)

  type Index = map<Txid, Info>

  // ----- what the index operations mean

  /** The scripthashes after merging extra ones: each new one once, at the end. */
  function Merged(have: seq<Scripthash>, extra: seq<Scripthash>): seq<Scripthash> {
    if extra == [] then have
    else
      var sofar := Merged(have, extra[..|extra| - 1]);
      var sh := extra[|extra| - 1];
      if sh in sofar then sofar else sofar + [sh]
  }

  lemma {:induction false} MergedHas(have: seq<Scripthash>, extra: seq<Scripthash>)
    ensures have <= Merged(have, extra)
    ensures forall sh :: sh in Merged(have, extra) <==> sh in have || sh in extra
  {
    if extra != [] {
      var n := |extra| - 1;
      MergedHas(have, extra[..n]);
      assert extra == extra[..n] + [extra[n]];
    }
  }

  /** What was there, then the extra ones that were not, each once. */
  predicate OnlyNewOnce(have: seq<Scripthash>, extra: seq<Scripthash>, merged: seq<Scripthash>) {
    && have <= merged && (forall sh <- merged :: sh in have || sh in extra) && (forall sh <- extra :: sh in merged)
    && forall i, j :: 0 <= i < j < |merged| && |have| <= j ==> merged[i] != merged[j]
  }

  lemma {:induction false} MergedOnce(have: seq<Scripthash>, extra: seq<Scripthash>)
    ensures OnlyNewOnce(have, extra, Merged(have, extra))
  {
    MergedHas(have, extra);
    if extra != [] {
      MergedOnce(have, extra[..|extra| - 1]);
    }
  }

  function MergeInto(index: Index, txid: Txid, extra: seq<Scripthash>): Index {
    if txid in index then index[txid := index[txid].(scripthashes := Merged(index[txid].scripthashes, extra))]
    else index
  }

  /** An order in which a hash map may be walked: every key once. */
  ghost predicate IsOrder(index: Index, order: seq<Txid>) {
    multiset(order) == multiset(index.Keys)
  }

  predicate AllIn(index: Index, order: seq<Txid>) {
    forall t <- order :: t in index
  }

  function Touches(index: Index, sh: Scripthash): Txid -> bool {
    t => t in index && sh in index[t].scripthashes
  }

  /** The transactions of order that touch a scripthash. */
  function Touching(index: Index, order: seq<Txid>, sh: Scripthash): seq<Txid> {
    Filter(order, Touches(index, sh))
  }

  /** An output as listunspent names it. */
  datatype Utxo = Utxo(txid: Txid, index: nat, value: nat)

  function UtxosOf(txid: Txid, outputs: seq<Output>, sh: Scripthash): seq<Utxo> {
    if outputs == [] then []
    else
      var n := |outputs| - 1;
      UtxosOf(txid, outputs[..n], sh)
      + if outputs[n].scripthash == sh then [Utxo(txid, outputs[n].index, outputs[n].value)] else []
  }

  /** The pending outputs of a scripthash, transaction by transaction. */
  function Utxos(index: Index, order: seq<Txid>, sh: Scripthash): seq<Utxo>
    requires forall t <- order :: t in index
  {
    if order == [] then []
    else
      var n := |order| - 1;
      assert forall t <- order[..n] :: t in order;
      assert order[n] in order;
      Utxos(index, order[..n], sh) + UtxosOf(order[n], index[order[n]].outputs, sh)
  }

  function Total(utxos: seq<Utxo>): nat {
    SumBy(utxos, (u: Utxo) => u.value)
  }

  const U64: nat := 0x1_0000_0000_0000_0000
  const I64: int := 0x8000_0000_0000_0000

  lemma {:induction false} UtxosOfAre(txid: Txid, outputs: seq<Output>, sh: Scripthash)
    ensures forall u :: u in UtxosOf(txid, outputs, sh) <==> u.txid == txid && Output(u.index, u.value, sh) in outputs
  {
    if outputs != [] {
      var n := |outputs| - 1;
      UtxosOfAre(txid, outputs[..n], sh);
      assert outputs == outputs[..n] + [outputs[n]];
    }
  }

  lemma {:induction false} UtxosAre(index: Index, order: seq<Txid>, sh: Scripthash)
    requires forall t <- order :: t in index
    ensures forall u :: u in Utxos(index, order, sh) <==> u.txid in order && Output(u.index, u.value, sh) in index[u.txid].outputs
  {
    if order != [] {
      var n := |order| - 1;
      assert forall t <- order[..n] :: t in order;
      assert order[n] in order;
      UtxosAre(index, order[..n], sh);
      UtxosOfAre(order[n], index[order[n]].outputs, sh);
      assert order == order[..n] + [order[n]];
    }
  }

  // ----- the code

  class PendingTxs {
    var index: Index

    constructor ()
      ensures index == map[]
    {
      index := map[];
    }

    /** store_pending_tx: overwrites what was there. */
    method Store(txid: Txid, hex: string, scripthashes: seq<Scripthash>, outputs: seq<Output>)
      modifies this
      ensures index == old(index)[txid := Info(hex, scripthashes, outputs)]
    {
      index := index[txid := Info(hex, scripthashes, outputs)];
    }

    /** merge_pending_scripthashes: only into a transaction that is still there. */
    method Merge(txid: Txid, extra: seq<Scripthash>)
      modifies this
      ensures index == MergeInto(old(index), txid, extra)
      ensures if txid !in old(index) then index == old(index) else
                && txid in index && index == old(index)[txid := old(index)[txid].(scripthashes := index[txid].scripthashes)]
                && OnlyNewOnce(old(index)[txid].scripthashes, extra, index[txid].scripthashes)
    {
      if txid in index {
        MergedOnce(index[txid].scripthashes, extra);
      }
      if extra == [] || txid !in index {
        return;
      }
      var info := index[txid];
      for i := 0 to |extra|
        invariant info == index[txid].(scripthashes := Merged(index[txid].scripthashes, extra[..i]))
      {
        assert extra[..i + 1][..i] == extra[..i];
        if extra[i] !in info.scripthashes {
          info := info.(scripthashes := info.scripthashes + [extra[i]]);
        }
      }
      assert extra[..|extra|] == extra;
      index := index[txid := info];
    }

    /** remove_pending_tx: the scripthashes to notify. */
    method Remove(txid: Txid) returns (removed: seq<Scripthash>)
      modifies this
      ensures index == old(index) - {txid}
      ensures removed == if txid in old(index) then old(index)[txid].scripthashes else []
    {
      removed := if txid in index then index[txid].scripthashes else [];
      index := index - {txid};
    }

    /** get_pending_txids_for_scripthash, in some order of the map. */
    method TxidsFor(sh: Scripthash) returns (txids: seq<Txid>, ghost order: seq<Txid>)
      ensures IsOrder(index, order) && (forall t <- order :: t in index) && txids == Touching(index, order, sh)
      ensures RepeatFree(txids) && forall t :: t in txids <==> t in index && sh in index[t].scripthashes
    {
      txids, order := [], [];
      var keys := index.Keys;
      while keys != {}
        invariant keys <= index.Keys && multiset(order) == multiset(index.Keys - keys)
        invariant (forall t <- order :: t in index) && txids == Touching(index, order, sh)
        decreases keys
      {
        var t :| t in keys;
        FilterAppend(order, [t], Touches(index, sh));
        if sh in index[t].scripthashes {
          txids := txids + [t];
        }
        KeyTaken(index.Keys, keys, t);
        order := order + [t];
        keys := keys - {t};
      }
      assert index.Keys - {} == index.Keys;
      OrderHasNoRepeats(index, order);
      FilterRepeatFree(order, Touches(index, sh));
      FilterElements(order, Touches(index, sh));
    }

    /** get_pending_utxos_for_scripthash, in some order of the map. */
    method UtxosFor(sh: Scripthash) returns (utxos: seq<Utxo>, ghost order: seq<Txid>)
      ensures IsOrder(index, order) && (forall t <- order :: t in index) && utxos == Utxos(index, order, sh)
      ensures forall o :: IsOrder(index, o) && AllIn(index, o) ==> multiset(utxos) == multiset(Utxos(index, o, sh))
      ensures forall t, i, v :: Utxo(t, i, v) in utxos <==> t in index && Output(i, v, sh) in index[t].outputs
    {
      utxos, order := [], [];
      var keys := index.Keys;
      while keys != {}
        invariant keys <= index.Keys && multiset(order) == multiset(index.Keys - keys)
        invariant (forall t <- order :: t in index) && utxos == Utxos(index, order, sh)
        decreases keys
      {
        var t :| t in keys;
        utxos := AppendOutputs(utxos, t, index[t].outputs, sh);
        assert (order + [t])[..|order|] == order;
        KeyTaken(index.Keys, keys, t);
        order := order + [t];
        keys := keys - {t};
      }
      assert index.Keys - {} == index.Keys;
      UtxosInAnyOrder(index, order, sh);
    }

    /** get_pending_unconfirmed_value: a 64-bit total, the same whatever order the map is walked in. */
    method UnconfirmedValue(sh: Scripthash) returns (total: nat, ghost order: seq<Txid>)
      ensures IsOrder(index, order) && (forall t <- order :: t in index)
      ensures total == Total(Utxos(index, order, sh)) % U64
      ensures forall o :: IsOrder(index, o) && AllIn(index, o) ==> total == Total(Utxos(index, o, sh)) % U64
    {
      hide Total;
      total, order := 0, [];
      NoTotal();
      var keys := index.Keys;
      while keys != {}
        invariant keys <= index.Keys && multiset(order) == multiset(index.Keys - keys)
        invariant (forall t <- order :: t in index) && total == Total(Utxos(index, order, sh)) % U64
        decreases keys
      {
        var t :| t in keys;
        total := AddOutputs(total, t, index[t].outputs, sh, Utxos(index, order, sh));
        assert (order + [t])[..|order|] == order;
        KeyTaken(index.Keys, keys, t);
        order := order + [t];
        keys := keys - {t};
      }
      assert index.Keys - {} == index.Keys;
      forall o | IsOrder(index, o) && AllIn(index, o) ensures total == Total(Utxos(index, o, sh)) % U64 {
        OrderIrrelevant(index, order, o, sh);
      }
    }
  }

  lemma UtxosInAnyOrder(index: Index, order: seq<Txid>, sh: Scripthash)
    requires IsOrder(index, order) && forall t <- order :: t in index
    ensures forall o :: IsOrder(index, o) && AllIn(index, o) ==>
              multiset(Utxos(index, order, sh)) == multiset(Utxos(index, o, sh))
    ensures forall t, i, v :: Utxo(t, i, v) in Utxos(index, order, sh) <==> t in index && Output(i, v, sh) in index[t].outputs
  {
    hide Utxos;
    forall o | IsOrder(index, o) && AllIn(index, o) ensures multiset(Utxos(index, order, sh)) == multiset(Utxos(index, o, sh)) {
      SameUtxos(index, order, o, sh);
    }
    UtxosAre(index, order, sh);
    OrderHasNoRepeats(index, order);
  }

  /** The inner loop of the list. */
  method AppendOutputs(before: seq<Utxo>, txid: Txid, outputs: seq<Output>, sh: Scripthash) returns (utxos: seq<Utxo>)
    ensures utxos == before + UtxosOf(txid, outputs, sh)
  {
    utxos := before;
    for i := 0 to |outputs|
      invariant utxos == before + UtxosOf(txid, outputs[..i], sh)
    {
      assert outputs[..i + 1][..i] == outputs[..i];
      if outputs[i].scripthash == sh {
        utxos := utxos + [Utxo(txid, outputs[i].index, outputs[i].value)];
      }
    }
    assert outputs[..|outputs|] == outputs;
  }

  /** The inner loop of the total, behind utxos counted before. */
  method AddOutputs(start: nat, txid: Txid, outputs: seq<Output>, sh: Scripthash, ghost before: seq<Utxo>)
    returns (total: nat)
    requires start == Total(before) % U64
    ensures total == Total(before + UtxosOf(txid, outputs, sh)) % U64
  {
    hide Total;
    total := start;
    assert before + UtxosOf(txid, [], sh) == before;
    for i := 0 to |outputs|
      invariant total == Total(before + UtxosOf(txid, outputs[..i], sh)) % U64
    {
      assert outputs[..i + 1][..i] == outputs[..i];
      if outputs[i].scripthash == sh {
        ghost var u := Utxo(txid, outputs[i].index, outputs[i].value);
        TotalStep(before + UtxosOf(txid, outputs[..i], sh), u);
        assert before + UtxosOf(txid, outputs[..i], sh) + [u] == before + UtxosOf(txid, outputs[..i + 1], sh);
        total := (total + outputs[i].value) % U64;
      } else {
        assert UtxosOf(txid, outputs[..i + 1], sh) == UtxosOf(txid, outputs[..i], sh);
      }
    }
    assert outputs[..|outputs|] == outputs;
  }

  lemma NoTotal()
    ensures Total([]) == 0
  {
  }

  lemma TotalStep(utxos: seq<Utxo>, u: Utxo)
    ensures Total(utxos + [u]) == Total(utxos) + u.value
    ensures (Total(utxos) % U64 + u.value) % U64 == (Total(utxos) + u.value) % U64
  {
  }

  lemma KeyTaken(all: set<Txid>, keys: set<Txid>, t: Txid)
    requires keys <= all && t in keys
    ensures multiset(all - (keys - {t})) == multiset(all - keys) + multiset{t}
  {
  }

  // ----- the same money, whatever the order

  function ValueFor(index: Index, sh: Scripthash): Txid -> nat {
    t => if t in index then Total(UtxosOf(t, index[t].outputs, sh)) else 0
  }

  lemma {:induction false} TotalByTransaction(index: Index, order: seq<Txid>, sh: Scripthash)
    requires forall t <- order :: t in index
    ensures Total(Utxos(index, order, sh)) == SumBy(order, ValueFor(index, sh))
  {
    if order != [] {
      var n := |order| - 1;
      assert forall t <- order[..n] :: t in order;
      TotalByTransaction(index, order[..n], sh);
      SumByAppend(Utxos(index, order[..n], sh), UtxosOf(order[n], index[order[n]].outputs, sh), (u: Utxo) => u.value);
      assert order[n] in order;
    }
  }

  lemma OrderIrrelevant(index: Index, o: seq<Txid>, p: seq<Txid>, sh: Scripthash)
    requires IsOrder(index, o) && IsOrder(index, p)
    requires (forall t <- o :: t in index) && (forall t <- p :: t in index)
    ensures Total(Utxos(index, o, sh)) == Total(Utxos(index, p, sh))
  {
    TotalByTransaction(index, o, sh);
    TotalByTransaction(index, p, sh);
    SumByPermutation(o, p, ValueFor(index, sh));
  }

  /** How often a transaction's outputs to sh contain an outpoint and value. */
  function CountOf(index: Index, sh: Scripthash, u: Utxo): Txid -> nat {
    t => if t in index then multiset(UtxosOf(t, index[t].outputs, sh))[u] else 0
  }

  lemma {:induction false} CountByTransaction(index: Index, order: seq<Txid>, sh: Scripthash, u: Utxo)
    requires AllIn(index, order)
    ensures multiset(Utxos(index, order, sh))[u] == SumBy(order, CountOf(index, sh, u))
  {
    if order != [] {
      var n := |order| - 1;
      assert forall t <- order[..n] :: t in order;
      CountByTransaction(index, order[..n], sh, u);
      assert order[n] in order;
    }
  }

  /** In any two orders of the map the same outputs are listed. */
  lemma SameUtxos(index: Index, o: seq<Txid>, p: seq<Txid>, sh: Scripthash)
    requires IsOrder(index, o) && IsOrder(index, p) && AllIn(index, o) && AllIn(index, p)
    ensures multiset(Utxos(index, o, sh)) == multiset(Utxos(index, p, sh))
  {
    forall u: Utxo ensures multiset(Utxos(index, o, sh))[u] == multiset(Utxos(index, p, sh))[u] {
      CountByTransaction(index, o, sh, u);
      CountByTransaction(index, p, sh, u);
      SumByPermutation(o, p, CountOf(index, sh, u));
    }
  }

  lemma RepeatCounts(order: seq<Txid>, i: nat, j: nat)
    requires i < j < |order| && order[i] == order[j]
    ensures multiset(order)[order[i]] >= 2
  {
    var l, m, r := order[..i], order[i + 1..j], order[j + 1..];
    assert order == l + [order[i]] + m + [order[j]] + r;
  }

  lemma OrderHasNoRepeats(index: Index, order: seq<Txid>)
    requires IsOrder(index, order)
    ensures RepeatFree(order)
    ensures forall t :: t in order <==> t in index
  {
    forall i, j | 0 <= i < j < |order| ensures order[i] != order[j] {
      if order[i] == order[j] {
        RepeatCounts(order, i, j);
      }
    }
    forall t ensures t in order <==> t in index {
      assert t in order <==> t in multiset(order);
      assert t in index <==> t in multiset(index.Keys);
    }
  }
}
