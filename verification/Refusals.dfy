/** The broadcast backends' answers and the error texts that decide whether a transaction is tried again. */
module Refusals {
  import opened Prelude

  datatype Answer = Accepted(txid: string) | Refused(error: string)

  predicate Contains(s: string, part: string) {
    exists i :: 0 <= i <= |s| && OccursAt(s, part, i)
  }

  predicate OccursAt(s: string, part: string, i: nat) {
    i + |part| <= |s| && s[i..i + |part|] == part
  }

  function LowerChar(c: char): char {
    if 'A' <= c <= 'Z' then (c as int + 32) as char else c
  }

  function Lower(s: string): (r: string)
    ensures |r| == |s| && forall i :: 0 <= i < |s| ==> r[i] == LowerChar(s[i])
  {
    seq(|s|, i requires 0 <= i < |s| => LowerChar(s[i]))
  }

  predicate IsRetriable(error: string) {
    var m := Lower(error);
    || Contains(m, "non-final") || Contains(m, "non final") || Contains(m, "not final")
    || Contains(m, "locktime") || Contains(m, "too-long-mempool-chain")
  }

  /** What requeue_retriable_failures puts back. */
  predicate IsRequeued(nlocktime: Option<nat>, error: Option<string>) {
    var text := error.GetOr("");
    IsRetriable(text) || (nlocktime.Some? && nlocktime.value > 0 && Contains(text, "Failed to broadcast"))
  }

  const NON_FINAL := "non-final" + ": transaction locktime not yet satisfied ("
  const VIA_INDEXER := "Failed to broadcast" + " transaction via indexer: "
  const VIA_RPC := "Failed to broadcast" + " transaction"
  const INVALID_HEX := "Invalid transaction hex"
  const NO_BACKEND := "No broadcast backend available (neither Indexer nor RPC)"

  /** The indexer client: its reply, or the error text for the message it refused with. */
  function IndexerAnswer(reply: Answer): Answer {
    match reply
    case Accepted(_) => reply
    case Refused(msg) =>
      if Contains(Lower(msg), "non-final") || Contains(Lower(msg), "non final") then Refused(NON_FINAL + msg + ")")
      else Refused(VIA_INDEXER + msg)
  }

  function RpcAnswer(reply: Answer): Answer {
    match reply
    case Accepted(_) => reply
    case Refused(_) => Refused(VIA_RPC)
  }

  /** broadcast_transaction: the indexer, then the node, then the indexer's error. */
  function BroadcastAnswer(validHex: bool, indexer: Option<Answer>, rpc: Option<Answer>): Answer {
    var first := if indexer.None? then None
                 else if !validHex then Some(Refused(INVALID_HEX))
                 else Some(IndexerAnswer(indexer.value));
    if first.Some? && first.value.Accepted? then first.value
    else if rpc.Some? then RpcAnswer(rpc.value)
    else if first.Some? then first.value
    else Refused(NO_BACKEND)
  }

  lemma StartsWith(start: string, rest: string, part: string)
    requires part <= start
    ensures Contains(start + rest, part)
  {
    assert OccursAt(start + rest, part, 0);
  }

  lemma NonFinalIsRetriable(msg: string)
    ensures IsRetriable(NON_FINAL + msg + ")")
  {
    var s := NON_FINAL + msg + ")";
    assert s[..9] == "non-final";
    forall i | 0 <= i < 9 ensures Lower(s)[i] == "non-final"[i] {
      assert s[i] == s[..9][i];
    }
    assert OccursAt(Lower(s), "non-final", 0);
  }

  predicate IsRetriableWord(word: string) {
    word == "non-final" || word == "non final" || word == "not final" || word == "locktime" || word == "too-long-mempool-chain"
  }

  /** An error with one of the five words anywhere in it, in letters of any case, is retriable. */
  lemma WordsAreRetriable(before: string, word: string, after: string, lower: string)
    requires IsRetriableWord(lower) && |word| == |lower|
    requires forall i :: 0 <= i < |word| ==>
               word[i] == lower[i] || ('A' <= word[i] <= 'Z' && lower[i] as int == word[i] as int + 32)
    ensures IsRetriable(before + word + after)
  {
    var m, at := Lower(before + word + after), |before|;
    LowerLetters(lower);
    forall i | 0 <= i < |word| ensures m[at + i] == lower[i] {
      assert (before + word + after)[at + i] == word[i];
    }
    assert m[at..at + |lower|] == lower;
    assert OccursAt(m, lower, at);
  }

  lemma LowerLetters(word: string)
    requires IsRetriableWord(word)
    ensures forall i :: 0 <= i < |word| ==> !('A' <= word[i] <= 'Z')
  {
  }

  /** Errors that fail a transaction for good. */
  lemma FinalRefusals()
    ensures !IsRetriable("bad-txns-inputs-missingorspent") && !IsRetriable("dust")
  {
    hide IsRetriable;
    SpentPairs();
    NotRetriable("bad-txns-inputs-missingorspent");
    NotRetriable("dust");
  }

  lemma SpentPairs()
    ensures var m := Lower("bad-txns-inputs-missingorspent"); NoPair(m, 'n', 'o') && NoPair(m, 'l', 'o') && NoPair(m, 'o', 'o')
  {
    assert Lower("bad-txns-inputs-missingorspent") == "bad-txns-inputs-missingorspent";
  }

  lemma NonFinalText()
    ensures NON_FINAL == "non-final: transaction locktime not yet satisfied ("
  {
  }

  lemma IndexerText()
    ensures VIA_INDEXER == "Failed to broadcast transaction via indexer: "
  {
  }

  lemma RpcText()
    ensures VIA_RPC == "Failed to broadcast transaction"
  {
  }

  /** Which answer a broadcast gives: the indexer's if it accepts, else the node's, whose refusal hides the indexer's. */
  lemma WhoAnswers(validHex: bool, indexer: Option<Answer>, rpc: Option<Answer>)
    ensures BroadcastAnswer(validHex, indexer, rpc) ==
            if validHex && indexer.Some? && indexer.value.Accepted? then indexer.value
            else match rpc
                 case Some(Accepted(txid)) => Accepted(txid)
                 case Some(Refused(_)) => Refused(VIA_RPC)
                 case None =>
                   match indexer
                   case None => Refused(NO_BACKEND)
                   case Some(reply) =>
                     if !validHex then Refused(INVALID_HEX)
                     else if Contains(Lower(reply.error), "non-final") || Contains(Lower(reply.error), "non final")
                     then Refused(NON_FINAL + reply.error + ")") else Refused(VIA_INDEXER + reply.error)
  {
    hide Contains;
  }

  /** A transaction with a lock that any backend refused, for whatever reason, is tried again: its error is
      retriable, or it is put back by the next tick. */
  lemma RefusedIsTriedAgain(nlocktime: nat, indexer: Option<Answer>, rpc: Option<Answer>)
    requires nlocktime > 0 && (indexer.Some? || rpc.Some?)
    ensures match BroadcastAnswer(true, indexer, rpc)
            case Accepted(_) => true
            case Refused(error) => IsRequeued(Some(nlocktime), Some(error))
  {
    match BroadcastAnswer(true, indexer, rpc) {
      case Accepted(_) =>
      case Refused(error) =>
        if rpc.Some? {
          StartsWith(VIA_RPC, "", "Failed to broadcast");
          assert VIA_RPC + "" == VIA_RPC;
        } else {
          var msg := indexer.value.error;
          NonFinalIsRetriable(msg);
          StartsWith(VIA_INDEXER, msg, "Failed to broadcast");
        }
    }
  }

  lemma Occurrences(s: string, part: string, k: nat)
    requires k + 1 < |part|
    ensures forall i: nat :: OccursAt(s, part, i) ==> i + k + 1 < |s| && s[i + k] == part[k] && s[i + k + 1] == part[k + 1]
  {
    forall i: nat | OccursAt(s, part, i)
      ensures i + k + 1 < |s| && s[i + k] == part[k] && s[i + k + 1] == part[k + 1]
    {
      assert s[i..i + |part|][k] == s[i + k] && s[i..i + |part|][k + 1] == s[i + k + 1];
    }
  }

  /** Two letters never stand side by side. */
  predicate NoPair(s: string, a: char, b: char) {
    forall i :: 0 <= i < |s| - 1 ==> !(s[i] == a && s[i + 1] == b)
  }

  lemma NeverOccurs(s: string, part: string, k: nat)
    requires k + 1 < |part| && NoPair(s, part[k], part[k + 1])
    ensures !Contains(s, part)
  {
    Occurrences(s, part, k);
  }

  lemma NotRetriable(error: string)
    requires var m := Lower(error); NoPair(m, 'n', 'o') && NoPair(m, 'l', 'o') && NoPair(m, 'o', 'o')
    ensures !IsRetriable(error)
  {
    hide Contains, NoPair;
    var m := Lower(error);
    NeverOccurs(m, "non-final", 0);
    NeverOccurs(m, "non final", 0);
    NeverOccurs(m, "not final", 0);
    NeverOccurs(m, "locktime", 0);
    NeverOccurs(m, "too-long-mempool-chain", 1);
  }

  const VIA_RPC_LOWER := "failed to broadcast transaction"

  lemma LowerOfRpc()
    ensures Lower(VIA_RPC) == VIA_RPC_LOWER
  {
    RpcText();
  }

  lemma PairsOfRpc()
    ensures NoPair(VIA_RPC_LOWER, 'n', 'o') && NoPair(VIA_RPC_LOWER, 'l', 'o') && NoPair(VIA_RPC_LOWER, 'o', 'o')
  {
  }

  /** The node's refusal is not retriable by its text; for a transaction with a lock it is requeued all the same. */
  lemma RpcIsRequeued(nlocktime: nat)
    requires nlocktime > 0
    ensures !IsRetriable(VIA_RPC) && IsRequeued(Some(nlocktime), Some(VIA_RPC))
  {
    hide IsRetriable;
    LowerOfRpc();
    PairsOfRpc();
    NotRetriable(VIA_RPC);
    StartsWith(VIA_RPC, "", "Failed to broadcast");
    assert VIA_RPC + "" == VIA_RPC;
  }
}
