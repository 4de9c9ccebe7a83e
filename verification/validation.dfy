/**
 * `validate_transaction`, `validate_block` and `validate_chain` of
 * cypher/blockchain.py. Every transaction is checked against the ledger of
 * the node's OWN chain (`own`), whichever block or chain it belongs to.
 */
module Validation {
  import opened PyBuiltins
  import opened Utils
  import opened Records
  import opened Ledger
  import opened Pow

  /**
   * How a validation call ends: True, False, or an exception (the
   * ValueError of `bytes.fromhex` on a public key that is not hex).
   */
  datatype Verdict = Pass | Fail | Error

  /** The sender proved ownership: key and signature present, signature good, key hashes to the sender. */
  predicate Authorized(p: Primitives, tx: Transaction) {
    && Truthy(tx.pubkey) && Truthy(tx.signature)
    && p.verifySignature(tx.pubkey.value, tx.signature.value, tx.sender, tx.recipient, tx.amount, tx.nonce)
    && AddressFromPubkeyHex(p, tx.pubkey.value) == Some(tx.sender)
  }

  /** The specification of `validate_transaction(tx)` on a node whose chain is `own`. */
  function TxVerdict(p: Primitives, tx: Transaction, own: seq<Block>): Verdict {
    if tx.IsCoinbase() then Pass
    else if !(Truthy(tx.pubkey) && Truthy(tx.signature)) then Fail
    else if !p.verifySignature(tx.pubkey.value, tx.signature.value, tx.sender, tx.recipient, tx.amount, tx.nonce) then Fail
    else
      match AddressFromPubkeyHex(p, tx.pubkey.value)
      case None => Error
      case Some(address) =>
        if address != tx.sender then Fail
        else
          var ledger := Replay(own);
          if tx.amount <= 0 then Fail
          else if Get(ledger.balances, tx.sender) < tx.amount then Fail
          else if tx.nonce != Get(ledger.nonces, tx.sender) then Fail
          else Pass
  }

  /** `validate_transaction(tx)`: the rule checks in order, replaying `own` for balance and nonce. */
  method ValidateTransaction(p: Primitives, tx: Transaction, own: seq<Block>) returns (v: Verdict)
    ensures v == TxVerdict(p, tx, own)
  {
    if tx.IsCoinbase() {
      return Pass;
    }
    if !(Truthy(tx.pubkey) && Truthy(tx.signature)) {
      return Fail;
    }
    if !p.verifySignature(tx.pubkey.value, tx.signature.value, tx.sender, tx.recipient, tx.amount, tx.nonce) {
      return Fail;
    }
    var address := AddressFromPubkeyHex(p, tx.pubkey.value);
    if address.None? {
      return Error;
    }
    if address.value != tx.sender {
      return Fail;
    }
    var balances, nonces := ComputeBalancesAndNonces(own);
    var balance := Get(balances, tx.sender);
    var expectedNonce := Get(nonces, tx.sender);
    if tx.amount <= 0 {
      return Fail;
    }
    if balance < tx.amount {
      return Fail;
    }
    if tx.nonce != expectedNonce {
      return Fail;
    }
    return Pass;
  }

  /**
   * Special senders always pass; any other transaction passes exactly when
   * it is authorized, moves a positive amount the sender can cover and
   * carries the sender's expected nonce; it raises exactly when the
   * signature verified but the key is not hex.
   */
  lemma TxVerdictCharacterization(p: Primitives, tx: Transaction, own: seq<Block>)
    ensures tx.IsCoinbase() ==> TxVerdict(p, tx, own) == Pass
    ensures !tx.IsCoinbase() ==>
      (TxVerdict(p, tx, own) == Pass <==>
        && Authorized(p, tx)
        && tx.amount > 0
        && Get(Replay(own).balances, tx.sender) >= tx.amount
        && tx.nonce == Get(Replay(own).nonces, tx.sender))
    ensures TxVerdict(p, tx, own) == Error <==>
      && !tx.IsCoinbase() && Truthy(tx.pubkey) && Truthy(tx.signature)
      && p.verifySignature(tx.pubkey.value, tx.signature.value, tx.sender, tx.recipient, tx.amount, tx.nonce)
      && FromHex(tx.pubkey.value).None?
  {
  }

  /**
   * A nonce already consumed on the chain is rejected: a transaction whose
   * nonce is at most that of one of its sender's replayed transactions does not pass.
   */
  lemma ReusedNonceRejected(p: Primitives, own: seq<Block>, earlier: Transaction, tx: Transaction)
    requires earlier in Flatten(own) && !earlier.IsCoinbase()
    requires tx.sender == earlier.sender && tx.nonce <= earlier.nonce
    ensures TxVerdict(p, tx, own) != Pass
  {
    ReplayNonceIsMax(own, tx.sender);
  }

  /** An ordinary transaction that passes leaves its sender's balance non-negative once applied. */
  lemma PassedTxKeepsSenderSolvent(p: Primitives, tx: Transaction, own: seq<Block>)
    requires !tx.IsCoinbase()
    ensures TxVerdict(p, tx, own) == Pass ==>
      Get(ApplyTx(Replay(own), tx).balances, tx.sender) >= Get(Replay(own).balances, tx.sender) - tx.amount >= 0
  {
    ApplyTxEffect(Replay(own), tx);
  }

  // ---------------------------------------------------------------------
  // Blocks
  // ---------------------------------------------------------------------

  /** The transaction loop of `validate_block`: the first verdict that is not Pass, else Pass. */
  function TxsVerdict(p: Primitives, txs: seq<Transaction>, own: seq<Block>): Verdict {
    if txs == [] then Pass
    else
      var v := TxVerdict(p, txs[0], own);
      if v != Pass then v else TxsVerdict(p, txs[1..], own)
  }

  /** The specification of `validate_block(block, previous_block)`. */
  function BlockVerdict(p: Primitives, b: Block, previous: Option<Block>, own: seq<Block>): Verdict {
    if previous.Some? && b.previousHash != HashBlock(p, previous.value) then Fail
    else if previous.Some? && b.index != previous.value.index + 1 then Fail
    else if !Solves(p, PowContent(b), b.difficulty, b.nonce) then Fail
    else TxsVerdict(p, b.transactions, own)
  }

  /** `validate_block(block, previous_block)` */
  method ValidateBlock(p: Primitives, b: Block, previous: Option<Block>, own: seq<Block>) returns (v: Verdict)
    ensures v == BlockVerdict(p, b, previous, own)
  {
    if previous.Some? {
      if b.previousHash != HashBlock(p, previous.value) {
        return Fail;
      }
      if b.index != previous.value.index + 1 {
        return Fail;
      }
    }
    var content := PowContent(b);
    var prefix := Repeat('0', b.difficulty);
    var h := p.sha256(CanonicalBytes(p, JObject(content["nonce" := JInt(b.nonce)])));
    if !StartsWith(h, prefix) {
      return Fail;
    }
    var txs := b.transactions;
    var i := 0;
    while i < |txs|
      invariant 0 <= i <= |txs|
      invariant TxsVerdict(p, txs, own) == TxsVerdict(p, txs[i..], own)
    {
      var r := ValidateTransaction(p, txs[i], own);
      assert txs[i..][1..] == txs[i + 1..];
      if r != Pass {
        return r;
      }
      i := i + 1;
    }
    return Pass;
  }

  /**
   * The transaction loop passes exactly when every transaction passes;
   * otherwise its verdict is that of the first transaction that does not.
   */
  lemma {:induction false} TxsVerdictFirstFailure(p: Primitives, txs: seq<Transaction>, own: seq<Block>)
    ensures TxsVerdict(p, txs, own) == Pass <==> forall i :: 0 <= i < |txs| ==> TxVerdict(p, txs[i], own) == Pass
    ensures TxsVerdict(p, txs, own) != Pass ==>
      exists i :: 0 <= i < |txs| && TxVerdict(p, txs[i], own) == TxsVerdict(p, txs, own)
        && forall k :: 0 <= k < i ==> TxVerdict(p, txs[k], own) == Pass
  {
    if txs != [] {
      TxsVerdictFirstFailure(p, txs[1..], own);
      assert forall i :: 1 <= i < |txs| ==> txs[1..][i - 1] == txs[i];
      if TxVerdict(p, txs[0], own) == Pass && TxsVerdict(p, txs, own) != Pass {
        var j :| 0 <= j < |txs[1..]| && TxVerdict(p, txs[1..][j], own) == TxsVerdict(p, txs[1..], own)
          && forall k :: 0 <= k < j ==> TxVerdict(p, txs[1..][k], own) == Pass;
        assert forall k :: 1 <= k < j + 1 ==> TxVerdict(p, txs[k], own) == Pass;
        assert TxVerdict(p, txs[j + 1], own) == TxsVerdict(p, txs, own);
      }
    }
  }

  /**
   * A block passes exactly when it links to its predecessor (hash and
   * index, checked only when one is given), its own hash meets its
   * difficulty (genesis included), and every transaction passes against `own`.
   */
  lemma BlockVerdictPassIff(p: Primitives, b: Block, previous: Option<Block>, own: seq<Block>)
    ensures BlockVerdict(p, b, previous, own) == Pass <==>
      && (previous.Some? ==> b.previousHash == HashBlock(p, previous.value) && b.index == previous.value.index + 1)
      && MeetsTarget(HashBlock(p, b), b.difficulty)
      && forall i :: 0 <= i < |b.transactions| ==> TxVerdict(p, b.transactions[i], own) == Pass
  {
    PowHashIsBlockHash(p, b);
    TxsVerdictFirstFailure(p, b.transactions, own);
  }

  // ---------------------------------------------------------------------
  // Chains
  // ---------------------------------------------------------------------

  /** The predecessor `validate_chain` passes for position i: None at position 0. */
  function PrevOf(c: seq<Block>, i: nat): Option<Block>
    requires i < |c|
  {
    if i > 0 then Some(c[i - 1]) else None
  }

  /** `validate_chain` from position i on: the first block verdict that is not Pass, else Pass. */
  function ChainVerdictFrom(p: Primitives, c: seq<Block>, i: nat, own: seq<Block>): Verdict
    decreases |c| - i
  {
    if i >= |c| then Pass
    else
      var v := BlockVerdict(p, c[i], PrevOf(c, i), own);
      if v != Pass then v else ChainVerdictFrom(p, c, i + 1, own)
  }

  /** The specification of `validate_chain(chain)`. */
  function ChainVerdict(p: Primitives, c: seq<Block>, own: seq<Block>): Verdict {
    ChainVerdictFrom(p, c, 0, own)
  }

  /** `validate_chain(chain)` */
  method ValidateChain(p: Primitives, c: seq<Block>, own: seq<Block>) returns (v: Verdict)
    ensures v == ChainVerdict(p, c, own)
  {
    var i := 0;
    while i < |c|
      invariant 0 <= i <= |c|
      invariant ChainVerdict(p, c, own) == ChainVerdictFrom(p, c, i, own)
    {
      var prev := if i > 0 then Some(c[i - 1]) else None;
      var r := ValidateBlock(p, c[i], prev, own);
      if r != Pass {
        return r;
      }
      i := i + 1;
    }
    return Pass;
  }

  lemma {:induction false} ChainVerdictFromPassIff(p: Primitives, c: seq<Block>, i: nat, own: seq<Block>)
    ensures ChainVerdictFrom(p, c, i, own) == Pass
        <==> forall k :: i <= k < |c| ==> BlockVerdict(p, c[k], PrevOf(c, k), own) == Pass
    decreases |c| - i
  {
    if i < |c| {
      ChainVerdictFromPassIff(p, c, i + 1, own);
    }
  }

  /** A chain passes exactly when every block passes against its predecessor (None for block 0). */
  lemma ChainVerdictPassIff(p: Primitives, c: seq<Block>, own: seq<Block>)
    ensures ChainVerdict(p, c, own) == Pass
        <==> forall k :: 0 <= k < |c| ==> BlockVerdict(p, c[k], PrevOf(c, k), own) == Pass
  {
    ChainVerdictFromPassIff(p, c, 0, own);
  }

  /**
   * What a passing chain guarantees: consecutive blocks are linked by hash
   * and by index, every block's hash meets its own difficulty (block 0 is
   * not exempt) and every transaction passes against `own`.
   */
  lemma ValidChainFacts(p: Primitives, c: seq<Block>, own: seq<Block>)
    requires ChainVerdict(p, c, own) == Pass
    ensures forall k :: 0 < k < |c| ==> c[k].previousHash == HashBlock(p, c[k - 1])
    ensures forall k :: 0 < k < |c| ==> c[k].index == c[k - 1].index + 1
    ensures forall k :: 0 <= k < |c| ==> MeetsTarget(HashBlock(p, c[k]), c[k].difficulty)
    ensures forall k, t :: 0 <= k < |c| && t in c[k].transactions ==> TxVerdict(p, t, own) == Pass
  {
    ChainVerdictPassIff(p, c, own);
    forall k | 0 <= k < |c|
      ensures (k > 0 ==> c[k].previousHash == HashBlock(p, c[k - 1]) && c[k].index == c[k - 1].index + 1)
      ensures MeetsTarget(HashBlock(p, c[k]), c[k].difficulty)
      ensures forall t :: t in c[k].transactions ==> TxVerdict(p, t, own) == Pass
    {
      BlockVerdictPassIff(p, c[k], PrevOf(c, k), own);
    }
  }

  /** Indices of a passing chain count up by one from the first block's. */
  lemma {:induction false} ValidChainIndices(p: Primitives, c: seq<Block>, own: seq<Block>, k: nat)
    requires ChainVerdict(p, c, own) == Pass && k < |c|
    ensures c[k].index == c[0].index + k
  {
    if k > 0 {
      ValidChainIndices(p, c, own, k - 1);
      ValidChainFacts(p, c, own);
    }
  }

  /**
   * Replacing block k of a passing chain by a block with a different hash
   * makes block k + 1's `previous_hash` check fail, so the chain no longer passes.
   */
  lemma TamperedBlockBreaksChain(p: Primitives, c: seq<Block>, own: seq<Block>, k: nat, forged: Block)
    requires ChainVerdict(p, c, own) == Pass && k + 1 < |c|
    requires HashBlock(p, forged) != HashBlock(p, c[k])
    ensures ChainVerdict(p, c[k := forged], own) != Pass
  {
    ValidChainFacts(p, c, own);
    var t := c[k := forged];
    ChainVerdictPassIff(p, t, own);
    assert BlockVerdict(p, t[k + 1], PrevOf(t, k + 1), own) == Fail;
  }

  /**
   * Block 0 gets no exemption: a chain whose first block's hash misses that
   * block's difficulty never passes. The genesis block is built with nonce 0,
   * so the node's own chain passes only if that one hash happens to meet
   * the initial difficulty.
   */
  lemma GenesisMustMeetItsDifficulty(p: Primitives, cfg: GenesisConfig, timestamp: Float64,
                                     rest: seq<Block>, own: seq<Block>)
    requires !MeetsTarget(HashBlock(p, GenesisBlock(cfg, timestamp)), cfg.initialDifficulty.GetOr(1))
    ensures ChainVerdict(p, [GenesisBlock(cfg, timestamp)] + rest, own) != Pass
  {
    var c := [GenesisBlock(cfg, timestamp)] + rest;
    if ChainVerdict(p, c, own) == Pass {
      ValidChainFacts(p, c, own);
    }
  }
}
