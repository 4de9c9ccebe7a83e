/**
 * The ledger projection of cypher/blockchain.py: `compute_balances_and_nonces`
 * replays every transaction of a chain, in block order and then list order,
 * into two dicts, balances and expected next nonces.
 */
module Ledger {
  import opened PyBuiltins
  import opened Records

  /** `d.get(key, 0)` */
  function Get(m: map<string, int>, key: string): int {
    if key in m then m[key] else 0
  }

  /** The two dicts `compute_balances_and_nonces` returns. */
  datatype LedgerState = LedgerState(balances: map<string, int>, nonces: map<string, int>)

  const EmptyLedger := LedgerState(map[], map[])

  /** What `tx` adds to the balance of `a`. */
  function Credit(tx: Transaction, a: string): int {
    if tx.recipient == a then tx.amount else 0
  }

  /** What `tx` takes from the balance of `a`: only ordinary senders pay. */
  function Debit(tx: Transaction, a: string): int {
    if tx.sender == a && !IsSpecialSender(a) then tx.amount else 0
  }

  /** The body of the inner loop: one transaction applied to the two dicts. */
  function ApplyTx(s: LedgerState, tx: Transaction): LedgerState {
    var b := if tx.IsCoinbase() then s.balances
             else s.balances[tx.sender := Get(s.balances, tx.sender) - tx.amount];
    var n := if tx.IsCoinbase() then s.nonces
             else s.nonces[tx.sender := Max(Get(s.nonces, tx.sender), tx.nonce + 1)];
    LedgerState(b[tx.recipient := Get(b, tx.recipient) + tx.amount], n)
  }

  /**
   * One transaction credits its recipient and debits an ordinary sender by
   * `amount`, and raises only an ordinary sender's next nonce, to at least
   * `nonce + 1`.
   */
  lemma ApplyTxEffect(s: LedgerState, tx: Transaction)
    ensures forall a :: Get(ApplyTx(s, tx).balances, a) == Get(s.balances, a) + Credit(tx, a) - Debit(tx, a)
    ensures ApplyTx(s, tx).nonces.Keys == if tx.IsCoinbase() then s.nonces.Keys else s.nonces.Keys + {tx.sender}
    ensures forall a :: a != tx.sender || tx.IsCoinbase() ==> Get(ApplyTx(s, tx).nonces, a) == Get(s.nonces, a)
    ensures !tx.IsCoinbase() ==> Get(ApplyTx(s, tx).nonces, tx.sender) == Max(Get(s.nonces, tx.sender), tx.nonce + 1)
  {
  }

  /** Applies `txs` to `s` in list order. */
  function ReplayTxs(s: LedgerState, txs: seq<Transaction>): LedgerState {
    if txs == [] then s else ApplyTx(ReplayTxs(s, txs[..|txs| - 1]), txs[|txs| - 1])
  }

  /** All transactions of a chain, block after block. */
  function Flatten(chain: seq<Block>): seq<Transaction> {
    if chain == [] then [] else Flatten(chain[..|chain| - 1]) + chain[|chain| - 1].transactions
  }

  /** The ledger a chain projects to. */
  function Replay(chain: seq<Block>): LedgerState {
    ReplayTxs(EmptyLedger, Flatten(chain))
  }

  /** `compute_balances_and_nonces()` over the chain it is given. */
  method ComputeBalancesAndNonces(chain: seq<Block>) returns (balances: map<string, int>, nonces: map<string, int>)
    ensures LedgerState(balances, nonces) == Replay(chain)
  {
    balances, nonces := map[], map[];
    var i := 0;
    while i < |chain|
      invariant 0 <= i <= |chain|
      invariant LedgerState(balances, nonces) == ReplayTxs(EmptyLedger, Flatten(chain[..i]))
    {
      var txs := chain[i].transactions;
      ghost var before := Flatten(chain[..i]);
      var j := 0;
      assert before + txs[..0] == before;
      while j < |txs|
        invariant 0 <= j <= |txs|
        invariant LedgerState(balances, nonces) == ReplayTxs(EmptyLedger, before + txs[..j])
      {
        var tx := txs[j];
        ghost var prior := LedgerState(balances, nonces);
        if !IsSpecialSender(tx.sender) {
          balances := balances[tx.sender := Get(balances, tx.sender) - tx.amount];
          nonces := nonces[tx.sender := Max(Get(nonces, tx.sender), tx.nonce + 1)];
        }
        balances := balances[tx.recipient := Get(balances, tx.recipient) + tx.amount];
        assert LedgerState(balances, nonces) == ApplyTx(prior, tx);
        ReplayStep(before, txs, j);
        j := j + 1;
      }
      assert chain[..i + 1][..i] == chain[..i];
      assert txs[..|txs|] == txs;
      i := i + 1;
    }
    assert chain[..|chain|] == chain;
  }

  // ---------------------------------------------------------------------
  // Structure of the replay
  // ---------------------------------------------------------------------

  lemma ReplayStep(before: seq<Transaction>, txs: seq<Transaction>, j: nat)
    requires j < |txs|
    ensures ReplayTxs(EmptyLedger, before + txs[..j + 1])
         == ApplyTx(ReplayTxs(EmptyLedger, before + txs[..j]), txs[j])
  {
    var w := before + txs[..j + 1];
    assert w[..|w| - 1] == before + txs[..j];
    assert w[|w| - 1] == txs[j];
  }

  lemma ReplayTxsSnoc(s: LedgerState, xs: seq<Transaction>, x: Transaction)
    ensures ReplayTxs(s, xs + [x]) == ApplyTx(ReplayTxs(s, xs), x)
  {
    assert (xs + [x])[..|xs|] == xs;
  }

  lemma FlattenSnoc(c: seq<Block>, b: Block)
    ensures Flatten(c + [b]) == Flatten(c) + b.transactions
  {
    assert (c + [b])[..|c|] == c;
  }

  lemma {:induction false} ReplayTxsAppend(s: LedgerState, xs: seq<Transaction>, ys: seq<Transaction>)
    ensures ReplayTxs(s, xs + ys) == ReplayTxs(ReplayTxs(s, xs), ys)
  {
    if ys == [] {
      assert xs + ys == xs;
    } else {
      var n := |ys| - 1;
      assert (xs + ys)[..|xs + ys| - 1] == xs + ys[..n];
      assert (xs + ys)[|xs + ys| - 1] == ys[n];
      ReplayTxsAppend(s, xs, ys[..n]);
    }
  }

  lemma {:induction false} FlattenAppend(c1: seq<Block>, c2: seq<Block>)
    ensures Flatten(c1 + c2) == Flatten(c1) + Flatten(c2)
  {
    if c2 == [] {
      assert c1 + c2 == c1;
    } else {
      var n := |c2| - 1;
      assert (c1 + c2)[..|c1 + c2| - 1] == c1 + c2[..n];
      FlattenAppend(c1, c2[..n]);
    }
  }

  /** A transaction is replayed exactly when some block of the chain holds it. */
  lemma {:induction false} FlattenMembership(chain: seq<Block>, t: Transaction)
    ensures t in Flatten(chain) <==> exists i :: 0 <= i < |chain| && t in chain[i].transactions
  {
    if chain != [] {
      var n := |chain| - 1;
      FlattenMembership(chain[..n], t);
      assert forall i :: 0 <= i < n ==> chain[..n][i] == chain[i];
    }
  }

  // ---------------------------------------------------------------------
  // Balances
  // ---------------------------------------------------------------------

  /** Everything `txs` sends to `a`. */
  function Received(txs: seq<Transaction>, a: string): int {
    if txs == [] then 0 else Received(txs[..|txs| - 1], a) + Credit(txs[|txs| - 1], a)
  }

  /** Everything `a` spends in `txs`; zero for the special senders. */
  function Sent(txs: seq<Transaction>, a: string): int {
    if txs == [] then 0 else Sent(txs[..|txs| - 1], a) + Debit(txs[|txs| - 1], a)
  }

  lemma {:induction false} ReplayTxsNetFlow(s: LedgerState, txs: seq<Transaction>, a: string)
    ensures Get(ReplayTxs(s, txs).balances, a) == Get(s.balances, a) + Received(txs, a) - Sent(txs, a)
  {
    if txs != [] {
      ReplayTxsNetFlow(s, txs[..|txs| - 1], a);
      ApplyTxEffect(ReplayTxs(s, txs[..|txs| - 1]), txs[|txs| - 1]);
    }
  }

  /**
   * Every balance after replay is what the account received minus what it
   * sent: each transaction credits its recipient by exactly `amount` and
   * debits an ordinary sender by the same amount.
   */
  lemma ReplayBalanceIsNetFlow(chain: seq<Block>, a: string)
    ensures Get(Replay(chain).balances, a) == Received(Flatten(chain), a) - Sent(Flatten(chain), a)
  {
    ReplayTxsNetFlow(EmptyLedger, Flatten(chain), a);
  }

  lemma {:induction false} SpecialSendersSendNothing(txs: seq<Transaction>, a: string)
    requires IsSpecialSender(a)
    ensures Sent(txs, a) == 0
  {
    if txs != [] {
      SpecialSendersSendNothing(txs[..|txs| - 1], a);
    }
  }

  /** The keys of the nonce dict are exactly the ordinary senders seen. */
  lemma {:induction false} ReplayTxsNonceKeys(s: LedgerState, txs: seq<Transaction>)
    ensures ReplayTxs(s, txs).nonces.Keys
         == s.nonces.Keys + set t | t in txs && !IsSpecialSender(t.sender) :: t.sender
  {
    if txs != [] {
      var n := |txs| - 1;
      ReplayTxsNonceKeys(s, txs[..n]);
      ApplyTxEffect(ReplayTxs(s, txs[..n]), txs[n]);
      assert forall t :: t in txs <==> t in txs[..n] || t == txs[n];
    }
  }

  /**
   * COINBASE and GENESIS_FAUCET are never debited and never get a nonce
   * entry: their balance is what they received.
   */
  lemma SpecialSenderUntouched(chain: seq<Block>, a: string)
    requires IsSpecialSender(a)
    ensures a !in Replay(chain).nonces
    ensures Get(Replay(chain).balances, a) == Received(Flatten(chain), a)
  {
    ReplayBalanceIsNetFlow(chain, a);
    SpecialSendersSendNothing(Flatten(chain), a);
    ReplayTxsNonceKeys(EmptyLedger, Flatten(chain));
  }

  // ---------------------------------------------------------------------
  // Nonces
  // ---------------------------------------------------------------------

  lemma {:induction false} ReplayTxsNonceMax(txs: seq<Transaction>, a: string)
    requires !IsSpecialSender(a)
    ensures var n := Get(ReplayTxs(EmptyLedger, txs).nonces, a);
      && n >= 0
      && (forall t :: t in txs && t.sender == a ==> n >= t.nonce + 1)
      && (n == 0 || exists t :: t in txs && t.sender == a && n == t.nonce + 1)
  {
    if txs != [] {
      var k := |txs| - 1;
      ReplayTxsNonceMax(txs[..k], a);
      ApplyTxEffect(ReplayTxs(EmptyLedger, txs[..k]), txs[k]);
      assert forall t :: t in txs <==> t in txs[..k] || t == txs[k];
      var m := Get(ReplayTxs(EmptyLedger, txs[..k]).nonces, a);
      var n := Get(ReplayTxs(EmptyLedger, txs).nonces, a);
      if txs[k].sender == a && n != m {
        assert n == txs[k].nonce + 1;
      } else if n != 0 {
        assert n == m;
        var t :| t in txs[..k] && t.sender == a && m == t.nonce + 1;
        assert t in txs;
      }
    }
  }

  /**
   * An ordinary sender's next nonce is the largest `nonce + 1` over its
   * transactions in the chain (0 when there are none, and never below 0).
   */
  lemma ReplayNonceIsMax(chain: seq<Block>, a: string)
    requires !IsSpecialSender(a)
    ensures var n := Get(Replay(chain).nonces, a);
      && n >= 0
      && (forall t :: t in Flatten(chain) && t.sender == a ==> n > t.nonce)
      && (n == 0 || exists t :: t in Flatten(chain) && t.sender == a && n == t.nonce + 1)
  {
    ReplayTxsNonceMax(Flatten(chain), a);
  }

  lemma {:induction false} ReplayTxsNonceGrows(s: LedgerState, txs: seq<Transaction>, a: string)
    ensures Get(s.nonces, a) <= Get(ReplayTxs(s, txs).nonces, a)
  {
    if txs != [] {
      ReplayTxsNonceGrows(s, txs[..|txs| - 1], a);
      ApplyTxEffect(ReplayTxs(s, txs[..|txs| - 1]), txs[|txs| - 1]);
    }
  }

  /** Appending blocks never lowers any account's next nonce. */
  lemma ReplayNonceMonotone(chain: seq<Block>, more: seq<Block>, a: string)
    ensures Get(Replay(chain).nonces, a) <= Get(Replay(chain + more).nonces, a)
  {
    FlattenAppend(chain, more);
    ReplayTxsAppend(EmptyLedger, Flatten(chain), Flatten(more));
    ReplayTxsNonceGrows(Replay(chain), Flatten(more), a);
  }
}
