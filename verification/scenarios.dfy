/**
 * Concrete runs of the model. The first replays a two-block chain; the
 * others show what checking every transaction against the node's own chain
 * (rather than against the ledger as it grows through the block) lets
 * through: two spends of the same balance with the same nonce.
 */
module Scenarios {
  import opened PyBuiltins
  import opened Utils
  import opened Records
  import opened Ledger
  import opened Pow
  import opened Validation
  import opened Node

  /**
   * Genesis premines 1000 to A; the next block carries the miner's reward
   * and A sending 100 to B with nonce 0. Replay gives A 900, B 100, M 50
   * and A's next nonce 1; the special senders get no nonce entry.
   */
  lemma PremineThenTransfer(g: Block, b1: Block, transfer: Transaction)
    requires g.transactions == [Transaction(GENESIS_FAUCET, "A", 1000, 0, None, None)]
    requires b1.transactions == [CoinbaseTx("M", 50), transfer]
    requires transfer.sender == "A" && transfer.recipient == "B" && transfer.amount == 100 && transfer.nonce == 0
    ensures var ledger := Replay([g, b1]);
      && Get(ledger.balances, "A") == 900
      && Get(ledger.balances, "B") == 100
      && Get(ledger.balances, "M") == 50
      && Get(ledger.nonces, "A") == 1
      && "M" !in ledger.nonces && GENESIS_FAUCET !in ledger.nonces && COINBASE !in ledger.nonces
  {
    var faucet := g.transactions[0];
    var reward := CoinbaseTx("M", 50);
    FlattenTwo(g, b1);
    assert [faucet] + [reward, transfer] == [faucet, reward, transfer];
    ReplayThree(faucet, reward, transfer);
    var s1 := ApplyTx(EmptyLedger, faucet);
    var s2 := ApplyTx(s1, reward);
    ApplyTxEffect(EmptyLedger, faucet);
    ApplyTxEffect(s1, reward);
    ApplyTxEffect(s2, transfer);
    assert Get(s1.balances, "A") == 1000 && s1.nonces.Keys == {};
    assert Get(s2.balances, "A") == 1000 && Get(s2.balances, "M") == 50 && s2.nonces.Keys == {};
  }

  lemma FlattenTwo(g: Block, b: Block)
    ensures Flatten([g, b]) == g.transactions + b.transactions
  {
    FlattenSnoc([], g);
    FlattenSnoc([g], b);
    assert [] + [g] == [g] && [g] + [b] == [g, b];
  }

  lemma ReplayThree(x: Transaction, y: Transaction, z: Transaction)
    ensures ReplayTxs(EmptyLedger, [x, y, z]) == ApplyTx(ApplyTx(ApplyTx(EmptyLedger, x), y), z)
  {
    ReplayTxsSnoc(EmptyLedger, [], x);
    ReplayTxsSnoc(EmptyLedger, [x], y);
    ReplayTxsSnoc(EmptyLedger, [x, y], z);
    assert [] + [x] == [x] && [x] + [y] == [x, y] && [x, y] + [z] == [x, y, z];
  }

  /** Library functions under which every hash is sixty-four "0"s and every signature verifies. */
  function Permissive(): Primitives {
    Primitives(_ => Repeat('0', 64), _ => "", _ => [], (_, _, _, _, _, _) => true)
  }

  /** The address of the key "ab" under `Permissive()`. */
  function Alice(): (a: string)
    ensures AddressFromPubkeyHex(Permissive(), "ab") == Some(a) && |a| == 40
  {
    assert FromHex("ab").Some?;
    TakeLast(Repeat('0', 64), 40)
  }

  function FaucetTx(): Transaction {
    Transaction(GENESIS_FAUCET, Alice(), 100, 0, None, None)
  }

  /** The bit pattern of the float 1.0, the second block's timestamp. */
  const ONE_SECOND: Float64 := 0x3FF0_0000_0000_0000

  function Faucet(): Block {
    Block(0, 0, [FaucetTx()], Repeat('0', 64), 0, 1)
  }

  /** Alice pays her whole balance of 100 to "bob" with nonce 0. */
  function Spend(): Transaction {
    Transaction(Alice(), "bob", 100, 0, Some("ab"), Some("sig"))
  }

  function DoubleSpend(): Block {
    Block(1, ONE_SECOND, [Spend(), Spend()], HashBlock(Permissive(), Faucet()), 0, 1)
  }

  lemma FaucetLedger()
    ensures Flatten([Faucet()]) == [FaucetTx()]
    ensures Get(Replay([Faucet()]).balances, Alice()) == 100
    ensures Get(Replay([Faucet()]).nonces, Alice()) == 0
  {
    FlattenSnoc([], Faucet());
    assert [] + [Faucet()] == [Faucet()];
    ReplayTxsSnoc(EmptyLedger, [], FaucetTx());
    ApplyTxEffect(EmptyLedger, FaucetTx());
    assert [] + [FaucetTx()] == [FaucetTx()];
  }

  lemma EveryBlockMeetsDifficultyOne(b: Block)
    ensures Solves(Permissive(), PowContent(b), 1, b.nonce)
  {
    var h := PowHash(Permissive(), PowContent(b), b.nonce);
    assert h == Repeat('0', 64);
    MeetsTargetIffLeadingZeros(h, 1);
  }

  lemma SpendPasses()
    ensures TxVerdict(Permissive(), Spend(), [Faucet()]) == Pass
  {
    FaucetLedger();
  }

  /**
   * A block spending Alice's 100 twice with the same nonce passes
   * `validate_block`, and so does the chain it ends, because both spends
   * are checked against the genesis ledger.
   */
  lemma StaleLedgerAdmitsDoubleSpend()
    ensures BlockVerdict(Permissive(), DoubleSpend(), Some(Faucet()), [Faucet()]) == Pass
    ensures ChainVerdict(Permissive(), [Faucet(), DoubleSpend()], [Faucet()]) == Pass
  {
    var p, own := Permissive(), [Faucet()];
    SpendPasses();
    EveryBlockMeetsDifficultyOne(Faucet());
    EveryBlockMeetsDifficultyOne(DoubleSpend());
    assert DoubleSpend().transactions[1..] == [Spend()];
    assert [Spend()][1..] == [];
    assert TxsVerdict(p, DoubleSpend().transactions, own) == Pass;
    assert Faucet().transactions[1..] == [];
    assert BlockVerdict(p, Faucet(), None, own) == Pass;
    ChainVerdictPassIff(p, [Faucet(), DoubleSpend()], own);
  }

  /** Replaying the double-spend chain leaves Alice at -100 with next nonce 1. */
  lemma DoubleSpendReplaysToOverdraft()
    ensures Get(Replay([Faucet(), DoubleSpend()]).balances, Alice()) == -100
    ensures Get(Replay([Faucet(), DoubleSpend()]).nonces, Alice()) == 1
  {
    FaucetLedger();
    var s1 := Replay([Faucet()]);
    FlattenSnoc([Faucet()], DoubleSpend());
    assert [Faucet()] + [DoubleSpend()] == [Faucet(), DoubleSpend()];
    assert Flatten([Faucet(), DoubleSpend()]) == [FaucetTx()] + [Spend(), Spend()];
    ReplayTxsAppend(EmptyLedger, [FaucetTx()], [Spend(), Spend()]);
    assert Replay([Faucet(), DoubleSpend()]) == ReplayTxs(s1, [Spend(), Spend()]);
    TwoSpends(s1);
  }

  /** A block whose only transaction is a COINBASE payment of -150 to Alice. */
  function Clawback(): Block {
    Block(1, ONE_SECOND, [CoinbaseTx(Alice(), -150)], HashBlock(Permissive(), Faucet()), 0, 1)
  }

  /**
   * Special-sender transactions pass whatever their amount, so a block
   * whose coinbase pays a negative amount passes, and its chain replays
   * Alice to -50. Checking each transaction against a ledger that grows
   * through the block would not reject it either.
   */
  lemma NegativeCoinbaseOverdraws()
    ensures ChainVerdict(Permissive(), [Faucet(), Clawback()], [Faucet()]) == Pass
    ensures Get(Replay([Faucet(), Clawback()]).balances, Alice()) == -50
  {
    var p, own, claw := Permissive(), [Faucet()], CoinbaseTx(Alice(), -150);
    EveryBlockMeetsDifficultyOne(Faucet());
    EveryBlockMeetsDifficultyOne(Clawback());
    assert Clawback().transactions[1..] == [];
    assert TxsVerdict(p, Clawback().transactions, own) == Pass;
    assert Faucet().transactions[1..] == [];
    assert BlockVerdict(p, Faucet(), None, own) == Pass;
    ChainVerdictPassIff(p, [Faucet(), Clawback()], own);
    FaucetLedger();
    FlattenSnoc([Faucet()], Clawback());
    assert [Faucet()] + [Clawback()] == [Faucet(), Clawback()];
    assert Flatten([Faucet(), Clawback()]) == [FaucetTx()] + [claw];
    ReplayTxsSnoc(EmptyLedger, [FaucetTx()], claw);
    ApplyTxEffect(Replay([Faucet()]), claw);
  }

  /** The same ordinary transaction replayed twice debits its sender twice and sets the nonce once. */
  lemma ReplayTwice(s: LedgerState, tx: Transaction)
    requires !tx.IsCoinbase() && tx.recipient != tx.sender
    ensures Get(ReplayTxs(s, [tx, tx]).balances, tx.sender) == Get(s.balances, tx.sender) - 2 * tx.amount
    ensures Get(ReplayTxs(s, [tx, tx]).nonces, tx.sender) == Max(Get(s.nonces, tx.sender), tx.nonce + 1)
  {
    var s2 := ApplyTx(s, tx);
    ApplyTxEffect(s, tx);
    ApplyTxEffect(s2, tx);
    ReplayTxsSnoc(s, [], tx);
    ReplayTxsSnoc(s, [tx], tx);
    assert [] + [tx] == [tx] && [tx] + [tx] == [tx, tx];
  }

  /** Two spends from a ledger where Alice holds 100 at nonce 0. */
  lemma TwoSpends(s1: LedgerState)
    requires Get(s1.balances, Alice()) == 100 && Get(s1.nonces, Alice()) == 0
    ensures Get(ReplayTxs(s1, [Spend(), Spend()]).balances, Alice()) == -100
    ensures Get(ReplayTxs(s1, [Spend(), Spend()]).nonces, Alice()) == 1
  {
    assert Alice() != "bob" && !IsSpecialSender(Alice());
    ReplayTwice(s1, Spend());
  }

  /** The chain `mine` builds from the two pooled spends replays to -100 for Alice. */
  lemma MinedChainOverdraft(b: Block)
    requires b.transactions == [CoinbaseTx("miner", 50), Spend(), Spend()]
    ensures Get(Replay([Faucet(), b]).balances, Alice()) == -100
  {
    var reward := CoinbaseTx("miner", 50);
    FaucetLedger();
    FlattenSnoc([Faucet()], b);
    assert [Faucet()] + [b] == [Faucet(), b];
    assert Flatten([Faucet(), b]) == ([FaucetTx()] + [reward]) + [Spend(), Spend()];
    ReplayTxsAppend(EmptyLedger, [FaucetTx()] + [reward], [Spend(), Spend()]);
    ReplayTxsSnoc(EmptyLedger, [FaucetTx()], reward);
    var s := ApplyTx(Replay([Faucet()]), reward);
    ApplyTxEffect(Replay([Faucet()]), reward);
    assert Alice() != "miner";
    assert Get(s.balances, Alice()) == 100 && Get(s.nonces, Alice()) == 0;
    TwoSpends(s);
  }

  /**
   * A node whose chain is the genesis block alone adopts the double-spend
   * chain from a peer: it is longer and it validates.
   */
  lemma ResolveAdoptsDoubleSpend()
    ensures SelectChain(Permissive(), [Faucet()], ["peer"], _ => Some([Faucet(), DoubleSpend()]))
         == [Faucet(), DoubleSpend()]
  {
    StaleLedgerAdmitsDoubleSpend();
    assert ["peer"][..0] == [];
  }

  /** A genesis.json premining 100 to Alice at difficulty 1 with the default reward. */
  function FaucetConfig(): GenesisConfig {
    GenesisConfig(Some(1), None, [PremineEntry(Some(Alice()), None, Some(100))])
  }

  lemma FaucetGenesis()
    ensures GenesisBlock(FaucetConfig(), 0) == Faucet()
    ensures BlockReward(FaucetConfig()) == 50
  {
    assert PremineTx(FaucetConfig().premine[0]) == FaucetTx();
    assert GenesisBlock(FaucetConfig(), 0).transactions == [FaucetTx()];
  }

  /** The block `mine` assembles from the two pooled spends; nonce 0 already solves it. */
  function PoolCandidate(): Block {
    Candidate(Permissive(), Faucet(), "miner", 50, ONE_SECOND, [Spend(), Spend()])
  }

  lemma PoolCandidateSolved()
    ensures NextDifficulty(Faucet()) == 1
    ensures Solves(Permissive(), PowContent(PoolCandidate()), 1, 0)
  {
    EveryBlockMeetsDifficultyOne(PoolCandidate());
  }

  /** A fresh node on `FaucetConfig()` that has accepted Alice's spend twice into its pool. */
  method PoolWithTwoSpends() returns (node: Blockchain)
    ensures fresh(node) && node.Valid()
    ensures node.prims == Permissive() && node.genesis == FaucetConfig()
    ensures node.chain == [Faucet()] && node.currentTransactions == [Spend(), Spend()]
  {
    FaucetGenesis();
    SpendPasses();
    node := new Blockchain(Permissive(), FaucetConfig(), 0);
    var first := node.NewTransaction(Spend());
    var second := node.NewTransaction(Spend());
  }

  /**
   * Mining that pool: `mine` succeeds, and the chain it leaves replays to a
   * balance of -100 for Alice.
   */
  method MineDoubleSpend(node: Blockchain) returns (mined: Option<Block>)
    requires node.Valid() && node.prims == Permissive() && node.genesis == FaucetConfig()
    requires node.chain == [Faucet()] && node.currentTransactions == [Spend(), Spend()]
    modifies node
    ensures mined.Some? && node.chain == [Faucet(), mined.value]
    ensures Get(Replay(node.chain).balances, Alice()) == -100
  {
    FaucetGenesis();
    PoolCandidateSolved();
    SpendPasses();
    assert node.PoolValid();
    assert Solves(node.prims, PowContent(PoolCandidate()), NextDifficulty(node.LastBlock()), 0);
    mined := node.Mine("miner", ONE_SECOND);
    MinedChainOverdraft(mined.value);
  }
}
