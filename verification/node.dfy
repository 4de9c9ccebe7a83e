/**
 * The `Blockchain` node of cypher/blockchain.py: its chain, its pool of
 * pending transactions and its set of peers, and the operations that
 * change them. Persistence (`_persist`, `_load`) and the HTTP requests of
 * `resolve_conflicts` are not part of this model.
 */
module Node {
  import opened PyBuiltins
  import opened Utils
  import opened Records
  import opened Ledger
  import opened Pow
  import opened Validation

  // ---------------------------------------------------------------------
  // Mining
  // ---------------------------------------------------------------------

  /** The highest difficulty `mine` ever sets. */
  const MAX_DIFFICULTY := 5

  /**
   * The difficulty of the block mined after `prev`: one more than `prev`'s
   * when `prev.index` is a nonzero multiple of 10, else the same, capped at 5.
   * (Python's `%` and Dafny's agree on whether 10 divides a number.)
   */
  function NextDifficulty(prev: Block): int {
    Min(MAX_DIFFICULTY, if prev.index % 10 == 0 && prev.index != 0 then prev.difficulty + 1 else prev.difficulty)
  }

  /**
   * The schedule never exceeds 5, never drops below min(5, previous), and
   * rises exactly at nonzero multiples of 10 while the previous difficulty is under 5.
   */
  lemma NextDifficultySchedule(prev: Block)
    ensures NextDifficulty(prev) <= MAX_DIFFICULTY
    ensures NextDifficulty(prev) >= Min(MAX_DIFFICULTY, prev.difficulty)
    ensures NextDifficulty(prev) <= prev.difficulty + 1
    ensures NextDifficulty(prev) > prev.difficulty
        <==> prev.index % 10 == 0 && prev.index != 0 && prev.difficulty < MAX_DIFFICULTY
  {
  }

  /** `int(self.genesis.get("block_reward", 50))` */
  function BlockReward(cfg: GenesisConfig): int {
    cfg.blockReward.GetOr(50)
  }

  /** The reward transaction `mine` puts first. */
  function CoinbaseTx(minerAddress: string, reward: int): Transaction {
    Transaction(COINBASE, minerAddress, reward, 0, None, None)
  }

  /**
   * The reward transaction passes validation against any chain, whatever
   * its amount; replaying it credits the miner by the reward, changes no
   * other balance and no nonce.
   */
  lemma RewardPassesAndCredits(p: Primitives, minerAddress: string, reward: int, own: seq<Block>, s: LedgerState)
    ensures TxVerdict(p, CoinbaseTx(minerAddress, reward), own) == Pass
    ensures ApplyTx(s, CoinbaseTx(minerAddress, reward)).nonces == s.nonces
    ensures forall a :: Get(ApplyTx(s, CoinbaseTx(minerAddress, reward)).balances, a)
                     == Get(s.balances, a) + (if a == minerAddress then reward else 0)
  {
    ApplyTxEffect(s, CoinbaseTx(minerAddress, reward));
  }

  /**
   * The block `mine` assembles on top of `prev`, before its nonce is found:
   * the `base` dict together with nonce 0.
   */
  function Candidate(p: Primitives, prev: Block, minerAddress: string, reward: int, timestamp: Float64,
                     pending: seq<Transaction>): (b: Block)
    ensures b.index == prev.index + 1 && b.previousHash == HashBlock(p, prev)
    ensures b.transactions == [CoinbaseTx(minerAddress, reward)] + pending
    ensures b.difficulty == NextDifficulty(prev) && b.timestamp == timestamp
  {
    Block(prev.index + 1, timestamp, [CoinbaseTx(minerAddress, reward)] + pending,
          HashBlock(p, prev), 0, NextDifficulty(prev))
  }

  /**
   * A candidate with a solving nonce fails its own validation exactly when
   * some pending transaction no longer passes against the chain: linkage,
   * proof of work and the coinbase always pass.
   */
  lemma {:induction false} MinedBlockVerdict(p: Primitives, prev: Block, minerAddress: string, reward: int,
                                             timestamp: Float64, pending: seq<Transaction>, own: seq<Block>, nonce: int)
    requires Solves(p, PowContent(Candidate(p, prev, minerAddress, reward, timestamp, pending)), NextDifficulty(prev), nonce)
    ensures var b := Candidate(p, prev, minerAddress, reward, timestamp, pending).(nonce := nonce);
      BlockVerdict(p, b, Some(prev), own) == TxsVerdict(p, pending, own)
  {
    var b := Candidate(p, prev, minerAddress, reward, timestamp, pending).(nonce := nonce);
    assert PowContent(b) == PowContent(Candidate(p, prev, minerAddress, reward, timestamp, pending));
    assert b.transactions[1..] == pending;
  }

  // ---------------------------------------------------------------------
  // Chain selection
  // ---------------------------------------------------------------------

  /** A peer's chain can win: it was fetched, it is longer than `best`, and it validates against `own`. */
  predicate Beats(p: Primitives, fetched: Option<seq<Block>>, best: seq<Block>, own: seq<Block>) {
    fetched.Some? && |fetched.value| > |best| && ChainVerdict(p, fetched.value, own) == Pass
  }

  /**
   * The chain `resolve_conflicts` ends up with after asking `peers` in
   * order: each fetched chain replaces the best so far when it beats it.
   */
  function SelectChain(p: Primitives, own: seq<Block>, peers: seq<string>,
                       fetch: string -> Option<seq<Block>>): seq<Block>
  {
    if peers == [] then own
    else
      var best := SelectChain(p, own, peers[..|peers| - 1], fetch);
      var fetched := fetch(peers[|peers| - 1]);
      if Beats(p, fetched, best, own) then fetched.value else best
  }

  /**
   * The selected chain is the node's own chain or a fetched chain that
   * validates and is strictly longer; it is never shorter than the node's
   * chain and no validating fetched chain is longer than it.
   */
  lemma {:induction false} SelectChainProperties(p: Primitives, own: seq<Block>, peers: seq<string>,
                                                 fetch: string -> Option<seq<Block>>)
    ensures var best := SelectChain(p, own, peers, fetch);
      && |best| >= |own|
      && (best == own || exists i :: 0 <= i < |peers| && fetch(peers[i]) == Some(best))
      && (best != own ==> |best| > |own| && ChainVerdict(p, best, own) == Pass)
      && (forall i :: 0 <= i < |peers| && fetch(peers[i]).Some? && ChainVerdict(p, fetch(peers[i]).value, own) == Pass
            ==> |fetch(peers[i]).value| <= |best|)
  {
    if peers != [] {
      var n := |peers| - 1;
      SelectChainProperties(p, own, peers[..n], fetch);
      assert forall i :: 0 <= i < n ==> peers[..n][i] == peers[i];
    }
  }

  /** The chain is replaced exactly when some peer's fetched chain validates and is longer than the node's. */
  lemma {:induction false} SelectChainChangesIff(p: Primitives, own: seq<Block>, peers: seq<string>,
                                                 fetch: string -> Option<seq<Block>>)
    ensures SelectChain(p, own, peers, fetch) != own
        <==> exists i :: 0 <= i < |peers| && Beats(p, fetch(peers[i]), own, own)
  {
    SelectChainProperties(p, own, peers, fetch);
    var best := SelectChain(p, own, peers, fetch);
    if best != own {
      var i :| 0 <= i < |peers| && fetch(peers[i]) == Some(best);
      assert Beats(p, fetch(peers[i]), own, own);
    }
  }

  /**
   * A fetched chain whose first block's hash misses that block's difficulty
   * is never adopted in place of a different chain of the node's own.
   */
  lemma UnmetGenesisNeverAdopted(p: Primitives, own: seq<Block>, peers: seq<string>,
                                 fetch: string -> Option<seq<Block>>, c: seq<Block>)
    requires |c| > 0 && !MeetsTarget(HashBlock(p, c[0]), c[0].difficulty)
    requires c != own
    ensures SelectChain(p, own, peers, fetch) != c
  {
    SelectChainProperties(p, own, peers, fetch);
    if SelectChain(p, own, peers, fetch) == c {
      ValidChainFacts(p, c, own);
    }
  }

  // ---------------------------------------------------------------------
  // The node
  // ---------------------------------------------------------------------

  class Blockchain {
    /** The library functions the node calls. */
    const prims: Primitives
    /** The parsed genesis.json the node was started with. */
    const genesis: GenesisConfig
    var chain: seq<Block>
    var currentTransactions: seq<Transaction>
    var nodes: set<string>

    /** The chain always holds at least the genesis block. */
    ghost predicate Valid()
      reads this
    {
      |chain| > 0
    }

    /** Every pending transaction still passes against the current chain. */
    ghost predicate PoolValid()
      reads this
    {
      forall t :: t in currentTransactions ==> TxVerdict(prims, t, chain) == Pass
    }

    /**
     * A node started from genesis.json: the chain is the genesis block
     * alone, and pool and peers are empty.
     */
    constructor (prims: Primitives, genesis: GenesisConfig, timestamp: Float64)
      ensures Valid() && PoolValid()
      ensures this.prims == prims && this.genesis == genesis
      ensures chain == [GenesisBlock(genesis, timestamp)]
      ensures currentTransactions == [] && nodes == {}
    {
      this.prims := prims;
      this.genesis := genesis;
      currentTransactions := [];
      nodes := {};
      var premine := PremineTransactions(genesis.premine);
      var block := Block(0, timestamp, premine, Repeat('0', 64), 0, genesis.initialDifficulty.GetOr(1));
      assert premine == GenesisBlock(genesis, timestamp).transactions;
      chain := [block];
    }

    /** `last_block` */
    function LastBlock(): (b: Block)
      reads this
      requires Valid()
      ensures b in chain && chain == chain[..|chain| - 1] + [b]
    {
      chain[|chain| - 1]
    }

    /** `new_transaction(tx)`: the transaction joins the pool exactly when it passes. */
    method NewTransaction(tx: Transaction) returns (v: Verdict)
      requires Valid()
      modifies this`currentTransactions
      ensures v == TxVerdict(prims, tx, chain)
      ensures currentTransactions == if v == Pass then old(currentTransactions) + [tx] else old(currentTransactions)
      ensures old(PoolValid()) ==> PoolValid()
    {
      v := ValidateTransaction(prims, tx, chain);
      if v == Pass {
        currentTransactions := currentTransactions + [tx];
      }
    }

    /**
     * `mine(miner_address)`: on success the new block is appended and the
     * pool emptied; None stands for the exception `mine` raises when the
     * block fails its own validation, in which case nothing changes.
     */
    method Mine(minerAddress: string, timestamp: Float64) returns (mined: Option<Block>)
      requires Valid()
      requires exists n: nat :: Solves(prims, PowContent(Candidate(prims, LastBlock(), minerAddress,
                 BlockReward(genesis), timestamp, currentTransactions)), NextDifficulty(LastBlock()), n)
      modifies this`chain, this`currentTransactions
      ensures Valid()
      ensures mined.Some? ==> chain == old(chain) + [mined.value] && currentTransactions == []
      ensures mined.None? ==> chain == old(chain) && currentTransactions == old(currentTransactions)
      ensures mined.Some? ==>
        var cand := Candidate(prims, old(LastBlock()), minerAddress, BlockReward(genesis), timestamp, old(currentTransactions));
        && mined.value == cand.(nonce := mined.value.nonce)
        && mined.value.nonce >= 0
        && Solves(prims, PowContent(cand), cand.difficulty, mined.value.nonce)
        && (forall k: nat :: k < mined.value.nonce ==> !Solves(prims, PowContent(cand), cand.difficulty, k))
        && BlockVerdict(prims, mined.value, Some(old(LastBlock())), old(chain)) == Pass
      ensures mined.None? <==> exists t :: t in old(currentTransactions) && TxVerdict(prims, t, old(chain)) != Pass
      ensures old(PoolValid()) ==> mined.Some?
    {
      var prev := LastBlock();
      var difficulty := NextDifficulty(prev);
      var reward := BlockReward(genesis);
      var cand := Candidate(prims, prev, minerAddress, reward, timestamp, currentTransactions);
      var base := PowContent(cand);
      var nonce := ProofOfWork(prims, difficulty, base);
      var block := cand.(nonce := nonce);
      var v := ValidateBlock(prims, block, Some(prev), chain);
      MinedBlockVerdict(prims, prev, minerAddress, reward, timestamp, currentTransactions, chain, nonce);
      TxsVerdictFirstFailure(prims, currentTransactions, chain);
      if v != Pass {
        return None;
      }
      chain := chain + [block];
      currentTransactions := [];
      return Some(block);
    }

    /** `register_node(address)`: the stripped address joins the peers unless it is empty. */
    method RegisterNode(address: string)
      modifies this`nodes
      ensures nodes == if Strip(address) != "" then old(nodes) + {Strip(address)} else old(nodes)
    {
      var stripped := Strip(address);
      if stripped != "" {
        nodes := nodes + {stripped};
      }
    }

    /**
     * `resolve_conflicts()`: `peers` is `list(self.nodes)` in the order it
     * is iterated, `fetch` the chain each peer answered with (None when the
     * request failed, timed out, or returned an unusable body). A fetched
     * chain whose validation raises is skipped like one that fails.
     */
    method ResolveConflicts(peers: seq<string>, fetch: string -> Option<seq<Block>>) returns (replaced: bool)
      requires Valid()
      requires forall n :: n in nodes <==> n in peers
      modifies this`chain
      ensures Valid()
      ensures chain == SelectChain(prims, old(chain), peers, fetch)
      ensures replaced <==> chain != old(chain)
      ensures |chain| >= |old(chain)|
    {
      var longest := chain;
      replaced := false;
      var i := 0;
      while i < |peers|
        invariant 0 <= i <= |peers|
        invariant chain == old(chain)
        invariant longest == SelectChain(prims, chain, peers[..i], fetch)
        invariant replaced <==> longest != chain
        invariant |longest| >= |chain|
      {
        assert peers[..i + 1][..i] == peers[..i];
        var remote := fetch(peers[i]);
        if remote.Some? && |remote.value| > |longest| {
          var v := ValidateChain(prims, remote.value, chain);
          if v == Pass {
            longest := remote.value;
            replaced := true;
          }
        }
        i := i + 1;
      }
      assert peers[..|peers|] == peers;
      if replaced {
        chain := longest;
      }
    }
  }
}
