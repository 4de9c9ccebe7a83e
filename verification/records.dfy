/**
 * The `Transaction` and `Block` records of cypher/blockchain.py, their
 * dict form (`asdict`), the block hash and the genesis block.
 */
module Records {
  import opened PyBuiltins
  import opened Utils

  const COINBASE := "COINBASE"
  const GENESIS_FAUCET := "GENESIS_FAUCET"

  /** A sender that issues new supply instead of spending a balance. */
  predicate IsSpecialSender(sender: string) {
    sender == COINBASE || sender == GENESIS_FAUCET
  }

  datatype Transaction = Transaction(
    sender: string,
    recipient: string,
    amount: int,
    nonce: int,
    pubkey: Option<string>,
    signature: Option<string>)
  {
    /** `is_coinbase()`: true for both kinds of supply-issuing sender. */
    predicate IsCoinbase() {
      IsSpecialSender(sender)
    }
  }

  /** `timestamp` is the float `time.time()` returned, as its bit pattern; the model never computes with it. */
  datatype Block = Block(
    index: int,
    timestamp: Float64,
    transactions: seq<Transaction>,
    previousHash: string,
    nonce: int,
    difficulty: int)

  function OptStr(o: Option<string>): Json {
    match o
    case None => JNull
    case Some(s) => JStr(s)
  }

  /** `tx.to_dict()` */
  function TxJson(tx: Transaction): (j: Json)
    ensures j.JObject? && j.fields.Keys == {"sender", "recipient", "amount", "nonce", "pubkey", "signature"}
  {
    JObject(map["sender" := JStr(tx.sender), "recipient" := JStr(tx.recipient),
                "amount" := JInt(tx.amount), "nonce" := JInt(tx.nonce),
                "pubkey" := OptStr(tx.pubkey), "signature" := OptStr(tx.signature)])
  }

  function TxsJson(txs: seq<Transaction>): (j: seq<Json>)
    ensures |j| == |txs|
  {
    seq(|txs|, i requires 0 <= i < |txs| => TxJson(txs[i]))
  }

  /**
   * The five fields the proof of work is computed over: every block field
   * except `nonce` (the `content` dict of `validate_block`, the `base` of `mine`).
   */
  function PowContent(b: Block): map<string, Json> {
    map["index" := JInt(b.index), "timestamp" := JFloat(b.timestamp),
        "transactions" := JArray(TxsJson(b.transactions)),
        "previous_hash" := JStr(b.previousHash), "difficulty" := JInt(b.difficulty)]
  }

  /** `block.to_dict()` */
  function BlockJson(b: Block): (j: Json)
    ensures j.JObject? && j.fields.Keys == PowContent(b).Keys + {"nonce"}
    ensures j.fields == PowContent(b)["nonce" := JInt(b.nonce)]
  {
    JObject(map["index" := JInt(b.index), "timestamp" := JFloat(b.timestamp),
                "transactions" := JArray(TxsJson(b.transactions)),
                "previous_hash" := JStr(b.previousHash), "nonce" := JInt(b.nonce),
                "difficulty" := JInt(b.difficulty)])
  }

  /** `hash_block(block)`: SHA-256 over the canonical encoding of all six fields. */
  function HashBlock(p: Primitives, b: Block): string {
    p.sha256(CanonicalBytes(p, BlockJson(b)))
  }

  /**
   * With an injective encoding and a collision-free digest, two blocks have
   * the same `hash_block` exactly when they are the same block.
   */
  lemma HashBlockBindsBlock(p: Primitives, b1: Block, b2: Block)
    requires InjectiveEncoding(p)
    requires forall x, y :: p.sha256(x) == p.sha256(y) ==> x == y
    ensures HashBlock(p, b1) == HashBlock(p, b2) <==> b1 == b2
  {
    if HashBlock(p, b1) == HashBlock(p, b2) {
      BlockJsonInjective(b1, b2);
    }
  }

  /** A transaction's dict form determines the transaction. */
  lemma TxJsonInjective(t1: Transaction, t2: Transaction)
    requires TxJson(t1) == TxJson(t2)
    ensures t1 == t2
  {
    var g1, g2 := TxJson(t1).fields, TxJson(t2).fields;
    assert g1["sender"] == g2["sender"] && g1["recipient"] == g2["recipient"];
    assert g1["amount"] == g2["amount"] && g1["nonce"] == g2["nonce"];
    assert g1["pubkey"] == g2["pubkey"] && g1["signature"] == g2["signature"];
  }

  /**
   * Every field of a block, the nonce included, is covered by its hash: two
   * blocks with equal dict forms are the same block.
   */
  lemma BlockJsonInjective(b1: Block, b2: Block)
    requires BlockJson(b1) == BlockJson(b2)
    ensures b1 == b2
  {
    var f1, f2 := BlockJson(b1).fields, BlockJson(b2).fields;
    assert f1["index"] == f2["index"] && f1["timestamp"] == f2["timestamp"];
    assert f1["previous_hash"] == f2["previous_hash"];
    assert f1["nonce"] == f2["nonce"] && f1["difficulty"] == f2["difficulty"];
    var t1, t2 := b1.transactions, b2.transactions;
    assert f1["transactions"] == f2["transactions"];
    assert TxsJson(t1) == TxsJson(t2);
    forall i | 0 <= i < |t1| ensures t1[i] == t2[i] {
      assert TxsJson(t1)[i] == TxJson(t1[i]) && TxsJson(t2)[i] == TxJson(t2[i]);
      TxJsonInjective(t1[i], t2[i]);
    }
  }

  // ---------------------------------------------------------------------
  // Genesis
  // ---------------------------------------------------------------------

  /** One entry of genesis.json's "premine" list; a missing key is None. */
  datatype PremineEntry = PremineEntry(
    recipient: Option<string>,
    address: Option<string>,
    amount: Option<int>)

  /** The parts of genesis.json the node reads; "premine" missing is the empty list. */
  datatype GenesisConfig = GenesisConfig(
    initialDifficulty: Option<int>,
    blockReward: Option<int>,
    premine: seq<PremineEntry>)

  /** Python truthiness of an optional string: present and non-empty. */
  predicate Truthy(o: Option<string>) {
    o.Some? && o.value != ""
  }

  /** `item.get("recipient") or item.get("address") or "GENESIS_FAUCET"` */
  function PremineRecipient(e: PremineEntry): (r: string)
    ensures r != ""
    ensures Truthy(e.recipient) ==> r == e.recipient.value
    ensures !Truthy(e.recipient) && Truthy(e.address) ==> r == e.address.value
    ensures !Truthy(e.recipient) && !Truthy(e.address) ==> r == GENESIS_FAUCET
  {
    if Truthy(e.recipient) then e.recipient.value
    else if Truthy(e.address) then e.address.value
    else GENESIS_FAUCET
  }

  /** The faucet transaction built for one premine entry. */
  function PremineTx(e: PremineEntry): Transaction {
    Transaction(GENESIS_FAUCET, PremineRecipient(e), e.amount.GetOr(0), 0, None, None)
  }

  /**
   * The premine loop of `_create_genesis_block`: one faucet transaction per
   * entry, in order.
   */
  method PremineTransactions(entries: seq<PremineEntry>) returns (txs: seq<Transaction>)
    ensures |txs| == |entries|
    ensures forall i :: 0 <= i < |txs| ==> txs[i] == PremineTx(entries[i])
    ensures forall i :: 0 <= i < |txs| ==>
      && txs[i].sender == GENESIS_FAUCET && txs[i].nonce == 0
      && txs[i].recipient == PremineRecipient(entries[i])
      && txs[i].amount == entries[i].amount.GetOr(0)
      && txs[i].pubkey.None? && txs[i].signature.None?
  {
    txs := [];
    var k := 0;
    while k < |entries|
      invariant 0 <= k <= |entries|
      invariant txs == seq(k, i requires 0 <= i < k => PremineTx(entries[i]))
    {
      txs := txs + [PremineTx(entries[k])];
      k := k + 1;
    }
  }

  /**
   * Block 0 as `_create_genesis_block` builds it: index 0, sixty-four "0"
   * characters as previous hash, nonce 0, the configured difficulty (1 when
   * absent) and the premine transactions.
   */
  function GenesisBlock(cfg: GenesisConfig, timestamp: Float64): (b: Block)
    ensures b.index == 0 && b.nonce == 0 && b.timestamp == timestamp
    ensures b.previousHash == Repeat('0', 64) && |b.previousHash| == 64
    ensures b.difficulty == cfg.initialDifficulty.GetOr(1)
    ensures |b.transactions| == |cfg.premine|
    ensures forall i :: 0 <= i < |cfg.premine| ==> b.transactions[i] == PremineTx(cfg.premine[i])
    ensures forall i :: 0 <= i < |cfg.premine| ==>
      && b.transactions[i].recipient == PremineRecipient(cfg.premine[i])
      && b.transactions[i].amount == cfg.premine[i].amount.GetOr(0)
    ensures forall t :: t in b.transactions ==> t.sender == GENESIS_FAUCET && t.nonce == 0
  {
    Block(0, timestamp, seq(|cfg.premine|, i requires 0 <= i < |cfg.premine| => PremineTx(cfg.premine[i])),
          Repeat('0', 64), 0, cfg.initialDifficulty.GetOr(1))
  }
}
