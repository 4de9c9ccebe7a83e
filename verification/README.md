# Cypher blockchain node — a Dafny model

This project models the ledger node of the Cypher blockchain: the
`Blockchain` class of `cypher/blockchain.py` and the helpers it relies on in
`cypher/utils.py`.

A node keeps three things:

- a chain of blocks that starts with a genesis block built from genesis.json;
- a pool of pending transactions;
- a set of peer addresses.

Balances and next nonces are never stored. They are recomputed by replaying
every transaction of the chain in order (`compute_balances_and_nonces`).

A transaction from an ordinary sender is accepted when all of these hold:

- it carries a public key and a signature;
- the signature verifies;
- the key hashes to the sender's address;
- the amount is positive and covered by the sender's replayed balance;
- its nonce equals the sender's replayed next nonce.

`COINBASE` and `GENESIS_FAUCET` transactions are always accepted.

A block is accepted when all of these hold:

- it links to its predecessor by hash and by index;
- the SHA-256 hex digest of its canonical JSON form starts with `difficulty` "0" characters;
- every transaction in it is accepted.

Mining takes these steps:

1. Put a coinbase reward in front of the pool.
2. Search nonces 0, 1, 2, … for the first one that solves the puzzle.
3. Check the new block, append it, and empty the pool.

Conflict resolution adopts the longest peer chain that validates.

How the model is built:

- The node is a Dafny `class` whose methods update `chain`,
  `currentTransactions` and `nodes` in place.
- The loops of the source are methods with loop invariants:
  - `Records.PremineTransactions`, the premine loop of the genesis block,
    builds one faucet transaction per entry;
  - `Pow.ProofOfWork`, the `while True` nonce search, returns the smallest
    solving nonce;
  - `Ledger.ComputeBalancesAndNonces`, two nested loops, is proved equal to
    `Replay`;
  - `Validation.ValidateBlock`, whose transaction loop stops at the first
    failure, is proved equal to `BlockVerdict`;
  - `Validation.ValidateChain` is proved equal to `ChainVerdict`;
  - `Node.Blockchain.ResolveConflicts`, the loop over the peers, is proved
    equal to `SelectChain`.
- `Validation.ValidateTransaction` has no loop. It is the sequence of
  early-return checks of `validate_transaction`, proved equal to `TxVerdict`.
- The properties are proved about those functions.
- Validation has three outcomes: `Pass`, `Fail` and `Error`. `Error` is the
  `ValueError` that `bytes.fromhex` raises inside `address_from_pubkey_hex`
  when a key is not hex.
- The library functions are fields of a `Primitives` value that every
  operation receives. These are SHA-256, `json.dumps` with sorted keys,
  `str.encode` and `verify_signature`. Most lemmas assume nothing about
  them. The exceptions say so in their `requires`:
  - `Utils.AddressIsDigestSuffix` and `Pow.NoDigestMeetsOver64` assume a
    digest of 64 lower-case hex characters (`IsHexDigest`);
  - `Utils.TxMessageBindsFields` assumes that serialising and encoding never
    map two JSON values to the same bytes (`InjectiveEncoding`);
  - `Records.HashBlockBindsBlock` assumes that as well, and that SHA-256 has
    no collisions.
- A Python float is an IEEE 754 double, so the model represents a timestamp
  by its 64-bit pattern (`Float64`). Every JSON value, and every block, is
  then a finite object, and an injective encoding into bytes can exist.
- JSON objects are maps. Sorted keys make the order in which a dict was
  built irrelevant, so the signed message of a transaction does not depend
  on the order its four keys are written in, and the proof-of-work dict
  `{**content, "nonce": n}` is provably the block's own dict form. The
  proof-of-work test of `validate_block` therefore hashes the same dict as
  `hash_block` does, and a nonce found by mining passes that test.

Some properties of the code are easy to miss:

- **Transactions are checked against the node's own chain.** Every
  transaction of a candidate block or a peer's chain is checked against the
  node's current chain. The running ledger of the block being checked is not
  used: two transactions in one block are each checked against the same
  stale snapshot. A rule that checks each transaction against the ledger as
  it grows through the block would reject the second of two spends of the
  same coins within one block. Under the code's rule the following all happen
  (`Scenarios.StaleLedgerAdmitsDoubleSpend`,
  `Scenarios.DoubleSpendReplaysToOverdraft`,
  `Scenarios.ResolveAdoptsDoubleSpend`, `Scenarios.MineDoubleSpend`):
  - two spends of the same 100 coins with the same nonce are both admitted
    to the pool;
  - the block that mines them passes `validate_block`;
  - the chain that holds them passes `validate_chain`;
  - a node with only the genesis block adopts that chain;
  - the chain replays to a balance of -100.

  Balances can go negative in other ways as well. A COINBASE or
  GENESIS_FAUCET transaction passes whatever its amount, and premine
  amounts are never checked. A block whose coinbase pays Alice -150 passes,
  and its chain replays her to -50 (`Scenarios.NegativeCoinbaseOverdraws`).

  These scenarios use `Scenarios.Permissive()`: primitives whose digest is
  always 64 "0"s and whose signature check always succeeds. They show what
  the validation rules admit, with the cryptography out of the way. With a
  real SHA-256 they need a genesis block whose hash happens to meet its
  difficulty, as the next point explains.
- **Genesis is not exempt from proof of work.** `validate_chain` passes no
  predecessor for block 0. This skips the linkage checks but not the
  proof-of-work check (`Validation.ValidChainFacts`). The genesis block is
  built with nonce 0 and is never mined, so a chain that starts with it
  passes `validate_chain` only if that one hash happens to meet the initial
  difficulty (`Validation.GenesisMustMeetItsDifficulty`). A fetched chain
  whose block 0 misses its difficulty is never adopted
  (`Node.UnmetGenesisNeverAdopted`).
- **A malformed key raises.** The key is decoded by `bytes.fromhex` after
  the signature has been verified. A key that is not hex raises an
  exception rather than failing closed (`Validation.TxVerdictCharacterization`).

## Model

| member | source | states |
|---|---|---|
| PyBuiltins.Repeat | cypher/blockchain.py:136 | `"0" * n` has max(n, 0) characters, all of them "0": a difficulty of zero or less asks for no zeros |
| PyBuiltins.StartsWith | cypher/blockchain.py:141 | `h.startswith(prefix)` holds exactly when the prefix is no longer than `h` and agrees with it character by character |
| PyBuiltins.TakeLast | cypher/utils.py:30 | `h[-40:]` is a suffix of `h` of length min(40, len(h)) |
| PyBuiltins.FromHex | cypher/utils.py:29 | a decoded key has at most half as many bytes as its hex spelling |
| PyBuiltins.FromHexToHex | cypher/utils.py:29 | `bytes.fromhex` decodes the lower-case hex spelling of any byte string back to that byte string |
| PyBuiltins.FromHexSkipsLeadingSpace | cypher/utils.py:29 | ASCII whitespace in front of a byte pair does not change what `bytes.fromhex` returns, or whether it raises |
| PyBuiltins.TrimStart | cypher/blockchain.py:266-267 | removes exactly the leading whitespace: what is left is a suffix that is empty or starts with a non-whitespace character |
| PyBuiltins.TrimEnd | cypher/blockchain.py:266-267 | removes exactly the trailing whitespace: what is left is a prefix that is empty or ends with a non-whitespace character |
| PyBuiltins.Strip | cypher/blockchain.py:266-267 | `address.strip()` is no longer than the address and neither starts nor ends with whitespace; `StripEmptyIffAllWhitespace` and `StripIdempotent` state the rest |
| PyBuiltins.StripEmptyIffAllWhitespace | cypher/blockchain.py:266 | `address.strip()` is empty exactly when every character of the address is whitespace |
| PyBuiltins.StripIdempotent | cypher/blockchain.py:267 | stripping an already stripped address changes nothing, so a registered peer address is stored in its final form |
| Utils.TxPayload | cypher/utils.py:16-21 | the signed dict has exactly the keys sender, recipient, amount and nonce, holding the four arguments; pubkey and signature are not signed |
| Utils.TxPayloadBindsFields | cypher/utils.py:15-22 | two payloads are equal exactly when all four fields are equal |
| Utils.TxMessage | cypher/utils.py:15-22 | the bytes a wallet signs: the canonical encoding of `TxPayload`; `TxMessageBindsFields` states what it commits to |
| Utils.TxMessageBindsFields | cypher/utils.py:10-22 | when `deterministic_dumps` and encoding are injective, two signed messages are the same bytes exactly when sender, recipient, amount and nonce all agree |
| Utils.AddressFromPubkeyHex | cypher/utils.py:25-30 | an address exists exactly when the key is valid hex; it is the last min(40, len) characters of the digest of the key bytes |
| Utils.AddressIsDigestSuffix | cypher/utils.py:6-7 | with a 64-character hex digest the address is exactly its last 40 characters, `h[24:]`, all lower-case hex |
| Utils.AddressDependsOnKeyBytes | cypher/utils.py:29-30 | two spellings of the same key bytes give the same address |
| Utils.AddressOfHexSpelling | cypher/utils.py:25-30 | the hex spelling of any key yields the digest's last 40 characters as its address |
| Records.Transaction.IsCoinbase | cypher/blockchain.py:30-31 | true for the senders COINBASE and GENESIS_FAUCET; such transactions pass unchecked (`TxVerdictCharacterization`), are never debited and never get a nonce (`SpecialSenderUntouched`, `ReplayTxsNonceKeys`) |
| Records.TxJson | cypher/blockchain.py:33-34 | `tx.to_dict()` is an object with exactly the six keys sender, recipient, amount, nonce, pubkey and signature; `TxJsonInjective` shows it loses nothing |
| Records.PowContent | cypher/blockchain.py:203 | the five-key content dict that proof of work hashes: index, timestamp, transactions, previous hash and difficulty, without the nonce; `BlockJson` states that the block's dict is this dict plus the nonce |
| Records.BlockJson | cypher/blockchain.py:46-47 | `block.to_dict()` is the proof-of-work content dict with the nonce added: six keys |
| Records.TxJsonInjective | cypher/blockchain.py:33-34 | a transaction's dict form determines every field of the transaction |
| Records.BlockJsonInjective | cypher/blockchain.py:131-133 | `hash_block` hashes every field of a block, nonce and each transaction included: equal dict forms mean equal blocks |
| Records.HashBlock | cypher/blockchain.py:131-133 | the digest of the canonical bytes of `BlockJson`; it is the proof-of-work hash (`PowHashIsBlockHash`) and covers every field (`BlockJsonInjective`, `HashBlockBindsBlock`) |
| Records.HashBlockBindsBlock | cypher/blockchain.py:131-133 | when encoding is injective and the digest collision-free, two blocks have the same `hash_block` exactly when they are the same block |
| Records.PremineRecipient | cypher/blockchain.py:87 | the first truthy value among "recipient" and "address", else "GENESIS_FAUCET"; never empty |
| Records.PremineTransactions | cypher/blockchain.py:82-94 | one faucet transaction per premine entry, in order, with sender GENESIS_FAUCET, nonce 0, the chosen recipient, amount defaulting to 0 and no key or signature |
| Records.GenesisBlock | cypher/blockchain.py:82-103 | block 0: index 0, nonce 0, previous hash of 64 "0"s, difficulty defaulting to 1, and transaction i is the faucet transaction of premine entry i: sender GENESIS_FAUCET, nonce 0, the chosen recipient and the amount defaulting to 0 |
| Ledger.ApplyTx | cypher/blockchain.py:152-161 | one step of the replay loop; its effect on balances and nonces is stated by `ApplyTxEffect` |
| Ledger.ApplyTxEffect | cypher/blockchain.py:151-161 | one transaction credits its recipient by amount, debits an ordinary sender by amount, and raises only an ordinary sender's next nonce, to max(old, nonce + 1) |
| Ledger.ComputeBalancesAndNonces | cypher/blockchain.py:146-163 | the two dicts the nested loop builds are exactly the replay of every transaction of the chain in order |
| Ledger.ReplayTxsAppend | cypher/blockchain.py:150-161 | replaying a concatenation is replaying the second part from the state the first part leaves |
| Ledger.FlattenAppend | cypher/blockchain.py:150-151 | the transactions of two chains joined are those of the first followed by those of the second |
| Ledger.FlattenMembership | cypher/blockchain.py:150-151 | a transaction is replayed exactly when some block of the chain holds it |
| Ledger.ReplayTxsNetFlow | cypher/blockchain.py:157-161 | after a replay every balance is its starting value plus what the account received minus what it sent |
| Ledger.ReplayBalanceIsNetFlow | cypher/blockchain.py:146-163 | a replayed balance is everything received minus everything sent, over the whole chain |
| Ledger.SpecialSendersSendNothing | cypher/blockchain.py:157-159 | COINBASE and GENESIS_FAUCET are never debited |
| Ledger.ReplayTxsNonceKeys | cypher/blockchain.py:157-159 | the nonce dict gains exactly the ordinary senders of the replayed transactions |
| Ledger.SpecialSenderUntouched | cypher/blockchain.py:157-161 | a special sender never gets a nonce entry, and its balance is what it received |
| Ledger.ReplayTxsNonceMax | cypher/blockchain.py:159 | an ordinary sender's next nonce is 0 or the largest nonce + 1 among its transactions, and exceeds every nonce it used |
| Ledger.ReplayNonceIsMax | cypher/blockchain.py:146-163 | over a whole chain, a sender's next nonce is non-negative, above every nonce it used, and is 0 or reached by one of them |
| Ledger.ReplayTxsNonceGrows | cypher/blockchain.py:159 | replaying more transactions never lowers a next nonce |
| Ledger.ReplayNonceMonotone | cypher/blockchain.py:146-163 | appending blocks never lowers any account's next nonce |
| Pow.PowHash | cypher/blockchain.py:139-140 | the digest of the content dict with a nonce added, as `proof_of_work` and `validate_block` compute it; `PowHashIsBlockHash` states that it is `hash_block` of the block with that nonce |
| Pow.MeetsTargetIffLeadingZeros | cypher/blockchain.py:136-141 | a hash meets difficulty d exactly when d <= 0 or its first d characters exist and are all "0" |
| Pow.MeetsLowerTarget | cypher/blockchain.py:204-206 | a hash that meets a difficulty meets every lower one |
| Pow.NoDigestMeetsOver64 | cypher/blockchain.py:204-206 | no 64-character digest meets a difficulty above 64 |
| Pow.PowHashIsBlockHash | cypher/blockchain.py:203-205 | the proof-of-work hash over the content dict and the nonce equals `hash_block` of the block |
| Pow.ProofOfWork | cypher/blockchain.py:135-143 | returns a nonce that solves the puzzle, and no smaller non-negative nonce does |
| Validation.ValidateTransaction | cypher/blockchain.py:166-193 | the rule checks in source order give exactly the verdict `TxVerdict` specifies |
| Validation.TxVerdictCharacterization | cypher/blockchain.py:166-193 | special senders pass; any other transaction passes exactly when it is authorized, its amount is positive and covered, and its nonce is the expected one; it raises exactly when the signature verified and the key is not hex |
| Validation.ReusedNonceRejected | cypher/blockchain.py:183-192 | a transaction reusing a nonce that its sender already used on the chain, or an earlier one, does not pass |
| Validation.PassedTxKeepsSenderSolvent | cypher/blockchain.py:183-190 | applying a passing ordinary transaction leaves its sender's balance non-negative |
| Validation.ValidateBlock | cypher/blockchain.py:195-214 | linkage, proof of work and the transaction loop give exactly the verdict `BlockVerdict` specifies |
| Validation.TxsVerdictFirstFailure | cypher/blockchain.py:210-214 | the transaction loop passes exactly when every transaction passes; otherwise its verdict is that of the first one that does not |
| Validation.BlockVerdictPassIff | cypher/blockchain.py:195-214 | a block passes exactly when it links to the given predecessor, its own hash meets its difficulty, and every transaction passes |
| Validation.ValidateChain | cypher/blockchain.py:216-221 | the loop over the chain gives exactly the verdict `ChainVerdict` specifies |
| Validation.ChainVerdictFromPassIff | cypher/blockchain.py:217-221 | the chain loop passes from position i exactly when every block from i on passes against its predecessor |
| Validation.ChainVerdictPassIff | cypher/blockchain.py:216-221 | a chain passes exactly when every block passes against its predecessor, with none for block 0 |
| Validation.ValidChainFacts | cypher/blockchain.py:216-221 | in a passing chain, consecutive blocks are linked by hash and by index, every block's hash meets its difficulty (block 0 included), and every transaction passes |
| Validation.ValidChainIndices | cypher/blockchain.py:199-200 | in a passing chain, block k has index first + k |
| Validation.GenesisMustMeetItsDifficulty | cypher/blockchain.py:202-207 | a chain that starts with a genesis block whose nonce-0 hash misses the initial difficulty never passes `validate_chain` |
| Validation.TamperedBlockBreaksChain | cypher/blockchain.py:196-198 | replacing a non-final block of a passing chain with a block of a different hash makes the chain fail |
| Node.NextDifficulty | cypher/blockchain.py:233 | the difficulty of the next block; `NextDifficultySchedule` states its bounds and when it rises |
| Node.NextDifficultySchedule | cypher/blockchain.py:233 | the next difficulty never exceeds 5 or previous + 1, never drops below min(5, previous), and rises exactly at nonzero multiples of 10 while under 5 |
| Node.BlockReward | cypher/blockchain.py:239 | the miner's reward: genesis.json's `block_reward`, or 50 when it is absent; `Node.Blockchain.Mine` pays it through the candidate's coinbase |
| Node.CoinbaseTx | cypher/blockchain.py:236-241 | the reward transaction: sender COINBASE, the miner as recipient, the reward as amount, nonce 0, no key and no signature; `RewardPassesAndCredits` states its effect |
| Node.RewardPassesAndCredits | cypher/blockchain.py:236-241 | the reward transaction passes validation against any chain whatever its amount, and replaying it credits the miner by the reward and changes no other balance and no nonce |
| Node.Candidate | cypher/blockchain.py:236-251 | the block `mine` assembles has the next index, the previous block's hash, the reward first and then the pool, and the scheduled difficulty |
| Node.MinedBlockVerdict | cypher/blockchain.py:252-256 | once its nonce solves the puzzle, the assembled block fails its own validation exactly as the pool's transaction loop does |
| Node.SelectChain | cypher/blockchain.py:271-289 | the chain `resolve_conflicts` ends with, folded over the peers in order; `SelectChainProperties`, `SelectChainChangesIff` and `UnmetGenesisNeverAdopted` state what it selects |
| Node.SelectChainProperties | cypher/blockchain.py:269-291 | the selected chain is the node's own or a fetched one that validates and is strictly longer; it is never shorter, and no validating fetched chain is longer |
| Node.SelectChainChangesIff | cypher/blockchain.py:281-290 | the chain changes exactly when some peer returned a longer chain that validates |
| Node.UnmetGenesisNeverAdopted | cypher/blockchain.py:284-289 | a fetched chain whose first block's hash misses that block's difficulty never replaces a different chain of the node's own |
| Node.Blockchain.constructor | cypher/blockchain.py:52-104 | a new node holds the genesis block alone, with an empty pool and no peers |
| Node.Blockchain.LastBlock | cypher/blockchain.py:127-129 | the last block is in the chain and ends it |
| Node.Blockchain.NewTransaction | cypher/blockchain.py:224-228 | the transaction joins the pool exactly when it passes against the chain; a pool of passing transactions stays so |
| Node.Blockchain.Mine | cypher/blockchain.py:230-261 | on success the block appended is the candidate with the smallest solving nonce, it passes its own validation, and the pool is emptied; otherwise nothing changes; it fails exactly when some pooled transaction no longer passes |
| Node.Blockchain.RegisterNode | cypher/blockchain.py:264-267 | the stripped address joins the peers exactly when it is not empty |
| Node.Blockchain.ResolveConflicts | cypher/blockchain.py:269-291 | the new chain is the longest validating chain selected from the peers in order; the result says whether it changed; the chain never gets shorter |
| Scenarios.PremineThenTransfer | cypher/blockchain.py:146-163 | a premine of 1000 to A, then a reward of 50 to M and A paying 100 to B, replays to A 900, B 100, M 50, next nonce of A 1, and no nonce for M or the special senders |
| Scenarios.StaleLedgerAdmitsDoubleSpend | cypher/blockchain.py:183-214 | a block holding the same spend of Alice's whole balance twice passes `validate_block`, and the chain it ends passes `validate_chain` |
| Scenarios.NegativeCoinbaseOverdraws | cypher/blockchain.py:168-169 | a block whose coinbase pays -150 to Alice passes, its chain passes `validate_chain`, and it replays Alice to -50 |
| Scenarios.DoubleSpendReplaysToOverdraft | cypher/blockchain.py:146-163 | that chain replays to a balance of -100 for Alice |
| Scenarios.ResolveAdoptsDoubleSpend | cypher/blockchain.py:269-291 | a node with only the genesis block adopts that chain from a peer |
| Scenarios.PoolWithTwoSpends | cypher/blockchain.py:224-228 | `new_transaction` admits the same spend twice into the pool |
| Scenarios.MineDoubleSpend | cypher/blockchain.py:230-261 | mining that pool succeeds, and the new chain replays to -100 for Alice |

## Left out

- Persistence (`_persist`, `_load`, `DATA_DIR`, `db_path`, `node_id`) is left out because it is file I/O. A node is always built from genesis.json, so its chain is never empty. This is `Valid()`, and it stands in for the `IndexError` that `last_block` would raise on an empty chain loaded from disk.
- Reading genesis.json is not modelled. Its parsed contents are the `GenesisConfig` parameter.
- Converting records with `int(...)`, `Transaction(**t)` and `Block(**b)` is not modelled. The model's records are already typed, so the exceptions these raise on malformed records are not modelled.
- Timestamps (`time.time()`) are parameters of type `Float64`, the bit pattern of the double. The model never does floating-point arithmetic with them; the value only travels into the hashed dict.
- SHA-256, `json.dumps`, UTF-8 encoding and `verify_signature` are opaque functions in `Primitives`. cypher/blockchain.py imports `verify_signature` from cypher/wallet.py, which does not define it; cypher/wallet.py is not part of this model. The facts assumed about them are listed above, each in the `requires` of the lemma that uses it.
- HTTP requests in `resolve_conflicts` are replaced by a `fetch` function. It returns None for a failed request, a timeout, a non-ok response or a body that cannot be read. The order of `list(self.nodes)` is the `peers` parameter.
- Node.Blockchain.ResolveConflicts: requires `peers` to list exactly the registered nodes, because Python's set iteration order is not modelled.
- Pow.ProofOfWork: requires that some nonce solves the puzzle. Without one the Python loop never ends.
- Node.Blockchain.Mine: requires that some nonce solves the puzzle, for the same reason. The `ValueError` raised when the block fails its own validation is the result None, with nothing changed.
- Node.Blockchain.RegisterNode: the `isinstance(address, str)` test is not modelled, because the argument is a string by type.
- The Flask API and `run_node` are not part of this model. They are transport.
- Concurrency between API requests is not modelled. The node is single-threaded here.
