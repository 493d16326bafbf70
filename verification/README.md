# The ledger and consensus core of a miner, in Dafny

One miner of the Nakamoto-style chain: its ledger of unspent coins, its chain and fork
choice, difficulty retargeting, transaction gossip, block submission and mining, and the way
a signature's two numbers are packed. Amounts and timestamps are 64-bit and wrap as they do
in the program.

How it is put together:

- **Ledger.** `Ledger.UTXOSet` is the mutable map from address to list of coins, edited in
  place. Its meaning is a multiset of coins, `bag`. `LedgerSpec` says what each operation takes
  out of and puts into that multiset, also when it fails halfway, and every method of the class
  is proved against it.
- **Chain.** `Chain.Blockchain` appends and truncates its block list in place, with loops for
  the ancestor search, fetching, validation and rollback. `ChainSpec` and `Fork` are the
  functions it is proved against; `ForkRuns`, `DoubleSpend`, `Replay`, `Runs`, `Ownership` and
  `Work` are about whole runs of one node, `Network` about runs of all of them together.
- **Nodes.** `Server.BlockchainServer` holds a chain, a pool and a peer manager and really calls
  its peers; `Gossip` and `Flooding` say what a submission does to all nodes at once. `Peers` is
  the blacklist protocol under interleaving.
- **Cryptography.** SHA-256 over JSON, ECDSA and address derivation are arbitrary functions
  collected in `Types.Crypto`. Where a result needs collision-free hashing, that is a hypothesis
  of the lemma (`HeaderHashesFaithful`, `StringHashesFaithful`, `TransactionHashesFaithful`,
  `Faithful`). Nothing is assumed of signatures: whether a key signs a hash and whether that
  signature verifies are part of the conditions, and `Framing.RoundTripIff` says for which pairs
  of numbers the packing of a signature lets it be read back.
- **The world.** The clock, the nonces tried and the answers of peers are parameters. A peer's
  answers are indexed by the position asked for, so asking twice may give two answers, and an
  answer may be missing.

A lemma switches automatic induction off where its own recursion is the proof or where Dafny
would try induction that is not needed, and several hide definitions they do not need.

Where the code and its documents differ, the model follows the code:

- The design document has a miner check that received blocks match the difficulty. Neither
  `AddBlock` nor `HandleFork` looks at the difficulty, and `HandleFork` does not look at heights.
  `ChainSpec.DifficultiesMatchIff` says when a chain nevertheless stays self-consistent. Nor does
  anything look at timestamps, so the difficulty due can be zero or negative
  (`Difficulty.DueIsUnmeetableIff`).
- The design document measures a window from block n-10 to n-1; the code measures from n-11 to
  n-1 and sums the difficulties of n-10 to n-1, from height 1001 on.
- "Longest chain" compares how many hashes each side can show, at most one hundred on our side
  and however many the peer sends on the other.
- `Blockchain.Verify` fails on every chain that starts with the genesis block, which never gets a
  hash.
- `RemoveBlock` removes outputs under the empty name they have inside a transaction, not the
  name they are stored under. `UndoSpec` treats both readings.
- Transaction verification never recomputes a transaction's hash
  (`DoubleSpend.ForgedHashReusesOutpoint`; `Runs.RunUniqueIff` says exactly when that matters),
  and a rejected block can burn a coin (`Replay.RepeatedInputBurnsCoin`).
- Following a fork does not touch the ledger, so a transaction can be on the chain twice
  (`Runs.ChainCanRepeat`).

## Model

| member | source | states |
|---|---|---|
| `Types.Wrap64` | internal/blockchain/transaction.go:95-119 | a 64-bit result is the exact one whenever that fits and congruent to it modulo 2^64 always |
| `Transactions.VerifyContent` | internal/blockchain/transaction.go:95-139 | the looping, early-returning check accepts exactly the well-formed contents, comparing 64-bit sums |
| `Transactions.ContentValue` | internal/blockchain/transaction.go:103-122 | accepted outputs are worth the inputs modulo 2^64: never more, and equal exactly when the inputs are below 2^64 |
| `Transactions.ContentCanDestroyValue` | internal/blockchain/transaction.go:119-122 | a concrete accepted content whose inputs, four different coins, are worth 2^64 and whose outputs are worth nothing |
| `Transactions.GetUTXO` | internal/blockchain/transaction.go:65-73 | an output exists for exactly the valid indices, and differs from the one in the transaction only in carrying its hash |
| `Transactions.Outputs` | internal/blockchain/utxo.go:92-95 | the stored outputs are GetUTXO of each index in order |
| `Transactions.NewTransaction` | internal/blockchain/transaction.go:23-63 | builds the payment and its change with wrapping sums, and returns it exactly when it is well formed |
| `Transactions.PaymentOk` | internal/blockchain/transaction.go:29-45 | from the sender's own coins a payment is well formed exactly when the amount is positive and covered, and pays each address the amount and the exact change |
| `Transactions.Sign` | internal/blockchain/transaction.go:75-88 | signs the hash of the transaction as it was; on failure clears the signature and keeps the hash |
| `LedgerSpec.TransactionAcceptance` | internal/blockchain/utxo.go:80-98 | AddTransaction succeeds exactly when the transaction verifies and its inputs are stored with their multiplicity; then it takes the inputs and adds the stamped outputs |
| `LedgerSpec.TransactionAtomicity` | internal/blockchain/utxo.go:81-90 | a failed AddTransaction is atomic exactly when the check failed; otherwise at least one coin is lost and none gained |
| `LedgerSpec.BlockAcceptance` | internal/blockchain/utxo.go:100-113 | AddBlock succeeds exactly when every transaction passes the check on the ledger before the block and each is funded in its turn by that ledger and the outputs before it; it then takes all inputs and adds all outputs |
| `LedgerSpec.FreshBlockAcceptance` | internal/blockchain/utxo.go:100-113 | on fresh hashes that is: all transactions verify and the combined inputs are contained in the ledger before the block |
| `LedgerSpec.BlockOrderIndependence` | internal/blockchain/utxo.go:100-113 | on fresh hashes, reordering a block's transactions changes neither the verdict nor the resulting ledger |
| `LedgerSpec.DistinctInputsAtomic` | internal/blockchain/utxo.go:100-113 | with pairwise distinct inputs a block is applied whole or not at all, whatever the hashes |
| `LedgerSpec.BlockAtomicity` | internal/blockchain/utxo.go:100-113 | any failed AddBlock leaves the ledger unchanged exactly when phase one rejected it; otherwise some stored coin is gone altogether |
| `UndoSpec.StampedUndoInverts` | internal/blockchain/utxo.go:115-133 | removing outputs by the name they were stored under exactly inverts a successful AddBlock, with no freshness needed |
| `UndoSpec.StampedUndoManyInverts` | internal/blockchain/utxo.go:115-133 | undoing any number of blocks in reverse restores the ledger from before them |
| `UndoSpec.UnstampedUndoFails` | internal/blockchain/utxo.go:115-133 | what RemoveBlock as written does to a verified block: it fails at the last transaction with an output, having put back only inputs of output-less transactions after it |
| `UndoSpec.UnstampedUndoIsInert` | internal/blockchain/utxo.go:115-133 | for every verified block with an output RemoveBlock errs, and changes nothing if no transaction's inputs reach 2^64 |
| `Ledger.UTXOSet.constructor` | internal/blockchain/utxo.go:17-19 | an empty ledger |
| `Ledger.UTXOSet.GetIsShare` | internal/blockchain/utxo.go:31-36 | an address's list is exactly the part of the ledger that belongs to it |
| `Ledger.UTXOSet.CheckUTXO` | internal/blockchain/utxo.go:38-45 | finds a coin exactly when it is in the ledger |
| `Ledger.UTXOSet.CheckTransaction` | internal/blockchain/utxo.go:47-58 | passes exactly the verified transactions each of whose inputs is stored |
| `Ledger.UTXOSet.AddUTXO` | internal/blockchain/utxo.go:60-62 | appends to the owner's list and adds one coin to the ledger |
| `Ledger.UTXOSet.RemoveUTXO` | internal/blockchain/utxo.go:64-78 | splices out the first occurrence, or fails and changes nothing exactly when there is none |
| `Ledger.UTXOSet.RemoveInOrder` | internal/blockchain/utxo.go:85-90 | removes the longest removable prefix of a list of coins, each at its first occurrence, and succeeds exactly when that is all of it |
| `Ledger.UTXOSet.AddInOrder` | internal/blockchain/utxo.go:92-95 | adds all coins of a list, in order |
| `Ledger.EditsByAddress` | internal/blockchain/utxo.go:60-78 | each address's list after such edits: its own coins appended in order, or spliced out at their first occurrence, and every other list as it was |
| `Ledger.UTXOSet.AddTransaction` | internal/blockchain/utxo.go:80-98 | the in-place edit has exactly the effect that the specification gives, on success and on failure, on the multiset and on the order of every list |
| `Ledger.UTXOSet.AddTransactions` | internal/blockchain/utxo.go:106-111 | applies transactions in order until one fails, keeping what was done, to the multiset and to the lists |
| `Ledger.UTXOSet.AddBlock` | internal/blockchain/utxo.go:100-113 | both phases on the real map have exactly the specified effect on multiset and lists |
| `Ledger.UTXOSet.RemoveBlock` | internal/blockchain/utxo.go:115-133 | the reverse loop has exactly the effect of the unstamped undo, on multiset and lists |
| `Ledger.UTXOSet.Balance` | internal/blockchain/utxo.go:135-141 | the wrapped sum of the address's list, which is its wrapped share of the whole ledger |
| `Ledger.UTXOSet.BalanceIsShare` | internal/blockchain/utxo.go:135-141 | an address's list is worth what the whole ledger is worth to that address |
| `Ledger.UTXOSet.GetUTXOs` | internal/blockchain/utxo.go:143-161 | fails exactly when the balance is short, and otherwise returns the selection |
| `Ledger.SelectionIsShortest` | internal/blockchain/utxo.go:143-161 | the selection is the shortest prefix of the list whose wrapped sum covers the amount, or all of it if none does |
| `Ledger.SelectionIsMinimal` | internal/blockchain/utxo.go:143-161 | on positive coins that cannot overflow, the selected prefix covers the amount, dropping its last coin does not, and no shorter prefix covers it |
| `Conservation.TransactionSupply` | internal/blockchain/utxo.go:80-98 | the supply never grows; a success keeps it exactly when the inputs are below 2^64 |
| `Conservation.BlockSupply` | internal/blockchain/utxo.go:100-113 | no block, accepted or not, creates money; below 2^64 an accepted one keeps the supply exactly |
| `Conservation.BalancesFit` | internal/blockchain/utxo.go:135-141 | below a supply of 2^63 no balance wraps |
| `Payment.PaymentAccepted` | internal/blockchain/utxo.go:80-98 | a payment built from part of the sender's coins is accepted exactly when the amount is positive and covered by them and its signature verifies |
| `Payment.PaymentSettles` | internal/blockchain/utxo.go:80-98 | an accepted payment changes every balance by exactly what was meant to move |
| `Payment.CreateTransaction` | cmd/client/main.go:212-237 | selecting, building and signing gives exactly the selected payment signed over its own hash; on a well-formed ledger it works exactly when the sender can cover a positive amount and the key can sign that hash |
| `Payment.Pay` | cmd/client/main.go:181-206 | on a well-formed ledger the whole payment goes through exactly when the sender can cover it, the key can sign it, it is sent, and that one signature verifies; it moves exactly the amount, and otherwise changes nothing |
| `Ownership.OnlyOwnerSpends` | internal/blockchain/transaction.go:124-131 | AddTransaction, accepted or failing halfway, takes only stored coins of the address derived from the key its signature verifies under |
| `Ownership.RunAuthorised` | internal/blockchain/blockchain.go:193-224 | over every run with any peers, each coin ever taken was authorised so by a transaction of an offered block that verifies |
| `Ownership.UnsignedKeepCoins` | internal/blockchain/blockchain.go:193-224 | an address whose key has signed nothing in an offered block keeps every coin through any run, so its balance does not fall |
| `Ownership.AcceptedMoves` | internal/blockchain/transaction.go:91-139 | any accepted transaction moves its first output's amount from its sender to that output's address and touches no other balance; what exceeds 2^64 is lost to the sender |
| `Hex.RoundTrip` | internal/blockchain/blockchain.go:83-90 | a difficulty printed into a header is read back as the same number |
| `Hex.Notation` | internal/blockchain/blockchain.go:60-88 | the notation by examples: base sixteen, lower case written and either read, a sign in front |
| `Blocks.CalculateContentHash` | internal/blockchain/block.go:30-52 | the loop hashes the joined hashes, exactly when every transaction is hashed and verifies |
| `Blocks.CheckBlock` | internal/blockchain/block.go:72-93 | accepts exactly the blocks whose content hash, header hash and target fit |
| `Work.VerifiedIsWorked` | internal/blockchain/block.go:62-93 | a verified block's hash is its header's and below the target in it, its content hash is that of its joined transaction hashes, and each transaction is hashed, signed and spends its sender's coins only |
| `Work.UnworkedIsRefused` | internal/blockchain/blockchain.go:193-197 | a block without that never verifies, and AddBlock changes nothing |
| `Work.RunsAreWorked` | internal/blockchain/blockchain.go:193-415 | in every state of every run, with any blocks, forks and peers, all of that holds of every block above the first |
| `Work.SubmissionsAreWorked` | internal/server/blockchainserver.go:50-102 | the same for every run of submissions |
| `Work.NetworkIsWorked` | internal/blockchain/blockchain.go:193-415 | the same for every node of a network |
| `Work.DueIsMet` | internal/blockchain/block.go:62-70 | on a self-consistent such chain each hash is below the difficulty due at its height |
| `Blocks.NewBlock` | internal/blockchain/block.go:95-115 | an unmined block with the content hash filled in, or an error exactly when there is no content hash |
| `Blocks.SameHashSameHeader` | internal/blockchain/block.go:54-60 | verified blocks share a hash exactly when they share a header, and the hash is never empty |
| `Blocks.BlockHashCommits` | internal/blockchain/block.go:36-60 | two verified blocks with one hash carry the same transaction hashes in order exactly when they have as many, of the same lengths |
| `Blocks.FixedLengthCommits` | internal/blockchain/block.go:36-60 | so always when all transaction hashes have one length |
| `Blocks.JoinIsAmbiguous` | internal/blockchain/block.go:36-60 | without those lengths: a verified block of two transactions stays verified, under the same hash, with one verified transaction whose hash is theirs joined |
| `Difficulty.TruncDiv` | internal/blockchain/blockchain.go:71-72 | division rounds toward zero for either sign |
| `Difficulty.SumReciprocals` | internal/blockchain/blockchain.go:54-69 | the loop sums the reciprocals of the window's ten difficulties, skipping zeros |
| `Difficulty.GetDifficulty` | internal/blockchain/blockchain.go:40-91 | the loop and the divisions compute the difficulty due |
| `Difficulty.EarlyDifficulty` | internal/blockchain/blockchain.go:40-44 | up to height 1000 that is 16^59 - 1 |
| `Difficulty.DifficultyIs` | internal/blockchain/blockchain.go:46-91 | above it, exactly, from the timestamps of blocks cur-11 and cur-1 and the difficulties of cur-10 to cur-1: floor(T / (20 sum 1/d)) in hexadecimal, or a division by zero |
| `Difficulty.OnScheduleIsKept` | internal/blockchain/blockchain.go:46-91 | ten blocks of one difficulty that took exactly 200 seconds are followed by the same difficulty |
| `Difficulty.RetargetDefined` | internal/blockchain/blockchain.go:74-81 | the divisions are undefined exactly when no whole second passed or the reciprocals sum to zero |
| `Difficulty.RetargetBounds` | internal/blockchain/blockchain.go:52-85 | the new target is floor(T / (20 sum 1/d)) and lies between floor(T min/200) and floor(T max/200) |
| `Difficulty.RetargetFixedPoint` | internal/blockchain/blockchain.go:34-38 | ten equally hard blocks in exactly 200 seconds leave the difficulty as it is |
| `Difficulty.RetargetMonotone` | internal/blockchain/blockchain.go:52-85 | a slower window or larger targets never make the next target smaller |
| `Difficulty.DifficultyBounds` | internal/blockchain/blockchain.go:46-91 | floor(T min/200) and floor(T max/200) bound the difficulty due, with T from those two timestamps, read back from the text |
| `Difficulty.TargetPositiveIff` | internal/blockchain/blockchain.go:71-85 | for every window that divides nothing by zero, backward clocks and negative difficulties included: exactly when the new target is positive |
| `Difficulty.TargetSign` | internal/blockchain/blockchain.go:71-85 | with positive difficulties the target is negative exactly when the clock ran backwards, and zero exactly when the window took less than 20 sum 1/d seconds |
| `Difficulty.DueIsUnmeetableIff` | internal/blockchain/blockchain.go:40-91 | no block that carries the difficulty due can verify with a hash read as a natural number exactly when the window was too short for a positive target; AddBlock itself takes blocks of any other difficulty |
| `Difficulty.DifficultyByHeaders` | internal/blockchain/blockchain.go:46-69 | the difficulty at a height depends only on the headers of the eleven blocks before it |
| `Difficulty.DifficultyIsLocal` | internal/blockchain/blockchain.go:46-69 | changing blocks outside that window never changes it |
| `ChainSpec.AddBlockKeepsSound` | internal/blockchain/blockchain.go:193-213 | AddBlock keeps a chain linked, numbered and verified, and only extends it |
| `ChainSpec.DifficultyIsStable` | internal/blockchain/blockchain.go:40-91 | appending a block changes no difficulty already due |
| `ChainSpec.DifficultiesMatchIff` | internal/blockchain/blockchain.go:193-213 | after AddBlock every block carries its due difficulty exactly when that held before and the new block carries the one due |
| `ChainSpec.GrownChainsAreConsistent` | internal/blockchain/blockchain.go:100-122 | in every state of every mining run, every block above genesis passes the height, link, difficulty and block checks |
| `ChainSpec.ChecksMean` | internal/blockchain/blockchain.go:100-122 | passing every check of Blockchain.Verify is being numbered, linked, verified and carrying each difficulty due |
| `ChainSpec.ChecksFailAtGenesis` | internal/blockchain/blockchain.go:25-30 | and never of the genesis block, which has no hash |
| `Fork.LastIndexOf` | internal/blockchain/blockchain.go:247-259 | the highest block with a hash, or none exactly when no block has it |
| `Fork.AncestorIndex` | internal/blockchain/blockchain.go:359-375 | the highest of our blocks that the list mentions, or none exactly when it mentions none |
| `Fork.MissingFrom` | internal/blockchain/blockchain.go:385-388 | the position after the last occurrence of the ancestor's hash |
| `Fork.ValidFetch` | internal/blockchain/blockchain.go:130-140 | fetched blocks that pass validation all verify and link to one another |
| `Fork.ForkResultCases` | internal/blockchain/blockchain.go:317-415 | for any peer, from the call's inputs: the chain is touched exactly by a fork that is long enough, non-empty and valid block by block; then it is the old chain up to the first block's parent followed by the fetched blocks, or empty if that parent is not on it |
| `Fork.ForkEmptiesChainIff` | internal/blockchain/blockchain.go:317-408 | exactly when a node loses its whole chain: a fork ready to replace it names a parent that is not on it |
| `Fork.ForkFailureCases` | internal/blockchain/blockchain.go:317-355 | exactly when each of the other outcomes occurs: no ancestor, own chain kept, nothing to replace, a nil block, an invalid one |
| `Fork.ForkKeepsLinks` | internal/blockchain/blockchain.go:383-415 | for any peer, the chain stays linked and verified above genesis, across the splice too |
| `Fork.SharedPrefix` | internal/blockchain/blockchain.go:359-375 | sound chains that share a hash share it at one height and agree below it |
| `Fork.AncestorOfHonest` | internal/blockchain/blockchain.go:359-388 | against an honest peer the ancestor is at one height in both chains and the missing part starts right above it |
| `Fork.FetchedFromHonest` | internal/blockchain/blockchain.go:383-396 | what an honest peer serves are verified copies of the headers it has above the ancestor |
| `Fork.ParentIsAncestor` | internal/blockchain/blockchain.go:403-405 | the rollback stops at the ancestor |
| `Fork.ForkConverges` | internal/blockchain/blockchain.go:317-357 | against an honest peer, adoption happens exactly when its window holds a common ancestor and min(100, theirs) > min(100, ours); then our hashes are the peer's and the chain is longer; otherwise it stays, and only a missing ancestor is an error |
| `Fork.SameHashesSameHeaders` | internal/blockchain/blockchain.go:398-415 | and then our headers above genesis are the peer's |
| `Fork.AdoptionCarriesDifficulties` | internal/blockchain/blockchain.go:398-415 | the adopted chain is self-consistent exactly when the peer's was |
| `ForkRuns.HonestStepGrows` | internal/blockchain/blockchain.go:301-357 | one step with an honest peer keeps the chain sound and does not shorten it |
| `ForkRuns.HonestRunsGrow` | internal/blockchain/blockchain.go:301-357 | in every run with honest peers the chain stays sound and never gets shorter |
| `ForkRuns.ShortListsCannotReplace` | internal/blockchain/blockchain.go:327-332 | a list of at most a hundred hashes cannot replace a chain of a hundred blocks, whatever is answered |
| `ForkRuns.FinalAtHundred` | internal/blockchain/blockchain.go:327-332 | from the first state with a hundred blocks every later chain extends it, in every run with such lists |
| `ForkRuns.HonestRunsAreFinal` | internal/blockchain/blockchain.go:301-357 | the same for every run with honest peers |
| `ForkRuns.HonestChangesGrow` | internal/blockchain/blockchain.go:301-357 | in such runs a chain that changed at all got longer |
| `ForkRuns.ForkCanEmptyChain` | internal/blockchain/blockchain.go:398-408 | any chain, of any length, is emptied by one verified block on an unknown parent and a list one entry longer than what the chain can show |
| `Network.FollowIff` | internal/server/outgoingtraffic.go:48-63 | inside a network of such nodes, asking peers in order for missing blocks: exactly when a node follows a chain that some node has or had, and that it then has its hashes and is longer, or else unchanged |
| `Network.NetworkStaysSound` | internal/blockchain/blockchain.go:193-357 | in every run of the network every chain stays linked, numbered and verified and never gets shorter, with no hypothesis on peers |
| `Network.NetworkFinality` | internal/blockchain/blockchain.go:301-332 | from a hundred blocks on each node's chain is only extended |
| `Network.SplitIsPermanent` | internal/blockchain/blockchain.go:301-332 | two nodes with a hundred blocks that differ at a height differ there for ever |
| `Network.FollowAgreesIff` | internal/blockchain/blockchain.go:317-415 | for chains of any length, following a peer makes a node agree with it exactly when it can show fewer hashes and the peer shows one of its blocks, or it agreed before |
| `Network.ShortSourceIff` | internal/blockchain/blockchain.go:327-375 | up to a hundred blocks that just means being shorter |
| `Network.RoundConvergesIff` | internal/blockchain/blockchain.go:317-415 | after all nodes have followed one, of whatever length, the whole network agrees exactly when each could follow or agreed before |
| `DoubleSpend.SignedAreFaithful` | internal/blockchain/transaction.go:75-88 | transactions hashed as Sign does have equal content whenever they have equal hashes |
| `DoubleSpend.AcceptedIsNew` | internal/blockchain/utxo.go:80-90 | an accepted transaction that spends anything was never accepted before under any signature |
| `DoubleSpend.NoDoubleSpend` | internal/blockchain/blockchain.go:193-213 | over every run of AddBlock, failures and half-applied blocks included: each outpoint is created and consumed at most once, the ledger is created minus consumed, and no spending transaction is in the chain twice |
| `DoubleSpend.StaysUniqueIff` | internal/blockchain/utxo.go:92-95 | a verified transaction keeps every outpoint created only once exactly when none of the outpoints it creates is taken |
| `DoubleSpend.ForgedHashReusesOutpoint` | internal/blockchain/transaction.go:90-93 | a verified transaction called after a stored coin, whatever its name, creates another stored coin's outpoint again |
| `Runs.NoLedgerDoubleSpend` | internal/blockchain/blockchain.go:193-357 | over every run of blocks and forks from any peers and any chain, under faithful fresh hashes: unique creation, single consumption, ledger = created - consumed, and AddBlock accepts no spending transaction twice |
| `Runs.ChainCanRepeat` | internal/blockchain/blockchain.go:398-415 | the chain may hold one twice all the same: with honest peers, a followed fork carries it and an accepted block carries it again |
| `Runs.StepRepeatsIff` | internal/blockchain/blockchain.go:193-415 | exactly when a step leaves the chain without repeats: the blocks it puts on top repeat none among themselves and none of the part it keeps |
| `Runs.RunUniqueIff` | internal/blockchain/blockchain.go:193-357 | without any hypothesis: over every such run outpoints are created once exactly when no accepted transaction created one taken at the time; then none is consumed twice |
| `Runs.RunBalances` | internal/blockchain/blockchain.go:193-357 | in every run at all the ledger is what was created minus what was consumed |
| `Runs.RunsKeepWellFormed` | internal/blockchain/blockchain.go:193-357 | coins stay positive and named, the supply never grows and no balance wraps, so the payment results apply in every state |
| `Runs.DueRunsStayConsistent` | internal/blockchain/blockchain.go:100-122 | with blocks of the due difficulty and honest self-consistent peers, every block above genesis passes all checks of Blockchain.Verify in every state |
| `Replay.AcceptedKeepsInStep` | internal/blockchain/blockchain.go:208-213 | an accepted block keeps the ledger equal to replaying the chain |
| `Replay.StaysInStepIff` | internal/blockchain/blockchain.go:208-213 | one AddBlock leaves ledger and chain apart exactly when the block fits, each input is stored, and some transaction is not funded in its turn |
| `Replay.FreshStaysInStepIff` | internal/blockchain/blockchain.go:208-213 | on fresh hashes that is: together the inputs exceed what is stored |
| `Replay.RepeatedInputBurnsCoin` | internal/blockchain/utxo.go:85-90 | a rejected block listing one stored coin twice removes that coin |
| `Replay.LedgerIsReplay` | internal/blockchain/blockchain.go:193-213 | over every run whose blocks list their inputs once, the in-place ledger equals folding the chain over the initial coins |
| `Replay.AddBlockSupply` | internal/blockchain/blockchain.go:193-213 | one AddBlock never raises the supply, and keeps it if it succeeds or the block lists its inputs once |
| `Replay.SupplyOverRuns` | internal/blockchain/blockchain.go:193-213 | in every state of every run from a supply below 2^63: coins positive, supply not grown, no balance wrapped; and exactly conserved when blocks list their inputs once |
| `Chain.BlockCarries` | internal/blockchain/blockchain.go:147-151 | whether a block contains a transaction hash |
| `Chain.CarriedIs` | internal/blockchain/blockchain.go:145-154 | some block carries a hash exactly when a transaction of the chain has it |
| `Chain.Blockchain.constructor` | internal/blockchain/blockchain.go:15-32 | the ledger is the initial coins and the chain a sound, self-consistent one of an empty genesis block |
| `Chain.Blockchain.GetBlockByHash` | internal/blockchain/blockchain.go:184-191 | the first block with the hash, or nothing exactly when none has it |
| `Chain.Blockchain.Verify` | internal/blockchain/blockchain.go:100-122 | true exactly when every per-block check holds; no answer exactly when the first fault is a retargeting that divides by zero |
| `Chain.Blockchain.ValidateBlocks` | internal/blockchain/blockchain.go:124-143 | the first faulty block decides, and a missing one crashes |
| `Chain.Blockchain.HasTransaction` | internal/blockchain/blockchain.go:145-154 | whether any block of the chain carries the hash |
| `Chain.Blockchain.GetTransactionDepth` | internal/blockchain/blockchain.go:156-166 | the distance from the top of the last block carrying the hash, or -1 exactly when none does |
| `Chain.Blockchain.CreateBlock` | internal/blockchain/blockchain.go:168-175 | an unmined block on top of this chain with the difficulty due |
| `Chain.Blockchain.AddBlock` | internal/blockchain/blockchain.go:193-224 | chain and ledger change exactly as specified, also on failure |
| `Chain.Blockchain.RollbackToHash` | internal/blockchain/blockchain.go:244-264 | what remains followed by the reverse of what was removed is the old chain, cut at the highest block with the hash; otherwise everything is gone |
| `Chain.Blockchain.GetLast100Hashes` | internal/blockchain/blockchain.go:301-314 | the hashes of the last hundred blocks, or of all |
| `Chain.Blockchain.FindCommonAncestor` | internal/blockchain/blockchain.go:359-375 | the table and the best-so-far loop find the highest listed block |
| `Chain.Blockchain.RequestMissingBlocks` | internal/blockchain/blockchain.go:383-396 | asking from the top and reversing yields the missing blocks in list order |
| `Chain.Blockchain.ReplaceWithFork` | internal/blockchain/blockchain.go:398-415 | rollback and append give exactly the specified chain |
| `Chain.Blockchain.HandleFork` | internal/blockchain/blockchain.go:317-357 | outcome and chain are exactly as specified, and the ledger is not touched |
| `Pool.TransactionPool.constructor` | internal/blockchain/transactionpool.go:9-11 | an empty pool |
| `Pool.TransactionPool.AddTransaction` | internal/blockchain/transactionpool.go:36-42 | files a transaction under its hash unless one is there |
| `Pool.TransactionPool.GetUpToNTransactions` | internal/blockchain/transactionpool.go:21-34 | at most n distinct pooled transactions that pass the ledger's check, fewer only if there are no more, in any order of the map |
| `Peers.PeerManager.IncrementInvalidCount` | internal/server/peermanager.go:125-135 | one more invalid block, and blacklisted from the third |
| `Peers.BlacklistBound` | internal/server/blockchainserver.go:50-67 | in every interleaving with at most n handlers in flight, blacklisted exactly from three invalid blocks on, and never more than n + 2 |
| `Peers.BlacklistIsPermanent` | internal/server/peermanager.go:125-135 | once blacklisted, always blacklisted |
| `Peers.BlacklistBoundIsTight` | internal/server/blockchainserver.go:50-67 | some interleaving reaches n + 2 |
| `Flooding.FloodIsReachability` | internal/server/outgoingtraffic.go:15-30 | a flood reaches exactly the nodes connected to its start through nodes that lacked the transaction |
| `Flooding.FloodOrderIndependence` | internal/server/outgoingtraffic.go:18-27 | the order in which peers are called does not matter |
| `Gossip.SubmissionReachesEveryone` | internal/server/blockchainserver.go:32-48 | those nodes and no others gain the transaction, each sends exactly one message per peer entry, and nobody else sends any |
| `Gossip.SubmissionAcceptedIff` | internal/server/blockchainserver.go:32-48 | a node takes a transaction exactly when content and signature are good and it is neither pooled nor on its chain; otherwise nothing changes and nobody is told |
| `Gossip.SubmissionOrderIndependence` | internal/server/blockchainserver.go:32-48 | verdict and final pools are the same for any order of peers |
| `Server.BlockchainServer.constructor` | internal/server/blockchainserver.go:22-30 | a fresh sound chain over the initial coins and an empty pool |
| `Server.BlockchainServer.HandleTransactionSubmission` | internal/server/blockchainserver.go:32-48 | the mutual recursion through peers terminates on any peer graph and is a flood from this node |
| `Server.BlockchainServer.BroadcastTransaction` | internal/server/outgoingtraffic.go:15-30 | calling every peer in turn spreads the transaction to all of them and what they reach |
| `Server.BlockchainServer.HandleBlockSubmission` | internal/server/blockchainserver.go:50-102 | reply, chain, ledger and peer counters are exactly as specified, and the block goes to every peer exactly when it was added or its fork resolved |
| `Server.BlockchainServer.BroadcastBlock` | internal/server/outgoingtraffic.go:32-46 | one message with block and hashes to each peer, in order |
| `Server.BlockchainServer.CreateBlockWithTransactions` | internal/server/blockchainserver.go:104-113 | waits exactly when no pooled transaction passes the check; otherwise it makes an unmined block of one such transaction on the chain as it is, fails without a content hash, or panics on a division by zero |
| `Server.BlockchainServer.TryNonce` | internal/server/blockchainserver.go:153-171 | the new nonce and its hash, or, at every ten-thousandth nonce if the chain has caught up, exactly what making a new block comes to, a failure being a nil dereference |
| `Server.BlockchainServer.FinishMining` | internal/server/blockchainserver.go:173-226 | a found block is dropped if the chain has caught up; otherwise the chain changes as AddBlock does, and an added block goes to every peer with the last hashes |
| `Server.BlockchainServer.MineBlock` | internal/server/blockchainserver.go:133-212 | in a round nothing interrupts: on a numbered chain it comes to exactly what the pool's offer and the nonces determine, so the first nonce that meets the difficulty due makes the block that goes through AddBlock, and only if all miss is there none; on any chain a found block is a candidate on it, and is sent to every peer exactly when added |
| `NodeSpec.SubmissionsRespectFinality` | internal/server/blockchainserver.go:50-102 | over every run of submissions with lists of at most a hundred hashes, a chain of a hundred blocks is only ever extended |
| `NodeSpec.StrikesAreCounted` | internal/server/blockchainserver.go:50-67 | over every run of submissions each address is counted once per unverified block it sent, up to three, and blacklisted exactly from the third on, whatever others send |
| `NodeSpec.ThreeStrikes` | internal/server/blockchainserver.go:50-67 | a submission is refused as blacklisted, changing nothing, exactly when its sender sent three unverified blocks before, and as invalid exactly when it does not verify otherwise |
| `NodeSpec.ExtensionIsAddedIff` | internal/server/blockchainserver.go:69-85 | a verified block for the top is added exactly when its height is next and its transactions are checked and funded, with the resulting chain and ledger |
| `NodeSpec.ResubmissionIsDuplicate` | internal/server/blockchainserver.go:87-90 | submitting a block that is on the chain changes nothing, whatever list comes with it |
| `NodeSpec.ForkSubmissionCases` | internal/server/blockchainserver.go:92-102 | for any other verified block: answer and chain from the inputs, handled exactly when the fork was adopted or did not win |
| `NodeSpec.LostChainIsForGood` | internal/server/blockchainserver.go:69-70 | a node that lost its chain crashes on every verified block from a peer in good standing and stays without one |
| `NodeSpec.CandidateVerifies` | internal/blockchain/block.go:95-115 | a mined candidate that meets its target verifies and attaches |
| `NodeSpec.MinedBlockAccepted` | internal/server/blockchainserver.go:148-174 | AddBlock accepts it exactly when the ledger holds the inputs with multiplicity, so always when no coin is listed twice |
| `NodeSpec.HeightTellsStale` | internal/server/blockchainserver.go:157-178 | after any run with honest peers the miner finds the chain caught up exactly when it is not the one its block was made on; otherwise the block attaches and is added exactly when the ledger still holds its inputs |
| `NodeSpec.LosingForkIsEchoed` | internal/server/blockchainserver.go:87-101 | a valid block on a losing fork is passed on at every receipt, any number of times, with nothing changed |
| `Framing.RoundTripIff` | internal/crypto/sign.go:29-54 | splitting the joined bytes in half recovers both numbers exactly when the second is as long as the first or one byte longer |

## Left out

- gRPC and HTTP servers, generated protobuf code, clients other than the payment flow, UI, generators, scripts and logging: plumbing around the core.
- ECDSA, SHA-256, JSON, base64 and key parsing: library code, arbitrary functions here; JSON marshalling never fails.
- internal/server/convert.go and the narrowing of heights and indices to 32 bits on the wire: field copying.
- Heights and output indices are unbounded integers: they count list elements; only amounts, timestamps and nonces are 64-bit.
- Slices are values: that AddUTXO and RemoveUTXO may write into a shared backing array is not captured; no two lists of the ledger share one.
- Sign: a transaction is a value, so signing returns the changed transaction instead of updating it in place.
- MineBlock: one round with the given nonces while nothing else happens at the node; TryNonce and FinishMining, its parts, are specified for any state in between, and HeightTellsStale relates them. Termination of the random search, the sleeping and retrying around it, cancellation and the misbehaving modes 1 to 4 are not modelled.
- HandleBlockSubmission: the messages to peers are returned, not delivered; what the peers then do is a step of their own.
- HandleTransactionSubmission: peers are called synchronously and each check-and-add is one step; concurrent submissions are not interleaved.
- RoundConvergesIff: a round of HandleFork calls; a submitted block that fits right on top of a chain is added instead, which the ledger may refuse.
- Pay: signing is a function of hash and key, one draw of the random number the real one uses; what the miner does with the transaction is the parameter `send`.
- BlacklistBound: handlers are counted per peer and not told apart; the earlier check in incomingtraffic.go only turns more blocks away.
- HandleFork: the ledger is not rebuilt by the code, so nothing is claimed about ledger and chain agreeing after a fork.
- Data races on the chain and pool maps: every handler is one step.
- Adding peers, retrying connections and, outside `Network`, which peer answers a block request: the answers are a parameter.
- TransactionPool's RemoveTransaction, Get, List, GetAllTransactions and HandleStaleBlocks, and Blockchain's GetBlockByHeight: lookups the node does not build on.
