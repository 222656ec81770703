# Verified model of a stateless Ethereum block verifier

The guest program takes a block, a witness that opens part of the state trie, and
nothing else. It rebuilds the old state root from the witness, executes the block
against two flat tables, recomputes the root, and settles gas, fees, receipts and the
block access list on the way. An extension of the node schedules one proof per block.

This project models the parts of that system that are hard to get right and proves what
they promise. Halting (`fatal`) is a refused outcome everywhere: a method returns a false
`ok`, a function returns `None`.

- State trie: `trie_terms.dfy` (nodes as terms over a free hash constructor, the canonical
  trie of a map), `canonical.dfy`, `trie_reduce.dfy` (the cache-free reduction),
  `trie_soundness.dfy` (from a true old root to a true new root), `trie_witness.dfy`
  (witness trees, chains, the guard), `witness_keys.dfy` (what a witness must obey),
  `state_store.dfy` and `state_root.dfy` (node arrays,
  caches and the two passes as a class), `leaf_rows.dfy` (rows are leaves), `state_transition.dfy` (from the parent's root to the
  new one), `empty_extension.dfy` (where that fails), `packed_key.dfy` (keys from packed
  paths), `mpt.dfy` (the sort-and-split builder).
- Journaled state: `journal.dfy` (view, undo entries, kernel steps), `rollback.dfy`,
  `warmth.dfy` (originals and accessed sets), `state_db.dfy` (the tables with dirty flags as
  a class), `storage_gas.dfy` (net metering of stores), `ether.dfy`, `fees.dfy`, `gas.dfy`.
- Block access list: `block_access_list.dfy`, `access_runs.dfy` (whole blocks), `bal_walk.dfy`.
- Coding: `rlp.dfy`, `nested_lists.dfy` (access and authorization lists), `transactions.dfy`.
- Smaller cores: `u256.dfy`, `u256_exp.dfy`, `keccak.dfy`, `ssz.dfy`, `allocator.dfy`,
  `pipeline.dfy`; `basics.dfy` is shared.

`dafny verify dfyconfig.toml` checks everything.

## How the model reads the code

- Node encodings and hashes. keccak256 is the free constructor `Digest` over node terms, and
  whether a node's encoding is shorter than 32 bytes is a predicate that every definition
  takes as a parameter. A conclusion that two roots are equal holds for every hash function;
  a theorem that starts from equal roots (`RootSound` and what builds on it) takes the hash
  to be free of collisions, because `Digest` is injective. The state-root engine carries
  branches by hash only, so its specification does too.
- Keys. keccak256 of an address or position is an arbitrary function to nibble paths; that
  two keys with one hash are one key is never assumed.
- SSZ. The hash of two chunks is a free constructor too.
- Witness. A decoded witness is a tree value; the byte stream is not modelled.
- Execution engine. The interpreter is an arbitrary sequence of host callbacks. Every
  callback is a sequence of kernel steps of `journal.dfy`, each of which pushes at most one
  undo entry, so theorems about runs of kernel steps are theorems about every execution. The
  order the code documents, an access before a load or store, is a hypothesis exactly where
  it is needed (`Orderly`, `AllStoresWarm`); `StepRefinesIff` says that it is needed. For the
  state root an execution is any sequence of row writes; for the access lists it is any
  sequence of writes, reverts, frames and indices in which no checkpoint spans an index, as
  the journal is released before each transaction and system call.
- Gas. What the interpreter hands back obeys `GasContract`: no gas appears from nowhere, the
  refund is not negative, and state gas that spilled was taken from regular gas. For the
  storage part of the refund counter `RefundsNeverNegative` proves it.
- Ether. The total supply is below 2^256 and the interpreter moves only what an account has;
  both are hypotheses of `ether.dfy`.
- Integers are unbounded; 64-bit and 256-bit wrapping is written out where it occurs
  (`Sub64`, `Add256`, `Mul256`, `Round16`).
- Xor of 64-bit lanes is xor of their bytes in memory order; the code fixes a little-endian
  target. The or of two shifted limbs is defined bit by bit and proved to be their sum.

## Where the code does less than it may seem to

- The reader of nibble runs takes a count of zero. An extension without nibbles folds like the
  bare hash below it, so a witness can have the true old root and lead to a wrong new one
  (`EmptyExtensionMisleads`, `WrongRootAccepted`); `StatelessRootSound` is the exact condition.
- The two trie builders disagree on maps whose canonical trie has a branch shorter than 32
  bytes below the root; `EnginesAgree` is the exact condition. State tries never have one in
  practice, because their keys are 64 nibbles and their values long; `BuildersDisagree` has
  three entries on which they do disagree.
- Reading a cold account's balance, nonce or code hash warms it outside the journal, so a
  rollback leaves it warm; `RollbackRestores` is the exact condition. The code's comment says
  an access always comes first.
- The main heap compares a wrapping pointer sum with its limit; `HeapRightIff` is the exact
  condition.
- The encoder writes at most four length bytes while the decoder reads up to eight, so the
  inverse laws hold exactly below 2^32 (`RoundTripIff`).
- The C++ merkleizer refuses more chunks than the limit; the Rust version also takes one
  chunk for limit 0.

## Model

| member | source | states |
|---|---|---|
| `Canonical.CanonUnder` | cpp-guest/src/state_root.cpp:550-568 | when all keys of a map share their first nibble, its canonical trie is that of the map below it with the nibble put in front; this is what folding a nibble has to achieve |
| `Canonical.ExtensionInverse` | cpp-guest/src/state_root.cpp:433-455 | an extension node determines its map's longest common prefix, and below it is always a branch |
| `TrieSoundness.FoldAnchors` | cpp-guest/src/state_root.cpp:550-568 | if a folded result stands for a map's canonical trie, the unfolded result, with an empty extension read as the hash below it, stands for the map below that nibble |
| `TrieSoundness.BranchAnchors` | cpp-guest/src/state_root.cpp:461-545 | if a branch's reduced result is the canonical trie of a map, each child's result is, up to a bare hash, that of the map's part below its nibble, and an extension without nibbles can only be an only child |
| `TrieSoundness.BranchAssembled` | cpp-guest/src/state_root.cpp:461-545 | from children that stand for the sub-maps, the branch reduction (vanish, fold or pack) gives the canonical trie of the whole map |
| `TrieSoundness.UpdateKeeps` | cpp-guest/src/state_root.cpp:461-545 | for every partly opened tree that stands for a map under the old values, reducing it under new values gives the canonical trie of the map with exactly the opened leaves replaced, inserted or deleted, if every extension without nibbles is still an only child |
| `TrieSoundness.AloneForced` | cpp-guest/src/state_root.cpp:68-80 | in any tree that reduces to a canonical trie every extension without nibbles is an only child: the other half of the condition |
| `TrieSoundness.UpdateSound` | cpp-guest/src/state_root.cpp:461-545 | both halves: from a canonical old reduction the update is right if and only if every extension without nibbles is still an only child |
| `TrieSoundness.RootSound` | cpp-guest/src/state_root.cpp:433-455 | one trie: from equal old roots the new roots are equal if and only if every extension without nibbles is still an only child under the current values |
| `TrieSoundness.LookupAnchored` | cpp-guest/src/state_root.cpp:857-941 | a leaf the witness opens has, under the old values, the value the true map has at that key, or is absent in both |
| `TrieSoundness.StatelessRootSound` | cpp-guest/src/state_root.cpp:1060-1120 | two-level state: if the witness reduces over block-start values to the root of the true world, it reduces over current values to the root of the world with exactly the opened accounts and slots updated, if and only if the same holds in the state trie and in the storage of every account that still exists |
| `TrieSoundness.StoragesForced` | cpp-guest/src/state_root.cpp:857-941 | a right state root forces the condition in every storage trie below it |
| `TrieSoundness.RevealedIsCanonical` | cpp-guest/src/state_root.cpp:461-545 | a fully opened tree, folded bottom-up over present and absent leaves, gives the canonical trie (Yellow Paper, Appendix D) of the present ones, whatever the tree's shape |
| `EmptyExtensions.EmptyExtensionMisleads` | cpp-guest/src/state_root.cpp:68-80 | the failing family: an empty extension over the hash of the branch below nibble 0, beside a leaf at nibble 1 that appears; for every such map the guard passes, the old root is the true one and the new root is wrong |
| `EmptyExtensions.WrongRootAccepted` | cpp-guest/src/state_root.cpp:68-80 | a concrete storage trie and a witness the build pass accepts for which that happens |
| `TrieWitness.NestReduces` | cpp-guest/src/state_root.cpp:547-587 | a chain with its accumulated prefix reduces like the nested run of one-child branches it replaces, for any values |
| `StateStore.NestAppend` | cpp-guest/src/state_root.cpp:728-740 | growing a chain by one nibble is nesting one more one-child branch |
| `TrieWitness.SameReduces` | cpp-guest/src/state_root.cpp:958-1052 | a subtree none of whose leaves changed reduces to the same result, so the cached one may be reused |
| `TrieWitness.GuardFolds` | cpp-guest/src/state_root.cpp:495-502 | if the orphan-sibling guard passes everywhere, no branch that had two children folds onto a subtree known only by hash |
| `TrieWitness.NestGuard` | cpp-guest/src/state_root.cpp:990-1016 | the guard over a chain is the guard over the nested branches it replaces |
| `StateStore.ChainGrownOk` | cpp-guest/src/state_root.cpp:728-740 | growing a chain in place that no node links to keeps the store sound and every cached result fresh, and the chain unlinked |
| `StateStore.OtherNodeOk` | cpp-guest/src/state_root.cpp:728-740 | every other node keeps its tree, its path and its cached result |
| `StateStore.AddBranchOk` | cpp-guest/src/state_root.cpp:790-822 | appending a branch record keeps all nodes sound, and its cached result is the reduction over block-start values |
| `StateStore.FinishAccountOk` | cpp-guest/src/state_root.cpp:857-941 | completing an account row after its storage trie was built keeps all nodes sound |
| `StateStore.SetCachedOk` | cpp-guest/src/state_root.cpp:958-1052 | storing a recomputed result settles that node and unsettles none |
| `StateRootEngine.Engine.PackBranch` | cpp-guest/src/state_root.cpp:388-431 | the packed hash is the digest of the branch node whose sixteen references are those of the children's results |
| `StateRootEngine.Engine.ReduceBranch` | cpp-guest/src/state_root.cpp:461-545 | refuses exactly in the orphan case, else returns the canonical branch reduction of the children's results, including the short cut for two hash children |
| `StateRootEngine.Engine.ChainResult` | cpp-guest/src/state_root.cpp:573-587 | folding a chain's prefix from its end over the child's result equals folding nibble by nibble |
| `StateRootEngine.Engine.AuxEmplace` | cpp-guest/src/state_root.cpp:654-660 | adds one auxiliary node, refusing exactly at the node limit |
| `StateRootEngine.Engine.BuildChain` | cpp-guest/src/state_root.cpp:728-740 | a run of one-child branches becomes one chain record whose tree is the nested run |
| `StateRootEngine.Engine.BuildBranch` | cpp-guest/src/state_root.cpp:742-831 | branch build: collapses runs, counts only real branches, refuses exactly on unlawful leaves or a full node table |
| `StateRootEngine.Engine.BuildAccountLeaf` | cpp-guest/src/state_root.cpp:857-941 | an account leaf is accepted exactly when its 64-nibble path is the hash of its address, its storage is lawful and it is not storage without an account; the finished row carries that hash, the rows added are exactly the leaves of the tree built, and the cached result is the reduction over block-start values |
| `StateRootEngine.Engine.BuildStorageLeaf` | cpp-guest/src/state_root.cpp:912-941 | a slot leaf is accepted exactly when its 64-nibble path is the hash of its position; its row carries that hash and its owner's address, and is the one leaf of the tree built |
| `StateRootEngine.Engine.BuildNode` | cpp-guest/src/state_root.cpp:682-723 | the recursive build accepts exactly the lawful witnesses that stay within the node limit at every point; the node built stands for the witness tree with a cached result equal to the cache-free reduction; every row it added is finished, carries the hash of its own key and is a leaf of the tree, and no leaf is without its row |
| `StateRootEngine.Engine.EvalNode` | cpp-guest/src/state_root.cpp:958-1052 | the caching walk returns exactly the cache-free reduction over current values; it reports read-only exactly when no leaf below changed; the depth it is called with is the build-time walk length; it refuses exactly when the guard does |
| `StateRootEngine.Engine.EvalChain` | cpp-guest/src/state_root.cpp:990-1016 | a chain re-evaluated after its child changed or became empty gives the reduction of the nested run |
| `StateRootEngine.Engine.EvalBranch` | cpp-guest/src/state_root.cpp:1018-1052 | a branch reuses its cached result when all children are read-only, and it is then still right |
| `StateRootEngine.Engine.ReadWitness` | cpp-guest/src/state_root.cpp:1060-1109 | the build pass over a whole witness returns the reduction's root over block-start values; every row of the tables carries the hash of its own key, and the rows are exactly the leaves of the tree |
| `WitnessKeys.LawfulExactly` | cpp-guest/src/state_root.cpp:857-941 | what the build pass checks besides the node count, read along the paths of the witness: it refuses no witness whose leaves all sit, with 64 nibbles, at the hashes of their own addresses and positions, whose branches lie less than 64 deep and whose absent accounts have empty storage, and takes no other |
| `TrieWitness.TallyExactly` | cpp-guest/src/state_root.cpp:654-660 | the node limit: a witness within it is accepted exactly when its hashes, opaque leaves, extensions, forks and runs are no more than the limit, except that a run is not grown once the limit is reached |
| `LeafRows.RowsAreLeaves` | cpp-guest/src/state_root.cpp:1105-1109 | the tables are the leaves: after an accepted build every row is found by walking the hash of its key, slots in the storage trie of their owner, and every path that leads to a leaf is the hash of that row's key |
| `LeafRows.FoundAddress` | cpp-guest/src/state_root.cpp:889-891 | the leaf at the hash of an address is that of row i if and only if the address of row i has that hash |
| `LeafRows.KeysDistinct` | cpp-guest/src/state_root.cpp:1105-1109 | so no address has two rows, and no position two rows below one address |
| `StateRootEngine.Engine.CalculateNewStateRoot` | cpp-guest/src/state_root.cpp:1111-1120 | the new root is the root of the cache-free reduction over current values, or a refusal exactly when the guard fails somewhere |
| `StateRootEngine.Engine.SetSlot` | cpp-guest/src/storages.cpp:126-131 | writing a slot's current value keeps every node, its block-start result and the witness it was built for |
| `StateRootEngine.Engine.SetAccount` | cpp-guest/src/accounts.cpp:182-206 | the same for an account row |
| `StateRootEngine.Engine.NewRootSound` | cpp-guest/src/state_root.cpp:1060-1120 | if the old root is that of a world, the new root is that of the world after exactly the opened leaves' changes, if and only if no extension without nibbles has got a sibling; always so for witnesses whose extensions have nibbles |
| `StateTransition.Execute` | cpp-guest/src/zisk_state_db.cpp:214-232 | any sequence of row writes: refuses exactly when a row is missing, else the current values are the block-start ones with the writes applied in order, and the built tree stays |
| `StateTransition.LastWriteStays` | cpp-guest/src/zisk_state_db.cpp:214-232 | after any sequence of row writes each row has the value of its last write, or its block-start value if there was none |
| `StateTransition.Transition` | cpp-guest/src/run.cpp:247-340 | read the witness, check its root against the parent's, execute, recompute: accepts exactly the lawful witnesses within the node limit with that root, existing rows and a passing guard; then for every world the parent's root stands for, the new root is that of the world with exactly the writes, under the same if-and-only-if; rows and leaves stay in one-to-one correspondence |
| `StateTransition.NothingWritten` | cpp-guest/src/run.cpp:342-348 | an execution that writes nothing is accepted and reproduces the parent's root |
| `PackedKeys.ShiftWords` | cpp-guest/src/state_root.cpp:104-119 | the four shifted and joined 64-bit words are the bytes moved down by one nibble |
| `PackedKeys.PackKeyHash` | cpp-guest/src/state_root.cpp:84-121 | the key is the walked nibbles followed by the suffix's, two a byte, whether the suffix starts on a byte boundary or is shifted in by four bits; the padding nibble is dropped; refuses exactly when they are not 64 |
| `Mpt.ToNibbles` | cpp-guest/src/mpt.cpp:24-32 | two nibbles a byte, the high half at the even position and the low half after it |
| `Mpt.NibblesInjective` | cpp-guest/src/mpt.cpp:24-32 | different keys have different nibble paths |
| `Mpt.AllShare` | cpp-guest/src/mpt.cpp:76-86 | what the first and the last of sorted entries share, all of them share |
| `Mpt.FirstAndLast` | cpp-guest/src/mpt.cpp:76-86 | comparing only the first and the last sorted entry finds the longest common prefix of the whole map |
| `Mpt.WholeBucket` | cpp-guest/src/mpt.cpp:108-130 | each contiguous run of equal nibbles is the whole bucket of that nibble |
| `Mpt.CommonLength` | cpp-guest/src/mpt.cpp:81-86 | the loop stops exactly where first and last entry part |
| `Mpt.BuildNode` | cpp-guest/src/mpt.cpp:54-142 | sorting and splitting builds the canonical trie of the entries' map, for keys of any lengths |
| `Mpt.BuildBranch` | cpp-guest/src/mpt.cpp:100-142 | the sixteen buckets and the value slot are those of the canonical branch |
| `Mpt.InsertSorted` | cpp-guest/src/mpt.cpp:165-168 | one step of sorting: sorted again, same entries |
| `Mpt.MerklePatriciaTrie.Insert` | cpp-guest/src/mpt.cpp:147-150 | appends the entry; the keys are distinct afterwards exactly when they were before and the key is new |
| `Mpt.MerklePatriciaTrie.SortedPaths` | cpp-guest/src/mpt.cpp:159-168 | sorted paths of exactly the inserted entries |
| `Mpt.MerklePatriciaTrie.RootHash` | cpp-guest/src/mpt.cpp:152-172 | the root is that of the canonical trie of the map the entries spell, the empty-trie root for none |
| `Mpt.OrderIrrelevant` | cpp-guest/src/mpt.cpp:147-172 | entries in another order spell the same map, so insertion order does not matter |
| `Mpt.EnginesAgree` | cpp-guest/src/state_root.cpp:461-545 | the state-root engine and the sort-and-split builder agree on a map's root if and only if no branch below the root is short enough to be inlined, since the engine carries branches by hash only |
| `Mpt.RevealedMatchesBuilder` | cpp-guest/src/mpt.cpp:54-172 | the same for a fully opened witness tree: its root is the builder's root of the leaves it holds, under the same if-and-only-if |
| `Mpt.BuildersDisagree` | cpp-guest/src/mpt.cpp:100-142 | three entries on which the two builders disagree under every encoding that inlines the branch below nibble 0 |
| `Journal.UndoInStages` | cpp-guest/src/journal.cpp:68-113 | undoing to a position in two stages is undoing in one |
| `Journal.StepReads` | cpp-guest/src/zisk_state_db.cpp:199-250 | read after write: each step leaves its own value to be read, and no other balance, nonce, code, slot, transient entry, pending mark or log changes |
| `RollbackProofs.StepBase` | cpp-guest/src/journal.cpp:68-113 | no step changes the view as of an earlier journal position, except that touching a cold row outside the journal warms it there too |
| `RollbackProofs.ColdHasNoEntry` | cpp-guest/src/zisk_state_db.cpp:657-727 | at every stage of undoing, a row that still has an undo entry is warm; so a cold row has none |
| `RollbackProofs.RollbackRestores` | cpp-guest/src/zisk_state_db.cpp:764-778 | for any run of writes, accesses, nested checkpoints and inner rollbacks, rolling back to a checkpoint restores the journal, the logs, every nonce, balance, code hash, slot value, warm key, transient entry and pending destruction, and restores the warm stamps if and only if nothing touched a cold row outside the journal |
| `RollbackProofs.ColdTouchSurvives` | cpp-guest/src/accounts.cpp:115-134 | the failing family: a reader that touches a cold account leaves it warm after the frame is rolled back |
| `RollbackProofs.ColdRowExists` | cpp-guest/src/accounts.cpp:221-226 | a concrete state in which that happens |
| `Warmth.OriginalIsStartValue` | cpp-guest/src/storages.cpp:126-159 | in every run in which stores follow an access, the original value a store reads is the slot's value when the transaction began, although rollback never restores it (EIP-2200) |
| `Warmth.RunRefines` | cpp-guest/src/zisk_state_db.cpp:657-727 | a stamp equal to the counter, in a row or in the side table for keys without one, is membership in the EIP-2929 accessed sets, which grow with accesses and with nothing else and are restored on revert, over every run that accesses before it loads or writes |
| `Warmth.StepRefinesIff` | cpp-guest/src/accounts.cpp:182-226 | one step keeps stamps and accessed sets together if and only if it neither touches nor writes a row that no access has warmed |
| `Warmth.EmptiedAtStart` | cpp-guest/src/zisk_state_db.cpp:1381-1383 | every transaction and every system call starts with empty accessed sets |
| `Warmth.TxStartValid` | cpp-guest/src/zisk_state_db.cpp:2630-2643 | after the counter bump and the resets no row is warm and the journal is empty |
| `StateDatabase.StateDb.constructor` | cpp-guest/src/accounts.cpp:24-42 | fresh tables show the block-start values and no row is touched |
| `StateDatabase.StateDb.SetNonceAt` | cpp-guest/src/accounts.cpp:191-197 | the row's nonce and stamp change, nothing else observable does |
| `StateDatabase.StateDb.SetBalanceAt` | cpp-guest/src/accounts.cpp:182-189 | the row's balance and stamp change, nothing else observable does |
| `StateDatabase.StateDb.SetCodeAt` | cpp-guest/src/accounts.cpp:199-206 | the row's code hash and stamp change, nothing else observable does |
| `StateDatabase.StateDb.SetWarmAt` | cpp-guest/src/accounts.cpp:236-241 | only the row's stamp changes, also backwards |
| `StateDatabase.StateDb.MarkTouchedAt` | cpp-guest/src/accounts.cpp:221-226 | the stamp only ever moves up to the counter |
| `StateDatabase.StateDb.SetValueAt` | cpp-guest/src/storages.cpp:126-131 | the slot's value and stamp change; the transaction original does not |
| `StateDatabase.StateDb.SetSlotWarmAt` | cpp-guest/src/storages.cpp:150-155 | only the slot's stamp changes, also backwards |
| `StateDatabase.StateDb.MarkSlotTouchedAt` | cpp-guest/src/storages.cpp:133-140 | the first touch of a transaction snapshots the value, later ones change nothing |
| `StateDatabase.StateDb.SetAccountKey` | cpp-guest/include/zeg/warm_keys.hpp:37-43 | stamp 0 is stored as absence |
| `StateDatabase.StateDb.SetSlotKey` | cpp-guest/include/zeg/warm_keys.hpp:49-55 | stamp 0 is stored as absence |
| `StateDatabase.StateDb.Find` | cpp-guest/src/storages.cpp:76-90 | the memo of the last lookup never changes an answer |
| `StateDatabase.StateDb.AccessAccount` | cpp-guest/src/zisk_state_db.cpp:657-699 | warm exactly when the address is warm by its row's stamp or its side-table stamp, precompiles always; a cold access is journaled |
| `StateDatabase.StateDb.AccessStorage` | cpp-guest/src/zisk_state_db.cpp:701-727 | the same for slots |
| `StateDatabase.StateDb.GetBalance` | cpp-guest/src/zisk_state_db.cpp:252-257 | returns the current balance and touches the row outside the journal; refuses an address without a row |
| `StateDatabase.StateDb.GetStorage` | cpp-guest/src/zisk_state_db.cpp:199-212 | returns the current value and touches the slot; refuses a slot without a row |
| `StateDatabase.StateDb.SetStorage` | cpp-guest/src/zisk_state_db.cpp:214-232 | journals and writes, and the new value is what is read; each of the nine statuses is returned exactly for its case of start, current and new value (EIP-2200); refuses a slot without a row |
| `StateDatabase.StatusLaw` | cpp-guest/src/zisk_state_db.cpp:84-113 | each of the nine statuses, if and only if its case of start, current and new value |
| `StorageGas.StorePays` | cpp-guest/src/zevm/instructions/storage.inl.hpp:59-86 | one store: cost less refund is the price of a warm store plus the difference it makes to the slot's net price |
| `StorageGas.NetMetering` | cpp-guest/src/zevm/instructions/storage.inl.hpp:59-153 | over every transaction without reverts, all that is charged less all that is refunded for a slot depends only on its value at the start, its value at the end and the number of stores, for every schedule |
| `StorageGas.RefundsNeverNegative` | cpp-guest/src/zevm/instructions/storage.inl.hpp:43-153 | in every transaction, reverts included, no slot's share of the refund counter is ever negative, under each of the four net-metering schedules; the gas contract takes this for granted |
| `StorageGas.StatusFromStart` | cpp-guest/src/storages.cpp:126-159 | after any run, reverts included, the status of a store is the one for the slot's value when the transaction began |
| `StateDatabase.StateDb.SetTransient` | cpp-guest/src/zisk_state_db.cpp:240-250 | writes the transient map, and journals what was there, or that nothing was |
| `StateDatabase.StateDb.GetTransient` | cpp-guest/src/zisk_state_db.cpp:234-238 | the transient value last written, zero if none |
| `StateDatabase.StateDb.LogEvent` | cpp-guest/src/zisk_state_db.cpp:637-655 | appends one log |
| `StateDatabase.StateDb.TransferValue` | cpp-guest/src/zisk_state_db.cpp:998-1028 | a self-transfer changes nothing; otherwise two journaled balance writes, wrapping as 256-bit words; refuses addresses without a row |
| `StateDatabase.TransferRows` | cpp-guest/src/zisk_state_db.cpp:998-1028 | a transfer changes the two balances by the amount, modulo 2^256, and nothing else that can be read but stamps and the log |
| `StateDatabase.StateDb.SelfDestruct` | cpp-guest/src/zisk_state_db.cpp:310-387 | balance moves to the beneficiary; destruction is registered only as the fork's rules say, the first registration is reported; a destroyed account naming itself burns its balance before Amsterdam |
| `StateDatabase.SelfDestructRows` | cpp-guest/src/zisk_state_db.cpp:310-387 | a self-destruct empties the account into the beneficiary and registers the account itself; one that names itself keeps its balance unless it is burned |
| `StateDatabase.StateDb.BeginCreate` | cpp-guest/src/zisk_state_db.cpp:1044-1093 | the creator's nonce bump and the new address's warmth are journaled before the creation's own checkpoint; a nonce at its maximum changes nothing; refuses exactly when the sender has no row or, below that maximum, the new address has none |
| `StateDatabase.StateDb.RegisterCode` | cpp-guest/src/zisk_state_db.cpp:1246-1278 | journals and sets the code hash of the new account |
| `StateDatabase.StateDb.ApplyPendingDestructs` | cpp-guest/src/zisk_state_db.cpp:389-457 | exactly the pending accounts are cleared (nonce, code, slots, and the balance before Amsterdam), in whatever order, their storage is recorded as wiped, and nothing else changes |
| `StateDatabase.StateDb.ClearAccount` | cpp-guest/src/zisk_state_db.cpp:399-457 | one account cleared by journaled writes, skipping slots that are already zero, and recorded as wiped |
| `StateDatabase.StateDb.TakeCheckpoint` | cpp-guest/src/zisk_state_db.cpp:764-771 | pushes a marker; the handle holds its position and the log count |
| `StateDatabase.StateDb.UndoEntry` | cpp-guest/src/journal.cpp:80-110 | each of the eleven entry kinds writes back exactly what it logged |
| `StateDatabase.StateDb.RollbackTo` | cpp-guest/src/journal.cpp:68-113 | pops and undoes everything down to the marker and truncates the logs; refuses a position that is no marker |
| `StateDatabase.StateDb.BeginTransaction` | cpp-guest/src/zisk_state_db.cpp:1381-1388 | next counter, empty journal, transient map, pending and created sets |
| `StateDatabase.StateDb.Prewarm` | cpp-guest/src/zisk_state_db.cpp:1457-1470 | adds exactly this address to the accessed set, precompiles excepted |
| `StateDatabase.StateDb.PrewarmSlot` | cpp-guest/src/zisk_state_db.cpp:1512-1528 | adds exactly this slot to the accessed set |
| `Gas.GasMeter.Admit` | cpp-guest/src/zisk_state_db.cpp:1618-1668 | accepts exactly the transactions that fit the caps and the block's remaining gas in each dimension; the unsigned subtractions never wrap |
| `Gas.GasMeter.Settle` | cpp-guest/src/zisk_state_db.cpp:2344-2402 | the charge is the spent gas less the granted refund, raised to the floor from Prague on; the granted refund is the largest within what is wanted and a fifth (half before London) of the gas spent; on Amsterdam state gas is the reservoir consumed plus what spilled and regular gas the rest before any refund; each share is at most what admission reserved |
| `Gas.ChargeLaw` | cpp-guest/src/zisk_state_db.cpp:2344-2382 | the charge and the refund it grants, stated without the formula |
| `Gas.GasMeter.Finalize` | cpp-guest/src/zisk_state_db.cpp:2457-2460 | the counters stay within the block gas limit and no addition wraps |
| `Gas.GasMeter.ProcessAll` | cpp-guest/src/zisk_state_db.cpp:1371-1452 | over a whole block of executions obeying the gas contract, the counters stay within the limit at every point |
| `Ether.CallBalanced` | cpp-guest/src/zisk_state_db.cpp:310-387 | a transfer, a self-destruct, a checkpoint, a rollback or any other step keeps ether held plus ether burned, now and at every open checkpoint |
| `Ether.MoveBalanced` | cpp-guest/src/zisk_state_db.cpp:998-1028 | the two 256-bit updates of a transfer neither wrap nor change the total |
| `Ether.ExecutionBalanced` | cpp-guest/src/zisk_state_db.cpp:998-1028 | any sequence of transfers, self-destructs, frames and reverts keeps the ether held plus the burns that were not reverted |
| `Fees.PriceFits` | cpp-guest/src/zisk_state_db.cpp:1544-1563 | once the fee checks pass, base fee plus priority fee did not wrap, so the price is the EIP-1559 one, between base fee and fee cap |
| `Fees.UpfrontFits` | cpp-guest/src/zisk_state_db.cpp:1670-1728 | the up-front check implies that the debit does not wrap and leaves the value to transfer |
| `Fees.PreEvmAccounting` | cpp-guest/src/zisk_state_db.cpp:1745-1783 | refuses exactly when a fee check fails, else the sender alone pays the whole gas limit at the price and the blobs at the blob base fee, and its nonce goes up by one, outside the journal |
| `Fees.DebitedRows` | cpp-guest/src/zisk_state_db.cpp:1745-1783 | who pays: only the sender's balance and nonce change, the value to transfer is left, nothing wraps |
| `Fees.SettleFees` | cpp-guest/src/zisk_state_db.cpp:2404-2438 | the sender gets the unused gas at the price, the coinbase the priority part of the gas used, also when they are the same account, and nobody else anything, whenever the credits fit |
| `Fees.SettledRows` | cpp-guest/src/zisk_state_db.cpp:2404-2438 | who is paid, balance by balance |
| `Fees.SettlementPays` | cpp-guest/src/zisk_state_db.cpp:2404-2438 | within the total supply the credits always fit, so exactly those two are paid |
| `Fees.SettlementBalanced` | cpp-guest/src/zisk_state_db.cpp:2404-2438 | settlement neither wraps nor loses anything but the base fee of the gas used |
| `Fees.TransactionConserves` | cpp-guest/src/zisk_state_db.cpp:1371-1451 | over a whole transaction the total balance falls by exactly gas used times base fee, plus the blob fee, plus self-destruct burns that were not reverted |
| `AccessLists.EntryIffChanged` | cpp-guest/include/zeg/block_access_list.hpp:1-33 | an index has an entry, with its end value, exactly when its end value differs from its start value |
| `AccessLists.EntriesIncrease` | cpp-guest/include/zeg/block_access_list.hpp:1-33 | entries come in strictly increasing order of index |
| `AccessLists.EveryEntryIsAPoint` | cpp-guest/include/zeg/block_access_list.hpp:1-33 | no entry but for an index of the history with its end value |
| `AccessLists.PushedChain` | cpp-guest/src/block_access_list.cpp:55-64 | a push extends its own linked list by one node |
| `AccessLists.OtherChain` | cpp-guest/src/block_access_list.cpp:55-64 | a push does not touch the lists of other fields in the shared array |
| `AccessLists.CloseOk` | cpp-guest/src/block_access_list.cpp:66-78 | closing one field appends to its list exactly what it owed |
| `AccessLists.OpenRowOk` | cpp-guest/src/block_access_list.cpp:80-88 | opening a period late, at the next index's first write, loses nothing |
| `AccessLists.WriteOk` | cpp-guest/src/accounts.cpp:182-217 | within an open period values may come and go without a trace |
| `AccessLists.FinalOk` | cpp-guest/src/block_access_list.cpp:66-78 | a list with what it still owes is the history's net changes |
| `AccessLists.AccessList.constructor` | cpp-guest/src/block_access_list.cpp:50-53 | empty lists for the initial values |
| `AccessLists.AccessList.SetIndex` | cpp-guest/include/zeg/block_access_list.hpp:85-86 | a new index ends the old one in the history and touches no record; no journal entry made before it is reverted after it |
| `AccessLists.AccessList.ReleaseJournal` | cpp-guest/src/zisk_state_db.cpp:2630-2643 | a transaction or system call starts with an empty journal |
| `AccessLists.AccessList.Push` | cpp-guest/src/block_access_list.cpp:55-64 | links the new node behind the tail |
| `AccessLists.AccessList.CloseAccount` | cpp-guest/src/block_access_list.cpp:66-78 | the three fields of a row closed, then its period |
| `AccessLists.AccessList.BeforeWrite` | cpp-guest/src/accounts.cpp:212-217 | the first write of an index closes the row's old period and opens a new one, keeping all lists right, every open period open and the slots as they are; at most three entries |
| `AccessLists.AccessList.SetBalance` | cpp-guest/src/accounts.cpp:182-189 | a balance write or restore keeps all lists right, the slots as they are and the row's period open |
| `AccessLists.AccessList.SetNonce` | cpp-guest/src/accounts.cpp:191-197 | a nonce write or restore keeps all lists right, the slots as they are and the row's period open |
| `AccessLists.AccessList.SetCode` | cpp-guest/src/accounts.cpp:199-206 | a code write or restore keeps all lists right, the slots as they are and the row's period open |
| `AccessLists.AccessList.SetCell` | cpp-guest/include/zeg/block_access_list.hpp:122-133 | a slot write keeps all lists right, the accounts as they are and the slot's period open; at most one entry |
| `AccessLists.AccessList.Write` | cpp-guest/src/zisk_state_db.cpp:214-232 | one write to any field, with the value before it logged or not |
| `AccessLists.AccessList.UndoLast` | cpp-guest/src/journal.cpp:79-110 | the journal puts its last entry's value back without asking for a period: one is open, since every entry of this index has one; nothing is recorded |
| `AccessLists.AccessList.CloseAll` | cpp-guest/src/zisk_state_db.cpp:966-979 | after the final pass every list is one entry per index whose end value differs from its start value |
| `AccessLists.AccessList.ReadList` | cpp-guest/src/block_access_list.cpp:120-128 | following the links from the head spells the recorded entries and ends |
| `AccessRuns.Do` | cpp-guest/include/zeg/block_access_list.hpp:1-33 | each write, revert, frame start and index start keeps the object in step with the same block run without any list |
| `AccessRuns.Block` | cpp-guest/include/zeg/block_access_list.hpp:1-33 | any block, of any writes, reverts to checkpoints, frames and indices: every list ends up with exactly the net changes of its field, index by index, of the same block run without any list |
| `AccessRuns.CheckpointsReachable` | cpp-guest/src/zisk_state_db.cpp:2630-2643 | once a frame has released the journal, every checkpoint taken before the next index can be reverted to: the only condition `Block` puts on reverts is met by the order in which the code releases the journal and starts indices |
| `AccessRuns.RevertedLeavesNothing` | cpp-guest/src/journal.cpp:68-113 | logged writes after a checkpoint, reverted to it, leave values, journal and history as they were, so nothing in any list |
| `SortedWalk.EveryRowOnce` | cpp-guest/src/zisk_state_db.cpp:927-996 | when the checks pass, every account row was visited once by increasing address and every storage row once, under its own account, by increasing key (pigeonhole over the two counters) |
| `SortedWalk.AccessedRows` | cpp-guest/src/zisk_state_db.cpp:927-996 | the output holds exactly the accessed accounts, each once, by increasing address, and below each exactly its accessed slots, each once, by increasing key |
| `SortedWalk.WalkSlots` | cpp-guest/src/zisk_state_db.cpp:953-973 | one account's slots: terminates for any links, refuses exactly when they do not spell its own slots in order or reach too many |
| `SortedWalk.WalkAccount` | cpp-guest/src/zisk_state_db.cpp:941-987 | one account: refuses exactly when no complete spelling goes on here |
| `SortedWalk.Walk` | cpp-guest/src/zisk_state_db.cpp:919-996 | terminates for any links, accepts exactly when they spell every row in order, and then emits exactly the accessed rows in that order, each once |
| `Rlp.AppendBe` | cpp-guest/src/rlp.cpp:21-25 | the shifting loop appends the big-endian bytes of the length |
| `Rlp.EncodeItem` | cpp-guest/src/rlp.cpp:42-92 | the encoders write the canonical form, for which DecodeEncode and EncodeDecode hold |
| `Rlp.EncodeForm` | cpp-guest/src/rlp.cpp:42-92 | the encoding rule of the Yellow Paper read off the bytes: single low byte, short form, long form with its minimal length bytes |
| `Rlp.ReadBe` | cpp-guest/src/rlp.cpp:99-105 | the reading loop gives the number and cannot overflow 64 bits |
| `Rlp.DecodeItem` | cpp-guest/src/rlp.cpp:109-187 | halts exactly where the strict decoder is undefined |
| `Rlp.DecodeEncode` | cpp-guest/src/rlp.cpp:42-187 | decoding an encoding gives kind, raw bytes and payload back, whatever follows, for payloads below 2^32 |
| `Rlp.RoundTripIff` | cpp-guest/src/rlp.cpp:21-57 | the round trip holds if and only if the payload is shorter than 2^32, since longer lengths are cut to four bytes |
| `Rlp.EncodeDecode` | cpp-guest/src/rlp.cpp:109-187 | every accepted item re-encodes to its raw bytes, for payloads below 2^32 |
| `Rlp.PrefixFree` | cpp-guest/src/rlp.cpp:109-187 | no encoding is a prefix of another |
| `Rlp.EncodeFixed` | cpp-guest/src/rlp.cpp:60-71 | skipping leading zero bytes of a fixed-width number gives the minimal integer encoding |
| `Rlp.AsUint` | cpp-guest/src/rlp.cpp:200-233 | the loop reads exactly the canonical integers of the given width |
| `Rlp.UintInverse` | cpp-guest/src/rlp.cpp:200-233 | an accepted integer's minimal form is the payload |
| `Rlp.UintRoundTrip` | cpp-guest/src/rlp.cpp:60-71 | an encoded integer reads back as itself |
| `Transactions.PrintRead` | cpp-guest/src/transactions.cpp:29-91 | a field read and printed again gives the item's own bytes |
| `Transactions.ReadPrint` | cpp-guest/src/transactions.cpp:29-91 | a field printed and read again gives the value, whatever follows |
| `Transactions.PrintParsed` | cpp-guest/src/transactions.cpp:322-430 | a field list parsed to its end prints to the very payload |
| `Transactions.ParsePrinted` | cpp-guest/src/transactions.cpp:322-430 | printed field lists parse back |
| `NestedLists.ListIter.Next` | cpp-guest/src/rlp.cpp:189-198 | one item, the rest left for later |
| `NestedLists.Fields` | cpp-guest/src/transactions.cpp:44-64 | as many items as fields are wanted, in order, and then nothing left |
| `NestedLists.CheckAccessList` | cpp-guest/src/transactions.cpp:440-471 | accepts exactly the lists of two-field entries with a 20-byte address and 32-byte keys |
| `NestedLists.CheckAuthorizations` | cpp-guest/src/transactions.cpp:485-515 | accepts exactly the lists of six-field tuples of their widths, and counts them |
| `NestedLists.AccessListForm` | cpp-guest/src/transactions.cpp:432-471 | an access list is accepted if and only if it is the encoding of some 20-byte addresses with 32-byte keys |
| `NestedLists.TupleListForm` | cpp-guest/src/transactions.cpp:473-515 | an authorization list is accepted if and only if it is the encoding of some tuples of numbers in their widths and 20-byte addresses |
| `Transactions.ReadFields` | cpp-guest/src/transactions.cpp:322-430 | the moving iterator reads the fields in order and then nothing is left |
| `Transactions.ViewInverse` | cpp-guest/src/transactions.cpp:322-430 | each of the six parsers keeps every field in its place: the view gives the parsed fields back |
| `Transactions.ReadEnvelope` | cpp-guest/src/transactions.cpp:547-600 | accepts exactly the envelopes whose bytes say some view, and returns that view: the lead byte of the type, one list over all bytes, each field of the type at its position and within its width, well-formed nested lists, and for legacy transactions the chain id hidden in the signature (35 + 2c + parity, none below 35) |
| `Transactions.ParsesWhatItSays` | cpp-guest/src/transactions.cpp:322-430 | an envelope is parsed to a view if and only if its bytes say that view, field by field as the EIPs list them |
| `Transactions.ParsedByPosition` | cpp-guest/src/transactions.cpp:322-430 | fields read one after the other to the end are the items of the list, position by position |
| `Transactions.EnvelopeCanonical` | cpp-guest/src/transactions.cpp:547-600 | an accepted envelope is byte for byte the canonical encoding of its parsed fields |
| `Transactions.ViewDeterminesEnvelope` | cpp-guest/src/transactions.cpp:547-600 | the parsed view determines the envelope |
| `Transactions.ParseEnvelope` | cpp-guest/src/transactions.cpp:547-600 | every proper view is printed to an envelope that parses back to it |
| `Transactions.SignsOwnBytes` | cpp-guest/src/transactions.cpp:102-212 | the signing preimage is the envelope's own field bytes without the signature fields; EIP-155 puts the chain id and two zeros in their place |
| `Transactions.SignatureNumber` | cpp-guest/src/transactions.cpp:110-245 | for every accepted envelope the signature number comes apart into parity and chain id and back: the recovery id, the chain id and the bytes signed all agree with it, for both parities |
| `Transactions.PreimageDetermines` | cpp-guest/src/transactions.cpp:102-212 | equal signing preimages of two accepted envelopes give the same type, the same unsigned fields, the same replay protection and the same chain id |
| `U256.Shl` | cpp-guest/zisk/zkvm_u256_le.h:375-393 | value times two to the shift, modulo 2^256, for every 256-bit shift; the result may overwrite an operand |
| `U256.Shr` | cpp-guest/zisk/zkvm_u256_le.h:394-402 | value divided by two to the shift, rounded down |
| `U256.Sar` | cpp-guest/zisk/zkvm_u256_le.h:403-413 | two's-complement value divided by two to the shift, rounded down |
| `U256.ShiftDown` | cpp-guest/zisk/zkvm_u256_le.h:225-234 | the shared loop is floor division of the number with its sign filled in |
| `U256.Sub` | cpp-guest/zisk/zkvm_u256_le.h:244-251 | a + ~b + 1 is the difference modulo 2^256, given the adder's contract |
| `U256.Less` | cpp-guest/zisk/zkvm_u256_le.h:213-218 | the top limb that differs decides the order of the numbers |
| `U256.SignedLess` | cpp-guest/zisk/zkvm_u256_le.h:219-223 | flipping the sign bits turns the signed order into the unsigned one |
| `U256.ByteAt` | cpp-guest/zisk/zkvm_u256_le.h:368-374 | the byte of the number counted from the top, zero past the end |
| `U256.SignExtend` | cpp-guest/zisk/zkvm_u256_le.h:418-432 | the low bytes read as a signed number, modulo 2^256; unchanged from byte 31 on |
| `Exponentiation.NextBit` | cpp-guest/zisk/zkvm_u256_le.h:275-307 | with bits left the sentinel word is not the final one, its top bit is the next exponent bit, and one shift moves on |
| `Exponentiation.BitsBelow` | cpp-guest/zisk/zkvm_u256_le.h:296-299 | the loop without a counter uses up exactly the remaining bits |
| `Exponentiation.FirstLimb` | cpp-guest/zisk/zkvm_u256_le.h:290-299 | skipping leading zeros keeps exponent and sentinel in step |
| `Exponentiation.Exp` | cpp-guest/zisk/zkvm_u256_le.h:280-307 | base to the exponent modulo 2^256 for all inputs, given the multiplier's contract; terminates; the result may overwrite either operand |
| `Keccak.FirstBlock` | cpp-guest/zisk/keccak_zisk.cpp:82-92 | copying the first block and zeroing the capacity is xoring it into the zero state |
| `Keccak.PadShape` | cpp-guest/zisk/keccak_zisk.cpp:105-127 | pad10*1 by position: the message, 0x01, zeros, 0x80 at the block's end, 0x81 where the two meet |
| `Keccak.AbsorbTail` | cpp-guest/zisk/keccak_zisk.cpp:105-127 | full words, the partial word with its 0x01 and the separate top bit are the xor of the padded last block, also when both padding bits share a byte |
| `Keccak.LastLane` | cpp-guest/zisk/keccak_zisk.cpp:105-127 | lane by lane, what the padded last block holds |
| `Keccak.AbsorbWhole` | cpp-guest/zisk/keccak_zisk.cpp:82-103 | whole blocks: the absorb of the plain sponge |
| `Keccak.Compute` | cpp-guest/zisk/keccak_zisk.cpp:73-133 | for every message and every permutation: pad10*1 with 0x01, then xor and permute over 136-byte blocks (sections 4 and 5.1 of FIPS 202), first 32 bytes |
| `Ssz.OneLevel` | cpp-guest/src/ssz.cpp:56-66 | the tree over a level is the tree, one lower, over its pairs, an odd tail paired with the zero subtree |
| `Ssz.DepthFor` | cpp-guest/src/ssz.cpp:19-24 | the least depth with room for that many leaves |
| `Ssz.HashLevel` | cpp-guest/src/ssz.cpp:59-66 | overwriting the front of the array while reading ahead of it hashes the level |
| `Ssz.Merkleize` | cpp-guest/src/ssz.cpp:51-68 | the root of the full binary tree padded with zero chunks to the next power of two of the limit; refuses exactly when there are more chunks than the limit |
| `Ssz.MerkleBranch` | cpp-guest/src/ssz.cpp:51-68 | every leaf, a chunk or the zero padding, has a branch as long as the depth that climbs to the root with the siblings on the sides its index says |
| `Ssz.MerkleizeVec` | reth-zisk-exex/src/ssz.rs:46-62 | the same root, so the two versions agree on all inputs within the limit; it also takes one chunk for limit 0 |
| `Ssz.MerkleizeProgressive` | cpp-guest/src/ssz.cpp:70-84 | collecting the subtrees and folding from the end is the recursive EIP-7916 definition |
| `Ssz.ProgressiveSubtree` | cpp-guest/src/ssz.cpp:70-84 | subtree n holds the chunks from 0, 1, 5, 21, ... to the next start, as the left of a pair whose right is the rest; the zero chunk ends it |
| `Ssz.ProgressiveVec` | reth-zisk-exex/src/ssz.rs:64-74 | the same value by plain recursion |
| `Allocator.HeapRightIff` | cpp-guest/zisk/runtime.cpp:95-102 | the main-heap allocation is right if and only if the request does not run past the end of the address space, because the limit is compared with a pointer sum that wraps |
| `Allocator.HugeRequestWraps` | cpp-guest/zisk/runtime.cpp:95-102 | a concrete request that moves the heap pointer down |
| `Allocator.ArenaRightIff` | cpp-guest/zisk/runtime.cpp:104-113 | the arena compares the room left, so only the rounding can wrap: right if and only if the size plus 15 fits 64 bits |
| `Allocator.MainAndArenaApart` | cpp-guest/zisk/runtime.cpp:70-79 | no main block overlaps an arena block that is alive |
| `Allocator.Heap.constructor` | cpp-guest/zisk/runtime.cpp:70-76 | nothing allocated, the arena at the top |
| `Allocator.Heap.HeapAlloc` | cpp-guest/zisk/runtime.cpp:95-102 | a new block above all others, or a halt with nothing changed, for requests that do not wrap |
| `Allocator.Heap.TxArenaAlloc` | cpp-guest/zisk/runtime.cpp:104-113 | a new arena block below the others and above the main heap, or a halt exactly when it does not fit; a size that rounds to nothing takes no room |
| `Allocator.Heap.TxArenaReset` | cpp-guest/zisk/runtime.cpp:115-115 | all arena blocks die; the main heap and all bytes stay |
| `Allocator.Heap.Malloc` | cpp-guest/zisk/runtime.cpp:128-128 | a main block exactly when it fits below the arena; a request that wraps is granted exactly when the wrapped end does |
| `Allocator.Heap.AlignedAlloc` | cpp-guest/zisk/runtime.cpp:146-152 | for every power of two: an aligned main block exactly when it fits, although the pointer moves before the limit is checked |
| `Allocator.MaskAligns` | cpp-guest/zisk/runtime.cpp:149-149 | and-ing with the complement of the alignment less one is rounding up to the next multiple, if the sum does not wrap |
| `Allocator.RoundIsMask` | cpp-guest/zisk/runtime.cpp:97-97 | the sixteen-byte mask is the rounding the other lemmas use |
| `Allocator.Heap.Realloc` | cpp-guest/zisk/runtime.cpp:133-144 | the new block starts with the old one's bytes up to the smaller size and no live byte of the heap or the arena changes, although the copied ranges may overlap |
| `Pipeline.StepKeeps` | reth-zisk-exex/src/pipeline.rs:196-298 | every payload, engine event and job step keeps the scheduler's invariant |
| `Pipeline.OneProofInFlight` | reth-zisk-exex/src/pipeline.rs:245-263 | in every interleaving every job but the newest is cancelled, heights never go down, and a hash starts again only after at least 64 other jobs, all at its own height |
| `Pipeline.DropMarks` | reth-zisk-exex/src/pipeline.rs:223-241 | an invalid or reorged-out block in flight gets both tokens fired |
| `Pipeline.EventEffect` | reth-zisk-exex/src/pipeline.rs:196-241 | an engine event fires both tokens of the job in flight if and only if its block is invalid or another one was committed at its height or below, and changes nothing else |
| `Pipeline.PayloadEffect` | reth-zisk-exex/src/pipeline.rs:245-263 | a payload, or a recent executed block, starts a job if and only if none of the last 64 jobs has its hash and no higher job is in flight; then the job in flight is cancelled and nothing else changes |
| `Pipeline.JobEffect` | reth-zisk-exex/src/pipeline.rs:327-452 | what a job's step may do, stage by stage: it signs only after a check that found it not discarded, submits only what it signed, and proves only what was not cancelled |
| `Pipeline.DiscardedNeverSigned` | reth-zisk-exex/src/pipeline.rs:327-452 | a job discarded before the check after its proof is never signed or submitted, whatever happens later |
| `Pipeline.RunLater` | reth-zisk-exex/src/pipeline.rs:196-298 | over every run tokens never unfire and jobs keep their block |
| `Pipeline.Scheduler.Receive` | reth-zisk-exex/src/pipeline.rs:245-263 | a known or older payload changes nothing; otherwise the job in flight is cancelled and the new one is in flight |
| `Pipeline.Scheduler.Notify` | reth-zisk-exex/src/pipeline.rs:196-240 | each event has exactly its effect |

## Left out

- Byte layout of the witness stream and hex-prefix encoding: paths are nibble sequences here, except where a leaf's key is packed.
- Byte encoding of the block access list: the lists and their order are modelled, the two-pass writer is not.
- Capacity halts of the row tables and of the packed-path buffer.
- Contracts, analysis cache, precompiles and all accelerators: calls into code outside the repository.
- EIP-7702 authorization lists beyond their kernel steps, withdrawals, block rewards, system-call requests and receipts: straight-line credits and encodings.
- Fork, chain-id, nonce, init-code-size and sender-code checks of `check_transaction`: single comparisons; gas and fee checks are modelled.
- StorageGas.NetMetering: transactions without reverts, since a reverted frame keeps its costs and loses its refunds; the cold surcharge, the state gas of Amsterdam and the schedule without net metering before Istanbul are not part of it.
- Signature checks: the low-s rule and the recovery itself are not part of this model; the recovery id is.
- Header checks, fake exponential, bloom filters, intrinsic gas: single formulas; intrinsic gas is a parameter.
- The create path's collision check and code-deposit rules: single comparisons between journaled steps that are modelled.
- Division, multiplication, modular arithmetic and bitwise operations on limbs: one precompile call or one limb-wise loop each.
- Building a witness, proving, beacon and signing calls of the node extension: a job's steps are events with arbitrary outcomes.
- StateRootEngine.Engine.CalculateNewStateRoot: called once per build, as in the code; afterwards the caches hold current results.
- StateDatabase.StateDb.TransferValue: whether the EIP-7708 transfer log is emitted is a parameter, as it depends on the fork and on the call being a system call.
- StateDatabase.StateDb.SelfDestruct: the same parameter for its transfer log.
- StateDatabase.StateDb.WipeSlots: visits all slots and skips those of other addresses, where the code keeps a list per address.
- AccessLists.AccessList.Push: node numbers are taken to fit 32 bits, which the code does not check.
- Ssz.MerkleizeProgressive: fewer than 2^60 chunks, so that the widths stay within 64 bits; the code does not check.
- Mpt.MerklePatriciaTrie.RootHash: distinct keys, as the class comment asks of its callers.
- Allocator.Heap.Realloc: a request that wraps and is granted all the same is excluded, since the copy then runs past the end of memory.
- AccessRuns.Block: as many operations as keep the node numbers within 32 bits.
- StateDatabase.StateDb.ClearAccount: the access-list record a wiped slot opens belongs to `access_runs.dfy`, where it is a write like any other.
