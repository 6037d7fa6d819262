# A verified model of the EthereumJS state machines

This project models the parts of the EthereumJS monorepo that keep state consistent under undo, reorganisation
and partial failure, and proves what they promise:

- **The Merkle Patricia Trie** (`packages/mpt`). `Trie` and `TrieHistory` say what `put` and `del` do to a trie
  as a tree, `MptNode` and `MptStore` how trees become nodes, references and database entries, `MptPath`,
  `MptWalk`, `MptUpdate` and `MptDelete` how walks, splits and collapses edit a stack of nodes, and the class
  `Mpt.MerklePatriciaTrie` is the trie itself: a root hash, a database and the loops over the stack. Its ghost
  field `tree` is what the root stands for; every method is proved to move it as the tree operations do.
  `MptFormat` says what bytes a node consists of. `MptHistory` puts this together: the root hash is a function of
  the contents alone, over arbitrary keys, as long as every deletion is one that `del` gets right; over keys of one
  length all of them are.
- **Messages and frames of the EVM** (`packages/evm`). `EvmSpec` says what a message does to the world, as
  mutually recursive functions over every call tree; `EvmLaws` proves conservation of ether, that failure
  leaves no trace, and that a running frame's cached account never goes stale; `EvmReverts` follows init code that
  reverts up to the frame that called it. `EvmStory` tells every call tree a second time, as the flat list of what its
  surviving frames did, with the gas it cost and the data it gave back, and replays that list on one ledger without
  checkpoints, frames or copied sets; `EvmReplay` proves that every message and every frame comes to the same, and
  `EvmReplayLaws` what follows for logs, refunds, storage, created and destroyed contracts. `EvmStatic` proves that
  static calls change nothing. The classes `Evm.Evm` and
  `Evm.Interpreter` are proved equal to `EvmSpec` while they work on three undo mechanisms at once: the
  `SimpleStateManager`'s stacks of tables, the `Journal`'s list of differences and `TransientStorage`'s log.
- **The undo logs**. `JournalLog` and `TransientLog` prove that a flat list of differences, tagged by height or
  cut by index, refines a stack of snapshots for every well-nested run; `JournalHistory` and `TransientHistory` say
  from the operations that have not been reverted alone what is warm, touched and stored after a run.
- **The canonical chain** (`packages/blockchain`). `Chain` and `ChainLaws` hold the invariant, the exact
  conditions under which operations keep it, and the heaviest-chain rule, and `ChainOps` what each operation does to
  every block and pointer; the class `Blockchain.Blockchain`
  queues database operations and reads the old index until the batch is written, as the source does.
- **RLP** (`packages/rlp`; `RlpLayout` for the bytes), **jump analysis** with its opcode cache
  (`packages/evm/src/interpreter.ts`; `JumpLaws` for what a run pushes and where it goes), the **verkle access
  witness** (`VerkleHistory` for what a run leaves in it and costs) and the **blob base fee**
  (`packages/block/src/helpers.ts`).

Classes stand for the objects the source updates in place, with its loops; ghost and pure functions say what a
method computes; lemmas relate them. Keccak, address generation and stem hashing are parameters. Where a
property needs a hash without collisions, it asks for that only on the set of byte strings at hand
(`CollisionFree`) or on the header being put (`NoCollision`).

## Where code and documentation disagree

The model follows the code. Where a promise fails, the exact condition and a concrete input are named:

- `value(null)` on a branch does not clear its value (`packages/mpt/src/node/branch.ts:21-27`), so `del` of a
  key that ends at a branch with two or more children changes nothing (`MptHistory.DelLeavesValue`).
- Collapsing a branch counts children only (`packages/mpt/src/mpt.ts:738-741`) and loses the branch's own value
  (`MptHistory.DelLosesNeighbour`); a found node without a parent is taken for the whole trie
  (`packages/mpt/src/mpt.ts:713-717`). `Trie.DelExactly` gives the exact condition; keys of one length meet it.
- Deleting the only child of a branch with a value leaves a branch that `put` would never make, so that the root
  tells what was deleted (`MptHistory.HistoryMatters`). `Trie.DelCanonicalExactly` gives the exact condition, and
  `TrieHistory.CleanExactly` joins it with the one above.
- The note in `revert` of the journal asks whether differences `[4,3,4]` are undone correctly
  (`packages/evm/src/journal.ts:131-132`). They are: the first 4 has been committed
  into 3, which is still open, and is undone when 3 is (`JournalLog.RunRefines`).
- `_headBlockHash` is said always to be canonical (`packages/blockchain/src/blockchain.ts:68-73`); it need not be
  when headers and blocks are mixed (`ChainLaws.BlockHeadMayBeStale`). `ChainLaws.BlockHeadExactly` gives the exact
  condition for an operation and `ChainLaws.BlockHeadRun` for a run.
- After a reorg stale heads are said to go to the common ancestor (`packages/blockchain/src/blockchain.ts:376-382`);
  those above the new head's number go to the new head instead, unless it was canonical already
  (`ChainLaws.StaleHeadExactly`, and `ChainLaws.StaleHeadRun` for a run that gets there).
- Reverting the witness does not take back write flags set on committed events
  (`packages/evm/src/verkleAccessWitness.ts:262-274`; `VerkleWitness.WriteOutlivesRevert`).
  `VerkleWitness.RevertGivesBack` says exactly when a revert restores the committed witness.
- The check for code starting with 0xEF (`packages/evm/src/evm.ts:615-618`) does not look at whether init code
  failed, so init code that reverts with such data consumes all its gas (`EvmReverts.RevertsAtOnce`).
  `EvmReverts.DepositAfterError` gives the exact condition and `EvmReverts.RevertedCreate` what it does to the
  calling frame.

## Model

| member | source | states |
|---|---|---|
| Rlp.HexIsBigEndian | packages/rlp/src/index.ts:206-212 | Going through an even-length hex string gives the shortest big-endian bytes of a number |
| Rlp.LongPrefix | packages/rlp/src/index.ts:22-30 | Above 55 bytes the prefix is the big-endian byte `offset + 55 + k` followed by the `k` big-endian bytes of the length |
| Rlp.PrefixReadsBack | packages/rlp/src/index.ts:15-20 | A long prefix in front of a payload is read back to the same length and cuts off exactly that payload |
| Rlp.Encode | packages/rlp/src/index.ts:262-278 | The loops compute the encoding of any nested item |
| Rlp.DecodeOne | packages/rlp/src/index.ts:47-134 | The loops compute the decoder's result, item and remainder or the error it throws |
| Rlp.DecodePayload | packages/rlp/src/index.ts:98-103 | The loop over a list payload decodes items one after another until nothing is left |
| Rlp.DecodeAfterEncode | packages/rlp/src/index.ts:47-134 | Whatever follows, decoding an encoding with payload below 2^64 bytes gives back the item and exactly what follows |
| Rlp.DecodeIsCanonical | packages/rlp/src/index.ts:47-134 | Conversely, whatever input is accepted is the encoding of the returned item followed by the returned remainder |
| Rlp.RoundTripExactly | packages/rlp/src/index.ts:22-30 | The round trip holds for an item, for every continuation, if and only if its payload is shorter than 2^64 bytes |
| Rlp.EncodingIsPrefixFree | packages/rlp/src/index.ts:262-278 | Two encodings at the front of the same bytes are the same, and so are their items and remainders |
| Rlp.DecodeAll | packages/rlp/src/index.ts:288-307 | Without `stream`: accepted input is exactly the encoding of the result, rejected input is the encoding of nothing below 2^64 |
| RlpLayout.FromBigEndianFront | packages/rlp/src/index.ts:15-20 | A byte in front of a number counts for its place, and a leading zero for nothing |
| RlpLayout.Layout | packages/rlp/src/index.ts:22-30 | The first byte and the long length tell size and kind of the payload, which follows; a single byte below 0x80 stands for itself |
| RlpLayout.ListPayload | packages/rlp/src/index.ts:262-278 | The payload of a list is the encodings of its items, one after the other |
| Trie.PutIsWF | packages/mpt/src/mpt.ts:540-641 | `put` keeps the trie well formed, and canonical if it was |
| Trie.GetPut | packages/mpt/src/mpt.ts:540-641 | `put` is map update for every key, prefixes of other keys included |
| Trie.PutKeyLength | packages/mpt/src/mpt.ts:540-641 | A key of the same length as all others keeps all keys of one length |
| Trie.DelIsWF | packages/mpt/src/mpt.ts:647-774 | `del` keeps the trie well formed and empties it only when it was one leaf with that key |
| Trie.GetDel | packages/mpt/src/mpt.ts:647-774 | Away from two kinds of branch with a value, `del` is map removal |
| Trie.DelWitness | packages/mpt/src/mpt.ts:719-773 | At those branches some key reads wrongly after `del` |
| Trie.WipingIsRemoval | packages/mpt/src/mpt.ts:713-717 | Deleting the value of a branch at the root wipes the trie; that is a removal if and only if the branch has no children |
| Trie.DelReads | packages/mpt/src/mpt.ts:647-774 | What every key reads after `del`, on every trie: the key itself reads nothing, unless it ends at a branch with more children; so does the value of a branch that keeps one child; all else reads as before |
| Trie.DelExactly | packages/mpt/src/mpt.ts:647-774 | `del` is map removal if and only if the key does not end at, or lose a child of, one of those branches |
| Trie.DelCanonicalExactly | packages/mpt/src/mpt.ts:736-773 | `del` keeps a trie canonical if and only if it does not remove the only child of a branch, which leaves a branch with a value and no child |
| Trie.DelEqualLength | packages/mpt/src/mpt.ts:647-774 | Where all keys have the length of the deleted one, `del` always is map removal and the result canonical |
| TrieHistory.CanonicalIsUnique | packages/mpt/src/mpt.ts:540-811 | Two canonical tries that read the same everywhere are equal |
| TrieHistory.EqualLengthRun | packages/mpt/src/mpt.ts:208-310 | After any run of `put` and `del` over keys of one length the trie is canonical and reads like the map |
| TrieHistory.PutRun | packages/mpt/src/mpt.ts:208-267 | After any run of `put` over arbitrary keys the trie is canonical and reads like the map |
| TrieHistory.CleanExactly | packages/mpt/src/mpt.ts:208-310 | From a canonical trie an operation does what it does to a map and leaves a canonical trie if and only if it is a clean one: a `put` of a value, or a `del` away from the branches it gets wrong |
| TrieHistory.RegularIsCareful | packages/mpt/src/mpt.ts:208-310 | Runs over keys of one length, and runs of `put` alone, are careful |
| TrieHistory.RunRefinesMap | packages/mpt/src/mpt.ts:208-310 | After any careful run over arbitrary keys, one in which every `del` is exact and strands nothing, the trie is canonical and reads like the map |
| TrieHistory.HistoryIndependence | packages/mpt/src/mpt.ts:208-310 | Two careful runs, over whatever keys, end in the same trie if and only if they leave the same map |
| TrieHistory.PutThenDelExactly | packages/mpt/src/mpt.ts:208-310 | Putting a fresh key and deleting it again gives back the very same trie if and only if the deletion is a clean one |
| TrieHistory.PutThenDel | packages/mpt/src/mpt.ts:208-310 | With keys of one length it always is |
| MptNode.HexPrefixRoundTrip | packages/mpt/src/util/hex.ts:8-47 | The hex prefix with its terminator flag is removed and read back exactly |
| MptNode.PackRoundTrip | packages/mpt/src/util/nibbles.ts:10-36 | Packing an even number of nibbles and unpacking them gives them back |
| MptNode.UnpackRoundTrip | packages/mpt/src/util/nibbles.ts:10-36 | Unpacking bytes and packing the nibbles gives the bytes back |
| MptNode.NibblesInjective | packages/mpt/src/util/nibbles.ts:10-22 | Different keys have different nibbles |
| MptNode.DecodeRawRoundTrip | packages/mpt/src/node/util.ts:12-24 | Decoding the raw form of a leaf, extension or branch gives the node back |
| MptNode.SerializeInjective | packages/mpt/src/node/branch.ts:33-39 | Different nodes have different serializations |
| MptNode.RefDetermines | packages/mpt/src/mpt.ts:822-853 | With a hash without collisions on the universe in use, a reference determines the subtree, inline or hashed |
| MptNode.RootCommits | packages/mpt/src/mpt.ts:822-853 | Two tries have the same root hash if and only if they are equal |
| MptFormat.HexPrefixFirst | packages/mpt/src/util/hex.ts:8-20 | The first byte of a packed key holds the leaf flag, the parity, and the first nibble of an odd number |
| MptFormat.HexPrefixBytes | packages/mpt/src/util/hex.ts:8-20 | Every other byte holds the next two nibbles, and there is no byte more |
| MptFormat.NodeBytes | packages/mpt/src/node/branch.ts:33-39 | The serialized bytes of a leaf, an extension and a branch, field by field |
| MptFormat.ReferenceBytes | packages/mpt/src/mpt.ts:822-853 | In its parent a node stands by itself if it has less than 32 bytes, and by its hash if not |
| MptFormat.RootBytes | packages/mpt/src/mpt.ts:822-853 | The root is the hash of the whole top node, however short it is, or of the encoding of the empty string |
| MptPath.PathFits | packages/mpt/src/mpt.ts:318-449 | The keys along a walk and what is left make up the key; putting the walk back together gives the trie |
| MptPath.GetAtTarget | packages/mpt/src/mpt.ts:190-199 | What `get` reads is the value of the node where the walk stops, if it stops on the key |
| MptPath.PutAtTarget | packages/mpt/src/mpt.ts:540-641 | `put` changes the node where the walk stops and nothing beside the path |
| MptPath.FoundLeafHasBranch | packages/mpt/src/mpt.ts:722-726 | The parent of a leaf is a branch that holds it: the check in `_deleteNode` never throws |
| MptPath.DelNotFound | packages/mpt/src/mpt.ts:301-303 | `del` of a key that is not there changes nothing |
| MptPath.DelAtTarget | packages/mpt/src/mpt.ts:706-773 | `del` replaces the branch that loses an occupant, merged into the extension above it if it must be |
| MptStore.DecodeNodeReads | packages/mpt/src/node/util.ts:30-34 | A serialized node is read back |
| MptStore.BatchExtends | packages/mpt/src/mpt.ts:809 | Writing a batch never loses or changes a stored node, so every earlier root stays readable |
| MptStore.LookupFinds | packages/mpt/src/mpt.ts:512-530 | Looking up the reference of a stored subtree finds its node |
| MptStore.RootLookup | packages/mpt/src/mpt.ts:512-530 | The root is found exactly when the trie is not empty |
| MptStore.FormatStores | packages/mpt/src/mpt.ts:822-853 | Formatting a node whose children are stored makes the whole subtree stored under the returned reference |
| MptWalk.MoveIsStep | packages/mpt/src/mpt.ts:338-411 | What the callback decides from a node alone is the step of the walk in the trie |
| MptWalk.SaveRound | packages/mpt/src/mpt.ts:787-803 | A round of `saveStack` moves one node up the path with everything below it stored |
| MptWalk.SaveDone | packages/mpt/src/mpt.ts:805-810 | After the last round the new trie is stored under the new root and nothing old is lost |
| MptUpdate.ReadyLeaf | packages/mpt/src/mpt.ts:577-580 | Replacing the value of the leaf makes the stack the path of the updated trie |
| MptUpdate.ReadyBranchValue | packages/mpt/src/mpt.ts:589-591 | The same for the value of a branch |
| MptUpdate.ReadyBranchSlot | packages/mpt/src/mpt.ts:581-588 | The same for a new leaf in an empty slot |
| MptUpdate.ForkKeeps | packages/mpt/src/mpt.ts:594-628 | When a leaf or extension is split, what it held is kept, stored, under its shorter key |
| MptUpdate.ReadyFork | packages/mpt/src/mpt.ts:592-638 | The extension, branch and leaf pushed for a split are the path of the updated trie |
| MptDelete.ChildrenCounted | packages/mpt/src/node/branch.ts:50-59 | The children listed for a branch are its occupied slots |
| MptDelete.MergedFits | packages/mpt/src/mpt.ts:648-704 | In all six cases of collapse and merge the new path is the old one with the branch taken out |
| MptDelete.ReadyMerged | packages/mpt/src/mpt.ts:741-764 | After a collapse the stack is the path of the trie without the key, all of it stored |
| MptDelete.ReadyPlain | packages/mpt/src/mpt.ts:765-773 | The same when the branch stays |
| Mpt.MerklePatriciaTrie.constructor | packages/mpt/src/mpt.ts:117-135 | The trie that a given root stands for in a given database, or the empty trie on it where no root is given |
| Mpt.MerklePatriciaTrie.TargetIsKey | packages/mpt/src/mpt.ts:1011-1016 | Walks follow all nibbles of the key, or of its hash with key hashing |
| Mpt.MerklePatriciaTrie.FindPath | packages/mpt/src/mpt.ts:318-449 | Node, remainder and stack are those of the walk in the trie the root stands for |
| Mpt.MerklePatriciaTrie.OnFound | packages/mpt/src/mpt.ts:338-411 | The three kinds of node, with the loops that compare keys |
| Mpt.MerklePatriciaTrie.KeyMatches | packages/mpt/src/mpt.ts:401-408 | The loop finds out whether a node's key is a prefix of the rest of the key |
| Mpt.MerklePatriciaTrie.Get | packages/mpt/src/mpt.ts:190-199 | Returns what the trie the root stands for holds under the key |
| Mpt.MerklePatriciaTrie.SaveStack | packages/mpt/src/mpt.ts:783-811 | Root and store afterwards stand for the trie the stack is a path of; nothing stored is lost |
| Mpt.MerklePatriciaTrie.CreateInitialNode | packages/mpt/src/mpt.ts:498-507 | A single leaf |
| Mpt.MerklePatriciaTrie.MatchesLeaf | packages/mpt/src/mpt.ts:556-575 | The position loop finds out whether the last node is the leaf of the key |
| Mpt.MerklePatriciaTrie.UpdateNode | packages/mpt/src/mpt.ts:540-641 | Root and store afterwards stand for the updated trie |
| Mpt.MerklePatriciaTrie.SplitNode | packages/mpt/src/mpt.ts:592-640 | The part of it that splits a leaf or an extension |
| Mpt.MerklePatriciaTrie.GetChildren | packages/mpt/src/node/branch.ts:50-59 | The loop lists the occupied slots in order |
| Mpt.MerklePatriciaTrie.ProcessBranch | packages/mpt/src/mpt.ts:648-704 | Key and stack after a branch has been merged away |
| Mpt.MerklePatriciaTrie.TakeOccupant | packages/mpt/src/mpt.ts:719-734 | Takes the value or the leaf from its branch |
| Mpt.MerklePatriciaTrie.DeleteNode | packages/mpt/src/mpt.ts:647-774 | Root and store afterwards stand for the trie after `del` |
| Mpt.MerklePatriciaTrie.Rejoin | packages/mpt/src/mpt.ts:736-773 | The last part of it: counting children, collapsing, saving |
| Mpt.MerklePatriciaTrie.Put | packages/mpt/src/mpt.ts:208-267 | `put` refines the operation on tries. For byte keys it is map update: afterwards every key reads the value if it is the key put, or has its hash with key hashing, and otherwise what it read before; an empty value deletes |
| Mpt.MerklePatriciaTrie.Del | packages/mpt/src/mpt.ts:275-310 | `del` refines the operation on tries, and the store only grows. For byte keys it says what every key reads afterwards, and that this is map removal wherever `Trie.DelRootIsExact` holds |
| MptHistory.RootIsContents | packages/mpt/src/mpt.ts:208-310 | After any two careful runs, over whatever keys, the root hashes are equal if and only if the contents are |
| MptHistory.RootIsKeysAndValues | packages/mpt/src/mpt.ts:208-310 | The same in terms of byte keys: the roots are equal if and only if the same value is left under every key |
| MptHistory.HistoryMatters | packages/mpt/src/mpt.ts:736-773 | Counterexample outside careful runs: with keys of mixed length a deletion can be exact and the trie still tell that the key was once there |
| MptHistory.DelLeavesValue | packages/mpt/src/node/branch.ts:21-27 | Counterexample: deleting a key that ends at a branch with two children leaves its value readable |
| MptHistory.DelLosesNeighbour | packages/mpt/src/mpt.ts:738-764 | Counterexample: deleting one of two children below a value loses the value as well |
| JournalLog.TouchStep | packages/evm/src/journal.ts:97-115 | Touching an address is touching it in the stack of snapshots |
| JournalLog.WarmAddressStep | packages/evm/src/journal.ts:248-260 | Warming an address changes only the current snapshot |
| JournalLog.WarmSlotStep | packages/evm/src/journal.ts:289-312 | Warming a slot likewise, also where the address was cold |
| JournalLog.CheckpointStep | packages/evm/src/journal.ts:122-126 | A checkpoint pushes the current snapshot |
| JournalLog.CommitStep | packages/evm/src/journal.ts:116-120 | A commit drops the top snapshot although the list of differences grows |
| JournalLog.RevertStep | packages/evm/src/journal.ts:128-178 | A revert pops to the top snapshot and leaves all lower ones as they were |
| JournalLog.RevertedTo | packages/evm/src/journal.ts:128-178 | After a revert the warm map is the saved one and touched is the saved set plus RIPEMD160 if it was touched |
| JournalLog.StepRefines | packages/evm/src/journal.ts:97-312 | Every operation on the list of differences is the operation on the stack of snapshots |
| JournalLog.RunRefines | packages/evm/src/journal.ts:97-312 | So is every well-nested run |
| JournalLog.RevertRestores | packages/evm/src/journal.ts:128-178 | A checkpoint, any balanced run and a revert give back the warm map and the touched set, RIPEMD160 aside, and all earlier checkpoints; this settles the open question in the code |
| JournalHistory.WarmExactly | packages/evm/src/journal.ts:238-312 | After any well-nested run an address is warm if and only if an operation that has not been reverted warmed it or one of its slots, and a slot if and only if one warmed that slot |
| JournalHistory.TouchedExactly | packages/evm/src/journal.ts:97-178 | An address is touched if and only if an operation that has not been reverted touched it, and RIPEMD160 if any operation ever did |
| Journal.Journal.Checkpoint | packages/evm/src/journal.ts:122-126 | The list and the state manager open a checkpoint together |
| Journal.Journal.Commit | packages/evm/src/journal.ts:116-120 | Both close it and keep everything |
| Journal.Journal.Revert | packages/evm/src/journal.ts:128-178 | Both go back to it; touched RIPEMD160 stays |
| Journal.Journal.UndoBack | packages/evm/src/journal.ts:130-170 | The backward loop undoes every difference down to the last lower one |
| Journal.Journal.TouchAccount | packages/evm/src/journal.ts:97-115 | Touched grows by the address; no checkpoint changes |
| Journal.Journal.PutAccount | packages/evm/src/journal.ts:82-85 | Touches the address and writes the account |
| Journal.Journal.AddWarmedAddress | packages/evm/src/journal.ts:248-260 | The address is warm and keeps its slots; no checkpoint changes |
| Journal.Journal.AddWarmedStorage | packages/evm/src/journal.ts:289-312 | The slot is warm; no checkpoint changes |
| Journal.Journal.AddAlwaysWarmSlot | packages/evm/src/journal.ts:211-232 | Adds to the set outside all checkpoints |
| Journal.Journal.IsWarmedStorage | packages/evm/src/journal.ts:267-282 | A slot is warm if and only if it is in either place |
| TransientLog.ReadIsGet | packages/evm/src/transientStorage.ts:35-45 | What is seen of a storage is what `get` returns, absent slots and 32 zero bytes being the same |
| TransientLog.SetValues | packages/evm/src/transientStorage.ts:77 | A write is a write to what is seen |
| TransientLog.UndoSet | packages/evm/src/transientStorage.ts:103-106 | Writing back the previous value undoes a write as far as can be seen |
| TransientLog.TPutStep | packages/evm/src/transientStorage.ts:53-78 | `put` changes the current values and no checkpoint |
| TransientLog.UndoneFurther | packages/evm/src/transientStorage.ts:99-108 | Undoing in two steps is undoing in one |
| TransientLog.TRevertStep | packages/evm/src/transientStorage.ts:99-108 | `revert` pops to the values at the checkpoint and keeps the lower ones |
| TransientLog.TRunKeepsBelow | packages/evm/src/transientStorage.ts:53-108 | A run that only closes what it opens leaves earlier checkpoints as they were |
| TransientLog.TRevertRestores | packages/evm/src/transientStorage.ts:53-108 | A checkpoint, any balanced run and a revert: `get` returns what it returned before, for every address and slot |
| TransientHistory.GetsLastWritten | packages/evm/src/transientStorage.ts:35-108 | After any run `get` returns, for every address and slot, what was last written by a `put` that has not been reverted, or 32 zero bytes |
| TransientStorage.TransientStorage.Get | packages/evm/src/transientStorage.ts:35-45 | Reads the current values |
| TransientStorage.TransientStorage.Put | packages/evm/src/transientStorage.ts:53-78 | Writes a slot and notes the previous value; throws, and changes nothing, if and only if the key is not 32 bytes long or the value is longer |
| TransientStorage.TransientStorage.Commit | packages/evm/src/transientStorage.ts:83-87 | Drops a checkpoint |
| TransientStorage.TransientStorage.Checkpoint | packages/evm/src/transientStorage.ts:92-94 | Opens one |
| TransientStorage.TransientStorage.Revert | packages/evm/src/transientStorage.ts:99-108 | The backward loop gives back the values at the checkpoint |
| TransientStorage.TransientStorage.Clear | packages/evm/src/transientStorage.ts:127-130 | Empties storage and log but not the checkpoints, so the log is sound afterwards if and only if they all stand at 0 |
| StateManager.SimpleStateManager.Checkpoint | packages/statemanager/src/simpleStateManager.ts:55-67 | Opens a checkpoint on the current tables |
| StateManager.SimpleStateManager.Commit | packages/statemanager/src/simpleStateManager.ts:119-123 | Keeps the current tables and drops the checkpoint, for all three stacks |
| StateManager.SimpleStateManager.Revert | packages/statemanager/src/simpleStateManager.ts:125-129 | Goes back to the tables at the checkpoint |
| StateManager.SimpleStateManager.GetAccount | packages/statemanager/src/simpleStateManager.ts:69-71 | Reads the current tables; a deleted account is absent |
| StateManager.SimpleStateManager.PutAccount | packages/statemanager/src/simpleStateManager.ts:73-75 | Writes one account and changes no checkpoint |
| StateManager.SimpleStateManager.DeleteAccount | packages/statemanager/src/simpleStateManager.ts:77-79 | Marks it deleted |
| StateManager.SimpleStateManager.ModifyAccountFields | packages/statemanager/src/util.ts:6-28 | Changes the given fields of an account, new if it was absent |
| StateManager.SimpleStateManager.GetCode | packages/statemanager/src/simpleStateManager.ts:85-87 | Code of the current tables |
| StateManager.SimpleStateManager.PutCode | packages/statemanager/src/simpleStateManager.ts:89-97 | Writes code and code hash, creating the account |
| StateManager.SimpleStateManager.PutStorage | packages/statemanager/src/simpleStateManager.ts:110-112 | Writes one slot |
| EvmSpec.RunCall | packages/evm/src/evm.ts:838-980 | For every call tree: gas used is at most the gas limit, no account disappears, and a failed message below the top changes no account |
| EvmSpec.Settled | packages/evm/src/evm.ts:944-979 | Accounts, burned ether and result after commit or revert |
| EvmSpec.Transferred | packages/evm/src/evm.ts:304-348 | A failed debit is still followed by the credit; no account disappears |
| EvmSpec.ExecuteCall | packages/evm/src/evm.ts:262-415 | The bounds of `RunCall` for a call |
| EvmSpec.RunPrecompile | packages/evm/src/evm.ts:1021-1040 | A precompile stays within its gas and changes no account |
| EvmSpec.ExecuteCode | packages/evm/src/evm.ts:350-414 | The bounds for the code that is found |
| EvmSpec.ExecuteCreate | packages/evm/src/evm.ts:417-505 | The bounds for a create |
| EvmSpec.CreateAt | packages/evm/src/evm.ts:507-744 | The bounds once its address is known |
| EvmSpec.Deposited | packages/evm/src/evm.ts:592-668 | Paying for deployed code stays within gas and never repairs a failure |
| EvmSpec.RunInterpreter | packages/evm/src/evm.ts:749-831 | The bounds for a frame |
| EvmSpec.Concluded | packages/evm/src/evm.ts:796-831 | The gas of a frame that has ended |
| EvmSpec.RunFrom | packages/evm/src/interpreter.ts:279-355 | The loop ends, with gas between 0 and what it started with |
| EvmSpec.RunStep | packages/evm/src/interpreter.ts:362-429 | An operation that goes on leaves less gas and a cached account equal to the state's |
| EvmSpec.BaseCall | packages/evm/src/interpreter.ts:972-1034 | After a call, gas has not grown and the cached account is the state's, so the deduction commented as safe never traps |
| EvmSpec.Create | packages/evm/src/interpreter.ts:1039-1142 | The same after a create |
| EvmSpec.SelfDestruct | packages/evm/src/interpreter.ts:1181-1224 | Ends the frame without an error |
| EvmSpec.NeverCleared | packages/evm/src/evm.ts:1113-1115 | Only a message of depth 0 clears transient storage |
| EvmLaws.TransferConserves | packages/evm/src/evm.ts:304-348 | A transfer that reports no error moves ether and makes none |
| EvmLaws.TransferMoves | packages/evm/src/evm.ts:304-348 | It takes the value from the caller, gives it to the callee and touches no other balance |
| EvmLaws.RunCallConserves | packages/evm/src/evm.ts:838-980 | For every call tree the sum of all balances after it plus what was burned is the sum before; nothing is burned if the message fails or no code destroys itself to itself |
| EvmLaws.SelfDestructConserves | packages/evm/src/interpreter.ts:1181-1224 | Self-destruction moves the balance, and burns only when the beneficiary is the contract itself |
| EvmLaws.CreateAtConserves | packages/evm/src/evm.ts:507-744 | A create passes on exactly what its caller was debited |
| EvmLaws.DepositFailsOnFrontier | packages/evm/src/evm.ts:644-667 | Only before Homestead can a code deposit fail with the error that is dismissed |
| EvmLaws.FailureLeavesNoTrace | packages/evm/src/evm.ts:904-971 | After a failed message accounts, code, storage, transient values and warmth are those at its checkpoint, touched is too but for RIPEMD160, and logs, destroyed and created sets and refund are empty |
| EvmLaws.FailedCallKeepsFrame | packages/evm/src/interpreter.ts:972-1034 | A failed call changes nothing of the calling frame but gas, return data and the value pushed, and nothing of the state |
| EvmLaws.FailedCreateKeepsFrame | packages/evm/src/interpreter.ts:1039-1142 | A failed create changes nothing but the nonce, once tried, and warmth, gas and return data |
| EvmLaws.CreateNamesAddress | packages/evm/src/interpreter.ts:1115-1139 | A create whose deposit failed still names its address |
| EvmLaws.DeployedCodeIsAllowed | packages/evm/src/evm.ts:592-668 | Code that is deployed without error is paid for, within the size limit and does not start with 0xEF |
| EvmReverts.DepositAfterError | packages/evm/src/evm.ts:592-668 | A failed init code keeps its gas and its data if and only if the data does not begin with 0xEF under EIP-3541; otherwise it has used all gas, with another error and no data |
| EvmReverts.CreateReports | packages/evm/src/evm.ts:507-744 | What a create reports is the result of its init code after the deposit, whenever that code is run at all |
| EvmReverts.ReportOfRevert | packages/evm/src/evm.ts:838-980 | For init code that reverts, the message as a whole reports that result, stripped of its sets, logs and refund |
| EvmReverts.RevertedCreate | packages/evm/src/interpreter.ts:1078-1141 | A frame whose create reverts gets the unused gas and the data back if and only if the data does not begin with 0xEF under EIP-3541; otherwise it has lost all gas passed on and gets no data |
| EvmReverts.RevertsAtOnce | packages/evm/src/evm.ts:615-618 | Counterexample: init code that reverts at once, at no cost, with the one byte 0xEF makes the create use all its gas |
| EvmReplay.FrameAsTold | packages/evm/src/interpreter.ts:279-355 | From any of its operations on, a frame ends as its story tells, with that error, gas and data, and leaves state and results as the replay of the surviving deeds does |
| EvmReplay.MessageAsTold | packages/evm/src/evm.ts:838-980 | Every message, of every call tree: its error, gas and data are those told; kept, it leaves accounts, codes, storage, transient storage, warm and touched addresses, logs, refund, destroyed and created contracts as the replay of its surviving deeds does; rolled back, only what came before its checkpoint |
| EvmReplay.PaymentFails | packages/evm/src/evm.ts:304-348 | A transfer fails exactly when the payer has too little or the receiver would have too much, and with which error |
| EvmReplayLaws.MessageGathers | packages/evm/src/interpreter.ts:998-1033 | The logs of a message that is kept are those emitted in its call tree by frames that have not been rolled back, in order; its destroyed and created contracts are those of such frames; its refund is what they granted less what they took back, and one refund for each contract newly destroyed |
| EvmReplayLaws.MessageStores | packages/evm/src/interpreter.ts:627-657 | After a message every slot, of storage and of transient storage, holds what was last written to it by a frame that has not been rolled back, or what it held before |
| EvmReplayLaws.CallReturns | packages/evm/src/interpreter.ts:972-1034 | After a call the frame gets one or zero, the data of a message that ended well or was reverted, and back the gas it has not used |
| EvmReplayLaws.CalleeSees | packages/evm/src/interpreter.ts:878-970 | In whose name, with whose code, storage and ether each of the four kinds of call runs, and that static stays static |
| EvmReplayLaws.SelfDestructMoves | packages/evm/src/interpreter.ts:1181-1224 | The whole balance goes to the beneficiary; in its own favour it is lost, or kept with EIP-6780 unless the contract is new; no other account changes |
| EvmReplayLaws.CreateDeploys | packages/evm/src/evm.ts:691-720 | A create that ends without an error leaves the very code its init code returned, and its hash, at the address it reports |
| EvmReplayLaws.TransactionCreatesAt | packages/evm/src/evm.ts:1069-1082 | A transaction creates at the address of its sender and the nonce before it was counted, or of salt and init code; the address is warm even if the create fails |
| EvmReplayLaws.FrameCreatesAt | packages/evm/src/interpreter.ts:1115-1139 | The address a frame gets from a create is that of its own address and the nonce before it was counted, or of salt and init code |
| EvmStatic.StaticChangesNothing | packages/evm/src/interpreter.ts:921-945 | A static call changes no account, code, storage or transient slot, emits no log and destroys and creates nothing, however deep its calls go, if handlers refuse to write in static frames |
| EvmLaws.EveryStepIsCoherent | packages/evm/src/interpreter.ts:279-355 | After any number of operations the cached contract is the state's account, and each operation has cost gas |
| Evm.Evm.constructor | packages/evm/src/evm.ts:163-240 | An empty world at rest |
| Evm.Evm.ReduceSenderBalance | packages/evm/src/evm.ts:1084-1094 | Debits, or throws without writing |
| Evm.Evm.AddToBalance | packages/evm/src/evm.ts:1096-1108 | Credits, or throws on overflow without writing |
| Evm.Evm.GenerateAddress | packages/evm/src/evm.ts:1069-1082 | From salt and code, or from the nonce minus one |
| Evm.Evm.Cleanup | packages/evm/src/evm.ts:1113-1115 | Empties transient storage at depth 0 and leaves all checkpoints sound |
| Evm.Evm.RunCall | packages/evm/src/evm.ts:838-980 | World and result are those of `EvmSpec.RunCall`; every checkpoint open before is as it was, so each checkpoint met exactly one commit or revert |
| Evm.Evm.Prepare | packages/evm/src/evm.ts:888-907 | Counts the transaction and warms the created address before the checkpoint |
| Evm.Evm.Checkpoint | packages/evm/src/evm.ts:909-910 | Opens one checkpoint in the journal, the state manager and transient storage |
| Evm.Evm.Settle | packages/evm/src/evm.ts:944-979 | Reverts or commits that one checkpoint in all three |
| Evm.Evm.ExecuteCall | packages/evm/src/evm.ts:262-415 | World and result of the call; checkpoints as before |
| Evm.Evm.Transfer | packages/evm/src/evm.ts:304-348 | Debit and credit, with the error of the later one |
| Evm.Evm.ExecuteCode | packages/evm/src/evm.ts:350-414 | Loads and runs code or a precompile |
| Evm.Evm.ExecuteCreate | packages/evm/src/evm.ts:417-505 | Debit, size check, address and collision check |
| Evm.Evm.CreateAt | packages/evm/src/evm.ts:507-744 | New account, endowment, init code, deposit, installation |
| Evm.Evm.Deposit | packages/evm/src/evm.ts:592-668 | Result after the fee and the checks for the code |
| Evm.Evm.Install | packages/evm/src/evm.ts:691-734 | Stores the code, or an empty contract on Frontier |
| Evm.Evm.RunInterpreter | packages/evm/src/evm.ts:749-831 | Builds the frame, runs it, and clears the result on error |
| Evm.Interpreter.Run | packages/evm/src/interpreter.ts:279-355 | Frame, world and error when the loop ends; checkpoints as before |
| Evm.Interpreter.RunStep | packages/evm/src/interpreter.ts:362-429 | Pays for the operation and runs its handler |
| Evm.Interpreter.UseGas | packages/evm/src/interpreter.ts:543-558 | Deducts, or traps with no gas left |
| Evm.Interpreter.SubRefund | packages/evm/src/interpreter.ts:581-594 | Deducts from the refund, or traps with none left |
| Evm.Interpreter.StorageStore | packages/evm/src/interpreter.ts:627-634 | Writes the slot; the account is always there, so nothing is thrown |
| Evm.Interpreter.Log | packages/evm/src/interpreter.ts:1229-1240 | Appends a log, or traps on a wrong number of topics |
| Evm.Interpreter.StartCall | packages/evm/src/opcodes/functions.ts:1433-1460 | Adds the stipend for a transfer of value and sends the message |
| Evm.Interpreter.BaseCall | packages/evm/src/interpreter.ts:972-1034 | Frame and world after a nested call |
| Evm.Interpreter.Merge | packages/evm/src/interpreter.ts:1014-1031 | Takes over sets, account and refund of a message that went well |
| Evm.Interpreter.Create | packages/evm/src/interpreter.ts:1039-1076 | The early returns, and the nonce |
| Evm.Interpreter.CreateRun | packages/evm/src/interpreter.ts:1078-1141 | Sends the message and takes its result |
| Evm.Interpreter.SelfDestruct | packages/evm/src/interpreter.ts:1181-1224 | Refund, beneficiary, and the balance set to 0 |
| Chain.JointIsHighest | packages/blockchain/src/blockchain.ts:1038-1071 | The block found by walking back to the index is an ancestor-or-self of the header and above or at every other canonical one |
| ChainLaws.NewIndexLinked | packages/blockchain/src/blockchain.ts:1155-1217 | The rewritten index is contiguous, each entry the parent of the next, and ends at the new head |
| ChainLaws.NewIndexIsAncestry | packages/blockchain/src/blockchain.ts:1155-1217 | It is the ancestry of the new head, number by number |
| ChainLaws.StaleHeadExactly | packages/blockchain/src/blockchain.ts:376-382 | In a reorg a canonical pointer ends on the old chain, as documented, if and only if it was not above the new head's number or the new head was canonical already; it then ends where it was or at the common ancestor |
| ChainLaws.AfterTwo | packages/blockchain/src/blockchain.ts:1086-1205 | For any genesis block, two blocks on top and a rival of the first: after three legal operations an iterator is at the second block |
| ChainLaws.StaleHeadMovesOn | packages/blockchain/src/blockchain.ts:1086-1205 | The rival then becomes the head, and the iterator is at that rival, which never was canonical, and not at the common ancestor, the genesis block |
| ChainLaws.StaleHeadRun | packages/blockchain/src/blockchain.ts:376-382 | Counterexample: that run with four headers written out |
| ChainLaws.CutIsGood | packages/blockchain/src/blockchain.ts:1086-1138 | Cutting the index and moving the pointers above the cut keeps the invariant |
| ChainLaws.PutOnTopIsGood | packages/blockchain/src/blockchain.ts:459-477 | So does every reorg, to a longer or a shorter chain |
| ChainLaws.DeleteExactly | packages/blockchain/src/blockchain.ts:843-877 | A deletion keeps it if and only if the block is canonical above the genesis block, or off the chain and not the block head |
| ChainLaws.SetHeadExactly | packages/blockchain/src/blockchain.ts:1025-1030 | Setting an iterator head keeps it if and only if the head is canonical |
| ChainLaws.StepIsGood | packages/blockchain/src/blockchain.ts:335-929 | Every legal operation keeps the invariant |
| ChainLaws.InitialIsGood | packages/blockchain/src/constructors.ts:56-82 | A new chain meets it |
| ChainLaws.RunIsCanonical | packages/blockchain/src/blockchain.ts:335-929 | After every legal run the index runs from genesis to the header head, is that head's ancestry, and holds every iterator head |
| ChainLaws.LookupFindsAncestor | packages/blockchain/src/blockchain.ts:1280-1286 | In every reachable state the index names, at each height, the ancestor of the header head there, and it names one if and only if the height is not above the head's |
| ChainLaws.OneHead | packages/blockchain/src/blockchain.ts:463-466 | Where only blocks are put, block head and header head coincide, and no operation of such a run loses the block head |
| ChainLaws.StepKeepsOneHead | packages/blockchain/src/blockchain.ts:463-483 | The same for one operation |
| ChainLaws.BlockHeadExactly | packages/blockchain/src/blockchain.ts:463-483 | An operation keeps a canonical block head canonical if and only if it does not put, under proof of work, a block off the chain that is heavier than the block head and no heavier than the header head |
| ChainLaws.BlockHeadRun | packages/blockchain/src/blockchain.ts:463-483 | So the block head is canonical all along a run if and only if no operation of it is such a `put` |
| ChainLaws.BlockHeadMayBeStale | packages/blockchain/src/blockchain.ts:481-483 | Counterexample: after a header and then a lighter block the block head is not canonical, against the comment at 69-73 |
| ChainLaws.TotalIsWeight | packages/blockchain/src/blockchain.ts:440-446 | A stored total difficulty is the sum of difficulties back to the genesis block |
| ChainLaws.AlwaysJoined | packages/blockchain/src/blockchain.ts:1038-1071 | With every parent stored the search for a common ancestor succeeds |
| ChainLaws.PutKeepsHeaviest | packages/blockchain/src/blockchain.ts:431-486 | Under proof of work the head stays heaviest; a tie keeps the incumbent |
| ChainLaws.HeaviestChain | packages/blockchain/src/blockchain.ts:431-486 | After any run of proof-of-work blocks no stored block outweighs the head, and both heads coincide |
| ChainOps.ResetDoes | packages/blockchain/src/blockchain.ts:335-370 | A reset to a number makes the canonical block there the head: the index is the old one up to it, exactly the pointers above go to it, no block is lost; above the head there is nothing to reset to |
| ChainOps.SetHeadDoes | packages/blockchain/src/blockchain.ts:1025-1030 | Setting an iterator head sets that one and nothing else |
| ChainOps.PutRefuses | packages/blockchain/src/blockchain.ts:384-436 | A header is refused if and only if it is another genesis block, is not valid, or would lead and cannot be joined to the canonical chain |
| ChainOps.PutFinds | packages/blockchain/src/blockchain.ts:440-486 | A header that is accepted is found, with its own weight added to its parent's, and everything else is found as before |
| ChainOps.PutLeads | packages/blockchain/src/blockchain.ts:452-486 | It is the head if and only if it is heavier or under proof of stake, the index then is its ancestry, and where the block head goes |
| ChainOps.DeleteForgets | packages/blockchain/src/blockchain.ts:831-929 | Deleting takes away exactly the block and, if it is canonical, the canonical blocks above it: nothing is found for them any more, and all else is found as before |
| ChainOps.DeleteCuts | packages/blockchain/src/blockchain.ts:843-877 | Deleting a canonical block makes its parent the head, and exactly the pointers to blocks that go point to the parent |
| Blockchain.Blockchain.constructor | packages/blockchain/src/constructors.ts:56-82 | Writes the genesis block to an empty database |
| Blockchain.Blockchain.GetCanonicalHeader | packages/blockchain/src/blockchain.ts:1280-1286 | Under the invariant it returns the ancestor of the header head at that height, and throws if and only if the height is above the head's |
| Blockchain.Blockchain.FindCommonAncestor | packages/blockchain/src/blockchain.ts:1038-1071 | The two loops end and find the highest canonical ancestor, or throw if and only if there is none |
| Blockchain.Blockchain.DeleteCanonicalChainReferences | packages/blockchain/src/blockchain.ts:1086-1138 | Queues the cut of the index and moves every pointer above it |
| Blockchain.Blockchain.MarkStale | packages/blockchain/src/blockchain.ts:1184-1198 | Once the walk has passed a height, the marked pointers are exactly those at a canonical block from there up to the new head's height |
| Blockchain.Blockchain.RewriteIndex | packages/blockchain/src/blockchain.ts:1165-1205 | The loop stops exactly at the common ancestor, with the new index queued and the stale pointers marked |
| Blockchain.Blockchain.RebuildCanonical | packages/blockchain/src/blockchain.ts:1155-1217 | The index becomes the new head's ancestry, and stale pointers go to the common ancestor |
| Blockchain.Blockchain.PutBlockOrHeader | packages/blockchain/src/blockchain.ts:384-501 | State afterwards, also when it throws; the invariant holds in both cases |
| Blockchain.Blockchain.Reorganise | packages/blockchain/src/blockchain.ts:459-477 | The two passes together, reading only the old index |
| Blockchain.Blockchain.ResetCanonicalHead | packages/blockchain/src/blockchain.ts:335-370 | The chain cut above the number, or nothing when there is no such block |
| Blockchain.Blockchain.DelBlock | packages/blockchain/src/blockchain.ts:831-877 | State afterwards, and the exact condition for the invariant |
| Blockchain.Blockchain.DelChild | packages/blockchain/src/blockchain.ts:894-929 | The recursion queues the deletion of the block and every canonical block above it |
| Blockchain.Blockchain.SetIteratorHead | packages/blockchain/src/blockchain.ts:1025-1030 | Sets the head; the invariant holds if and only if it is canonical |
| JumpAnalysis.BoundaryStep | packages/evm/src/interpreter.ts:518-533 | From an instruction, the next position that is one is past its push data |
| JumpAnalysis.GetValidJumpDestinations | packages/evm/src/interpreter.ts:512-535 | `jumps` is 1 exactly at a JUMPDEST that is an instruction; opcodes and pushes are cached exactly at instructions |
| JumpAnalysis.CacheAt | packages/evm/src/interpreter.ts:297-300 | At an instruction the cached entry and push value are those of direct decoding, and `jumps` decides validity |
| JumpAnalysis.RunsOnBoundaries | packages/evm/src/interpreter.ts:279-345 | Every position visited by a run from an instruction is an instruction |
| JumpLaws.PushedIsNumber | packages/evm/src/interpreter.ts:518-533 | In every run, PUSH1 to PUSH32 and nothing else push from the code, namely the number that the bytes after them make up by their places |
| JumpLaws.RunGoesOn | packages/evm/src/opcodes/functions.ts:839-876 | From one operation to the next a run goes straight on past the push data, or, at a JUMP or a JUMPI that is taken, to the JUMPDEST that was popped |
| JumpLaws.RunEndsBadly | packages/evm/src/opcodes/functions.ts:839-876 | A run ends at an invalid jump if and only if its last operation leaps to where no JUMPDEST is an instruction |
| JumpAnalysis.Runner.Run | packages/evm/src/interpreter.ts:279-345 | A run with lazy analysis and caches gives the events and the end of a run that decodes afresh |
| JumpAnalysis.Runner.RunStep | packages/evm/src/opcodes/functions.ts:839-978 | One operation: JUMP, JUMPI, PUSH with and without the cache, and the rest |
| JumpAnalysis.Runner.Decode | packages/evm/src/interpreter.ts:281-300 | Opcode and entry from the code or the cache, and the analysis before the first jump |
| VerkleWitness.TouchPays | packages/evm/src/verkleAccessWitness.ts:226-280 | An access is charged exactly what it adds to the worth of the witness; caches and committed keys stay apart and every chunk has its stem |
| VerkleWitness.CommitAndRevert | packages/evm/src/verkleAccessWitness.ts:307-322 | Committing keeps the worth, reverting never raises it, both keep the invariant |
| VerkleWitness.ChargedIsCost | packages/evm/src/verkleAccessWitness.ts:187-322 | After every run the gas charged is at least the worth of the witness, and equal to it without reverts |
| VerkleWitness.RevertExactly | packages/evm/src/verkleAccessWitness.ts:226-322 | A revert takes an access back if and only if it was not a write to a stem or chunk committed as read only |
| VerkleWitness.RevertsExactly | packages/evm/src/verkleAccessWitness.ts:226-322 | It takes any number of accesses back if and only if none of them was |
| VerkleWitness.RevertGivesBack | packages/evm/src/verkleAccessWitness.ts:226-322 | After any run, a commit, any accesses and a revert give back the committed witness if and only if none of the accesses was |
| VerkleWitness.WriteOutlivesRevert | packages/evm/src/verkleAccessWitness.ts:262-274 | Counterexample from an empty witness: read, commit, write, revert; the write is still there |
| VerkleHistory.WitnessExactly | packages/evm/src/verkleAccessWitness.ts:226-322 | After any run a stem or a chunk is known if and only if an access that has not been reverted was to it, and marked as written if and only if such an access wrote it, or one that was reverted wrote it when it was committed already |
| VerkleHistory.RunCosts | packages/evm/src/verkleAccessWitness.ts:187-280 | Without reverts a run costs 1900 for each stem, 3000 for each stem written, 200 for each chunk and 500 for each chunk written, each once |
| VerkleWitness.IndicesDecode | packages/evm/src/verkleAccessWitness.ts:51-84 | Storage slots and code chunks are decoded from their tree positions to what they were |
| VerkleWitness.DecodedBack | packages/evm/src/verkleAccessWitness.ts:51-84 | A place is decoded to the slot or the code whose place it is, except at the first 64 places of the main storage, which no slot has; places 2 to 63 decode to nothing |
| VerkleWitness.KeyReadsBack | packages/evm/src/verkleAccessWitness.ts:363-366 | A chunk key, a stem followed by the sub index in hex, is read back to that stem and that index |
| VerkleWitness.StemCache.Commit | packages/evm/src/stemCache.ts:22-35 | Returns everything and leaves the cache empty |
| VerkleWitness.ChunkCache.Commit | packages/evm/src/chunkCache.ts:22-30 | The same for chunks |
| VerkleWitness.VerkleAccessWitness.TouchAddress | packages/evm/src/verkleAccessWitness.ts:226-280 | Flags and new witness, events being changed in whichever map holds them |
| VerkleWitness.VerkleAccessWitness.TouchAddressAndComputeGas | packages/evm/src/verkleAccessWitness.ts:187-224 | The gas is what the witness gains in worth |
| VerkleWitness.VerkleAccessWitness.Commit | packages/evm/src/verkleAccessWitness.ts:307-317 | Everything cached is committed |
| VerkleWitness.VerkleAccessWitness.Revert | packages/evm/src/verkleAccessWitness.ts:319-322 | The caches are dropped |
| VerkleWitness.VerkleAccessWitness.DebugWitnessCost | packages/evm/src/verkleAccessWitness.ts:324-355 | The counted totals are the worth of the committed part |
| VerkleWitness.VerkleAccessWitness.RawAccesses | packages/evm/src/verkleAccessWitness.ts:356-370 | Every chunk is reported once, with an address and tree index that hash to its stem and the chunk index at the end of its key, and nothing is thrown |
| FakeExponential.TermsShrink | packages/block/src/helpers.ts:113-117 | Terms grow at most until the denominator times the index passes the numerator, then strictly shrink |
| FakeExponential.FakeExponential | packages/block/src/helpers.ts:109-120 | The loop ends for every positive denominator and sums all terms |
| FakeExponential.AtLeastFactor | packages/block/src/helpers.ts:109-120 | The result is at least the factor |
| FakeExponential.Monotone | packages/block/src/helpers.ts:109-120 | It never falls when factor or numerator rises |
| FakeExponential.BelowTaylor | packages/block/src/helpers.ts:106-120 | It never exceeds the factor times the exact Taylor sum, from the number of terms used on |
| FakeExponential.AboveTaylor | packages/block/src/helpers.ts:106-120 | It falls short of the factor times the Taylor sum of any number of terms by less than one and that sum over the denominator for each term |

## Left out

Trie:

- Node pruning, root persistence, `keyPrefix`, the checkpoint database, proofs, `getValueMap`, `walkAllNodes` and
  integrity checks: other features over the same operations.
- Mpt.MerklePatriciaTrie.FindPath: models `throwIfMissing` off and no partial path; the stack array that is indexed
  by progress and then filtered is a growing sequence, and the walk controller's scheduling is a loop.
- Mpt.MerklePatriciaTrie.Put: asks that all nodes of the new trie are in the set on which the hash has no collisions.
- Mpt.MerklePatriciaTrie.Del: likewise; it states map removal exactly where `Trie.DelRootIsExact` holds.
- Node objects are values: sharing of a node between two stacks is not modelled, and database entries that are no
  nodes are only told apart from nodes.

EVM:

- Opcode handlers are one arbitrary function `Config.handler` of frame and world that chooses the next action; each
  action goes through the modelled methods, costs at least one gas unless it halts, and transfers of value are
  charged before the stipend. Checks for static calls, the stack, memory and dynamic gas are inside that function.
- EvmStatic.StaticChangesNothing: that handlers refuse to write in static frames is its premise (`RefusesWrites`).
- EvmSpec.RunPrecompile: bodies of precompiles are arbitrary within their gas limit and change no state.
- EOF containers, EIP-6800 gas inside frames, EIP-7702 delegation, `skipBalance`, `runCode` on its own, events,
  profiling and debug output.
- A create at depth 0 must be funded, because the error of its debit is not caught.
- Evm.Evm.RunCall: a message of depth 0 starts with transient storage at rest, as the end of the one before leaves
  it; cleaning up the journal afterwards is the caller's.
- Accounts are values: changes to an account object the tables share are not captured, such as the balance that
  `_reduceSenderBalance` lowers before it throws; that message is then reverted to copies made at its checkpoint.
- The original-storage cache, access-list and preimage reporting, `clearStorage` (which does nothing here), and
  Merkle, RPC and verkle state managers.
- StateManager.SimpleStateManager.ModifyAccountFields: the code size, which verkle state managers keep, is not
  a field of the accounts here.

Chain:

- Validation of headers, blocks and consensus is the parameter `valid`; uncles, hardfork transitions, block bodies,
  caches, events, persisted heads and the iterator are not modelled, and operations run one at a time.
- ChainLaws.HeaviestChain: each header's parent is stored and its number is the parent's plus one, which validation
  checks; under proof of stake the newest header becomes the head whatever its weight.
- Blockchain.Blockchain.FindCommonAncestor: the list of ancestor headers that the consensus hook is given is not
  returned.
- Blockchain.Blockchain.DelBlock: asks that the genesis block's parent hash is the hash of no stored block.
- ChainLaws.RunIsCanonical: runs keep clear of the deletions and iterator heads for which `ChainLaws.DeleteExactly`
  and `ChainLaws.SetHeadExactly` say that the invariant fails; side-chain blocks left behind by a deletion may have
  no stored parent, and a header on top of one throws unless the walk meets the canonical chain.

RLP, witness and fee:

- Conversions of strings, numbers and hex to bytes, and the shortcut of `decode` on empty input.
- Lengths beyond 2^53, where the source's numbers lose precision; such inputs are refused for want of bytes.
- VerkleWitness.VerkleAccessWitness.TouchAddress: stem hashing is a parameter and the sub index is one byte, as a
  place in a node of 256; the named read and write wrappers and
  `merge` are not modelled, and the fill flag is always off, as in the source.
- Floating point plays no part: the fee is integer arithmetic, and the exact Taylor sum is over `real`.
