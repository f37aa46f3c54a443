# Verified model of the node's chain, cache and finality bookkeeping

This project models the parts of a Substrate node that keep its databases, caches and votes
consistent while blocks arrive on several forks, and proves what they promise over whole runs.
`dafny verify dfyconfig.toml` checks everything.

All modules share one picture of the chain (`Tree.dfy`): a hash determines its header, so one fixed
tree of headers covers a run, and what a node has imported is a set of blocks closed under parents.
Operations are functions on values; objects that the node updates in place are classes whose methods
are proved to compute those functions; properties of runs are lemmas about the functions.

| area | files |
|---|---|
| routes between blocks and the metadata cache; a small fork for examples | `Tree.dfy`, `Fork.dfy` |
| the shared state cache: size accounting, layers, coherence, runs | `Lru.dfy`, `StorageCache.dfy`, `StorageCoherence.dfy`, `StorageRuns.dfy`, `HashRuns.dfy` |
| best block, finalized block and number index of the full backend | `ChainHead.dfy`, `FinalitySafety.dfy`, `ChainBackend.dfy` |
| the persisted GRANDPA voter state | `VoterState.dfy`, `VoteSafety.dfy` |
| finality proofs, prover and checker | `FinalityProof.dfy` |
| forced authority changes and vote targets | `ForcedChanges.dfy` |
| compare-and-set of the offchain storage as a thread protocol | `OffchainCas.dfy` |
| canonical hash tries (CHTs) and the light client's pruning | `Cht.dfy`, `Light.dfy`, `LightPruning.dfy`, `LightRuns.dfy` |
| the leaf set, its database rows and undo | `Leaves.dfy`, `LeafRuns.dfy` |
| storage notifications | `Notifications.dfy`, `NotificationEvents.dfy` |

The main theorems are `StorageRuns.ReadsAreCoherent`, `HashRuns.HashReadsAreCoherent`,
`HashRuns.HashesFollowSwitchIff`, `FinalitySafety.RunIsSafe` with `FinalitySafety.RunIsSafeIff`,
`FinalitySafety.FinalityOnlyAdvances`, `VoteSafety.VotesAreUniqueIff`, `FinalityProof.ProofsAreAccepted`,
`OffchainCas.LocksAlwaysExclude`, `OffchainCas.RunIsAtomicIff`, `LightRuns.FinalizedBlocksAreAnswered`
with `LightRuns.RunKeepsInvIff`, `ForcedChanges.ForcedChangesAreUnique`, `LeafRuns.LeavesAreChildless`
with `LeafRuns.RestartRestoresLeaves`, and `NotificationEvents.TriggersAreExact`.

## Where the code does less than it seems to promise

Each of these has an exact condition and a concrete case among the lemmas below.

- `LRUMap::remove` charges the estimate of the key it is given, not of the key stored, so the tracked
  size drifts and can underflow unless the two agree (`LruMap.RemoveKeepsGoodIff`).
- `Cache::sync` leaves the cached hashes of changed keys in place (`HashRuns.HashesFollowSwitchIff`,
  `HashRuns.HashesFollowImportIff`).
- An import that finalizes a block whose parent is off the best chain carries a head marker for the
  parent, which overrides the block: the finalized block ends above the best one
  (`FinalitySafety.RequestKeepsInvIff`).
- Proposing after a prevote overwrites it, and so does opening a round again, by completing the one
  before it or by starting its voter set: even when its votes have left the state, a second prevote
  can then be persisted (`VoteSafety.VotesAreUniqueIff`).
- A plain `set` between the comparison and the write of a compare-and-set is lost, and a write that
  fails is reported as a swap (`OffchainCas.RunIsAtomicIff`).
- The light storage retracts finalized blocks with no more than a warning (`LightRuns.RunKeepsInvIff`).
- A forced change signalled below a pending one is accepted (`ForcedChanges.AcceptKeepsOnePerForkIff`).
- Naming a child key twice in one `listen` call can leave entries of a removed subscriber behind
  (`Notifications.ListenKeepsInvIff`).

## Inputs taken from outside

Signature and authority-proof checks are an oracle; the fork choice, the voting rule and the chain
chosen for finality are arbitrary parameters, and so is the functor's answer to each group; the fate of each database write, crash points, thread
interleavings, dropped streams, states that are no longer available and what the light storage's
metadata cache holds are chosen by the run; the backing state of a block is the result
of the writes of its ancestors. Sizes, numbers and ids are unbounded integers; the tracked cache size
is a signed integer so that an underflow shows. A CHT root stands for the pairs it commits to.

## Model

| member | source | states |
|---|---|---|
| BlockTree.ComputeTreeRoute | primitives/blockchain/src/header_metadata.rs:95-151 | the route found by levelling and walking goes from the first block down to the lowest common ancestor and up to the second, with exactly the blocks of each chain above it, in order |
| BlockTree.RouteBlocks | primitives/blockchain/src/header_metadata.rs:162-207 | a route retracts exactly the ancestors of the first block that the second does not share, and enacts exactly those of the second that the first does not share |
| BlockTree.MetadataCache.LowestCommonAncestor | primitives/blockchain/src/header_metadata.rs:33-92 | with any shortcut links left by earlier calls, the answer is the highest block that is an ancestor of both; only the links of the two blocks change and they stay sound |
| BlockTree.MetadataCache.Descend | primitives/blockchain/src/header_metadata.rs:33-92 | following a shortcut link never jumps below the other block, so no common ancestor is skipped |
| BlockTree.WalkToMeeting | primitives/blockchain/src/header_metadata.rs:33-92 | stepping the higher block to its parent until the two meet ends in the lowest common ancestor |
| LruMap.AddKeepsGood | client/db/src/storage_cache.rs:103-133 | adding leaves distinct keys, a tracked size equal to the sum over the entries, and that size within the limit |
| LruMap.EvictLeavesLongestFit | client/db/src/storage_cache.rs:121-132 | eviction ends, drops oldest entries only, and stops at the first suffix that fits |
| LruMap.RemoveKeepsGoodIff | client/db/src/storage_cache.rs:94-101 | removing keeps the tracked size exact if and only if the key is absent or the estimate of the key given to the call equals the one charged when it was added |
| LruMap.RemoveCanUnderflow | client/db/src/storage_cache.rs:94-101 | concrete case: removing through a key with a larger estimate drives the tracked size below zero |
| LruMap.RunKeepsAccounts | client/db/src/storage_cache.rs:93-149 | over any sequence of add, get, remove and clear with exact estimates, the tracked size is the sum of the estimates, not negative and within the limit |
| LruMap.AddedItems | client/db/src/storage_cache.rs:103-133 | after adding, every entry is an old one with another key or carries the new value |
| LruMap.GottenItems | client/db/src/storage_cache.rs:135-140 | a lookup only reorders the entries |
| LruMap.LRUMap.Insert | client/db/src/storage_cache.rs:103-133 | the in-place add computes the specified entries and size |
| LruMap.LRUMap.TrimToLimit | client/db/src/storage_cache.rs:121-132 | the eviction loop computes the specified suffix |
| LruMap.LRUMap.Drop | client/db/src/storage_cache.rs:94-101 | the in-place remove computes the specified entries and size |
| LruMap.LRUMap.Lookup | client/db/src/storage_cache.rs:135-140 | a lookup finds an entry exactly when the key is present, and moves it to the young end |
| LruMap.LRUMap.Wipe | client/db/src/storage_cache.rs:144-147 | clearing empties the map and resets the size |
| StorageCache.Cache.Sync | client/db/src/storage_cache.rs:164-217 | unless a block of the route is unlisted, which wipes everything, exactly the keys changed by the enacted and retracted blocks leave both value layers, the flags of those blocks are set and cleared, and cached hashes stay |
| StorageCache.Cache.VisitAll | client/db/src/storage_cache.rs:164-210 | one pass over blocks: stops flagging at the first unlisted block; otherwise drops exactly the keys those blocks changed |
| StorageCache.CachingState.Allowed | client/db/src/storage_cache.rs:446-490 | the loop over the window computes the walk from the block of the reader to its first listed canonical ancestor, refusing as soon as a listed block touches the key |
| StorageCache.CachingState.Read | client/db/src/storage_cache.rs:497-571 | answers from the local layer, else from the shared cache when allowed, else from the backing state, which it then keeps locally |
| StorageCache.CachingState.HandOver | client/db/src/storage_cache.rs:348-371 | on top of the best block the local values enter the shared layers, replacing the values of keys already there, and the local layers are emptied; otherwise nothing moves |
| StorageCache.CachingState.Record | client/db/src/storage_cache.rs:373-416 | a committed block is listed in order of height in a window of twelve, and on the best chain its writes enter the shared layers |
| StorageCache.CachingState.SyncCache | client/db/src/storage_cache.rs:322-419 | the whole commit as the three parts in order, the committed block left out of the enacted ones |
| StorageCache.CachingState.Drop | client/db/src/storage_cache.rs:860-876 | a dropped state hands its values over only when syncing is on and its block is the best one |
| StorageCache.AddAllItems | client/db/src/storage_cache.rs:387-404 | after a batch of writes each entry carries the last value written for its key |
| StorageCoherence.AllowedMeansUnmodified | client/db/src/storage_cache.rs:446-490 | when the shared cache may be used, no block between the reader and the head on either side writes the key |
| StorageCoherence.ReadIsCoherent | client/db/src/storage_cache.rs:497-571 | a read at any block returns the value of the key in the state of that block, whichever layer answers, and keeps the caches coherent |
| StorageCoherence.SyncIsCoherent | client/db/src/storage_cache.rs:164-217 | after following a route, every shared value is that of the new head, canonical flags mean ancestry of it, and the listed canonical blocks have no gap below the head |
| StorageCoherence.HandOverIsCoherent | client/db/src/storage_cache.rs:348-371 | handing local values of the head over keeps shared values equal to the state of the head |
| StorageCoherence.CommitIsCoherent | client/db/src/storage_cache.rs:373-416 | committing a block keeps coherence for the new head, or for the old one when the block is not best |
| StorageRuns.ReadsAreCoherent | client/db/src/storage_cache.rs:164-571 | over every run that opens, reads and closes states, imports best and other blocks and switches heads in any interleaving, every read of a top or child key returns the value of the block it reads at |
| HashRuns.HashesFollowSwitchIff | client/db/src/storage_cache.rs:164-217 | over all worlds that fit what the cache shows, cached hashes are right after a switch if and only if no cached hash is of a key that the window lists for a block of the route, or the cache is wiped |
| HashRuns.TouchedHashGoesStale | client/db/src/storage_cache.rs:164-217 | if a block of the route changed the key of a cached hash, then for every value some world with the same blocks, window and cached values has it at the new head, so that hash can be stale |
| HashRuns.HashesFollowImportIff | client/db/src/storage_cache.rs:322-416 | over all worlds that fit what the cache and the importing state show, the hashes still cached after a best import are right if and only if each is of a key that the route did not change, or was read by that state as a hash or as the value it is of |
| HashRuns.HashReadsAreCoherent | client/db/src/storage_cache.rs:521-538 | over every run whose switches and best imports meet these two conditions, every hash read returns the hash of the value at the block it reads at |
| HashRuns.CommitKeepsHashes | client/db/src/storage_cache.rs:373-416 | committing a best block drops the hashes of the keys it writes, and all others are right at it |
| StorageCache.CachingState.ReadHash | client/db/src/storage_cache.rs:521-538 | answers from the local hashes, else from the shared ones when allowed, else from the backing state, which it then keeps locally |
| HashRuns.StaleHashAfterSwitch | client/db/src/storage_cache.rs:521-538 | concrete fork: from a cache that is coherent at one head, after the switch along the real route a hash read that the window allows finds the hash of the value on the abandoned branch |
| ChainHead.LcaIsLowest | primitives/blockchain/src/header_metadata.rs:33-92 | the recursive reference definition is the lowest common ancestor |
| ChainHead.RerouteFollowsBest | client/db/src/lib.rs:910-948 | retracting and enacting the blocks of a route turns the number index of one best block into that of the other, longer or shorter |
| ChainHead.ChildIndex | client/db/src/lib.rs:950-958 | mapping the new best block completes the index of its parent to its own |
| FinalitySafety.ApplyFinalityExactly | client/src/client.rs:852-898 | finalizing succeeds exactly for known descendants of the finalized block; it lists the chain between them in order and moves the head exactly when the block is off the best chain |
| FinalitySafety.AcceptedListIsSequential | client/src/client.rs:852-898 | every list the client accepts passes the sequential check of the backend |
| FinalitySafety.FinalizeAlongChain | client/db/src/lib.rs:962-974 | the sequential check accepts any stretch of one chain |
| FinalitySafety.SetHeadExactly | client/db/src/lib.rs:899-960 | moving the head is refused exactly when it would retract the finalized block, and otherwise the index lists exactly the chain of the new head |
| FinalitySafety.FinalizeRequest | client/src/client.rs:852-898 | a finalization request succeeds exactly for known descendants of the finalized block and keeps best, finalized and index consistent |
| FinalitySafety.PlainImport | client/src/client.rs:647-781 | an import that does not finalize never moves the finalized block and keeps the invariant |
| FinalitySafety.FinalImport | client/src/client.rs:647-781 | a finalizing import succeeds exactly for fresh children of known descendants of the finalized block; the resulting best block is the new block or, when its parent was off the best chain, the parent |
| FinalitySafety.RequestKeepsInvIff | client/src/client.rs:647-781 | a successful request keeps finalized below best and the index exact if and only if it does not combine a new block with a head marker; the finalized block only ever moves to descendants |
| FinalitySafety.RunIsSafeIff | client/db/src/lib.rs:1042-1290 | over every run from a consistent state, finalized is an ancestor of best and the index is exact in every state if and only if no served request combines a new block with a head marker |
| FinalitySafety.RunIsSafe | client/db/src/lib.rs:1042-1290 | over every run without such combined operations, finalized stays an ancestor of best, and number n maps to a hash exactly when n is at most the best number, the ancestor of best at that height |
| FinalitySafety.FinalityOnlyAdvances | client/db/src/lib.rs:1042-1290 | over every run, combined operations included, the finalized block only ever moves to descendants |
| FinalitySafety.GenesisStarts | client/db/src/lib.rs:1042-1290 | importing genesis into an empty database establishes the invariant |
| FinalitySafety.FinalImportOffBestChain | client/src/client.rs:680-762 | concrete fork: a combined operation leaves the parent of the finalized block as best |
| ChainBackend.Backend.SetHeadWithTransaction | client/db/src/lib.rs:899-960 | the loops over retracted and enacted blocks compute the specified index or refuse |
| ChainBackend.Backend.TryCommit | client/db/src/lib.rs:1042-1290 | a commit installs finality, the pending block and the head together, or changes nothing |
| ChainBackend.Backend.NoteMeta | client/db/src/lib.rs:382-404 | best and finalized change together with their numbers; genesis also resets the finalized hash |
| ChainBackend.Backend.FinalizeBlocks | client/db/src/lib.rs:1050-1068 | the loop accepts a list exactly when every block is known and a child of the one before |
| ChainBackend.Backend.ApplyFinalityWithBlockHash | client/src/client.rs:852-898 | the routes computed by the client give exactly the specified operation or error |
| ChainBackend.ResolveExactly | client/db/src/changes_tries_storage.rs:416-469 | when the root lookup fails, and when the block it finds is the ancestor of the anchor: always above the finalized height, below it exactly when anchor and finalized block share that ancestor |
| ChainBackend.RootLookupRefinesWalk | client/db/src/changes_tries_storage.rs:416-469 | for every anchor at or above the finalized block each of the three paths gives what the plain walk over parents gives |
| ChainBackend.Backend.Root | client/db/src/changes_tries_storage.rs:416-469 | the lookup returns the digest root of the resolved block, or the error of the path it took |
| VoterState.PushKeepsGreatest | client/finality-grandpa/src/environment.rs:118-164 | after any pushes, in any order and with repeats, the vector is strictly falling, never empty, and holds exactly the two greatest round numbers seen, each with its latest data |
| VoterState.Push | client/finality-grandpa/src/environment.rs:150-164 | search, replace or insert, and truncation compute the specified vector |
| VoterState.BinarySearch | client/finality-grandpa/src/environment.rs:150-164 | on falling numbers the search tells whether the number is there and where it belongs |
| VoterState.SharedVoterSetState.Update | client/finality-grandpa/src/environment.rs:411-431 | memory changes only after the write succeeded; a crash after the write leaves the new state on disk only |
| VoterState.SharedVoterSetState.CastProposal | client/finality-grandpa/src/environment.rs:653-690 | a proposal is persisted before memory changes, and only when the node holds a voter key and may still propose |
| VoterState.SharedVoterSetState.CastPrevote | client/finality-grandpa/src/environment.rs:692-731 | a prevote is persisted before memory changes |
| VoterState.SharedVoterSetState.CastPrecommit | client/finality-grandpa/src/environment.rs:733-782 | a precommit is persisted before memory changes, and only after a prevote |
| VoterState.SharedVoterSetState.CompleteRound | client/finality-grandpa/src/environment.rs:784-840 | completing a round files it and opens the next one without votes |
| VoteSafety.StepUniqueIff | client/finality-grandpa/src/environment.rs:653-840 | a persisted step keeps all votes ever persisted unique if and only if it neither proposes after a prevote nor opens anew (by completing the round before it, or by starting its voter set) a round for which any persisted state of that set holds votes |
| VoteSafety.VotesAreUniqueIff | client/finality-grandpa/src/environment.rs:411-840 | over every run with failed writes, crashes and restarts at any point, of any two persisted states with a round of the same set the later extends the earlier if and only if every persisting step meets that condition against all that was persisted before it |
| VoteSafety.ReopenedRoundGetsSecondPrevote | client/finality-grandpa/src/environment.rs:784-840 | concrete run of four calls: every step extends the votes of the state before it, yet completing an older round opens a round again whose votes have left the state, and a second, different prevote is persisted |
| VoteSafety.LateProposalForgetsPrevote | client/finality-grandpa/src/environment.rs:653-690 | concrete case: proposing after prevoting allows a second, different prevote |
| VoteSafety.RepeatedCompletionForgetsPrevote | client/finality-grandpa/src/environment.rs:784-840 | concrete case: completing a round again forgets the prevote of the next one |
| VoteSafety.RunKeepsInv | client/finality-grandpa/src/environment.rs:411-840 | over runs of votes, completions, set changes, failed writes, crashes and restarts the persisted records only grow |
| VoteSafety.PersistedVotesAreUnique | client/finality-grandpa/src/environment.rs:653-840 | for disciplined runs with crashes at any point, any later persisted record of a set and round extends any earlier one, so at most one prevote and one precommit is ever persisted per round |
| VoteSafety.PrecommitCarriesPrevote | client/finality-grandpa/src/environment.rs:653-840 | over every run with crashes at any point, whenever a persisted state holds a precommit, an earlier persisted state of the same set holds a prevote of that round, and the precommit carries that prevote and its proposal |
| FinalityProof.DoCheck | client/finality-grandpa/src/finality_proof.rs:446-498 | the loop over fragments accepts or rejects as the recursive checker does |
| FinalityProof.ProveFinality | client/finality-grandpa/src/finality_proof.rs:269-421 | the scan over justified blocks produces the specified proof, nothing, or an error |
| FinalityProof.CheckAfterFold | client/finality-grandpa/src/finality_proof.rs:446-498 | a proof is accepted exactly when all fragments but the last change authorities without unknown headers and the last one is accepted under the resulting set |
| FinalityProof.FragmentIsAccepted | client/finality-grandpa/src/finality_proof.rs:501-544 | under the set in force before its block, the fragment of a justified block is accepted with the headers, set id and authorities the chain really has |
| FinalityProof.ScanAccepted | client/finality-grandpa/src/finality_proof.rs:318-399 | from every point of the scan, whatever it goes on to produce is accepted, and it fails exactly when a state it still has to read is not available |
| FinalityProof.ProofsAreAccepted | client/finality-grandpa/src/finality_proof.rs:269-544 | when sets change only at justified blocks and justifications verify under the set in force, the prover fails exactly when a state it reads is not available, and every proof produced is accepted, with a canonical block between begin and the last finalized one, the set id and authorities in force after it and exactly the canonical headers between end and that block |
| OffchainCas.LocksAlwaysExclude | client/db/src/offchain.rs:78-114 | for any number of threads, any interleaving, any plain writes and any database failures: critical sections of a key exclude each other, the lock map holds exactly the keys of calls in flight, and every finished call has its one event in the history, after it began and with the answer it returned |
| OffchainCas.RunIsAtomicIff | client/db/src/offchain.rs:59-114 | over every run, stored values are at every point those of a legal sequential history if and only if every step is truthful when it takes effect: failed comparisons differ, swaps still find the expected value, and what is written gets stored |
| OffchainCas.HistoryIsLegalIff | client/db/src/offchain.rs:59-114 | as long as the database does its part, the history of a run is legal if and only if every swap still finds the value it expects |
| OffchainCas.CompareAndSetIsAtomic | client/db/src/offchain.rs:78-114 | when all writes go through compare-and-set and the database does its part, stored values are at every point of every interleaving those of a legal sequential history |
| OffchainCas.CleanKeepsUse | client/db/src/offchain.rs:103-112 | cleanup removes the lock exactly when no other call in flight refers to the key |
| OffchainCas.StepKeepsReads | client/db/src/offchain.rs:91-101 | between the comparison and the write of a call its key keeps its value exactly when plain writes are harmless and no failed read passes for a missing value |
| OffchainCas.StepKeepsHistory | client/db/src/offchain.rs:91-101 | a step extends the sequential history legally, and stored values follow it, exactly when it is truthful |
| OffchainCas.PlainSetBetweenReadAndWrite | client/db/src/offchain.rs:59-101 | concrete interleaving: a plain write between comparison and write is lost while the call reports success |
| OffchainCas.FailedWriteAnswersSwapped | client/db/src/offchain.rs:59-101 | concrete run: a write that fails is only logged, and the call reports success while the old value is still stored |
| Cht.RangesPartition | client/src/cht.rs:294-311 | a block lies between the first and the last number of a CHT exactly when that is its CHT, and genesis lies in none |
| Cht.BuildInOrder | client/src/cht.rs:49-77 | finalizing one more block builds the next CHT in order or none, and everything it covers lies more than a whole CHT below |
| Cht.ComputeRoot | client/src/cht.rs:255-286 | a root is computed exactly when the first values are all there, each under the number of its block |
| Cht.ForEachGroup | client/src/cht.rs:205-252 | a list with genesis is refused before any call; otherwise the functor is called with the groups of the list in order, all of them when each is accepted, else up to and including the first one refused, whose error is returned |
| Cht.GroupsPartition | client/src/cht.rs:205-252 | the groups of an ordered list join to the list, come in strictly increasing CHT order, and each has exactly the blocks of its CHT |
| Cht.OfIsRange | client/src/cht.rs:205-252 | a group holds exactly the given blocks between the first and the last number of its CHT |
| Light.LightStorage.NoteFinal | client/db/src/light.rs:280-359 | the finalization loops build the roots and prune the range as specified, reading only what is stored |
| Light.LightStorage.PruneRange | client/db/src/light.rs:336-355 | the pruning loop removes exactly the stored headers of the range and their numbers |
| Light.LightStorage.MoveHeadTo | client/db/src/light.rs:230-277 | the number index is rerouted without checking finality, whatever the metadata cache holds, or the switch fails when the metadata of a block of the route is neither stored nor cached |
| Light.LightStorage.ImportHeader | client/db/src/light.rs:414-504 | an import commits head, header and finality together, or changes nothing |
| Light.LightStorage.SetHeadTo | client/db/src/light.rs:506-519 | a head switch commits, or fails for an unknown block and changes nothing |
| Light.LightStorage.FinalizeHeader | client/db/src/light.rs:537-563 | a finalization commits, or fails and changes nothing |
| Light.LightStorage.ReadRoot | client/db/src/light.rs:362-383 | for header and changes-trie roots alike: an error exactly for genesis, nothing exactly for blocks above the replaced ones, and otherwise the root of the CHT whose range the block lies in, or an error when that root is missing |
| LightPruning.ChtIsCanonical | client/db/src/light.rs:296-315 | the header CHT is computed over exactly the canonical hashes of its range |
| LightPruning.NoteFinalShape | client/db/src/light.rs:280-359 | a finalization that succeeds drops exactly the canonical headers that become replaced and adds exactly the root that is due |
| LightRuns.NoteFinalFailsIff | client/db/src/light.rs:280-359 | finalizing fails exactly for a block that is not a child of the finalized one, or when a changes-trie CHT is started and some block of its range has no changes-trie root |
| LightRuns.RerouteKeepsIndex | client/db/src/light.rs:230-277 | switching among descendants of the finalized block keeps replaced numbers out of the index and follows the new chain above them |
| LightRuns.StepKeepsInvIff | client/db/src/light.rs:414-563 | a successful step keeps the invariant if and only if new heads descend from the finalized block and what is finalized is on the best chain, which the storage itself does not check |
| LightRuns.RunKeepsInvIff | client/db/src/light.rs:414-563 | over every run that imports headers once and after their parents, the invariant holds in every state if and only if every step that succeeds respects finality in this sense |
| LightRuns.FinalizedBlockIsRetracted | client/db/src/light.rs:230-277 | concrete fork: setting the head to a sibling of the finalized block succeeds, and its number then leads to the sibling |
| LightRuns.InvAnswers | client/db/src/light.rs:362-383 | each finalized block is answered for by exactly one of its stored header and a CHT root that commits to it |
| LightRuns.FinalizedBlocksAreAnswered | client/db/src/light.rs:280-383 | over every run that respects finality, each number from 1 to the finalized one has its canonical header stored or a CHT root that commits to it, never both; no due root is missing; and nothing but replaced canonical headers is ever dropped |
| LeafSet.LeafSet.Import | client/src/leaves.rs:104-129 | importing displaces the parent exactly when it was a leaf, and queues both changes |
| LeafSet.LeafSet.Finalize | client/src/leaves.rs:137-149 | rows below the height leave, are queued for removal and returned |
| LeafSet.LeafSet.PrepareTransaction | client/src/leaves.rs:199-211 | queued additions are written before queued removals, and the queues end empty |
| LeafSet.LeafSet.RemoveLeaf | client/src/leaves.rs:223-244 | removes the hash and an emptied row, and tells whether it was there |
| LeafSet.LeafSet.ReadFromDb | client/src/leaves.rs:80-102 | reading groups the stored leaves by height |
| LeafSet.LeafSet.UndoFinalization | client/src/leaves.rs:264-274 | displaced rows come back and the queues are forgotten |
| LeafRuns.LeavesAreChildless | client/src/leaves.rs:104-149 | after any run the rows hold exactly the imported blocks without a later child or a later finalized height above them, each once, under its height |
| LeafRuns.RestartRestoresLeaves | client/src/leaves.rs:80-102 | after a flush at any point of any run, reading the database back gives the same hashes at the same heights |
| LeafRuns.DisplacedDisjoint | client/src/leaves.rs:45-53 | calls that finalize heights in any order displace rows at disjoint heights, so merging loses none |
| LeafRuns.UndoRestoresLeaves | client/src/leaves.rs:264-274 | undoing the merged rows of any finalized heights restores a flushed leaf set completely |
| ForcedChanges.DescendentIsStrictlyAbove | client/api/src/lib.rs:51-78 | the ancestry test answers strict descent, also for a block that is only being imported |
| ForcedChanges.AuthoritySet.AddForcedChange | client/finality-grandpa/src/authorities.rs:158-192 | refused exactly when a pending change was signalled in the same block or an ancestor; otherwise inserted where the order allows |
| ForcedChanges.AuthoritySet.Search | client/finality-grandpa/src/authorities.rs:174-182 | the search tells a place that keeps the list sorted by effective number and height |
| ForcedChanges.AuthoritySet.ApplyForcedChanges | client/finality-grandpa/src/authorities.rs:248-291 | the scan that stops early finds a change exactly when some pending change applies, raises the set id by one and clears what was pending |
| ForcedChanges.AcceptKeepsOnePerForkIff | client/finality-grandpa/src/authorities.rs:158-192 | an accepted change keeps one change per fork if and only if it was not signalled below a pending one |
| ForcedChanges.AtMostOneApplies | client/finality-grandpa/src/authorities.rs:248-291 | with one change per fork at most one applies at any best block |
| ForcedChanges.ForcedChangesAreUnique | client/finality-grandpa/src/authorities.rs:158-291 | over every run with signals in chain order the list stays sorted with one change per fork, a best block determines the change it applies, and the set id counts exactly the best blocks at which a change applied |
| ForcedChanges.LateAncestorSignal | client/finality-grandpa/src/authorities.rs:158-192 | concrete chain: a late signal below a pending one is accepted and both apply at one block |
| ForcedChanges.CurrentLimit | client/finality-grandpa/src/authorities.rs:232-237 | the limit is the least effective number of a scheduled change not below the minimum, if there is one |
| ForcedChanges.BestChainContaining | client/finality-grandpa/src/environment.rs:450-542 | for every voting rule the target is at or above the base, at or below the best block and every scheduled change not below the base; it is a block of the best chain or what the rule answered, and the backward walk ends at the limit |
| Notifications.ListenKeepsInvIff | client/api/src/notifications.rs:247-304 | subscribing keeps the index the exact inverse of the filters if and only if requests that name one child key twice ask for no more than the last of them |
| Notifications.DistinctIsConsistent | client/api/src/notifications.rs:277-304 | requests for different child keys always satisfy that condition |
| Notifications.RemoveKeepsInv | client/api/src/notifications.rs:190-245 | removing a subscriber leaves exactly the entries of the others |
| NotificationEvents.EventsAreExact | client/api/src/notifications.rs:40-66 | every subscriber with something to see is notified, and its event iterates to exactly the changes it asked for, in order |
| NotificationEvents.NotifiedHaveSinks | client/api/src/notifications.rs:108-188 | everybody notified has a sink, so the lookup cannot fail |
| NotificationEvents.TriggersAreExact | client/api/src/notifications.rs:108-304 | after any run of consistent subscriptions and removals, a trigger reaches only live sinks and all that have something to see, and shows each exactly what it asked for |
| NotificationEvents.InconsistentRequestsLeaveResidue | client/api/src/notifications.rs:277-304 | concrete call: naming a child key twice leaves an entry behind that later reaches for a sink that is gone |
| NotificationEvents.StorageNotifications.Subscribe | client/api/src/notifications.rs:270-304 | the in-place subscription computes the specified index and sink |
| NotificationEvents.StorageNotifications.Remove | client/api/src/notifications.rs:219-245 | the in-place removal computes the specified index |
| NotificationEvents.StorageNotifications.Trigger | client/api/src/notifications.rs:108-188 | each notified subscriber is sent its event once, subscribers whose stream is gone are removed, and the index stays exact |

## Left out

- `Backend::revert` and `LeafSet::revert`: they bypass the cache and part of the index, so they are not steps of the modelled runs.
- `undo_import` of the leaf set and the rollback after a failed commit: the displaced parent returns at the height of its child, so it is no inverse.
- Imports without state, `import_existing` and states without a parent hash: they skip the bookkeeping modelled here.
- The state database, tries, change tries and canonicalization: a block's state is given by the writes of its ancestors.
- Standard authority changes and the fork tree: the vote limit takes the roots of that tree as given.
- `grandpa::finalize_block` with its rollback of a consensus change, and the GRANDPA round protocol itself.
- The prover and checker exchange values; their byte encoding is not modelled.
- The in-memory and test backends, the light client's data cache, RocksDB, the network and the runtime.
- Trigger: the bounded notification lists kept by the client are not modelled, only the storage listeners.
