# Alba: delivery, reads, caches and codecs of the client

Alba is a distributed object store. This project models the hard core of its clients in Dafny and
proves what that core promises. `dafny verify dfyconfig.toml` checks everything.

An object is cut into chunks, every chunk into `k` data fragments and `m` coding fragments, and
every fragment is stored on an OSD. A manifest says where the fragments are. The model has five
groups of modules.

**Message delivery.** The manager keeps a numbered log of messages for every OSD. Any number of
agents pull messages, apply them on the OSD with a compare-and-set on `next_msg_id`, and mark them
delivered. `MessageDelivery` is a step system in which every call is one step, agents interleave
freely and may stop anywhere (an agent that takes no more steps has crashed). `DedupedDelivery` is
the table that lets concurrent callers share delivery rounds.

**Reading.** `ObjectBytes` says what the bytes of an object are: its data fragments, one after the
other. Everything else in this group is compared with that. `ReadPath` turns slices into fragment
pieces through a stack of caches, `DirectRead` regroups the pieces per OSD and reads them, `Ctr`
decrypts them in place, `Routing` and `ProxyRead` are the way through the proxy, and `RoraClient` is
the client that combines them. `ChunkDownload` and `ChunkDecode` are the OCaml client's race between
two latches and its erasure decoding, `SharedFragments` the buffers its callers share,
`FullDownload` the fold that writes a whole object, and `ObjectDownload` joins the three: from the
outcomes of all fetches to the bytes written.

**Caches and pools.** `LruCache`, and `LruHistory`, which says from the operations alone what it
holds; `ManifestEpochs` and `ManifestCache` (level 1 over time, and the whole two-level cache), and
`ManifestRetention`, which says for how long it keeps a manifest; and `ConnectionPool`.

**Codecs.** `Bytes`, `Llio` and `LlioBuffers` are the wire encoding and the buffers behind it,
`FragmentKeys` the names of fragments, and `FragmentCodec`, `ManifestFields`, `ManifestBody` and
`ObjectInfos` the manifest records, which are read on after one that cannot be decoded.
`ManifestFormat` writes their bytes down independently of the codecs.

**CRC32C.** `Gf2Division` is bit-serial division over any kind of word, `Word32` and `Crc32cTable`
its 32-bit instance and the lookup table, `Crc32c` the loops.

Objects that the source updates in place are classes here (the LRU cache, the connection pool, the
builder and cursor, the cipher handle, the RORA client), loops are loops, and buffers written in
place are arrays. Protocols whose point is the interleaving of several callers are step systems over
values: `Step` is one call or one lock section, `Runs` a list of steps that are each enabled, and
theorems about `After` hold in every reachable state.

Calls to code outside the model are parameters. In `RoraClient` they are gathered in `Env`, whose
functions take the moment of the call as an argument, so that the same call may come out
differently every time: lookups in the manifest cache, connections and reads that break after any
number of bytes, key requests, cipher errors, and proxy reads that fail half way.

Where the code does not meet a property that one would expect of it, the code is modelled as it is
and the exact condition is proved:

- Delivery of a log can complete if and only if no message still to be applied repeats the namespace
  of an earlier one (`MessageDelivery.CompletesIffNamespacesDistinct`).
- A waiter in the table can still be woken if and only if a leader is left. The state without one is
  never left, and is reached exactly by a finalize that had waiters (`DedupedDelivery.WokenIffLed`,
  `OrphanedForever`, `OrphanedIffFinalizedWithWaiters`).
- Every run of a chunk download reaches exactly one latch if and only if all fragments are asked for
  or at most `m` have no location; otherwise the run in which every fetch ends well is the one that
  waits for ever (`ChunkDownload.AlwaysDecidedIff`, `LeastAmountHangs`).
- `partial_decrypt` takes its offset and its length as `int`s: a piece that is not empty is decrypted
  right if and only if both are below 2^31 (`Ctr.DecryptsRightIffBothFitInt`).
- A string survives its encoding if and only if it is shorter than 2^31 bytes, because `skip` takes
  an `int`; a vector if and only if it has at most 2^31 elements, because its reader counts with an
  `int32_t` (`Llio.StringRoundTripsIffShort`, `Llio.VectorRoundTripsIffShort`).
- A manifest is not kept for as many insertions as the cache object has room for, because finds of
  other manifests make it older too; it is kept for as many insertions and successful finds
  (`LruHistory.FindsCountToo`, `ManifestRetention.RecentlyAddedIsFound`).
- Two alba ids can give one manifest-cache key if and only if one is a prefix of the other
  (`ManifestCache.KeysCollideIffPrefix`).
- A list of object infos is read to its end if and only if every record has a known manifest version
  and a body that decodes to its own name or throws a `deserialisation_exception`. An unknown checksum
  type of the object or of a fragment throws something else, which nothing catches, and a key id of
  another kind fails an assertion: each ends the read of the whole list (`ObjectInfos.StreamReads`,
  `BodyEndsTheRead`, `UnknownChecksumEndsTheRead`).
- A connection can be handed out while the pool is paused if and only if a caller was already
  connecting when the pause began (`ConnectionPool.HandOutWhilePausedIff`).

## Model

| member | source | states |
|---|---|---|
| `MessageDelivery.AppliedIsLogPrefix` | ocaml/src/alba_client_message_delivery.ml:31-121 | In every reachable state, for any number of agents, the messages the OSD has applied are exactly messages 0 .. next_msg_id-1 of the manager's log, each once and in order (absent means 0); for each of them the OSD stores the namespace as active and its name; and every message marked delivered is among them |
| `MessageDelivery.OsdStoresTheApplied` | ocaml/src/alba_client_message_delivery.ml:56-84 | In every reachable state the OSD's store holds, for every applied message, the active status and the name of its namespace, and the number of applied messages as next_msg_id; and nothing else |
| `MessageDelivery.NeverTooFarOff` | ocaml/src/alba_client_message_delivery.ml:99-110 | No agent ever takes the "too far off" branch |
| `MessageDelivery.AssertFailsIffOvertaken` | ocaml/src/alba_client_message_delivery.ml:50-98 | In every run, between an agent's read of next_msg_id and its apply_sequence, under any steps of others, the assert fails exactly when next_msg_id has moved on, and then another agent's apply moved it |
| `MessageDelivery.AssertsMeaning` | ocaml/src/alba_client_message_delivery.ml:60-84 | In a reachable state the asserts hold exactly when next_msg_id is still the one read and no applied message has this namespace |
| `MessageDelivery.KvOfShape` | ocaml/src/alba_client_message_delivery.ml:56-76 | The store left by a list of messages has next_msg_id equal to their number, absent for none, and a status, which is active, and a name for exactly their namespaces |
| `MessageDelivery.StepKeepsInv` | ocaml/src/alba_client_message_delivery_base.ml:19-36 | Every pull, read, apply and mark of every agent, in any order, keeps the delivery invariant, and the log and next_msg_id only grow |
| `MessageDelivery.MarkOneKeepsInv` | ocaml/src/albamgr_client.ml:489-505 | Marking message by message, refused or not, never marks one that the OSD has not applied |
| `MessageDelivery.RunKeepsInv` | ocaml/src/alba_client_message_delivery_base.ml:19-36 | The same over whole runs |
| `MessageDelivery.SoloAgentCompletes` | ocaml/src/alba_client_message_delivery_base.ml:19-36 | From every reachable state, whatever other agents left behind, one agent that is started once and left alone delivers and marks the whole log, batch after batch, and is done, when the namespaces still to come are new |
| `MessageDelivery.DeliverBatch` | ocaml/src/alba_client_message_delivery_base.ml:19-34 | One round of the loop marks exactly the first ten messages left, or all of them, and goes on if and only if there are more |
| `MessageDelivery.MarkingOneByOne` | ocaml/src/albamgr_client.ml:489-505 | Marking a batch message by message ends in the same state as marking it at once, when nobody else has marked any of it |
| `MessageDelivery.RepeatedNamespaceBlocks` | ocaml/src/alba_client_message_delivery.ml:56-98 | No run ever gets past a message whose namespace was added by an earlier one |
| `MessageDelivery.CompletesIffNamespacesDistinct` | ocaml/src/alba_client_message_delivery.ml:31-121 | The log can be delivered completely if and only if no message still to be applied repeats an earlier namespace |
| `DedupedDelivery.WakeMeansLaterRound` | ocaml/src/alba_client_message_delivery.ml:181-227 | In every run a waiter belongs to at most one round and is woken at most once, by that round, which began after it registered; the wake is a success exactly when the round succeeded |
| `DedupedDelivery.WakersHoldTheWakes` | ocaml/src/alba_client_message_delivery.ml:186-203 | A waiter that has been woken is in some round |
| `DedupedDelivery.StepKeepsInv` | ocaml/src/alba_client_message_delivery.ml:181-227 | Every call, end of a round and finalize keeps the invariant behind that |
| `DedupedDelivery.OrphanIsReachable` | ocaml/src/alba_client_message_delivery.ml:213-218 | A run leads to a table entry that nobody leads |
| `DedupedDelivery.OrphanedIffFinalizedWithWaiters` | ocaml/src/alba_client_message_delivery.ml:205-227 | In every run the entry is left without a leader if and only if a finalize came after a second call had joined the leading one; without such a finalize the table has no entry exactly when nobody called since the last finalize |
| `DedupedDelivery.OrphanedForever` | ocaml/src/alba_client_message_delivery.ml:213-227 | Such an entry is never removed or led again, and keeps its waiters, whatever happens |
| `DedupedDelivery.WokenIffLed` | ocaml/src/alba_client_message_delivery.ml:208-227 | A waiter in the table can be woken by some run if and only if a leader is left |
| `SharedFragments.OneFlightPerKeyAndExactCounts` | ocaml/src/alba_client_download.ml:209-285 | In every reachable state a key has at most one download in flight; every shared buffer's count is the number of its holders (leader, waiters, cache add), and it has been freed once if nobody holds it and not at all otherwise |
| `SharedFragments.JoinedCallersShareTheResult` | ocaml/src/alba_client_download.ml:244-285 | In every run, a caller whose key is being downloaded when it calls starts no download of its own and is answered when that download's leader is, with the same result, under every interleaving |
| `SharedFragments.AnswersAreOwnAndHeld` | ocaml/src/alba_client_download.ml:209-285 | In every run a caller that was given a buffer was given the one unpacked for the key it called with, and its memory is not freed before that caller releases it; a caller that was given an error called for a key whose download failed |
| `SharedFragments.CallJoins` | ocaml/src/alba_client_download.ml:249-253 | Such a call leaves the downloads in flight as they are and waits for the one of its key |
| `SharedFragments.StepKeepsInv` | ocaml/src/alba_client_download.ml:209-285 | Every call, unpacking, hand-out, failure, finished cache add and release keeps the books |
| `SharedFragments.ServeCounts` | ocaml/src/alba_client_download.ml:262-276 | Registering one usage per waker is what the counts need when the buffer is handed out |
| `ChunkDownload.DownloadableSpec` | ocaml/src/alba_client_common.ml:31-41 | The located fragments in ascending order, each with its own index, and exactly those; the rest are counted |
| `ChunkDownload.SortIsPermutation` | ocaml/src/alba_client_common.ml:45-76 | Sorting by preference loses and invents nothing, and no preferred fragment stands behind another one |
| `ChunkDownload.PlanTargets` | ocaml/src/alba_client_download.ml:364-378 | For both strategies the fetches go to distinct, located fragments, as many as the strategy wants or as there are |
| `ChunkDownload.LeastAmountTakesTheBest` | ocaml/src/alba_client_common.ml:45-76 | The least-amount strategy leaves out no located fragment that is preferred to one it fetches; among equals the lower ids are fetched, and the fetches start in that order |
| `ChunkDownload.LatchAssertion` | ocaml/src/alba_client_download.ml:370-381 | The latch counts are not negative if and only if the strategy is `LeastAmount` or at most m + 1 fragments have no location |
| `ChunkDownload.BalancedLatches` | ocaml/src/alba_client_download.ml:380-446 | With balanced counts, for every order of outcomes, exactly one latch is reached when all fetches have ended, and the outcome taken is that of the latch |
| `ChunkDownload.LatchRaceDecided` | ocaml/src/alba_client_download.ml:364-446 | Run by run, for both strategies: when all fetches have ended, exactly one latch is reached if and only if all fragments were asked for, or at most m have no location, or a fetch failed |
| `ChunkDownload.AlwaysDecidedIff` | ocaml/src/alba_client_download.ml:364-446 | Before the call: every order of outcomes ends with exactly one latch reached if and only if all fragments are asked for or at most m have no location |
| `ChunkDownload.WonIffEnoughArrived` | ocaml/src/alba_client_download.ml:380-473 | A race decided so was won if and only if at least k fetches ended well |
| `ChunkDownload.LeastAmountHangs` | ocaml/src/alba_client_download.ml:372-446 | For every chunk with fewer than k located fragments, a `LeastAmount` download whose fetches all end well waits for ever |
| `ChunkDownload.BuffersGivenBackOnce` | ocaml/src/alba_client_download.ml:409-471 | After the race every fragment that arrived is given back once, early or late, except the gathered ones, which go to the caller |
| `ChunkDecode.GatherAllIsSimple` | ocaml/src/alba_client_download.ml:484-512 | The two accumulating passes give the missing ids in ascending order before the end mark, and slots 0 .. k-1 and k .. k+m-1 in order; they fail exactly on a fragment of another size |
| `ChunkDecode.ErasuresPartition` | ocaml/src/alba_client_download.ml:484-512 | The collected ids and the ascending erasures partition 0 .. k+m-1, with at most m erasures when k arrived |
| `ChunkDecode.DecodeRestores` | ocaml/src/alba_client_download.ml:504-523 | What is gathered from any k genuine fragments is what an MDS decoder is promised - ascending ids in range before the end mark, at most m of them, equally long buffers, right everywhere else - so that it restores the data |
| `ChunkDecode.ChunkIsRestored` | ocaml/src/alba_client_download.ml:380-523 | Whenever the race ends in gathering, for every order of outcomes, gathering succeeds and decoding restores the chunk |
| `ChunkDecode.CopiesAreMds` | ocaml/src/erasure.ml:100-101 | That promise can be kept by a decoder that reads its erasures up to the end mark and leaves the data alone when there are none: for k = 1, copies keep it |
| `ObjectDownload.WonGivesTheData` | ocaml/src/alba_client_download.ml:358-523 | From the manifest's locations to the decoder's result, for every strategy and order of outcomes: a race that is won gives the chunk's data fragments, any other gives nothing |
| `ObjectDownload.DownloadFromFragments` | ocaml/src/alba_base_client.ml:382-469 | For every strategy, order and outcome of the fetches of all chunks: if every race is won the download writes exactly the object and succeeds if and only if the checksum is right; in any case it writes a beginning of the object only |
| `ObjectBytes.ContentAt` | cpp/src/lib/rora_proxy_client.cc:218-227 | Data fragment f of chunk c stands in the object at the sizes of the chunks before it plus f fragment lengths |
| `ObjectBytes.ContentLength` | cpp/src/lib/rora_proxy_client.cc:206-219 | The object, padding included, is as long as its chunk sizes together |
| `ObjectBytes.LaidOutIffSized` | cpp/src/lib/rora_proxy_client.cc:218-227 | The layout that the proofs use asks no more of fragments and manifest than that k divides the chunk sizes and the fragments have the quotients as lengths |
| `ReadPath.FindChunk` | cpp/src/lib/rora_proxy_client.cc:203-219 | The chunk found is the one that contains the position, empty chunks included |
| `ReadPath.GetLocation` | cpp/src/lib/rora_proxy_client.cc:202-242 | The location describes the manifest's fragment at that position, ends in that fragment or with the request, and is not empty |
| `ReadPath.ResolveSliceOneLevel` | cpp/src/lib/rora_proxy_client.cc:244-254 | The appended pieces deliver object[offset .. offset+length] to consecutive addresses from the target on, after what was there before |
| `ReadPath.ResolveOneLevel` | cpp/src/lib/rora_proxy_client.cc:256-275 | A resolve succeeds exactly when the manifest is found, and then delivers the bytes of all slices, in order |
| `ReadPath.ResolveLocations` | cpp/src/lib/rora_proxy_client.cc:287-315 | Resolving every piece of one level below delivers the same bytes to the same addresses; it gives up only when a lookup that one of these pieces depends on failed |
| `ReadPath.ResolveManyLevels` | cpp/src/lib/rora_proxy_client.cc:277-320 | Through any number of levels the final pieces deliver exactly the bytes of the object that the first lookup described, to the addresses asked for; it gives up only when the lookup of a manifest failed that the request depends on: its own, or below it that of a fragment which a slice needs |
| `ReadPath.ResolvedPiecesTile` | cpp/src/lib/rora_proxy_client.cc:244-320 | Pieces that deliver a stretch have positive lengths and tile it without gap or overlap |
| `FragmentKeys.NamespacePrefixFree` | cpp/src/lib/alba_common.cc:26-33 | The 4- or 12-byte form of a namespace id is prefix-free over all 64-bit ids |
| `FragmentKeys.FragmentKeyInjective` | cpp/src/lib/rora_proxy_client.cc:142-162 | Two keys are equal if and only if namespace, version, chunk and fragment are, and the object ids as far as their 32-bit length prefix reaches |
| `FragmentKeys.FragmentKeyDetermines` | cpp/src/lib/rora_proxy_client.cc:142-162 | For object ids shorter than 2^32 the key determines the whole fragment id |
| `FragmentKeys.CacheNameInjective` | cpp/src/lib/rora_proxy_client.cc:292-300 | The same for the object name in a fragment cache |
| `FragmentKeys.FragmentKeyLayout` | cpp/src/lib/rora_proxy_client.cc:142-162 | Where each part of a key stands, byte by byte, and what is read there |
| `FragmentKeys.CacheNameLayout` | cpp/src/lib/rora_proxy_client.cc:292-300 | The same for a name in a fragment cache: the length and bytes of the object id, then chunk and fragment as little-endian words |
| `FragmentKeys.BuildFragmentKey` | cpp/src/lib/rora_proxy_client.cc:142-162 | The shared builder yields that key whatever it grew to before - a 'p', four zeros, an 'n', the namespace id big-endian in 4 or 12 bytes, an 'o', the length and bytes of the object id, then chunk, fragment and version as little-endian words - and is empty again afterwards |
| `DirectRead.Regroup` | cpp/src/lib/rora_proxy_client.cc:327-352 | Every piece is in its own OSD's group, once, with its key, offset, length and target, in the original order |
| `DirectRead.PartialGet` | cpp/src/lib/osd_access.cc:117-124 | A read succeeds exactly when it does not break and what is stored covers the slice; it touches its target only, and a success fills it with the stored bytes |
| `DirectRead.ReadOsdSlices` | cpp/src/lib/osd_access.cc:100-137 | Result 0 if and only if the OSD is connected and every one of its slices, asked for in turn, is answered, and then all pieces of this OSD have arrived beside the earlier ones; -2 if and only if its pool gave no connection (paused, or connecting failed); -1 only when it has no pool or one slice was not answered; nothing outside the targets changes even after a failure |
| `DirectRead.ReadOsdsSlices` | cpp/src/lib/osd_access.cc:84-98 | Result 0 means that every OSD answered for its slices and all pieces are in memory together; any other result is that of an OSD that was asked |
| `DirectRead.ShortPath` | cpp/src/lib/rora_proxy_client.cc:322-364 | Regrouping does not show: with result 0 every piece of the request holds its stored bytes; any other result is that of a piece of the request that was not read; with null-io nothing is written |
| `DirectRead.DecryptedIsPlain` | cpp/src/lib/rora_proxy_client.cc:458-477 | Decrypting what arrived, from the piece's offset on, gives the plain bytes of the piece |
| `ProxyRead.FillObject` | cpp/src/lib/proxy_protocol.cc:324-329 | Copying an object's slices makes all its buffers hold that object, and changes nothing else |
| `ProxyRead.SlowPath` | cpp/src/lib/rora_proxy_client.cc:388-395 | A proxy read returns if and only if it does not break off and every slice lies inside its object; it has then filled every object of its list; one that fails has changed their buffers only |
| `Routing.RouteOne` | cpp/src/lib/rora_proxy_client.cc:425-442 | An object is read directly only if all its pieces have an OSD, no compression and partial decryption; its pieces then deliver one version of it. It goes to the proxy only if a lookup that it depends on failed, or one of its pieces lacks one of these |
| `Routing.Route` | cpp/src/lib/rora_proxy_client.cc:420-443 | The direct pieces deliver exactly the slices of the objects routed that way, and the others, each for such a reason, are exactly the list for the proxy, in order |
| `Routing.RoutedIsWorkable` | cpp/src/lib/rora_proxy_client.cc:420-446 | Pieces routed from a request with disjoint buffers never overlap and stay inside the memory |
| `RoraClient.RoraProxyClient.constructor` | cpp/src/lib/rora_proxy_client.cc:19-26 | A client starts with no failures counted and no keys |
| `RoraClient.RoraProxyClient.GetEncryptionKey` | cpp/src/lib/rora_proxy_client.cc:567-605 | A key is returned if and only if it is cached, or fetched now and of the hash asked for; no key if and only if none is cached and the proxy has none; every cached key is filed under its own hash, also one fetched in vain; nothing cached is lost |
| `RoraClient.RoraProxyClient.DecryptOne` | cpp/src/lib/rora_proxy_client.cc:452-480 | A piece that held its stored bytes holds its plain bytes afterwards, and nothing else changed, if and only if it is not encrypted, or has a counter, its key is at hand and the cipher does not fail; the process ends if and only if the proxy has no key for a piece with a counter; anything else throws |
| `RoraClient.RoraProxyClient.DecryptAll` | cpp/src/lib/rora_proxy_client.cc:449-488 | If all pieces had arrived, all are plain afterwards, none being decrypted twice; it fails only for a piece that cannot be decrypted, in that piece's way |
| `RoraClient.RoraProxyClient.FastPath` | cpp/src/lib/rora_proxy_client.cc:446-488 | Result 0 means read and decrypted; an exception of the decryption becomes -1; any other result than 0 is that of a piece which was not read or whose decryption threw |
| `RoraClient.RoraProxyClient.ReadFast` | cpp/src/lib/rora_proxy_client.cc:420-512 | Every object's buffers hold one version that it had during the call, from the OSDs or the proxy; after a failed direct part, which has its reason in a piece, all come from one proxy read made during the call; otherwise the proxy is asked for objects only that cannot be read directly; it returns if and only if that proxy read does; what happens to the failure counter |
| `RoraClient.RoraProxyClient.ReadObjectsSlices` | cpp/src/lib/rora_proxy_client.cc:397-513 | Whenever it returns with null-io off, the buffers of every object hold the bytes of one version that the object had, at the proxy or in the cache, at a moment of the call, whatever failed on the way; nothing unasked is written; after a failure or on the slow path all of it is what one proxy read of the call found; it returns if and only if the proxy answers for what it is asked - everything on the slow path or after a failed piece, else only objects that cannot be read directly; when the slow path is taken, and the new failure counter and time |
| `RoraClient.BothWays` | cpp/src/lib/rora_proxy_client.cc:445-511 | The proxy's writes leave the directly read objects intact |
| `RoraClient.OneMoreDecrypted` | cpp/src/lib/rora_proxy_client.cc:452-480 | Decrypting one piece leaves the plain ones plain and the stored ones stored |
| `Ctr.DecryptIsBlockwise` | cpp/src/lib/encryption.cc:170-175 | The byte-by-byte form of CTR decryption equals the block recursion with a 128-bit counter (section 6.5 of NIST SP 800-38A) |
| `Ctr.SliceOfDecryption` | cpp/src/lib/encryption.cc:159-175 | Decrypting a slice from its offset on is that slice of the whole decryption |
| `Ctr.SkipIsAddition` | cpp/src/lib/encryption.cc:118-127 | The two words with carry are addition modulo 2^128 (Appendix B.1 of NIST SP 800-38A) |
| `Ctr.SeekCounter` | cpp/src/lib/encryption.cc:114-133 | The rebuilt counter block is the big-endian sum of the old one and the skipped blocks, modulo 2^128 |
| `Ctr.CipherHandle.Decrypt` | cpp/src/lib/encryption.cc:170-175 | The stateful handle continues the keystream where it stands and changes the given stretch only |
| `Ctr.Burn` | cpp/src/lib/encryption.cc:159-168 | Throwing away offset mod 16 bytes puts the handle at the offset |
| `Ctr.PartialDecrypt` | cpp/src/lib/encryption.cc:100-179 | It succeeds exactly in CTR mode without a library error; then as many bytes as the `int` length says as a `size_t` are decrypted from the `int` offset, made unsigned, on; outside them nothing changes |
| `Ctr.PartialIsSliceOfWhole` | cpp/src/lib/encryption.cc:100-179 | For every offset and length below 2^31 that is the slice of the full CTR decryption |
| `Ctr.SoughtBlockIsRightIffSmall` | cpp/src/lib/encryption.cc:100-127 | The counter sought is the right one if and only if the 32-bit offset is below 2^31 |
| `Ctr.DecryptsRightIffBothFitInt` | cpp/src/lib/encryption.cc:100-175 | For every 32-bit offset and length, cipher and data: as many bytes as asked for are decrypted, and with the right keystream, if and only if there are none or both numbers are below 2^31 |
| `FullDownload.DownloadWritesObject` | ocaml/src/alba_base_client.ml:382-469 | A download without failures writes and hashes exactly the first object-size bytes of the content, cutting the padding of the last chunk; it succeeds exactly when their hash is the manifest's |
| `FullDownload.FailedDownloadWroteABeginning` | ocaml/src/alba_base_client.ml:382-469 | Whatever fails, what has been written is a beginning of the object; success means all of it, with the right hash |
| `FullDownload.BuffersReleasedOnce` | ocaml/src/alba_base_client.ml:401-431 | The data and coding buffers of every chunk handed over, and no others, are released once, also when a write fails |
| `FullDownload.PartialReadIsSliceOfDownload` | ocaml/src/alba_base_client.ml:382-438 | Pieces that deliver slices inside the object deliver those slices of what the full download of the same manifest writes, and the download writes exactly object-size bytes |
| `FullDownload.ResolveSlicesOfDownload` | cpp/src/lib/rora_proxy_client.cc:202-320 | The direct read of slices inside the object, through any number of levels, delivers exactly those slices of what the full download of the manifest it found writes, or gives up because a lookup it depends on failed |
| `LruCache.UnsafeLruCache.constructor` | cpp/src/lib/lru_cache.h:35-41 | A new cache is empty and has the given positive capacity |
| `LruCache.UnsafeLruCache.Find` | cpp/src/lib/lru_cache.h:49-57 | A hit returns the value of the entry and moves that entry to the newest place, the others keeping their order; a miss means that the key is not there, and changes nothing |
| `LruCache.UnsafeLruCache.Insert` | cpp/src/lib/lru_cache.h:59-69 | A full cache loses its oldest entry first, even if the key is present; then the key's own entry, if any, is taken out and the key is the newest with the new value, the others keeping their order |
| `LruCache.UnsafeLruCache.Erase` | cpp/src/lib/lru_cache.h:71-71 | The key's entry, and only that, is removed; it says whether there was one |
| `LruCache.CacheIsRecencySuffix` | cpp/src/lib/lru_cache.h:49-71 | After every run of inserts, finds and erases the entries are a suffix of the list that an unbounded cache would have, with the same values, at most capacity many |
| `LruCache.BoundedPutSize` | cpp/src/lib/lru_cache.h:59-69 | The size after an insert; one slot is lost exactly when a key that is not the oldest is inserted again into a full cache |
| `LruCache.HoldsEnough` | cpp/src/lib/lru_cache.h:49-71 | Without erases a cache that holds at least the smaller of its recency list and capacity - 1 goes on doing so |
| `LruCache.HoldsMinOfKeysAndCapacity` | cpp/src/lib/lru_cache.h:49-71 | A new cache without erases holds at least min(distinct keys inserted, capacity - 1) entries |
| `LruHistory.EntriesInUseOrder` | cpp/src/lib/lru_cache.h:49-71 | After every run of operations the entries stand in the order in which their keys were last inserted or found, as the list of operations says, each with the value last inserted under its key |
| `LruHistory.DropsLeastRecent` | cpp/src/lib/lru_cache.h:49-71 | Which keys are there after one more operation: an insert into a full cache drops exactly the key whose last use is the longest ago, unless it is the key inserted; an erase its own key; a find none |
| `LruHistory.KeptForCapacityUses` | cpp/src/lib/lru_cache.h:49-69 | A key that was inserted is there as long as it is not erased and fewer inserts and successful finds than the capacity came after |
| `LruHistory.FindsCountToo` | cpp/src/lib/lru_cache.h:49-69 | The finds have to be counted: with capacity 2, one find and one insert after it drop a key |
| `ManifestCache.FindAfterInvalidateIsFresh` | cpp/src/lib/manifest_cache.cc:27-94 | In every interleaving of lock sections, a find that started after an invalidation of its namespace never returns a manifest whose add did its level-1 lookup before it |
| `ManifestCache.FindReturnsLatest` | cpp/src/lib/manifest_cache.cc:27-85 | In every interleaving a find returns nothing or the last manifest that any add inserted for its namespace, alba id and name, among the adds with no invalidation of that namespace between their level-1 lookup and the find's, if no alba id in use in the namespace is a prefix of another |
| `ManifestCache.InsertionIsFound` | cpp/src/lib/manifest_cache.cc:57-85 | An insertion of that kind is what a find returns that comes right after it |
| `ManifestRetention.RecentlyAddedIsFound` | cpp/src/lib/manifest_cache.cc:19-85 | In every interleaving, a find for which some manifest was inserted, with no invalidation of the namespace between the lookups, returns the newest such manifest as long as fewer manifests were inserted into that cache object or got from it since than its capacity: the capacity last set before the object was made, or 10000 |
| `ManifestRetention.ObjectsAreLru` | cpp/src/lib/manifest_cache.cc:39-58 | In every run each cache object is the LRU cache, with that capacity, of the insertions and gets that went to it |
| `ManifestRetention.LookupsGiveObjects` | cpp/src/lib/manifest_cache.cc:35-76 | From the events alone: an add gets an object if and only if its namespace has one or the capacity is not 0, and a find if and only if its namespace has one, which an add made and no invalidation removed since; otherwise the find returns nothing |
| `ManifestEpochs.SameObjectIffSameEpoch` | cpp/src/lib/manifest_cache.cc:35-55 | In every history two lookups of a namespace give the same cache object if and only if the namespace was not invalidated between them |
| `ManifestCache.KeysCollideIffPrefix` | cpp/src/lib/manifest_cache.cc:23-25 | Different alba ids share a key for some names if and only if one is a prefix of the other, which ids of equal length never are |
| `ManifestCache.StepKeepsInv` | cpp/src/lib/manifest_cache.cc:27-94 | Every lock section of add, find and invalidate keeps this: pending operations hold an object of their namespace and epoch, and every entry of an object is the newest insertion into it under its key |
| `ConnectionPool.ConnectionPool.constructor` | cpp/src/lib/asd_access.cc:19-26 | A new pool is empty, with no failures |
| `ConnectionPool.ConnectionPool.ReleaseConnection` | cpp/src/lib/asd_access.cc:66-78 | A connection goes to the front or, in a full pool, is destroyed, and clears the failures; no connection is a failure |
| `ConnectionPool.ConnectionPool.GetConnection` | cpp/src/lib/asd_access.cc:80-105 | A pool with 15 failures, the last less than 120 seconds ago, refuses; otherwise the front connection is taken, or one is made when there is none |
| `ConnectionPool.ConnectionPool.SetCapacity` | cpp/src/lib/asd_access.cc:117-139 | A shrink keeps the front, in reverse order, and destroys exactly the rest |
| `ConnectionPool.EveryConnectionInOnePlace` | cpp/src/lib/asd_access.cc:30-139 | In every run every connection ever made is in exactly one of pool, borrowers and destroyed, once; the pool never exceeds its capacity |
| `ConnectionPool.ShrinkKeepsTheFront` | cpp/src/lib/asd_access.cc:117-135 | In every reachable state a shrink to c below the size keeps exactly the c front connections, destroys the others and leaves the borrowed ones alone |
| `ConnectionPool.NothingHandedOutWhilePaused` | cpp/src/lib/asd_access.cc:80-105 | While a pause lasts nobody gains a connection, except at most those already connecting when it began |
| `ConnectionPool.HandOutWhilePausedIff` | cpp/src/lib/asd_access.cc:80-105 | With 15 or more failures, the last less than 120 seconds ago: some run hands a connection out while that lasts if and only if a caller was already connecting when it began |
| `ConnectionPool.HandOutWhilePausedIsReachable` | cpp/src/lib/asd_access.cc:94-104 | A run in which a connection is handed out during a pause |
| `ConnectionPool.PausedIffReported` | cpp/src/lib/asd_access.cc:66-92 | In every run the failure count is the number of failures reported since a connection was last given back, and the pool is paused if and only if that is 15 or more and the last was less than 120 seconds ago |
| `ConnectionPool.GetUndoesGiveBack` | cpp/src/lib/asd_access.cc:66-105 | A get after a connection was given back to a pool with room hands out that connection and leaves the pool as it was |
| `ConnectionPool.StepKeepsInv` | cpp/src/lib/asd_access.cc:30-139 | Every get, connect, failed connect, release, loss, resize and tick of the clock keeps the pool's books |
| `Bytes.Swap32IsBigEndian` | cpp/src/lib/llio.cc:59-63 | Storing the swapped word little-endian is storing the word big-endian |
| `Bytes.Swap64IsBigEndian` | cpp/src/lib/llio.cc:83-90 | The same for 64 bits |
| `Bytes.SwapLoaded64` | cpp/src/lib/llio.cc:98-104 | Swapping a loaded word reads its bytes big-endian |
| `Llio.U32RoundTrips` | cpp/src/lib/llio.cc:54-70 | Every 32-bit word, followed by any bytes, is read back and leaves exactly those bytes |
| `Llio.U64RoundTrips` | cpp/src/lib/llio.cc:78-96 | The same for 64-bit words |
| `Llio.BoolRoundTrips` | cpp/src/lib/llio.cc:24-52 | The same for booleans |
| `Llio.Be64RoundTrips` | cpp/src/lib/llio.cc:83-104 | The same for big-endian words, whose bytes are the big-endian digits |
| `Llio.VarintRoundTrips` | cpp/src/lib/llio.cc:132-156 | The same for every 64-bit varint, the reader's shifts wrapping at 64 bits |
| `Llio.StringRoundTripsIffShort` | cpp/src/lib/llio.cc:106-119 | A string is read back, leaving what follows, if and only if it is shorter than 2^31 |
| `Llio.X64RoundTrips` | cpp/src/lib/alba_common.cc:15-23 | The variable-width 64-bit form is read back for every value |
| `Llio.VectorRoundTripsIffShort` | cpp/include/llio.h:237-266 | A vector of readable elements, written last element first, is read back if and only if it has at most 2^31 elements; nests |
| `Llio.PairRoundTrips` | cpp/include/llio.h:268-278 | Pairs of readable values are read back |
| `Llio.OptionRoundTrips` | cpp/include/llio.h:287-307 | So are optional values |
| `LlioBuffers.MessageBuilder.constructor` | cpp/include/llio.h:164-168 | A new builder is empty |
| `LlioBuffers.MessageBuilder.AddRaw` | cpp/include/llio.h:187-201 | The contents are the old ones with the new bytes behind, across any growth of the buffer |
| `LlioBuffers.MessageBuilder.AddVarint` | cpp/src/lib/llio.cc:132-142 | The loop appends the varint encoding |
| `LlioBuffers.MessageBuilder.AddVector` | cpp/include/llio.h:237-244 | The loop appends the vector encoding |
| `LlioBuffers.MessageBuilder.OutputUsing` | cpp/include/llio.h:170-175 | What is sent is the length of the contents and the contents |
| `LlioBuffers.MessageBuilder.Reset` | cpp/include/llio.h:214-214 | The builder is empty again and keeps its buffer |
| `LlioBuffers.Message.constructor` | cpp/include/llio.h:113-118 | A view stands at its offset and ends with its length |
| `LlioBuffers.Message.GetNestedMessage` | cpp/include/llio.h:130-138 | A nested view ends at the given length; it throws exactly when that is outside |
| `LlioBuffers.Message.FromString` | cpp/src/lib/llio.cc:112-119 | The cursor moves as the string reader says, and a throw leaves it where that reader stopped |
| `LlioBuffers.Message.FromVarint` | cpp/src/lib/llio.cc:144-156 | The loop over shift and accumulator is the recursive reader |
| `LlioBuffers.ReadVector` | cpp/include/llio.h:255-266 | Filling from the last index down is the reader that the round trip is about |
| `LlioBuffers.ReadItems` | cpp/include/llio.h:261-265 | So is its loop, for sizes that do not fit an `int32_t` as well |
| `FragmentCodec.FragmentReads` | cpp/src/lib/manifest.cc:156-198 | A fragment record with an old, current or longer future tail is read back and the cursor goes to its end |
| `FragmentCodec.FragmentEndsAtPrefix` | cpp/src/lib/manifest.cc:156-198 | Whatever the payload, a record that is read at all consumes exactly its length prefix |
| `FragmentCodec.TailReads` | cpp/src/lib/manifest.cc:175-197 | From a tail of any age the counter and the name are read as far as it has them |
| `ManifestFields.SchemeRoundTrips` | cpp/src/lib/manifest.cc:17-27 | The encoding scheme is read back |
| `ManifestFields.CompressionRoundTrips` | cpp/src/lib/manifest.cc:29-52 | So is the compression |
| `ManifestFields.UnknownCompressionThrows` | cpp/src/lib/manifest.cc:46-49 | An unknown compression tag throws, whatever follows |
| `ManifestFields.EncryptRoundTrips` | cpp/src/lib/encryption.cc:52-93 | The encryption info with a 32-byte key id is read back |
| `ManifestFields.UnknownEncryptionThrows` | cpp/src/lib/encryption.cc:88-91 | An unknown encryption tag throws, whatever follows |
| `ManifestFields.UnknownKeyKindEnds` | cpp/src/lib/encryption.cc:52-71 | A key id of another kind than 1 ends the process |
| `ManifestFields.ChecksumRoundTrips` | cpp/src/lib/checksum.cc:77-97 | Checksums are read back |
| `ManifestFields.UnknownChecksumThrows` | cpp/src/lib/checksum.cc:94-95 | An unknown checksum type throws something that is not a `deserialisation_exception` |
| `ManifestBody.BodyReads` | cpp/src/lib/manifest.cc:213-250 | The body of a version 2 manifest is read back, with fragment tails of any age and bytes behind it |
| `ManifestBody.BadVersion2Throws` | cpp/src/lib/manifest.cc:218-222 | A wrong inner version throws |
| `ManifestBody.UnknownEncryptionFails` | cpp/src/lib/manifest.cc:224-226 | An unknown encryption throws in the middle of a body |
| `ManifestBody.BadLayoutTagThrows` | cpp/src/lib/manifest.cc:229-233 | A wrong layout tag throws |
| `ManifestBody.UnknownChecksumFails` | cpp/src/lib/manifest.cc:224-227 | An unknown checksum type in the middle of a body ends the read of the body in that other exception |
| `ManifestBody.UnknownFragmentChecksumFails` | cpp/src/lib/manifest.cc:156-172 | So does an unknown checksum type of any fragment, whichever chunks and fragments are read before it |
| `ManifestBody.UnknownKeyKindFails` | cpp/src/lib/manifest.cc:224-226 | A key id of another kind ends the process in the middle of a body |
| `ManifestFormat.BodyFormat` | cpp/src/lib/manifest.cc:213-250 | The bytes of a version 2 body, written down field by field with all tags and widths: they are what is written, and what is read as that manifest, whatever follows |
| `ManifestFormat.RecordBytes` | cpp/src/lib/manifest.cc:156-198 | The same for a fragment record: its length, version, location, checksum, length, counter and name |
| `ManifestFormat.EncryptionBytes` | cpp/src/lib/encryption.cc:52-93 | The same for the encryption info: tag, algorithm, mode, key length, kind of key id, key id |
| `ManifestFormat.ChecksumBytes` | cpp/src/lib/checksum.cc:77-97 | The same for checksums |
| `ManifestFormat.VarintBytes` | cpp/src/lib/llio.cc:132-142 | A varint is the number's base-128 digits, the lowest first, as few as possible, the high bit set on all but the last |
| `ObjectInfos.RecordReads` | cpp/src/lib/manifest.cc:253-285 | A record with any version and any body: kept or skipped, the cursor going to the end of its namespace id, or the end of the read, and in which way |
| `ObjectInfos.ReadObjectInfos` | cpp/src/lib/proxy_protocol.cc:287-314 | The reading loop is the list reader below |
| `ObjectInfos.ReadInfos` | cpp/src/lib/proxy_protocol.cc:293-313 | So is its body, for sizes that do not fit an `int32_t` as well |
| `ObjectInfos.StreamReads` | cpp/src/lib/proxy_protocol.cc:287-314 | Reading a list of any records yields exactly the decodable ones, in order, with their own namespace ids, and leaves the cursor after the last, if and only if every version is known and every body decodes to its own name or throws a `deserialisation_exception`; otherwise the read ends as the first other record ends it |
| `ObjectInfos.BodyEndsTheRead` | cpp/src/lib/proxy_protocol.cc:293-313 | A body of a known version that ends in anything but a `deserialisation_exception`, after any records that go on, ends the read of the list in the same way |
| `ObjectInfos.UnknownChecksumEndsTheRead` | cpp/src/lib/proxy_protocol.cc:293-313 | The failing input: a record of a known version with an unknown checksum type, after any records that go on, ends the read of the list in an exception that is not caught |
| `ObjectInfos.Version2IsDecodable` | cpp/src/lib/manifest.cc:200-251 | A record whose blob unzips to a version 2 body is one of those, with that manifest |
| `Crc32cTable.TableIsShift8` | ocaml/src/tools/alba_crc32c_stubs.c:44-88 | Every one of the 256 entries is its index divided by the Castagnoli polynomial, reflected, for eight bits |
| `Gf2Division.PeelDigits` | ocaml/src/tools/alba_crc32c_stubs.c:90-96 | Dividing bit by bit is xoring the bits in at once and shifting as often, up to the bits not yet used |
| `Word32.EightShifts` | ocaml/src/tools/alba_crc32c_stubs.c:93-93 | Eight shifts of a word are the table entry of its low byte xored with its upper part |
| `Crc32c.TableStepIsEightBits` | ocaml/src/tools/alba_crc32c_stubs.c:90-96 | One step of the table loop is eight bits of reflected division |
| `Crc32c.Crc32cSoft` | ocaml/src/tools/alba_crc32c_stubs.c:90-96 | The table-driven loop computes bit-serial division for every state and byte string (section 12.1 of RFC 3720) |
| `Crc32c.EightBytesAtOnce` | ocaml/src/tools/alba_crc32c_stubs.c:31-36 | The eight-byte instruction on a little-endian load is the CRC of the eight bytes |
| `Crc32c.Crc32cSse42Byte` | ocaml/src/tools/alba_crc32c_stubs.c:15-23 | The byte loop computes the same value |
| `Crc32c.Crc32cSse42` | ocaml/src/tools/alba_crc32c_stubs.c:25-42 | So does the eight-byte-then-rest loop |
| `Crc32c.Crc32cString` | ocaml/src/tools/alba_crc32c_stubs.c:113-142 | So does the entry point, whichever loop the processor allows, on the slice asked for, complemented at the end if final |
| `Crc32c.CrcConcat` | ocaml/src/tools/alba_crc32c_stubs.c:90-96 | The CRC of a concatenation is the second part run from the state of the first |

## Left out

- RoraClient.RoraProxyClient.ReadObjectsSlices: encrypted fragments are taken to be shorter than 2^31 bytes, because `partial_decrypt` takes offsets and lengths as `int`s; `Ctr.DecryptsRightIffBothFitInt` has the exact condition for a piece.
- RoraClient.RoraProxyClient.ReadObjectsSlices: says that an object is read in one version that the proxy or a cached manifest had during the call, not in the newest; cached manifests are taken to describe bytes that are still stored, and the requested slices to lie inside them.
- RoraClient.RoraProxyClient.ReadObjectsSlices: with null-io on it makes no claim about buffers read directly, because nothing is read.
- RoraClient.RoraProxyClient.ReadObjectsSlices: does not model the insertion of the manifests that come back with a proxy read, the refresh of OSD addresses, or an exception while the alba levels are fetched.
- DirectRead.PartialGet: takes from the ASD client that a read that does not throw has filled its slice; the success flag that the call returns is ignored by the source.
- ManifestCache.FindReturnsLatest: the two-level cache is a step system over values, not a class, because its point is the interleaving of lock sections; the aliasing of inner caches is modelled by their number.
- ChunkDownload.BuffersGivenBackOnce: the hash tables and latches of a download are parts of a state value that its steps replace, for the same reason.
- ConnectionPool.ConnectionPool.ReleaseConnection: failure counters are unbounded integers and do not overflow at 32 bits.
- LlioBuffers.MessageBuilder.AddRaw: requires that the 32-bit size of the grown buffer does not wrap; the source then writes outside the buffer.
- LlioBuffers.MessageBuilder.AddVarint: requires contents of at most 2^31 bytes, which keep every growth from wrapping.
- LlioBuffers.MessageBuilder.AddVector: the same.
- FragmentKeys.BuildFragmentKey: the same.
- ReadPath.GetLocation: requires, as the source does, that the position is inside the object, that k divides the chunk sizes, and that every chunk lists its data fragments.
- Eventual wake-up of waiters in the deduplicated delivery: false of the code, as shown.
- ObjectInfos.StreamReads: takes the assertions of the source to be compiled in, so that a body of another name ends the process; the fields of records are shorter than 2^31 bytes, as `Llio.StringRoundTripsIffShort` shows they must be.
- The body of a version 1 manifest: an arbitrary function here; only its framing is modelled.
- Decoding failures inside `noexcept` templates end the process; the model ends there too.
- AES, SHA-256, Snappy and the erasure code: an arbitrary block function, hash and decompression, and any decoder of an MDS code.
- The `crc32b` and `crc32q` instructions: modelled by their documented meaning.
- The internals of the bimap behind the LRU cache: a map and an ordered list of keys.
- The manager's storage of its message log: a list and a delivered mark, with the batch limit of 10.
- Node preferences are a set of preferred OSDs, and the sort by preference is a stable one.
- TCP and RDMA transports and the request plumbing of the proxy and ASD clients.
- `deliver_messages_to_most_osds` and the delivery to NSM hosts: they would only repeat the delivery shown.
- The Arakoon configuration codec, statistics, logging, command-line code, and the NSM, garbage collection and rebalancing.
