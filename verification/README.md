# Static network: a verified model of its protocol core

Static is a mix network whose nodes barter storage, answer requests anonymously and keep accounts
without a ledger. This project models the stateful core of that system in Dafny and proves what its
operations keep over whole runs and for all inputs.

- **Storage swaps** (`Merkle`, `Swap`, `SwapNode`, `SwapLocks`, `SwapRuns`, `SwapSafety`, `SwapBinding`,
  `SwapEvents`, `SwapLeaks`, `SwapLimits`, `SwapNetwork`, `SwapNetworkBinding`, `SwapDepartures`,
  `SwapLockNetwork`, `SwapStaging`, `SwapReopening`). The propose, accept, retrieve, commit, finalize,
  abort and timeout handlers: as methods of a node, as lock-delimited sections that any number of handlers
  interleave, and as nodes exchanging messages over a network that loses, repeats and reorders them, with whole
  handlers or with interleaved sections as the steps. The sections of a handler left alone compute exactly the
  handler, and lose between them exactly what the handler loses.
- **Fragments and sessions** (`Fragment`, `Delivery`, `FifoTable`, `Sessions`, `Retrieval`, `SurbRequest`).
  Cutting, fixed-size bodies, reassembly in any order, and the bounded session tables.
- **Wire format** (`Sizes`, `WireCodec`, `Framing`, `Stream`). Every message layout, the frame around it, and the
  reader that takes frames off a stream cut into arbitrary pieces.
- **Anonymous retrieval** (`SphinxCrypto`, `SphinxNode`, `SessionReplay`, `Surb`, `SurbRoute`, `SurbDelivery`, `SurbReplies`,
  `SurbCodec`, `RequestCodec`, `AnonymousRetrieval`, `RetrievalWitness`). Reply blocks, the mix node's hop, the whole journey, the
  session replies that follow, and all of it put together from the request to the chunk.
- **Accounts** (`Accounting`, `Prepayment`). Last-write-wins reconciliation and the sponsor's gate.
- **Shaping and storage bookkeeping** (`TokenBucket`, `HostBuffer`, `Storage`, `StorageRuns`, `StorageLocks`,
  `Backup`).

`Bytes` and `Sums` hold byte strings, big-endian integers and totals over maps.

## How to read the model

Code that updates state in place is a class or a method with loops, proved equal to a function of the old
state; the theorems are about those functions. Time is a parameter everywhere. Whatever a walk over a hash
map happens to find first is a parameter constrained by a predicate, so results hold for every walk order.
Random bytes and coins are parameters too. Hashing is an arbitrary function. The other primitives of Sphinx
are the fields of one record whose laws are those the routing needs: scalars act commutatively on multiples of
the base point, decryption undoes encryption and adds a fixed length, decapsulation recovers what was
encapsulated, and keystreams are applied by XOR (defined on bits, its involution proved). A concrete record meets
these laws together (`SphinxCrypto.LawsAreConsistent`).

A swap message counts as authentic: only a node itself sends accepts, commits and aborts in its own name, while
proposals can be forged by anybody. Signature, nonce cache and pinned-key checks enter through that assumption.

## What turned out not to hold

- The integrity gate does not accept chunks only: every inner node of every tree passes as a chunk, since leaves are
  hashed without a tag (`Merkle.InnerNodePassesAsChunk`, for all trees `Merkle.GateAcceptsTheTree`), and so does
  anything below a chunk of 64 bytes (`Merkle.BelowNodeSizedChunkPasses`). Where neither the data nor any chunk has
  64 bytes, every proof of any index and depth is sound up to a collision between the proof's path and the tree
  (`Merkle.GateIsSound`). The swap handlers meet the condition by their length check; an all-zero root switches the
  gate off.
- A reservation can lose its owner although a proposal is opened once and accepted once: an accept that races the
  timeout sweep (`SwapLimits.AcceptRacingTimeoutLeaks`). The exact condition is `SwapLocks.ExactIffNeverLeaks`
  for interleaved handlers and `SwapEvents.ExactIffLeakFree` for handlers that take turns.
- A node can finalize a swap with a peer that follows the protocol and has not committed: it opens the proposal again
  with that peer between the check and the mark of another peer's commit (`SwapReopening.ReopeningBreaksCausality`). A
  checked commit is marked in an entry of its sender if and only if the proposal was not opened again in between, or
  last with the sender (`SwapReopening.MarkedForSenderIff`). The flags that note a received commit tell the truth at
  every point of a run if and only if no mark is stale (`SwapLockNetwork.FlagsTrueIffNoStaleMark`), and causality
  holds in every run in which no opening for an uncommitted peer overtakes a commit of the same proposal between its
  check and its mark (`SwapLockNetwork.LockLevelCausality`). An opening can also come from outside: a node's own
  proposal sent back to it replaces the entry by one with the node itself as peer.
- The byte counter drifts when a snap falls between the store and the release of a finished swap
  (`StorageLocks.SnapCountsTwice`, from the start `StorageLocks.SnapFromTheStart`). In every interleaving the drift is exactly accounted for
  (`StorageLocks.CounterConservation`), and a snap keeps a balanced node balanced if and only if what was read and
  what is still due make up what is held (`StorageLocks.SnapKeepsIff`).
- A payload is returned if and only if it is at most 2048 fragments long (`Delivery.RoundTripLimit`).
- The order in which entries arrive matters unless, for every peer, the latest admissible credits agree or our own is
  among them (`Accounting.TieDependsOnOrder`, exactly `Accounting.OrderIndependentIffSettled`). Two nodes that
  exchange exports converge if and only if no peer has two differing credits of one time
  (`Accounting.ExchangeConverges`).
- Two prepayments for one content can be accepted within the hour: a full table of attempts may drop the pair
  (`Prepayment.TwiceAfterEviction`). Within the hour the gate opens again if and only if the last event that touched
  the pair was its eviction (`Prepayment.RateOpenIffDropped`).
- A prepaid credit can be lost while the seed stays registered, since a prepayment does not move the account's time:
  reconciliation overwrites the account by a copy that counts as newer (`Prepayment.ReconciliationForgetsPrepayment`),
  and the hourly cleanup drops an account that a prepayment has made as one without any interaction
  (`Prepayment.CleanupForgetsPrepayment`). The credit follows what was accepted at every point of a run if and only if
  no event of the run disturbs it, and what disturbs it can be seen beforehand: an own prepayment to the same peer, a
  reconciliation whose first of the latest newer entries for the peer carries another credit, or a cleanup after
  eight days without an interaction (`Prepayment.CreditIsAcceptedTotal`).
- A limiter configured below 1000 bytes per second and polled every millisecond never admits more than its initial
  tokens, because every call rounds down and moves the clock (`TokenBucket.SlowRateStarves`). A run that is nowhere
  clipped starves if and only if every call comes within less than one byte's time of the one before
  (`TokenBucket.StarvesIffPolledTooFast`); from 1000 bytes per second on, as for every tier and fixed mode of the
  repository, none does once time passes (`TokenBucket.FastRatesNeverStarve`), and at most one byte per call is lost
  (`TokenBucket.RoundingLossBound`).
- A hop that finds the reply block's tag fitting the body it carries treats the packet as an ordinary one and
  remembers no session (`SurbDelivery.UnrecognisedIsForgotten`, with primitives that meet the laws). Hops new to the
  session all remember it if and only if each could tell (`SurbDelivery.PrimedIffRecognisable`); beyond its first
  fragment a response arrives exactly then (`SurbReplies.ResponseRoundTrip`).
- A replayed packet is accepted again once its tag has left the table, which happens with the 100000th new tag behind
  it and not before (`SphinxNode.ReplayRefused`). A replayed session reply is relayed again once its nonce has left the
  session's table, with the 2048th new nonce behind it and not before (`SessionReplay.ReplyReplayRefused`).
- Reading a handshake and writing it again need not give the same bytes: every flag byte but 1 is read as "off"
  (`WireCodec.HandshakeAccepted`, if and only if the flag is 0 or 1); a response likewise
  (`RequestCodec.ResponseAccepted`). A Sphinx packet has two byte forms, its own and
  the unversioned legacy one (`WireCodec.SphinxAccepted`).
- An entry made for a held chunk may learn its primary and be activated by one and the same tick
  (`Backup.ResolvedAndActivatedAtOnce`); silence is proved for that case as well.

Where comments and code of the repository disagree the model follows the code: the module comment of
`fragment.rs` speaks of an 8-byte fragment header (the code writes 12 bytes); the comment on
`deserialize_sphinx` allows no encapsulation section in classical packets (the code allows any multiple of one
ciphertext for every version but the hybrid one); the comment on `build_surb_request_bodies` calls every body
full-sized (the last one is shorter).

## Model

| member | source | states |
|---|---|---|
| `Merkle.VerifyChunk` | crates/static-storage/src/integrity.rs:123-135 | the verification loop computes the climb from leaf to root that the other lemmas reason about |
| `Merkle.ProofsVerify` | crates/static-storage/src/integrity.rs:57-135 | every proof generated for a tree of any size is accepted against that tree's root |
| `Merkle.GateIsSound` | crates/static-storage/src/integrity.rs:123-135 | for every proof of any index and any number of siblings: unless data or a chunk has 64 bytes, accepted data is one of the chunks, or an input on the proof's path and a different one in the tree share a hash |
| `Merkle.GateAccepts` | crates/static-storage/src/integrity.rs:123-135 | for every tree and every proof, without a condition: accepted data is a chunk, an inner node, below a chunk of 64 bytes, or the path meets the tree in a collision |
| `Merkle.GateAcceptsTheTree` | crates/static-storage/src/integrity.rs:17-20 | where no chunk has 64 bytes the gate accepts, with some proof, exactly what was hashed for the tree, inner nodes included, collisions aside |
| `Merkle.InnerNodePassesAsChunk` | crates/static-storage/src/integrity.rs:17-20 | for any two chunks, their two leaf hashes pass as a chunk with an empty proof |
| `Merkle.OwnShapeBindsPosition` | crates/static-storage/src/integrity.rs:57-135 | a proof of the tree's own shape binds the position: data accepted at a leaf is the chunk of that leaf with its own proof, or the two paths collide |
| `SwapNode.TotalBytes` | crates/static-storage/src/retrieval.rs:521-523 | the loop over the holder returns the sum of the lengths held |
| `SwapNode.TransportNode.BeginSwapProposal` | crates/static-mesh/src/transport.rs:511-555 | opens a pending swap that reserves nothing and changes nothing else |
| `SwapNode.TransportNode.HandleMaintenanceProposal` | crates/static-mesh/src/transport.rs:1648-1779 | whole new state and reply: snap the counter, then reject without a trace or reserve, open and accept |
| `SwapNode.TransportNode.HandleMaintenanceAccept` | crates/static-mesh/src/transport.rs:1786-1855 | whole new state: ignore a stranger, abort without room, or reserve and name the return chunk |
| `SwapNode.TransportNode.HandleMaintenanceCommit` | crates/static-mesh/src/transport.rs:1858-1889 | whole new state: mark the peer's commit and finalize if that was the last condition |
| `SwapNode.TransportNode.HandleMaintenanceAbort` | crates/static-mesh/src/transport.rs:1892-1932 | whole new state: only the swap's own peer can abort it, and its reservation is released |
| `SwapNode.TransportNode.HandleSwapChunkRetrieval` | crates/static-mesh/src/transport.rs:1962-2051 | whole new state and messages: length check, choice of a waiting swap, integrity gate, buffer and commit, or abort |
| `SwapNode.TransportNode.FinalizeSwapIfReady` | crates/static-mesh/src/transport.rs:2062-2124 | finalizes exactly when both commits and the data are in, storing a chunk not held yet |
| `SwapNode.TransportNode.ExpirePendingSwaps` | crates/static-mesh/src/transport.rs:471-501 | exactly the entries past the timeout are removed, logged, released and announced |
| `SwapRuns.ProposalAlone` | crates/static-mesh/src/transport.rs:1648-1779 | the eight lock-delimited sections of the proposal handler, run alone, compute the handler |
| `SwapRuns.AcceptAlone` | crates/static-mesh/src/transport.rs:1786-1855 | the sections of the accept handler, run alone, compute the handler |
| `SwapRuns.CommitAlone` | crates/static-mesh/src/transport.rs:1858-1889 | the sections of the commit handler with finalization, run alone, compute the handler |
| `SwapRuns.AbortAlone` | crates/static-mesh/src/transport.rs:1892-1932 | the sections of the abort handler, run alone, compute the handler |
| `SwapRuns.RetrievalAlone` | crates/static-mesh/src/transport.rs:1962-2051 | the sections of the retrieval hook with finalization, run alone, compute the handler |
| `SwapRuns.ExpiryAlone` | crates/static-mesh/src/transport.rs:471-501 | the sweep and its releases one by one, run alone, compute the sweep |
| `SwapRuns.FinalizeAlone` | crates/static-mesh/src/transport.rs:2062-2124 | the five sections of finalization, run alone, compute it |
| `SwapLocks.ReservationConservation` | crates/static-mesh/src/transport.rs:1721-1762 | in every interleaving the reserved bytes are exactly those of the pending table, plus those running handlers answer for, plus those leaked |
| `SwapLocks.NoReleaseUnderflows` | crates/static-mesh/src/transport.rs:471-501 | in every reachable state the counter covers the table and any release still to come, so none underflows |
| `SwapLocks.ExactIffNeverLeaks` | crates/static-mesh/src/transport.rs:1813-1853 | the counter is exact at the end of an interleaved run if and only if no step overwrote a reserved entry or reserved for a missing one |
| `SwapLocks.ReservedWithinMaximum` | crates/static-storage/src/swap.rs:990-1025 | reservations never pass the configured maximum in any interleaving |
| `SwapEvents.HandlerConserves` | crates/static-mesh/src/transport.rs:1813-1853 | every handler run without interference conserves reserved bytes up to exactly what it leaks |
| `SwapEvents.ExactIffLeakFree` | crates/static-mesh/src/transport.rs:1813-1853 | with atomic handlers the counter is exactly the pending sum if and only if no call reopened a reserved entry or accepted one twice |
| `SwapEvents.OnceOnlyIsExact` | crates/static-mesh/src/transport.rs:1721-1762 | opened once and accepted at most once: the counter is exactly the pending sum over the whole run |
| `SwapLeaks.HandlerIsItsSections` | crates/static-mesh/src/transport.rs:471-2124 | every handler call, sweep and opening included, is its lock-delimited sections run alone |
| `SwapLeaks.LeaksAgree` | crates/static-mesh/src/transport.rs:1813-1853 | what a handler call leaks is exactly what its sections, run alone, leak between them |
| `SwapSafety.SwapRunSafety` | crates/static-mesh/src/transport.rs:1962-2124 | in every disciplined interleaving: at most one chunk stored per proposal, only with both commits and verified data, never after abort or timeout |
| `SwapSafety.StoredDataWasVerified` | crates/static-mesh/src/transport.rs:1962-2124 | with no assumption on peers: whatever is stored was buffered for its proposal as a full chunk that passed the gate, with both commits in |
| `SwapSafety.StoredChunkIsPublished` | crates/static-mesh/src/transport.rs:1962-2124 | in every disciplined interleaving a chunk stored under the root of published chunks is one of them whatever proof the peer sent, or its proof's path meets their tree in a collision |
| `SwapSafety.AnyStoredChunkIsPublished` | crates/static-mesh/src/transport.rs:1962-2124 | with no assumption on peers: a stored chunk was buffered under a root, and if that is the root of published chunks it is one of them, up to the same collision |
| `SwapBinding.StoredOnItsTerms` | crates/static-mesh/src/transport.rs:1648-2124 | in every disciplined interleaving a stored swap has the peer, both chunks, root, proof, lease and opening time that the messages handled so far state for its proposal, and its data is a full chunk that verifies against the root they bind |
| `SwapBinding.ProposalGoverns` | crates/static-mesh/src/transport.rs:1721-1762 | whatever else happens, a swap opened by a proposal from outside is stored only with that proposal's chunk, lease and sender, and with data that verifies under that proposal's own root and proof unless it carries none |
| `SwapBinding.AcceptGoverns` | crates/static-mesh/src/transport.rs:1813-1853 | a swap whose return chunk an accept has named is stored only with the accept's chunk and lease, and with data that verifies under the accept's own root and proof if it carries one |
| `SwapBinding.FinishedOnItsTerms` | crates/static-mesh/src/transport.rs:2062-2124 | each section that finishes a swap leaves what its messages name: the chunk unless held, one more chunk counted for the peer, a lease with their token, time and key |
| `SwapBinding.SweepTakesTheOld` | crates/static-mesh/src/transport.rs:471-501 | the sweep takes exactly the swaps whose message opened them longer ago than the timeout |
| `Swap.ProposalIdBinds` | crates/static-storage/src/swap.rs:718-730 | two proposals go into their id alike if and only if chunk, sender, root, lease time and nonce agree |
| `SwapLimits.AcceptRacingTimeoutLeaks` | crates/static-mesh/src/transport.rs:1813-1853 | a concrete interleaving of accept and timeout that leaves a full chunk reserved with no swap and no handler to release it |
| `SwapNetwork.SwapCausality` | crates/static-mesh/src/transport.rs:1858-2124 | for every call of every handler in every run, under any delay, loss, repetition or reordering: a call changes what is stored or completed only if it finalizes a swap; it then completes that swap, and a peer that follows the protocol had in an earlier call buffered a verified full chunk for the same proposal and sent its commit |
| `SwapNetwork.DataPassedGate` | crates/static-mesh/src/transport.rs:1962-2051 | no call of any handler puts data into an entry but one that retrieves a full chunk which passes the gate |
| `SwapNetworkBinding.AcceptedIffAgreeable` | crates/static-mesh/src/transport.rs:1648-1779 | a proposal is accepted and opened if and only if its signature and lease hold, a full chunk fits beside what is held and reserved, its sender is below its share, there is a chunk to give and fewer than 32 swaps are open; the accept offers that chunk for a day |
| `SwapNetworkBinding.FinalizedOnItsTerms` | crates/static-mesh/src/transport.rs:1648-2124 | for every finalizing call of every network run: the swap has the terms the messages delivered to the node last set for its proposal, and its data was retrieved as a full chunk and verified under the root and proof delivered by then |
| `SwapDepartures.InTableIff` | crates/static-mesh/src/transport.rs:471-2124 | after any handler call a proposal is in the table if and only if the call opened it, or it was there and the call neither brought its last missing part nor failed it |
| `SwapDepartures.MarksIff` | crates/static-mesh/src/transport.rs:1858-2051 | a swap that stays notes the peer's commit and the data exactly when they come, our own commit with the data, and forgets nothing |
| `SwapDepartures.FinishIsLogged` | crates/static-storage/src/swap.rs:624-635 | a swap that finishes is appended to the newest 256 completed ones and its chunk is recorded as swapped with its peer |
| `SwapDepartures.FailureIsLogged` | crates/static-storage/src/swap.rs:642-649 | a swap that fails is appended to the newest 256 aborted ones, its reservation is free again, and nothing is stored |
| `SwapDepartures.SweepIsLogged` | crates/static-storage/src/swap.rs:662-681 | the sweep logs what it takes in its order, and of all that was logged the newest 256 stay |
| `SwapDepartures.AbortSentIff` | crates/static-mesh/src/transport.rs:471-2051 | a node sends an abort for exactly the swaps that fail by its own doing |
| `SwapDepartures.CommitSentIff` | crates/static-mesh/src/transport.rs:1962-2051 | a node sends its commit exactly with good data for a swap whose commit has not gone out |
| `SwapDepartures.WalksFind` | crates/static-mesh/src/transport.rs:1648-2051 | a return chunk is found if and only if another chunk is held, a waiting swap if and only if one still waits for the retrieved chunk |
| `SwapLockNetwork.LockLevelCausality` | crates/static-mesh/src/transport.rs:1858-2124 | with handlers of all nodes interleaved section by section, any proposals, accepts and aborts, and commits sent also for entries removed meanwhile: unless an opening for an uncommitted peer overtakes a commit between its check and its mark, whoever begins to finalize with a peer that follows the protocol, that peer had sent its commit and buffered a full chunk that passed the gate |
| `SwapLockNetwork.FlagsTrueIffNoStaleMark` | crates/static-mesh/src/transport.rs:1858-1889 | at every point of an interleaved run every commit noted as received was sent by the entry's peer, if and only if no mark of the run hits an entry whose peer has not committed |
| `SwapLockNetwork.NoneOvertakenNoneStale` | crates/static-mesh/src/transport.rs:1648-1889 | where no opening for an uncommitted peer overtakes a checked commit, no mark is stale |
| `SwapLockNetwork.CausalWithoutStaleMark` | crates/static-mesh/src/transport.rs:1858-2124 | in every run without a stale mark whoever begins to finalize has the commit of a peer that follows the protocol, and that peer its chunk |
| `SwapReopening.MarkedForSenderIff` | crates/static-mesh/src/transport.rs:1858-1889 | whatever other handlers do between check and mark, a commit is marked in an entry of its sender if and only if the proposal was not opened again or was last opened with the sender |
| `SwapReopening.ReopeningBreaksCausality` | crates/static-mesh/src/transport.rs:1858-2124 | a run of three nodes that follow the protocol in which one finalizes a swap with another that never committed |
| `Fragment.FragmentPayload` | crates/static-mesh/src/fragment.rs:51-74 | the loop yields the numbered pieces of the payload in order, one for an empty payload |
| `Fragment.SerializeFragment` | crates/static-mesh/src/fragment.rs:77-90 | the buffer filled in place is header, data (cut to the room) and zeros |
| `Fragment.EncodeRoundTrip` | crates/static-mesh/src/fragment.rs:77-114 | a fragment survives its fixed-size body if and only if its data fits; otherwise it comes back cut |
| `Fragment.DecodeIgnoresPadding` | crates/static-mesh/src/fragment.rs:93-114 | header and data are read back whatever follows them |
| `Fragment.Reassembler.AddFragment` | crates/static-mesh/src/fragment.rs:144-174 | whole new state and answer for every fragment, in bounds or not |
| `Fragment.Reassembler.CleanupExpired` | crates/static-mesh/src/fragment.rs:214-223 | an expired reassembly becomes a new one, any other is left alone |
| `Fragment.Reassembler.ReassemblePayload` | crates/static-mesh/src/fragment.rs:257-269 | joins all fragments in order or names the first missing one |
| `Fragment.ReassemblerInvariant` | crates/static-mesh/src/fragment.rs:144-269 | under arbitrary fragments ids stay below a total of at most 2048, the read-only test predicts the insert, and a reassembly complete by count joins |
| `Fragment.CompleteHasAll` | crates/static-mesh/src/fragment.rs:226-231 | pigeonhole: complete by count means every index is present |
| `Fragment.JunkIsIgnored` | crates/static-mesh/src/fragment.rs:144-174 | once its total is known a reassembly is what its usable fragments make of it, whatever else arrives, and keeps the first of each number |
| `Delivery.ArrivalsComplete` | crates/static-mesh/src/fragment.rs:144-269 | parts in any order with repeats: new ones taken, repeated ones refused, complete exactly when all are in, joined in sequence |
| `Delivery.AnyOrderRoundTrip` | crates/static-mesh/src/fragment.rs:51-269 | every payload within the limit, serialized and delivered in any order with repeats, completes exactly at the last distinct fragment and is returned |
| `Delivery.RoundTripLimit` | crates/static-mesh/src/fragment.rs:51-174 | with all fragments delivered the payload comes back if and only if it is at most 2048 full fragments |
| `Sessions.ReassemblyManager.AddFragment` | crates/static-mesh/src/fragment.rs:330-357 | whole new table: junk opens nothing, a full table drops its front, the fragment goes to its own session |
| `Sessions.ReassemblyManager.Remove` | crates/static-mesh/src/fragment.rs:360-366 | removes the session from map and queue, and says whether it existed |
| `Sessions.ReassemblyManager.CleanupExpired` | crates/static-mesh/src/fragment.rs:371-384 | the removal loop drops exactly the expired sessions from map and queue, whatever the order, and counts them |
| `Sessions.SessionTableInvariant` | crates/static-mesh/src/fragment.rs:285-392 | in every run the queue lists the map's keys once each, at most 64, and only a full table loses a session, one of the oldest |
| `Sessions.SessionIsLoneReassembler` | crates/static-mesh/src/fragment.rs:330-357 | from its first fragment for as long as it stays, a session holds what a lone reassembler fed only its own fragments holds |
| `Sessions.CleanupIsExact` | crates/static-mesh/src/fragment.rs:371-384 | a session stays, as it is, if and only if it was opened less than the timeout ago |
| `Retrieval.RetrievalManager.StartRetrieval` | crates/static-mesh/src/retrieval.rs:92-117 | whole new table: asking again refreshes age and queue position and keeps progress, a new request may evict the oldest |
| `Retrieval.RetrievalManager.CleanupExpired` | crates/static-mesh/src/retrieval.rs:122-138 | drops exactly the expired retrievals from map and queue and counts them |
| `Retrieval.RetrievalManager.ProcessFragment` | crates/static-mesh/src/retrieval.rs:150-205 | whole new table and answer for any session the scan may choose, every error path included |
| `Retrieval.RetrievalTableInvariant` | crates/static-mesh/src/retrieval.rs:92-205 | over every run the queue mirrors the table within 64 entries, and the errors after a successful scan cannot happen |
| `Retrieval.AskingIsExact` | crates/static-mesh/src/retrieval.rs:92-117 | asking again keeps what has arrived and makes the request the youngest; asking anew starts with nothing; any other request stays unless a full table drops its oldest |
| `Retrieval.CleanupIsExact` | crates/static-mesh/src/retrieval.rs:122-138 | a request stays, as it is, if and only if it was asked less than the timeout ago |
| `Retrieval.LoneRetrieval` | crates/static-mesh/src/retrieval.rs:150-205 | the parts of a response in any order with repeats: new ones taken, repeated ones refused without a change, and the last missing one answered with what the joined response says, leaving the table empty |
| `SurbRequest.BuildSurbRequestBodies` | crates/static-mesh/src/retrieval.rs:360-382 | one body per piece of the request, each within one Sphinx body |
| `SurbRequest.TryFeedSurbRequestFragment` | crates/static-mesh/src/transport.rs:1558-1589 | whole new table and answer: not a request, buffered, or the joined request with its session removed |
| `SurbRequest.SurbRequestRoundTrip` | crates/static-mesh/src/transport.rs:1558-1589 | parts in any order with repeats, mixed with other sessions within the cap and before expiry: the request comes back exactly at the last missing part |
| `SurbRequest.OversizedRequestRefused` | crates/static-mesh/src/fragment.rs:347-357 | a request of more than 2048 parts is refused part by part and leaves no state |
| `SurbRequest.RequestBodyIff` | crates/static-mesh/src/transport.rs:1558-1589 | a body is a request part if and only if it has 45 bytes or more, type 3 and the data it announces; its key and fragment are read from fixed places, and any other body changes nothing |
| `SurbRequest.FeedClears` | crates/static-mesh/src/transport.rs:1558-1589 | a request part clears the other sessions opened two minutes ago or earlier and none of the rest unless the table is full |
| `WireCodec.HandshakeRoundTrip` | crates/static-mesh/src/wire.rs:507-586 | a handshake decodes to itself, whatever follows, if and only if its signature has 64 bytes and a key, if any, 1 to 4096 |
| `WireCodec.HelloRoundTrip` | crates/static-mesh/src/wire.rs:589-621 | a hello decodes to itself whatever the padding if and only if its key has its size |
| `WireCodec.WelcomeRoundTrip` | crates/static-mesh/src/wire.rs:624-670 | a welcome decodes to itself whatever the padding if and only if key and ciphertext have their sizes |
| `WireCodec.IdentityRoundTrip` | crates/static-mesh/src/wire.rs:673-694 | an encrypted identity decodes to itself whatever the padding if and only if it has 1 to 4096 bytes |
| `WireCodec.SphinxRoundTrip` | crates/static-mesh/src/wire.rs:737-878 | a packet decodes to itself if and only if its sections have their sizes, and then never has the legacy length |
| `WireCodec.ReplyRoundTrip` | crates/static-sphinx/src/lib.rs:1263-1294 | a session reply decodes to itself whatever the padding if and only if its body has the wire size |
| `WireCodec.HandshakeAccepted` | crates/static-mesh/src/wire.rs:530-586 | whatever is read as a handshake is well formed, and the bytes begin with its encoding if and only if the flag byte is 0 or 1 |
| `WireCodec.HelloAccepted` | crates/static-mesh/src/wire.rs:600-621 | a hello is read from exactly the bytes that begin with a well-formed one |
| `WireCodec.WelcomeAccepted` | crates/static-mesh/src/wire.rs:638-670 | a welcome is read from exactly the bytes that begin with a well-formed one |
| `WireCodec.IdentityAccepted` | crates/static-mesh/src/wire.rs:682-694 | an encrypted identity is read from exactly the bytes that begin with a well-formed one |
| `WireCodec.SphinxAccepted` | crates/static-mesh/src/wire.rs:737-878 | a packet is read from exactly two kinds of bytes: its own encoding if well formed, and its unversioned legacy form if it has one |
| `WireCodec.ReplyAccepted` | crates/static-sphinx/src/lib.rs:1279-1294 | a session reply is read from exactly the bytes that begin with its version, session, nonce and full body |
| `Framing.FrameRoundTrip` | crates/static-mesh/src/wire.rs:886-981 | any message is written and read back with the right byte count, whatever the padding and the bytes behind, if and only if it is well formed |
| `Framing.FramesUnambiguous` | crates/static-mesh/src/wire.rs:886-981 | no two well-formed messages share a frame, whatever their padding |
| `Framing.KindDecides` | crates/static-mesh/src/wire.rs:925-981 | a payload is read as a message of its own type byte, and exactly the five known type bytes are not refused as unknown |
| `Framing.ReadIsGood` | crates/static-mesh/src/wire.rs:925-981 | whatever is read from a frame within the size limit is well formed, so it can be written and read again |
| `Stream.Connection.TryReadMessage` | crates/static-mesh/src/wire.rs:991-1018 | consumes exactly one frame, nothing when more is needed, nothing on an oversized length |
| `Stream.Connection.Receive` | crates/static-mesh/src/transport.rs:1263-1282 | the read loop handles exactly the messages at the front of the buffer and stops at the first error |
| `Stream.WriteMessage` | crates/static-mesh/src/wire.rs:1023-1027 | appends the frame of every well-formed message, and nothing when it refuses |
| `Stream.SplitIndependence` | crates/static-mesh/src/transport.rs:1263-1282 | for every byte stream and every split into reads the same messages are handled in the same order, with the same error or leftover |
| `Stream.ReadingIsExact` | crates/static-mesh/src/wire.rs:991-1018 | for every stream and every split: the messages handled are those of the frames it begins with; reading waits if and only if an incomplete frame within the limit follows, and holds no more than that; otherwise it is closed by the frame that is too large or no message |
| `Stream.WrittenIsRead` | crates/static-mesh/src/wire.rs:886-1027 | well-formed messages written in sequence and read in any pieces come out exactly, with nothing left; the reader's cap refuses none |
| `SphinxCrypto.XorInPlace` | crates/static-sphinx/src/lib.rs:463-468 | the in-place loop applies the keystream to every byte |
| `SphinxCrypto.PeelOnion` | crates/static-sphinx/src/surb.rs:195-215 | layers put on last hop to first come off in hop order |
| `SphinxCrypto.HopMacBinds` | crates/static-sphinx/src/lib.rs:363-385 | two headers are tagged alike if and only if version, point, session, slot and body all agree |
| `SphinxNode.ReplayRefused` | crates/static-sphinx/src/lib.rs:650-792 | after any run of other packets and replies an accepted packet coming again is refused without a change if and only if its tag is still in the table, and accepted otherwise; it is there while fewer than MAX_SEEN_TAGS new tags came since, and gone with the last of that many |
| `SessionReplay.ReplyReplayRefused` | crates/static-sphinx/src/lib.rs:1317-1358 | after any other arrivals that leave the session in place a relayed reply coming again is refused without a change if and only if its nonce is still in the session's table, and relayed otherwise; it is there while fewer than 2048 new nonces came since, and gone with the last of that many |
| `SessionReplay.NoReplyAfterTheHour` | crates/static-sphinx/src/lib.rs:1317-1358 | from an hour after its creation on every reply of a session is refused, over every run, and the first of full size removes the session |
| `SessionReplay.TidyTakesTheOld` | crates/static-sphinx/src/lib.rs:1439-1445 | the periodic removal takes exactly the sessions of an hour or more and leaves the others as they are |
| `SessionReplay.OnlyTaggedPacketsCount` | crates/static-sphinx/src/lib.rs:650-792 | a packet that is not refused without a change has the right version and sizes, the right tag for its body or for the empty one, and a new replay tag, which is remembered |
| `SessionReplay.FlagDecides` | crates/static-sphinx/src/lib.rs:650-792 | what a packet with a right and new tag is answered with, by its flag: forward to the hop named, deliver or fail its seal, or refuse; only one tagged for the empty body makes a session, with exactly its fields |
| `SessionReplay.RelayedIff` | crates/static-sphinx/src/lib.rs:1317-1358 | a reply is relayed if and only if it has the full size, its session is known and less than an hour old and its nonce is new; any other changes nothing, but for a session whose hour is over |
| `Surb.ShareAll` | crates/static-sphinx/src/surb.rs:88-116 | the loop over running scalar and point computes the recursive chain of shared secrets |
| `Surb.SealSlots` | crates/static-sphinx/src/surb.rs:118-150 | the loop from last hop to first fills each slot with the next hop and the next tag |
| `Surb.CreateSurb` | crates/static-sphinx/src/surb.rs:77-341 | classical and hybrid creation, with all errors, compute the block the theorems speak about |
| `Surb.WrapWithSurb` | crates/static-sphinx/src/surb.rs:195-368 | padding, end-to-end encryption and layers in place; refuses oversized payloads and, in hybrid form, classical blocks |
| `Surb.WrapsIff` | crates/static-sphinx/src/surb.rs:195-368 | a payload is wrapped if and only if it fits a body and the block suits the mode; header and ciphertexts are the block's, the body has the wire size |
| `SurbRoute.LegsExist` | crates/static-sphinx/src/surb.rs:238-284 | with owned keys the creator's loop succeeds for every route and the ciphertexts fill their part of the block |
| `SurbRoute.BlockAt` | crates/static-sphinx/src/surb.rs:118-150 | slot i decrypts to hop i+1 with the next tag, the last to the destination, and the placeholder tag verifies |
| `SurbRoute.HopAt` | crates/static-sphinx/src/lib.rs:650-792 | one whole hop: secret, tag, replay check, slot, shifted header and ciphertexts, peeled layer, remembered session |
| `SurbDelivery.CreateSucceeds` | crates/static-sphinx/src/surb.rs:77-86 | with sound keys creation succeeds if and only if the route has 1 to MAX_HOPS hops |
| `SurbDelivery.SurbTraversesRoute` | crates/static-sphinx/src/lib.rs:650-1210 | for every route of 1 to MAX_HOPS hops, classical or hybrid, and every payload that fits: each hop announces the right next one, the destination gets the zero-padded payload, and exactly the hops that can tell the packet from an ordinary one remember the session |
| `SurbDelivery.PrimedIffRecognisable` | crates/static-sphinx/src/lib.rs:650-792 | where no hop held the session before, all hops remember it, each with its key and direction, if and only if at no hop the tag fits the body |
| `SurbDelivery.UnrecognisedIsForgotten` | crates/static-sphinx/src/lib.rs:650-792 | with primitives that meet the laws and have one tag for all, a block is created, delivered, and not remembered by its hop |
| `SurbReplies.BuildSessionReplies` | crates/static-mesh/src/retrieval.rs:475-497 | one sealed and layered reply per fragment |
| `SurbReplies.RelayAt` | crates/static-sphinx/src/lib.rs:1317-1358 | a session reply under a fresh nonce loses its layers along the route and arrives as the innermost ciphertext, and the nonce is used up; what that means for a replay is `SessionReplay.ReplyReplayRefused` |
| `SurbReplies.RepliesDelivered` | crates/static-mesh/src/retrieval.rs:475-512 | all replies of a live session with distinct nonces decrypt to what was sent |
| `SurbReplies.RepliesLost` | crates/static-sphinx/src/lib.rs:1317-1358 | where some hop does not remember the session no reply arrives, and the gap stays |
| `SurbReplies.ResponseRoundTrip` | crates/static-mesh/src/retrieval.rs:434-512 | end to end: a response of any admissible length, as reply block packet and session replies in any order, is complete at the requester if and only if every fragment was sent and, beyond the first, every hop could tell the first packet from an ordinary one; it is then the response |
| `SurbCodec.SerializeSurb` | crates/static-sphinx/src/surb.rs:425-446 | the buffer with its key loop is the layout the round trip speaks about |
| `SurbCodec.DeserializeSurb` | crates/static-sphinx/src/surb.rs:449-526 | the decoder with its key loop and every error path computes the decoding the round trip speaks about |
| `SurbCodec.SurbRoundTrip` | crates/static-sphinx/src/surb.rs:425-526 | a block survives serialization, whatever follows, if and only if it is well formed (1 to MAX_HOPS keys, sizes, version) |
| `SurbCodec.SurbAccepted` | crates/static-sphinx/src/surb.rs:449-526 | a reply block is read from exactly the bytes that begin with a well-formed one |
| `SurbCodec.CreatedIsGood` | crates/static-sphinx/src/surb.rs:77-341 | every block that creation makes for owned keys is well formed; the ciphertext total follows from creation |
| `RequestCodec.SerializeRequest` | crates/static-storage/src/retrieval.rs:119-145 | the buffer with its hop loop is the layout the round trip speaks about |
| `RequestCodec.DeserializeRequest` | crates/static-storage/src/retrieval.rs:148-253 | the decoder with its hop loop and every error path computes the decoding the round trip speaks about |
| `RequestCodec.RequestBytesRoundTrip` | crates/static-storage/src/retrieval.rs:119-253 | a request survives its bytes under any zero padding if and only if it has at most 32 hops and a block of at most 16 KiB |
| `RequestCodec.RequestAccepted` | crates/static-storage/src/retrieval.rs:148-253 | whatever is read as a request is within the limits and the bytes begin with its encoding; there is no reply block exactly where only zeros follow |
| `RequestCodec.ResponseBytesRoundTrip` | crates/static-storage/src/retrieval.rs:256-337 | a response survives its bytes, whatever follows, if and only if its length fits 32 bits |
| `RequestCodec.ResponseAccepted` | crates/static-storage/src/retrieval.rs:256-337 | whatever is read as a response fits 32 bits, and the bytes begin with its encoding if and only if the flag byte is 0 or 1 |
| `AnonymousRetrieval.HolderAnswers` | crates/static-mesh/src/retrieval.rs:390-460 | the request's parts, in any order among other sessions, end in the holder reading the very block the requester made |
| `AnonymousRetrieval.InSequenceCompletes` | crates/static-mesh/src/transport.rs:1558-1589 | every request of at most 2048 parts has arrivals that complete it at a holder without sessions |
| `AnonymousRetrieval.RetrievalRoundTrip` | crates/static-mesh/src/retrieval.rs:390-512 | create, serialize, cut, reassemble, deserialize, wrap, travel, relay and reassemble composed: the block is made, the holder answers with that block, and the answer is complete at the requester exactly under the conditions of the response round trip and decodes to the chunk asked for |
| `AnonymousRetrieval.AnyRouteServes` | crates/static-mesh/src/retrieval.rs:390-460 | the conditions can be met on every hybrid route with sound keys and hops new to the block, for every chunk that fits and every way of sending the answer |
| `RetrievalWitness.ChunkComesBack` | crates/static-mesh/src/retrieval.rs:390-512 | under primitives that meet the laws every route of 1 to MAX_HOPS blank nodes recognises the first packet and brings back every chunk that fits, however many fragments it takes |
| `Accounting.AccountBook.Reconcile` | crates/static-accounting/src/lib.rs:588-620 | the loop with its filters computes the merge |
| `Accounting.AccountBook.PruneInactivePeersWithGrace` | crates/static-accounting/src/lib.rs:513-528 | the removal loop keeps exactly the accounts young enough, with grace beyond the partition threshold |
| `Accounting.MergeIsLatest` | crates/static-accounting/src/lib.rs:588-620 | the merged table holds, for exactly the peers somebody speaks for, one of the latest admissible credits |
| `Accounting.MergeIdempotent` | crates/static-accounting/src/lib.rs:588-620 | the same batch at the same clock reading changes nothing the second time |
| `Accounting.AbsurdIsIgnored` | crates/static-accounting/src/lib.rs:588-620 | an entry dated more than 300 seconds ahead, or with more than 2^60 bytes served, received or prepaid, has no effect anywhere in a batch |
| `Accounting.MergedAccount` | crates/static-accounting/src/lib.rs:588-620 | in plain terms, for any batch: whose account exists afterwards, that it is our own or an entry that is not absurd, that nothing sane is later, and when our own stays |
| `Accounting.NothingAbsurdIsTaken` | crates/static-accounting/src/lib.rs:588-620 | over every run of reconciliations no account taken from outside is dated more than 300 seconds after the latest clock reading or beyond the byte bounds |
| `Accounting.BatchesJoin` | crates/static-node/src/runner.rs:2496-2539 | the batches of at most 50 entries are the export, cut |
| `Accounting.BatchesInAnyOrder` | crates/static-node/src/runner.rs:2496-2539 | in a settled table the batches, in any order with any repeats, have the effect of the whole export |
| `Accounting.OrderIndependentIffSettled` | crates/static-accounting/src/lib.rs:588-620 | the merge depends only on which entries arrive, not on their order or number, if and only if for every peer the latest admissible credits agree or our own is among them |
| `Accounting.TieDependsOnOrder` | crates/static-accounting/src/lib.rs:604-616 | two differing credits of one time for an unknown peer end differently in the two orders |
| `Accounting.ExchangeConverges` | crates/static-accounting/src/lib.rs:535-620 | two nodes exchanging full exports of admissible entries end equal if and only if no peer has differing credits of one time |
| `Prepayment.SponsorBook.SponsorSeedCount` | crates/static-accounting/src/lib.rs:341-346 | counts the seeds that are not misbehaving |
| `Prepayment.SponsorBook.RecordPrepayAttempt` | crates/static-accounting/src/lib.rs:327-338 | prunes day-old attempts, evicts one entry of a full table, records the attempt |
| `Prepayment.SponsorBook.RegisterSponsoredSeed` | crates/static-accounting/src/lib.rs:362-384 | renews a known seed, registers a new one if there is room, otherwise changes nothing |
| `Prepayment.SponsorBook.RecordSeedViolation` | crates/static-accounting/src/lib.rs:395-403 | counts the strike and flags the seed at the third |
| `Prepayment.SponsorBook.HandlePrepayment` | crates/static-node/src/runner.rs:2775-2851 | whole new books and answer, in the order of the checks |
| `Prepayment.GateInvariant` | crates/static-accounting/src/lib.rs:327-403 | over every run: at most 5 honest seeds, at most 1024 attempts, misbehaving exactly with 3 strikes |
| `Prepayment.AcceptedIff` | crates/static-node/src/runner.rs:2793-2850 | a claim is accepted if and only if the node takes claims, it is valid, its sender is not flagged, an hour has passed on record for its content, bytes served exceed bytes received (or the node is new), and the sender is known or there is room for one of five |
| `Prepayment.SeedRecord` | crates/static-accounting/src/lib.rs:362-403 | what every event does to a seed's record: contents, heartbeats, renewals, strikes and last contact |
| `Prepayment.ThreeStrikes` | crates/static-accounting/src/lib.rs:395-403 | over every run a seed's violations are exactly its claims within the hour, and it is flagged exactly from the third |
| `Prepayment.AttemptsAreRecent` | crates/static-accounting/src/lib.rs:327-338 | recording an attempt leaves exactly the attempts of the last day, less one victim of a full table, and the new one |
| `Prepayment.TrafficIsCounted` | crates/static-accounting/src/lib.rs:115-138 | over every run between reconciliations and cleanups an account is exactly the traffic with its peer: served, received, their difference, challenges by outcome and the time of the last |
| `Prepayment.TotalsAreCounted` | crates/static-accounting/src/lib.rs:251-262 | over every run the totals the gate compares are all bytes served and received |
| `Prepayment.CreditIsAcceptedTotal` | crates/static-node/src/runner.rs:2793-2850 | over every run of claims, heartbeats, traffic, challenges, own prepayments, reconciliations and cleanups: a seed's registered bytes grow by exactly what was accepted from it, and its credit does so at every point if and only if no event disturbs it by a guard on the state before the event |
| `Prepayment.ReconciliationMovesIff` | crates/static-accounting/src/lib.rs:588-620 | reconciliation moves a credit if and only if the first of the latest newer admissible entries for the peer carries another one |
| `Prepayment.ReconciledAccount` | crates/static-accounting/src/lib.rs:588-620 | reconciliation leaves an account alone if no entry for it is newer; otherwise the first of the latest newer ones takes it over |
| `Prepayment.CleanupDropsStale` | crates/static-accounting/src/lib.rs:513-528 | with the node's limits the cleanup drops exactly the accounts without an interaction for eight days |
| `Prepayment.CleanupForgetsPrepayment` | crates/static-node/src/runner.rs:695-713 | from empty books, for every valid claim with bytes and every clock beyond eight days, the next cleanup leaves the seed registered and its credit at nothing |
| `Prepayment.ReconciliationForgetsPrepayment` | crates/static-accounting/src/lib.rs:604-616 | after an accepted prepayment an entry without it that counts as newer leaves the seed registered and its credit at nothing |
| `Prepayment.MisbehavingIsPermanent` | crates/static-accounting/src/lib.rs:395-403 | a misbehaving seed stays so over every run and is never accepted again |
| `Prepayment.HourApart` | crates/static-accounting/src/lib.rs:314-338 | two accepted prepayments of one seed and content, with anything in between, are at least an hour apart unless the full table dropped the pair |
| `Prepayment.RateOpenIffDropped` | crates/static-accounting/src/lib.rs:314-338 | within the hour after a recorded attempt, over every run, the pair may be tried again if and only if the last event that touched it was its eviction |
| `Prepayment.TwiceAfterEviction` | crates/static-accounting/src/lib.rs:327-338 | a run in which one claim is accepted twice at the same time after a full table dropped its attempt |
| `TokenBucket.Limiter.Consume` | crates/static-mesh/src/transport.rs:314-335 | refill and consumption with saturation and rounding, whole new state |
| `TokenBucket.Limiter.ChangeRate` | crates/static-mesh/src/transport.rs:338-342 | changes rate and capacity and cuts the tokens to the new capacity, without refilling first |
| `TokenBucket.RateBound` | crates/static-mesh/src/transport.rs:295-343 | over every run, with rate changes and clock jumps, admitted bytes are at most the initial tokens plus the floor of rate times elapsed time, and tokens never exceed capacity |
| `TokenBucket.AttemptIsExact` | crates/static-mesh/src/transport.rs:314-335 | clipped or not, an attempt is admitted if and only if the tokens, with what the time earned and cut to the capacity, cover it, and exactly its bytes are taken |
| `TokenBucket.NothingIsForfeited` | crates/static-mesh/src/transport.rs:314-335 | the bound from below for every run of attempts, clipped or not: tokens left and bytes admitted are no less than the tokens at the start, cut to the capacity |
| `TokenBucket.IdleLimiterAdmits` | crates/static-mesh/src/transport.rs:314-335 | after an idle time that earns the capacity every attempt within the capacity is admitted |
| `TokenBucket.NewLimiterAdmits` | crates/static-mesh/src/transport.rs:295-312 | a new limiter admits every first attempt within its capacity at any time |
| `TokenBucket.RetuneKeepsTokens` | crates/static-mesh/src/transport.rs:338-342 | a rate change keeps the tokens wherever they fit the new capacity |
| `TokenBucket.RoundingLossBound` | crates/static-mesh/src/transport.rs:314-335 | the bound from below: over every run that is nowhere clipped less than one byte per call is lost against rate times elapsed time |
| `TokenBucket.StarvesIffPolledTooFast` | crates/static-mesh/src/transport.rs:314-335 | such a run earns nothing if and only if every attempt came within less than one byte's time of the one before |
| `TokenBucket.FastRatesNeverStarve` | crates/static-mesh/src/transport.rs:314-335 | at 1000 bytes per second or more such a run earns something as soon as its clock has moved |
| `TokenBucket.FastPollingStarves` | crates/static-mesh/src/transport.rs:314-335 | clipped or not, polled too fast all along, the limiter never admits more than its initial tokens |
| `TokenBucket.SlowRateStarves` | crates/static-mesh/src/transport.rs:314-335 | for every rate of 1 to 999 bytes per second, polling every millisecond for any time admits only the initial tokens |
| `HostBuffer.HostBuffer.Insert` | crates/static-node/src/runner.rs:177-198 | the map, queue and size refine a list: remove, evict from the front, append; the tracked size stays the real one within the limit |
| `HostBuffer.HostBuffer.EvictUntil` | crates/static-node/src/runner.rs:186-194 | the eviction loop terminates on the queue's length and leaves the longest suffix that fits |
| `HostBuffer.InsertedFits` | crates/static-node/src/runner.rs:177-198 | after an insert the total is within the limit and what remains is the longest suffix of the others that fits beside the new item |
| `HostBuffer.KeptIff` | crates/static-node/src/runner.rs:177-198 | an item is the newest of the buffer after its insert if and only if it is within the limit by itself; a larger one changes nothing |
| `Storage.StorageNode.StoreRepairedChunk` | crates/static-node/src/runner.rs:1580-1621 | snaps the counter, then stores a chunk that fits and is not held |
| `Storage.StorageNode.CacheRetrievedChunk` | crates/static-node/src/runner.rs:2679-2757 | keeps a retrieved chunk if it fits, at most one least recently cached chunk making room |
| `Storage.StorageNode.ExpireChunksOnce` | crates/static-node/src/runner.rs:4358-4391 | visits exactly the leases past grace, once each, dropping chunk, lease and bytes |
| `Storage.StorageNode.LruCachedChunk` | crates/static-storage/src/rotation.rs:152-157 | returns a cache record with the earliest time, or none for an empty cache |
| `Storage.StorageNode.EvictExcessCache` | crates/static-node/src/runner.rs:4413-4448 | the trim loop terminates with the cache within its limit, in exactly the state of evicting a list of least recently used picks one after another |
| `Storage.TrimTakesOldest` | crates/static-node/src/runner.rs:4413-4448 | a trim takes as many records as picks, none twice, each with its chunk and none younger than one that stays; leases, reserved and maximum bytes are left alone |
| `Storage.SweepIsExact` | crates/static-node/src/runner.rs:4358-4391 | a lease and its chunk go if and only if the lease ended more than two hours ago; everything else stays as it is |
| `Storage.RepairIsExact` | crates/static-node/src/runner.rs:1580-1621 | the answer says exactly whether the data fits beside what is really held and reserved; a chunk not held is stored then, a held one is left as it is |
| `Storage.CacheIsExact` | crates/static-node/src/runner.rs:2679-2757 | a retrieved chunk is kept if and only if it is wanted, not held, and fits at once or after one oldest cached chunk has gone |
| `StorageRuns.StoreSwapEven` | crates/static-mesh/src/transport.rs:2080-2095 | storing a finished swap keeps counter and holder together if and only if the chunk was held already or the reservation had its length |
| `StorageRuns.CounterAgreesWithHolder` | crates/static-node/src/runner.rs:1580-1621 | over every run of swap handlers, repairs, cache inserts, sweeps, trims and snaps the counter is the sum of the lengths held |
| `StorageLocks.CounterConservation` | crates/static-mesh/src/transport.rs:1648-2124 | in every interleaving of sections and other tasks the counter, with what handlers have yet to count, is above the bytes held by exactly what the steps have drifted; once nothing is due the two agree if and only if that is nothing |
| `StorageLocks.OnlySnapsDrift` | crates/static-mesh/src/transport.rs:2080-2095 | in disciplined runs no section of a swap handler drifts but the snap of the proposal handler |
| `StorageLocks.SnapKeepsIff` | crates/static-mesh/src/transport.rs:1648-1779 | a snap keeps a balanced node balanced if and only if what was read earlier and what is still due make up what is held |
| `StorageLocks.SnapCountsTwice` | crates/static-mesh/src/transport.rs:2080-2095 | a snap between store and release of a finished swap leaves the counter too high by its reservation |
| `StorageLocks.SnapFromTheStart` | crates/static-mesh/src/transport.rs:1648-2124 | a run from a node just started ends in that position, a full chunk too high |
| `Backup.BackupNode.HealthTick` | crates/static-node/src/runner.rs:4720-4866 | whole new state: track what is held, hear primaries, activate, serve, renew leases |
| `Backup.BackupNode.RegisterBackupContent` | crates/static-node/src/runner.rs:2648-2670 | replaces the entry by a dormant one with a known primary |
| `Backup.ActivationMeansSilence` | crates/static-node/src/runner.rs:4775-4835 | for every activation in every run, of an entry tracked before, registered during the run or resolved by that very tick: the primary was silent longer than the timeout by this tick's reading, by every reading since the entry knew it, and by all earlier ones if readings never go back |
| `Backup.TickIsExact` | crates/static-node/src/runner.rs:4720-4835 | after a tick a tracked entry is active if and only if it was, or its primary (its own, else the resolved one) is known and both its last heartbeat and this tick's reading are more than the timeout ago |
| `Backup.LeasesAreExact` | crates/static-node/src/runner.rs:4775-4866 | a lease runs for a day from the tick at least if some entry stands for its chunk, a dormant one with a known primary or an active one of a permanent takeover; nothing else about any lease changes |
| `Backup.ServingIsExact` | crates/static-node/src/runner.rs:4837-4850 | serving is on after a tick if and only if it was or some entry turned active |
| `Backup.SilentPrimaryIsReplaced` | crates/static-node/src/runner.rs:4720-4835 | content registered at a time with no later reading of its primary is active after the first tick more than the timeout later, whatever else happens |
| `Backup.ActiveStays` | crates/static-node/src/runner.rs:4775-4835 | an activated entry stays active over every run until it is registered anew |
| `Backup.ServingIffActivated` | crates/static-node/src/runner.rs:4837-4850 | serving is on exactly when some tick has activated an entry |
| `Backup.TakeoverKeepsChunks` | crates/static-node/src/runner.rs:4358-4391 | with permanent takeover and a known primary, after a tick and any later run that does not shorten the lease, no sweep within a lease duration plus grace takes a tracked chunk, one the tick itself registered included |

## Left out

- Secrecy, unlinkability and the strength of the primitives: nothing is claimed about them.
- All-or-nothing storage across both swap peers: a lost final commit and a timeout can leave one side stored.
- Signature checks, nonce caches, pinned identity keys and JSON encoding of maintenance messages: they appear only as the authenticity of messages (or a validity flag of a prepayment).
- The content map beside the holder, statistics counters, the retrieval-request flag, chunk metadata and the publishing path: they influence none of the properties.
- Overflow of 64-bit counters by addition: byte counters, timestamps and scores are unbounded; saturating operations are modelled where the code uses them.
- Machine wrap-around in the remaining-length subtraction of `deserialize_sphinx`: the difference is an integer and a negative one falls into the error branch.
- Attribution of response fragments among several pending retrievals: the scan may choose any session that can accept, and the decoder of a response is a parameter.
- A route that visits one node twice: each hop of a journey is its own node state.
- Forward packets (`create_packet` and its hybrid form): a request's parts enter the model as the bodies that reach the holder.
- Routing tables, gossip, rotation, compute, payment, the local API and the command line.
- FIFO order of the shaper queue and the shaper's interval counters: a new message may overtake queued ones, and cover sends ignore the limiter's answer, so the rate bound covers admitted bytes only.
- The numbers inside size errors of request and response decoding: one error stands for all of them.
- Completeness of delta reconciliation: prepayments do not move the timestamp, so convergence is stated for full exports.
- Float scores and ratios of peers, and random choice of peers and routes.
