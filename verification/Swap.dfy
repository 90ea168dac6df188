/** The two-phase storage swap: data, local bookkeeping and the message handlers of one node,
    each handler running without interference. */
module Swap {
  import opened Bytes
  import opened Merkle
  import Sums

  type NodeId = Bytes16
  type ChunkId = Bytes32
  type ProposalId = Bytes32

  /** A swapped chunk is always one full encrypted chunk (1 MiB plus the AEAD tag). */
  const CHUNK_LEN: nat := 1024 * 1024 + 16
  const MAX_PENDING_SWAPS: nat := 32
  const MAX_COMPLETED_SWAPS: nat := 256
  const RETURN_LEASE_SECS: nat := 86400

  // ---------------------------------------------------------------- data

  datatype Lease = Lease(chunkId: ChunkId, expiresAt: nat, renewalToken: Bytes32, contentPubKey: Bytes32)

  /** The wire proposal; whether its content signature verifies is a fact about it. */
  datatype Proposal = Proposal(
    fromNode: NodeId, chunkId: ChunkId, lease: Lease, contentRoot: Bytes32, merkleProof: MerkleProof,
    nonce: Bytes32, contentPublicKey: Bytes32, signatureOk: bool)

  datatype Accept = Accept(
    fromNode: NodeId, chunkId: ChunkId, lease: Lease, proposalId: ProposalId,
    returnRoot: Bytes32, returnProof: MerkleProof)

  datatype Message =
    | ProposalMsg(proposal: Proposal)
    | AcceptMsg(accept: Accept)
    | RejectMsg(rejecter: NodeId, rejected: ProposalId)
    | CommitMsg(committer: NodeId, committed: ProposalId)
    | AbortMsg(aborter: NodeId, abortedId: ProposalId)
  {
    function Sender(): NodeId {
      match this
      case ProposalMsg(p) => p.fromNode
      case AcceptMsg(a) => a.fromNode
      case RejectMsg(n, _) => n
      case CommitMsg(n, _) => n
      case AbortMsg(n, _) => n
    }
  }

  datatype PendingSwap = PendingSwap(
    proposalId: ProposalId, peer: NodeId, ourChunk: ChunkId, theirChunk: ChunkId,
    theirData: seq<byte>, reservedBytes: nat, receivedChunk: bool, retrievalRequested: bool,
    contentRoot: Bytes32, merkleProof: MerkleProof, sentCommit: bool, receivedCommit: bool,
    renewalToken: Bytes32, leaseExpiresAt: nat, contentPubKey: Bytes32, startedAt: nat)
  {
    predicate Ready() {
      sentCommit && receivedCommit && receivedChunk
    }
  }

  function ReservedOf(swap: PendingSwap): nat {
    swap.reservedBytes
  }

  function LengthOf(data: seq<byte>): nat {
    |data|
  }

  datatype Capacity = Capacity(maxBytes: nat, currentBytes: nat, reservedBytes: nat, maxChunksPerPeer: nat) {

    predicate CanAccept(size: nat, peerChunks: nat) {
      currentBytes + reservedBytes + size <= maxBytes && peerChunks < maxChunksPerPeer
    }

    function RecordAccept(size: nat): Capacity {
      this.(currentBytes := currentBytes + size)
    }

    function RecordRemove(size: nat): Capacity {
      this.(currentBytes := SatSub(currentBytes, size))
    }

    function Reserve(size: nat): Capacity {
      this.(reservedBytes := reservedBytes + size)
    }

    function ReleaseReserved(size: nat, store: bool): Capacity {
      this.(reservedBytes := SatSub(reservedBytes, size),
            currentBytes := if store then currentBytes + size else currentBytes)
    }

    function Reconcile(actual: nat): Capacity {
      this.(currentBytes := actual)
    }
  }

  datatype NodeState = NodeState(
    me: NodeId,
    pending: map<ProposalId, PendingSwap>,
    active: map<ChunkId, NodeId>,
    completed: seq<ProposalId>,
    aborted: seq<ProposalId>,
    capacity: Capacity,
    chunks: map<ChunkId, seq<byte>>,
    peerCounts: map<NodeId, nat>,
    leases: map<ChunkId, Lease>)

  /** Every entry is filed under its own proposal id. */
  ghost predicate Keyed(s: NodeState) {
    forall pid :: pid in s.pending ==> s.pending[pid].proposalId == pid
  }

  ghost function PendingBytes(s: NodeState): nat {
    Sums.Sum(s.pending, ReservedOf)
  }

  /** What a proposal's entry has reserved, if it has one. */
  function ReservedFor(s: NodeState, pid: ProposalId): nat {
    if pid in s.pending then s.pending[pid].reservedBytes else 0
  }

  ghost function HeldBytes(chunks: map<ChunkId, seq<byte>>): nat {
    Sums.Sum(chunks, LengthOf)
  }

  function ProposalIdInput(p: Proposal): seq<byte> {
    p.chunkId + p.fromNode + p.contentRoot + BigEndian(p.lease.expiresAt, 8) + p.nonce
  }

  /** `blake3(chunk_id || from_node || content_root || expires_at || nonce)` */
  function ProposalIdOf(h: Hash, p: Proposal): ProposalId {
    h(ProposalIdInput(p))
  }

  /** Two proposals are hashed to their id alike if and only if they agree in chunk, sender, root, lease time and
      nonce: any other two with one id are a collision. */
  lemma ProposalIdBinds(p: Proposal, q: Proposal)
    requires p.lease.expiresAt <= U64_MAX && q.lease.expiresAt <= U64_MAX
    ensures ProposalIdInput(p) == ProposalIdInput(q) <==>
            && p.chunkId == q.chunkId && p.fromNode == q.fromNode && p.contentRoot == q.contentRoot
            && p.lease.expiresAt == q.lease.expiresAt && p.nonce == q.nonce
  {
    if ProposalIdInput(p) == ProposalIdInput(q) {
      ProposalIdFields(p);
      ProposalIdFields(q);
    }
  }

  lemma ProposalIdFields(p: Proposal)
    requires p.lease.expiresAt <= U64_MAX
    ensures var input := ProposalIdInput(p);
            && |input| == 120 && input[..32] == p.chunkId && input[32..48] == p.fromNode
            && input[48..80] == p.contentRoot && FromBigEndian(input[80..88]) == p.lease.expiresAt
            && input[88..] == p.nonce
  {
    Pow256Values();
    assert Pow256(5) == 0x100 * Pow256(4) && Pow256(6) == 0x100 * Pow256(5) && Pow256(7) == 0x100 * Pow256(6);
    assert Pow256(8) == 0x100 * Pow256(7);
    BigEndianRoundTrip(p.lease.expiresAt, 8);
    assert ProposalIdInput(p)[80..88] == BigEndian(p.lease.expiresAt, 8);
  }

  /** The integrity gate of the retrieval phase: an all-zero root means "no content binding". */
  predicate PassesGate(h: Hash, root: Bytes32, proof: MerkleProof, data: seq<byte>) {
    root == ZERO32 || Verifies(h, data, proof, root)
  }

  // ------------------------------------------------- bookkeeping of one swap

  /** Append to a log that keeps only its newest `MAX_COMPLETED_SWAPS` entries. */
  function LogId(log: seq<ProposalId>, pid: ProposalId): (r: seq<ProposalId>)
    ensures |r| > 0 && r[|r| - 1] == pid
    ensures |r| <= MAX_COMPLETED_SWAPS
  {
    var grown := log + [pid];
    if |grown| > MAX_COMPLETED_SWAPS then grown[|grown| - MAX_COMPLETED_SWAPS..] else grown
  }

  function StartPending(s: NodeState, swap: PendingSwap): NodeState {
    s.(pending := s.pending[swap.proposalId := swap])
  }

  function AbortSwap(s: NodeState, pid: ProposalId): NodeState
    requires pid in s.pending
  {
    s.(pending := s.pending - {pid}, aborted := LogId(s.aborted, pid))
  }

  function CompleteSwap(s: NodeState, pid: ProposalId): NodeState
    requires pid in s.pending
  {
    s.(pending := s.pending - {pid},
       active := s.active[s.pending[pid].theirChunk := s.pending[pid].peer],
       completed := LogId(s.completed, pid))
  }

  /** `abort_swap` followed by giving the reservation back; nothing happens without an entry. */
  function AbortAndRelease(s: NodeState, pid: ProposalId): NodeState {
    if pid !in s.pending then s
    else
      AbortSwap(s, pid).(capacity := s.capacity.ReleaseReserved(s.pending[pid].reservedBytes, false))
  }

  predicate IsPendingWith(s: NodeState, pid: ProposalId, peer: NodeId) {
    pid in s.pending && s.pending[pid].peer == peer
  }

  /** A swap this node proposed: it waits for the peer's accept to name the return chunk. */
  function ProposerSwap(pid: ProposalId, peer: NodeId, ourChunk: ChunkId, now: nat): PendingSwap {
    PendingSwap(pid, peer, ourChunk, ZERO32, [], 0, false, false, ZERO32, MerkleProof(0, []),
                false, false, ZERO32, 0, ZERO32, now)
  }

  /** A swap this node accepted: the proposal binds the chunk to retrieve. */
  function AccepterSwap(pid: ProposalId, p: Proposal, ret: ChunkId, now: nat): PendingSwap {
    PendingSwap(pid, p.fromNode, ret, p.chunkId, [], CHUNK_LEN, false, false, p.contentRoot, p.merkleProof,
                false, false, p.lease.renewalToken, p.lease.expiresAt, p.contentPublicKey, now)
  }

  /** The entry after the peer's accept has named the return chunk. */
  function Accepted(swap: PendingSwap, a: Accept): PendingSwap {
    var named := swap.(theirChunk := a.chunkId, reservedBytes := CHUNK_LEN,
                       renewalToken := a.lease.renewalToken, leaseExpiresAt := a.lease.expiresAt);
    if a.returnRoot != ZERO32 then named.(contentRoot := a.returnRoot, merkleProof := a.returnProof) else named
  }

  /** Storing a finished swap: the holder keeps an existing copy, and only a new copy counts. */
  function StoreSwap(s: NodeState, swap: PendingSwap): NodeState {
    var isNew := swap.theirChunk !in s.chunks;
    var released := s.(capacity := s.capacity.ReleaseReserved(swap.reservedBytes, isNew));
    if !isNew then released
    else
      released.(
      chunks := s.chunks[swap.theirChunk := swap.theirData],
      peerCounts := s.peerCounts[swap.peer := PeerCount(s, swap.peer) + 1],
      leases := s.leases[swap.theirChunk := LeaseOf(swap)])
  }

  function PeerCount(s: NodeState, peer: NodeId): nat {
    if peer in s.peerCounts then s.peerCounts[peer] else 0
  }

  function LeaseOf(swap: PendingSwap): Lease {
    Lease(swap.theirChunk, swap.leaseExpiresAt, swap.renewalToken, swap.contentPubKey)
  }

  // ------------------------------------------------------------- handlers

  function BeginProposal(h: Hash, s: NodeState, peer: NodeId, p: Proposal, now: nat): NodeState {
    StartPending(s, ProposerSwap(ProposalIdOf(h, p), peer, p.chunkId, now))
  }

  /** What a walk over the held chunks may return for "first held chunk other than the offered one". */
  predicate ReturnPick(s: NodeState, p: Proposal, pick: Option<ChunkId>) {
    match pick
    case Some(id) => id in s.chunks && id != p.chunkId
    case None => forall id :: id in s.chunks ==> id == p.chunkId
  }

  predicate Acceptable(c: Capacity, p: Proposal, peerChunks: nat, now: nat) {
    now < p.lease.expiresAt && p.signatureOk && c.CanAccept(CHUNK_LEN, peerChunks)
  }

  /** `pick` is the return chunk found in the holder and `token` the lease token offered with it. */
  ghost function HandleProposal(h: Hash, s: NodeState, p: Proposal, now: nat, pick: Option<ChunkId>, token: Bytes32)
    : (r: (NodeState, seq<Message>))
  {
    var pid := ProposalIdOf(h, p);
    var s1 := s.(capacity := s.capacity.Reconcile(HeldBytes(s.chunks)));
    var peerChunks := PeerCount(s, p.fromNode);
    if !Acceptable(s1.capacity, p, peerChunks, now) || pick.None? || |s.pending| >= MAX_PENDING_SWAPS then
      (s1, [RejectMsg(s.me, pid)])
    else
      var s2 := s1.(capacity := s1.capacity.Reserve(CHUNK_LEN));
      (StartPending(s2, AccepterSwap(pid, p, pick.value, now)),
       [AcceptMsg(Accept(s.me, pick.value, Lease(pick.value, now + RETURN_LEASE_SECS, token, ZERO32), pid,
                         ZERO32, MerkleProof(0, [])))])
  }

  function HandleAccept(s: NodeState, a: Accept): (r: (NodeState, seq<Message>)) {
    var pid := a.proposalId;
    if !IsPendingWith(s, pid, a.fromNode) then (s, [])
    else if !s.capacity.CanAccept(CHUNK_LEN, 0) then
      (AbortAndRelease(s, pid), [AbortMsg(s.me, pid)])
    else
      (s.(capacity := s.capacity.Reserve(CHUNK_LEN),
          pending := s.pending[pid := Accepted(s.pending[pid], a)]), [])
  }

  function HandleCommit(s: NodeState, sender: NodeId, pid: ProposalId): NodeState {
    if !IsPendingWith(s, pid, sender) then s
    else FinalizeIfReady(s.(pending := s.pending[pid := s.pending[pid].(receivedCommit := true)]), pid)
  }

  function HandleAbort(s: NodeState, sender: NodeId, pid: ProposalId): NodeState {
    if IsPendingWith(s, pid, sender) then AbortAndRelease(s, pid) else s
  }

  predicate Waiting(s: NodeState, chunk: ChunkId, pid: ProposalId) {
    pid in s.pending && !s.pending[pid].receivedChunk && s.pending[pid].theirChunk == chunk
  }

  /** What a walk over the pending swaps may return for "a swap waiting for this chunk". */
  predicate WaitingPick(s: NodeState, chunk: ChunkId, pick: Option<ProposalId>) {
    match pick
    case Some(pid) => Waiting(s, chunk, pid)
    case None => forall pid :: pid in s.pending ==> !Waiting(s, chunk, pid)
  }

  /** The retrieved chunk is buffered in the swap and our commit is marked as sent. */
  function Buffered(s: NodeState, pid: ProposalId, data: seq<byte>): NodeState
    requires pid in s.pending
  {
    s.(pending := s.pending[pid := s.pending[pid].(theirData := data, receivedChunk := true, sentCommit := true)])
  }

  function HandleRetrieval(h: Hash, s: NodeState, chunk: ChunkId, data: seq<byte>, pick: Option<ProposalId>)
    : (r: (NodeState, seq<Message>))
    requires pick.Some? ==> pick.value in s.pending
  {
    if |data| != CHUNK_LEN || pick.None? then (s, [])
    else
      var pid := pick.value;
      var swap := s.pending[pid];
      if !PassesGate(h, swap.contentRoot, swap.merkleProof, data) then
        (AbortAndRelease(s, pid), [AbortMsg(s.me, pid)])
      else
        (FinalizeIfReady(Buffered(s, pid, data), pid),
         if swap.sentCommit then [] else [CommitMsg(s.me, pid)])
  }

  function FinalizeIfReady(s: NodeState, pid: ProposalId): NodeState {
    if pid in s.pending && s.pending[pid].Ready() then StoreSwap(CompleteSwap(s, pid), s.pending[pid]) else s
  }

  predicate Expired(swap: PendingSwap, now: nat, timeout: nat) {
    SatSub(now, swap.startedAt) > timeout
  }

  /** `order` lists exactly the expired entries, in whatever order the table is walked. */
  ghost predicate ExpiryOrder(s: NodeState, now: nat, timeout: nat, order: seq<ProposalId>) {
    && Sums.NoDuplicates(order)
    && forall pid :: pid in order <==> pid in s.pending && Expired(s.pending[pid], now, timeout)
  }

  function ReleaseAll(c: Capacity, swaps: seq<PendingSwap>): Capacity
    decreases |swaps|
  {
    if swaps == [] then c else ReleaseAll(c.ReleaseReserved(swaps[0].reservedBytes, false), swaps[1..])
  }

  function LogAll(log: seq<ProposalId>, pids: seq<ProposalId>): seq<ProposalId>
    decreases |pids|
  {
    if pids == [] then log else LogAll(LogId(log, pids[0]), pids[1..])
  }

  ghost function ExpirePending(s: NodeState, order: seq<ProposalId>): NodeState
    requires forall pid :: pid in order ==> pid in s.pending
  {
    s.(pending := s.pending - Sums.KeySet(order),
       aborted := LogAll(s.aborted, order),
       capacity := ReleaseAll(s.capacity, Sums.Values(s.pending, order)))
  }
}
