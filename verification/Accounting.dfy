/** Local peer accounts and their last-write-wins reconciliation. */
module Accounting {
  import opened Bytes

  type NodeId = Bytes16

  const RECONCILE_FUTURE_SKEW_SECS: nat := 300
  const MAX_ACCOUNTING_BYTES: nat := 0x1000_0000_0000_0000
  const MAX_RECONCILIATION_ENTRIES: nat := 50

  datatype PeerCredit = PeerCredit(
    bytesServed: nat, bytesReceived: nat, netCredit: int, lastInteraction: nat,
    successfulChallenges: nat, failedChallenges: nat, prepaidBytes: nat)

  type Peers = map<NodeId, PeerCredit>

  datatype Entry = Entry(peer: NodeId, credit: PeerCredit)

  function FutureBound(now: nat): nat {
    Min(now + RECONCILE_FUTURE_SKEW_SECS, U64_MAX)
  }

  predicate Admissible(credit: PeerCredit, now: nat) {
    && credit.lastInteraction <= FutureBound(now)
    && credit.bytesServed <= MAX_ACCOUNTING_BYTES
    && credit.bytesReceived <= MAX_ACCOUNTING_BYTES
    && credit.prepaidBytes <= MAX_ACCOUNTING_BYTES
  }

  /** A newer credit replaces ours; ties keep ours. */
  function MergeOne(peers: Peers, e: Entry, now: nat): Peers {
    if !Admissible(e.credit, now) then peers
    else if e.peer in peers && e.credit.lastInteraction <= peers[e.peer].lastInteraction then peers
    else peers[e.peer := e.credit]
  }

  function Merge(peers: Peers, es: seq<Entry>, now: nat): Peers {
    if es == [] then peers else MergeOne(Merge(peers, es[..|es| - 1], now), es[|es| - 1], now)
  }

  /** How long an account may go without an interaction; beyond the threshold it counts as partitioned and
      has some grace. */
  datatype PrunePolicy = PrunePolicy(maxAge: nat, threshold: nat, grace: nat)

  predicate Kept(credit: PeerCredit, policy: PrunePolicy, now: nat) {
    var age := SatSub(now, credit.lastInteraction);
    age < if age > policy.threshold then Min(policy.maxAge + policy.grace, U64_MAX) else policy.maxAge
  }

  function WithoutStale(peers: Peers, policy: PrunePolicy, now: nat): Peers {
    map peer | peer in peers && Kept(peers[peer], policy, now) :: peers[peer]
  }

  class AccountBook {
    var peers: Peers

    constructor ()
      ensures peers == map[]
    {
      peers := map[];
    }

    method Reconcile(incoming: seq<Entry>, now: nat)
      modifies this
      ensures peers == Merge(old(peers), incoming, now)
    {
      var futureBound := now + RECONCILE_FUTURE_SKEW_SECS;
      if futureBound > U64_MAX {
        futureBound := U64_MAX;
      }
      for i := 0 to |incoming|
        invariant peers == Merge(old(peers), incoming[..i], now)
      {
        var remote := incoming[i].credit;
        assert incoming[..i + 1][..i] == incoming[..i];
        if remote.lastInteraction > futureBound {
          continue;
        }
        if remote.bytesServed > MAX_ACCOUNTING_BYTES || remote.bytesReceived > MAX_ACCOUNTING_BYTES
           || remote.prepaidBytes > MAX_ACCOUNTING_BYTES {
          continue;
        }
        var id := incoming[i].peer;
        if id in peers {
          if remote.lastInteraction > peers[id].lastInteraction {
            peers := peers[id := peers[id].(
              bytesServed := remote.bytesServed, bytesReceived := remote.bytesReceived, netCredit := remote.netCredit,
              prepaidBytes := remote.prepaidBytes, successfulChallenges := remote.successfulChallenges,
              failedChallenges := remote.failedChallenges, lastInteraction := remote.lastInteraction)];
          }
        } else {
          peers := peers[id := remote];
        }
      }
      assert incoming[..|incoming|] == incoming;
    }

    method PruneInactivePeersWithGrace(policy: PrunePolicy, now: nat)
      modifies this
      ensures peers == WithoutStale(old(peers), policy, now)
    {
      var todo := peers.Keys;
      while todo != {}
        invariant todo <= old(peers).Keys
        invariant peers == map p | p in old(peers) && (p in todo || Kept(old(peers)[p], policy, now)) :: old(peers)[p]
        decreases |todo|
      {
        var id :| id in todo;
        var age := SatSub(now, peers[id].lastInteraction);
        var limit := policy.maxAge;
        if age > policy.threshold {
          limit := Min(policy.maxAge + policy.grace, U64_MAX);
        }
        if age >= limit {
          peers := peers - {id};
        }
        todo := todo - {id};
      }
    }
  }

  // ---------------------------------------------------------------- what a merge is

  /** A credit that speaks for a peer: our own, or an admissible incoming one. */
  predicate Offered(peers: Peers, es: seq<Entry>, now: nat, peer: NodeId, credit: PeerCredit) {
    (peer in peers && peers[peer] == credit) || (Entry(peer, credit) in es && Admissible(credit, now))
  }

  /** The merged table holds, for exactly the peers somebody speaks for, one of the latest credits. */
  lemma {:induction false} MergeIsLatest(peers: Peers, es: seq<Entry>, now: nat, peer: NodeId, credit: PeerCredit)
    ensures var merged := Merge(peers, es, now);
            && (Offered(peers, es, now, peer, credit) ==>
                  peer in merged && credit.lastInteraction <= merged[peer].lastInteraction)
            && (peer in merged ==> Offered(peers, es, now, peer, merged[peer]))
  {
    if es != [] {
      var before, last := es[..|es| - 1], es[|es| - 1];
      assert es == before + [last];
      MergeIsLatest(peers, before, now, peer, credit);
      var m := Merge(peers, before, now);
      MergeIsLatest(peers, before, now, last.peer, last.credit);
    }
  }

  lemma {:induction false} MergeStale(peers: Peers, es: seq<Entry>, now: nat)
    requires forall e :: e in es && Admissible(e.credit, now) ==>
               e.peer in peers && e.credit.lastInteraction <= peers[e.peer].lastInteraction
    ensures Merge(peers, es, now) == peers
  {
    if es != [] {
      MergeStale(peers, es[..|es| - 1], now);
    }
  }

  /** Receiving the same batch again at the same clock reading changes nothing. */
  lemma MergeIdempotent(peers: Peers, es: seq<Entry>, now: nat)
    ensures Merge(Merge(peers, es, now), es, now) == Merge(peers, es, now)
  {
    var merged := Merge(peers, es, now);
    forall e | e in es && Admissible(e.credit, now)
      ensures e.peer in merged && e.credit.lastInteraction <= merged[e.peer].lastInteraction
    {
      assert Entry(e.peer, e.credit) == e;
      MergeIsLatest(peers, es, now, e.peer, e.credit);
    }
    MergeStale(merged, es, now);
  }

  // ---------------------------------------------------------------- what is taken from outside

  /** Dated more than five minutes ahead of our clock, or with a byte count above 2 to the 60. */
  predicate Absurd(e: Entry, now: nat) {
    || e.credit.lastInteraction > now + 300
    || e.credit.bytesServed > 1_152_921_504_606_846_976
    || e.credit.bytesReceived > 1_152_921_504_606_846_976
    || e.credit.prepaidBytes > 1_152_921_504_606_846_976
  }

  /** Timestamps are 64 bits wide. */
  predicate Dated(e: Entry) {
    e.credit.lastInteraction <= U64_MAX
  }

  lemma AbsurdIsInadmissible(e: Entry, now: nat)
    requires Dated(e)
    ensures Admissible(e.credit, now) <==> !Absurd(e, now)
  {
  }

  lemma MergeAppend(peers: Peers, es: seq<Entry>, e: Entry, now: nat)
    ensures Merge(peers, es + [e], now) == MergeOne(Merge(peers, es, now), e, now)
  {
    assert (es + [e])[..|es|] == es;
  }

  /** An absurd entry has no effect wherever it stands in a batch. */
  lemma {:induction false} AbsurdIsIgnored(peers: Peers, a: seq<Entry>, e: Entry, b: seq<Entry>, now: nat)
    requires Dated(e) && Absurd(e, now)
    ensures Merge(peers, a + [e] + b, now) == Merge(peers, a + b, now)
    decreases |b|
  {
    AbsurdIsInadmissible(e, now);
    if b == [] {
      MergeAppend(peers, a, e, now);
      assert a + [e] + b == a + [e] && a + b == a;
    } else {
      var n := |b| - 1;
      AbsurdIsIgnored(peers, a, e, b[..n], now);
      MergeAppend(peers, a + [e] + b[..n], b[n], now);
      MergeAppend(peers, a + b[..n], b[n], now);
      assert a + [e] + b == (a + [e] + b[..n]) + [b[n]] && a + b == (a + b[..n]) + [b[n]];
    }
  }

  /** The merge in plain terms. After it a peer's account is our own or that of an entry which is not absurd;
      nothing that is not absurd is later; our own stays if nothing is later than it; and every peer in an
      entry that is not absurd has an account. */
  lemma MergedAccount(peers: Peers, es: seq<Entry>, now: nat, peer: NodeId)
    requires forall e :: e in es ==> Dated(e)
    ensures var merged := Merge(peers, es, now);
            && (peer in merged <==> peer in peers || exists e :: e in es && e.peer == peer && !Absurd(e, now))
            && (peer in merged ==>
                  && ((peer in peers && merged[peer] == peers[peer])
                      || exists e :: e in es && e == Entry(peer, merged[peer]) && !Absurd(e, now))
                  && (peer in peers ==> peers[peer].lastInteraction <= merged[peer].lastInteraction)
                  && (forall e :: e in es && e.peer == peer && !Absurd(e, now) ==>
                        e.credit.lastInteraction <= merged[peer].lastInteraction))
            && (peer in peers && (forall e :: e in es && e.peer == peer && !Absurd(e, now) ==>
                                    e.credit.lastInteraction <= peers[peer].lastInteraction) ==>
                  merged[peer] == peers[peer])
  {
    var merged := Merge(peers, es, now);
    forall e | e in es ensures Admissible(e.credit, now) <==> !Absurd(e, now) {
      AbsurdIsInadmissible(e, now);
    }
    forall e | e in es && e.peer == peer && !Absurd(e, now)
      ensures peer in merged && e.credit.lastInteraction <= merged[peer].lastInteraction
    {
      assert Entry(peer, e.credit) == e;
      MergeIsLatest(peers, es, now, peer, e.credit);
    }
    if peer in peers {
      MergeIsLatest(peers, es, now, peer, peers[peer]);
    }
    if peer in merged {
      MergeIsLatest(peers, es, now, peer, merged[peer]);
    }
    if peer in peers && forall e :: e in es && e.peer == peer && !Absurd(e, now) ==>
                          e.credit.lastInteraction <= peers[peer].lastInteraction {
      OursStays(peers, es, now, peer);
    }
  }

  lemma {:induction false} OursStays(peers: Peers, es: seq<Entry>, now: nat, peer: NodeId)
    requires peer in peers
    requires forall e :: e in es && e.peer == peer && Admissible(e.credit, now) ==>
               e.credit.lastInteraction <= peers[peer].lastInteraction
    ensures peer in Merge(peers, es, now) && Merge(peers, es, now)[peer] == peers[peer]
  {
    if es != [] {
      OursStays(peers, es[..|es| - 1], now, peer);
      assert es[|es| - 1] in es;
    }
  }

  /** Batches that arrive one after another, each with our clock at the time. */
  datatype Arrival = Arrival(es: seq<Entry>, now: nat)

  function ReconcileAll(peers: Peers, arrivals: seq<Arrival>): Peers {
    if arrivals == [] then peers
    else
      var last := arrivals[|arrivals| - 1];
      Merge(ReconcileAll(peers, arrivals[..|arrivals| - 1]), last.es, last.now)
  }

  /** Over every run of reconciliations: an account is our own from the start, or dated no later than five
      minutes after the latest clock reading and within the byte bounds. */
  lemma {:induction false} NothingAbsurdIsTaken(peers: Peers, arrivals: seq<Arrival>, latest: nat, peer: NodeId)
    requires forall i :: 0 <= i < |arrivals| ==>
               arrivals[i].now <= latest && forall e :: e in arrivals[i].es ==> Dated(e)
    requires peer in ReconcileAll(peers, arrivals)
    ensures var credit := ReconcileAll(peers, arrivals)[peer];
            (peer in peers && credit == peers[peer]) || !Absurd(Entry(peer, credit), latest)
  {
    if arrivals != [] {
      var n := |arrivals| - 1;
      var before, last := ReconcileAll(peers, arrivals[..n]), arrivals[n];
      MergedAccount(before, last.es, last.now, peer);
      if peer in before && ReconcileAll(peers, arrivals)[peer] == before[peer] {
        NothingAbsurdIsTaken(peers, arrivals[..n], latest, peer);
      }
    }
  }

  // ---------------------------------------------------------------- order and repetition

  /** One of the latest credits that speak for a peer. */
  ghost predicate Latest(peers: Peers, es: seq<Entry>, now: nat, peer: NodeId, credit: PeerCredit) {
    && Offered(peers, es, now, peer, credit)
    && forall other :: Offered(peers, es, now, peer, other) ==> other.lastInteraction <= credit.lastInteraction
  }

  /** For every peer the latest credits agree, or our own is among them. */
  ghost predicate Settled(peers: Peers, es: seq<Entry>, now: nat) {
    forall peer: NodeId, a: PeerCredit, b: PeerCredit ::
      Latest(peers, es, now, peer, a) && Latest(peers, es, now, peer, b) ==>
        a == b || (peer in peers && peers[peer].lastInteraction == a.lastInteraction)
  }

  /** The same entries, in any order and any number. */
  ghost predicate SameEntries(es: seq<Entry>, fs: seq<Entry>) {
    forall e :: e in es <==> e in fs
  }

  lemma MergedIsLatest(peers: Peers, es: seq<Entry>, now: nat, peer: NodeId)
    requires peer in Merge(peers, es, now)
    ensures Latest(peers, es, now, peer, Merge(peers, es, now)[peer])
  {
    var credit := Merge(peers, es, now)[peer];
    MergeIsLatest(peers, es, now, peer, credit);
    forall other | Offered(peers, es, now, peer, other) ensures other.lastInteraction <= credit.lastInteraction {
      MergeIsLatest(peers, es, now, peer, other);
    }
  }

  /** In a settled table only which entries arrive matters, not their order or number. */
  lemma MergeBySet(peers: Peers, es: seq<Entry>, fs: seq<Entry>, now: nat)
    requires SameEntries(es, fs) && Settled(peers, es, now)
    ensures Merge(peers, es, now) == Merge(peers, fs, now)
  {
    var m, n := Merge(peers, es, now), Merge(peers, fs, now);
    forall peer ensures peer in m <==> peer in n {
      if peer in m {
        MergeIsLatest(peers, es, now, peer, m[peer]);
        MergeIsLatest(peers, fs, now, peer, m[peer]);
      }
      if peer in n {
        MergeIsLatest(peers, fs, now, peer, n[peer]);
        MergeIsLatest(peers, es, now, peer, n[peer]);
      }
    }
    forall peer | peer in m ensures m[peer] == n[peer] {
      SettledPeer(peers, es, fs, now, peer);
    }
  }

  lemma SettledPeer(peers: Peers, es: seq<Entry>, fs: seq<Entry>, now: nat, peer: NodeId)
    requires SameEntries(es, fs) && Settled(peers, es, now)
    requires peer in Merge(peers, es, now) && peer in Merge(peers, fs, now)
    ensures Merge(peers, es, now)[peer] == Merge(peers, fs, now)[peer]
  {
    var a, b := Merge(peers, es, now)[peer], Merge(peers, fs, now)[peer];
    MergedIsLatest(peers, es, now, peer);
    MergedIsLatest(peers, fs, now, peer);
    assert forall c :: Offered(peers, es, now, peer, c) <==> Offered(peers, fs, now, peer, c);
    assert Latest(peers, es, now, peer, b);
    if peer in peers && peers[peer].lastInteraction == a.lastInteraction {
      NoneLaterThanOurs(peers, es, now, peer, a);
      NoneLaterThanOurs(peers, fs, now, peer, a);
    }
  }

  lemma NoneLaterThanOurs(peers: Peers, es: seq<Entry>, now: nat, peer: NodeId, latest: PeerCredit)
    requires peer in peers && peers[peer].lastInteraction == latest.lastInteraction
    requires Latest(peers, es, now, peer, latest)
    ensures peer in Merge(peers, es, now) && Merge(peers, es, now)[peer] == peers[peer]
  {
    forall e | e in es && e.peer == peer && Admissible(e.credit, now)
      ensures e.credit.lastInteraction <= peers[peer].lastInteraction
    {
      assert Entry(peer, e.credit) == e;
      assert Offered(peers, es, now, peer, e.credit);
    }
    KeptOurs(peers, es, now, peer);
  }

  /** A latest credit, ours being older or absent, is adopted for good if it comes first. */
  lemma FirstOfTheLatestWins(peers: Peers, es: seq<Entry>, now: nat, peer: NodeId, credit: PeerCredit)
    requires Latest(peers, es, now, peer, credit)
    requires peer in peers ==> peers[peer].lastInteraction != credit.lastInteraction
    ensures var fs := [Entry(peer, credit)] + es;
            && SameEntries(es, fs)
            && peer in Merge(peers, fs, now) && Merge(peers, fs, now)[peer] == credit
  {
    var first := Entry(peer, credit);
    assert first in es && Admissible(credit, now);
    if peer in peers {
      assert Offered(peers, es, now, peer, peers[peer]);
    }
    var adopted := Merge(peers, [first], now);
    assert adopted == MergeOne(Merge(peers, [], now), first, now) == peers[peer := credit];
    forall e | e in es && e.peer == peer && Admissible(e.credit, now)
      ensures e.credit.lastInteraction <= credit.lastInteraction
    {
      assert Entry(peer, e.credit) == e;
      assert Offered(peers, es, now, peer, e.credit);
    }
    KeptOurs(adopted, es, now, peer);
    MergeConcat(peers, [first], es, now);
  }

  /** Entries may come in any order with any repeats if and only if the table is settled. */
  lemma OrderIndependentIffSettled(peers: Peers, es: seq<Entry>, now: nat)
    ensures (forall fs :: SameEntries(es, fs) ==> Merge(peers, fs, now) == Merge(peers, es, now))
            <==> Settled(peers, es, now)
  {
    if Settled(peers, es, now) {
      forall fs | SameEntries(es, fs) ensures Merge(peers, fs, now) == Merge(peers, es, now) {
        MergeBySet(peers, es, fs, now);
      }
    } else {
      var peer: NodeId, a, b :| Latest(peers, es, now, peer, a) && Latest(peers, es, now, peer, b) && a != b
                                && !(peer in peers && peers[peer].lastInteraction == a.lastInteraction);
      assert a.lastInteraction == b.lastInteraction;
      FirstOfTheLatestWins(peers, es, now, peer, a);
      FirstOfTheLatestWins(peers, es, now, peer, b);
      var fs, gs := [Entry(peer, a)] + es, [Entry(peer, b)] + es;
      assert Merge(peers, fs, now)[peer] != Merge(peers, gs, now)[peer];
    }
  }

  /** The smallest unsettled case: two differing credits of one time for an unknown peer. */
  lemma TieDependsOnOrder(peers: Peers, a: Entry, b: Entry, now: nat)
    requires a.peer == b.peer && a.peer !in peers && Admissible(a.credit, now) && Admissible(b.credit, now)
    requires a.credit.lastInteraction == b.credit.lastInteraction && a.credit != b.credit
    ensures Merge(peers, [a, b], now) != Merge(peers, [b, a], now)
  {
    assert [a, b][..1] == [a] && [b, a][..1] == [b];
    assert Merge(peers, [a], now) == MergeOne(peers, a, now);
    assert Merge(peers, [b], now) == MergeOne(peers, b, now);
    assert Merge(peers, [a, b], now)[a.peer] == a.credit;
    assert Merge(peers, [b, a], now)[a.peer] == b.credit;
  }

  /** The export cut into batches; an empty export still sends one. */
  function Batches(es: seq<Entry>): (batches: seq<seq<Entry>>)
    ensures forall i :: 0 <= i < |batches| ==> |batches[i]| <= MAX_RECONCILIATION_ENTRIES
    decreases |es|
  {
    if |es| <= MAX_RECONCILIATION_ENTRIES then [es]
    else [es[..MAX_RECONCILIATION_ENTRIES]] + Batches(es[MAX_RECONCILIATION_ENTRIES..])
  }

  function Joined(batches: seq<seq<Entry>>): seq<Entry> {
    if batches == [] then [] else batches[0] + Joined(batches[1..])
  }

  /** The batches are the export, cut. */
  lemma {:induction false} BatchesJoin(es: seq<Entry>)
    ensures Joined(Batches(es)) == es
    decreases |es|
  {
    if |es| <= MAX_RECONCILIATION_ENTRIES {
      assert Joined([es]) == es + Joined([]);
    } else {
      BatchesJoin(es[MAX_RECONCILIATION_ENTRIES..]);
      assert Batches(es)[1..] == Batches(es[MAX_RECONCILIATION_ENTRIES..]);
    }
  }

  lemma {:induction false} JoinedHas(batches: seq<seq<Entry>>, e: Entry)
    ensures e in Joined(batches) <==> exists i :: 0 <= i < |batches| && e in batches[i]
  {
    if batches != [] {
      JoinedHas(batches[1..], e);
      if e in Joined(batches[1..]) {
        var i :| 0 <= i < |batches[1..]| && e in batches[1..][i];
        assert e in batches[i + 1];
      }
      forall i | 1 <= i < |batches| && e in batches[i] ensures e in Joined(batches[1..]) {
        assert e in batches[1..][i - 1];
      }
    }
  }

  /** Batches received one message at a time. */
  function MergeBatches(peers: Peers, batches: seq<seq<Entry>>, order: seq<nat>, now: nat): Peers
    requires forall k :: 0 <= k < |order| ==> order[k] < |batches|
  {
    if order == [] then peers
    else Merge(MergeBatches(peers, batches, order[..|order| - 1], now), batches[order[|order| - 1]], now)
  }

  function Flatten(batches: seq<seq<Entry>>, order: seq<nat>): seq<Entry>
    requires forall k :: 0 <= k < |order| ==> order[k] < |batches|
  {
    if order == [] then [] else Flatten(batches, order[..|order| - 1]) + batches[order[|order| - 1]]
  }

  lemma {:induction false} FlattenHas(batches: seq<seq<Entry>>, order: seq<nat>, e: Entry)
    requires forall k :: 0 <= k < |order| ==> order[k] < |batches|
    ensures e in Flatten(batches, order) <==> exists k :: 0 <= k < |order| && e in batches[order[k]]
  {
    if order != [] {
      var before := order[..|order| - 1];
      FlattenHas(batches, before, e);
      assert forall k :: 0 <= k < |before| ==> before[k] == order[k];
    }
  }

  lemma {:induction false} MergeConcat(peers: Peers, a: seq<Entry>, b: seq<Entry>, now: nat)
    ensures Merge(Merge(peers, a, now), b, now) == Merge(peers, a + b, now)
    decreases |b|
  {
    if b == [] {
      assert a + b == a;
    } else {
      MergeConcat(peers, a, b[..|b| - 1], now);
      assert (a + b)[..|a + b| - 1] == a + b[..|b| - 1];
    }
  }

  lemma {:induction false} BatchesFlatten(peers: Peers, batches: seq<seq<Entry>>, order: seq<nat>, now: nat)
    requires forall k :: 0 <= k < |order| ==> order[k] < |batches|
    ensures MergeBatches(peers, batches, order, now) == Merge(peers, Flatten(batches, order), now)
  {
    if order != [] {
      BatchesFlatten(peers, batches, order[..|order| - 1], now);
      MergeConcat(peers, Flatten(batches, order[..|order| - 1]), batches[order[|order| - 1]], now);
    }
  }

  /** In a settled table the batches of an export, in any order and with any repeats, as long
      as each arrives, have the effect of the export as a whole. */
  lemma BatchesInAnyOrder(peers: Peers, es: seq<Entry>, order: seq<nat>, now: nat)
    requires forall k :: 0 <= k < |order| ==> order[k] < |Batches(es)|
    requires forall i :: 0 <= i < |Batches(es)| ==> i in order
    requires Settled(peers, es, now)
    ensures MergeBatches(peers, Batches(es), order, now) == Merge(peers, es, now)
  {
    var all := Flatten(Batches(es), order);
    forall e ensures e in es <==> e in all {
      BatchesJoin(es);
      JoinedHas(Batches(es), e);
      FlattenHas(Batches(es), order, e);
      if e in es {
        var i :| 0 <= i < |Batches(es)| && e in Batches(es)[i];
        assert i in order;
        var k :| 0 <= k < |order| && order[k] == i;
        assert e in Batches(es)[order[k]];
      }
    }
    BatchesFlatten(peers, Batches(es), order, now);
    MergeBySet(peers, es, all, now);
  }

  // ---------------------------------------------------------------- two nodes

  /** A full export lists exactly the table's entries, in the map's own order. */
  ghost predicate IsExport(peers: Peers, es: seq<Entry>) {
    forall e: Entry :: e in es <==> e.peer in peers && peers[e.peer] == e.credit
  }

  ghost predicate AllAdmissible(peers: Peers, now: nat) {
    forall peer :: peer in peers ==> Admissible(peers[peer], now)
  }

  /** What a node holds after receiving another's full export. */
  lemma MergeExport(ours: Peers, theirs: Peers, es: seq<Entry>, now: nat, peer: NodeId)
    requires IsExport(theirs, es) && AllAdmissible(theirs, now)
    ensures peer in Merge(ours, es, now) <==> peer in ours || peer in theirs
    ensures peer in Merge(ours, es, now) ==>
              Merge(ours, es, now)[peer] ==
                if peer in ours && (peer !in theirs || theirs[peer].lastInteraction <= ours[peer].lastInteraction)
                then ours[peer] else theirs[peer]
  {
    var merged := Merge(ours, es, now);
    if peer in theirs {
      assert Entry(peer, theirs[peer]) in es;
      MergeIsLatest(ours, es, now, peer, theirs[peer]);
    }
    if peer in ours {
      MergeIsLatest(ours, es, now, peer, ours[peer]);
    }
    if peer in merged {
      MergeIsLatest(ours, es, now, peer, merged[peer]);
      if peer in ours && (peer !in theirs || theirs[peer].lastInteraction <= ours[peer].lastInteraction) {
        KeptOurs(ours, es, now, peer);
      }
    }
  }

  lemma {:induction false} KeptOurs(ours: Peers, es: seq<Entry>, now: nat, peer: NodeId)
    requires peer in ours
    requires forall e :: e in es && e.peer == peer && Admissible(e.credit, now) ==>
               e.credit.lastInteraction <= ours[peer].lastInteraction
    ensures peer in Merge(ours, es, now) && Merge(ours, es, now)[peer] == ours[peer]
  {
    if es != [] {
      KeptOurs(ours, es[..|es| - 1], now, peer);
    }
  }

  /** The two sides hold differing credits of one time for the peer. */
  predicate Tied(a: Peers, b: Peers, peer: NodeId) {
    peer in a && peer in b && a[peer].lastInteraction == b[peer].lastInteraction && a[peer] != b[peer]
  }

  /** After the exchange the two sides differ at a peer exactly if they were tied there. */
  lemma ExchangeAt(a: Peers, b: Peers, ea: seq<Entry>, eb: seq<Entry>, nowA: nat, nowB: nat, peer: NodeId)
    requires IsExport(a, ea) && IsExport(b, eb) && AllAdmissible(a, nowB) && AllAdmissible(b, nowA)
    ensures peer in Merge(a, eb, nowA) <==> peer in Merge(b, ea, nowB)
    ensures peer in Merge(a, eb, nowA) ==> (Merge(a, eb, nowA)[peer] == Merge(b, ea, nowB)[peer] <==> !Tied(a, b, peer))
    ensures Tied(a, b, peer) ==> peer in Merge(a, eb, nowA)
  {
    MergeExport(a, b, eb, nowA, peer);
    MergeExport(b, a, ea, nowB, peer);
  }

  /** Two nodes that exchange full exports of admissible entries end with the same table if and only
      if no peer has differing credits of the same time on the two sides. */
  lemma ExchangeConverges(a: Peers, b: Peers, ea: seq<Entry>, eb: seq<Entry>, nowA: nat, nowB: nat)
    requires IsExport(a, ea) && IsExport(b, eb) && AllAdmissible(a, nowB) && AllAdmissible(b, nowA)
    ensures Merge(a, eb, nowA) == Merge(b, ea, nowB) <==> forall peer :: !Tied(a, b, peer)
  {
    var afterA, afterB := Merge(a, eb, nowA), Merge(b, ea, nowB);
    forall peer: NodeId
      ensures peer in afterA <==> peer in afterB
      ensures peer in afterA ==> (afterA[peer] == afterB[peer] <==> !Tied(a, b, peer))
      ensures Tied(a, b, peer) ==> peer in afterA
    {
      ExchangeAt(a, b, ea, eb, nowA, nowB, peer);
    }
    if forall peer :: !Tied(a, b, peer) {
      assert afterA.Keys == afterB.Keys;
    }
  }
}
