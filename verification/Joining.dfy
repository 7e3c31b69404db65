/** How a node seeds its own configuration before it has heard from the cluster. */
module Joining {
  import opened NodeIds
  import opened Lists
  import opened Config

  /** Entries of `peers` whose id is neither in `seen` nor repeated earlier in the list. */
  function Unseen(seen: set<NodeId>, peers: seq<PeerInfo>): seq<PeerInfo> {
    if peers == [] then []
    else
      var rest := Unseen(seen, peers[..|peers| - 1]);
      var p := peers[|peers| - 1];
      if p.nodeId in seen || p.nodeId in Keys(rest, PeerKey) then rest else rest + [p]
  }

  function SeedPeers(me: PeerInfo, peers: seq<PeerInfo>): seq<PeerInfo> {
    [me] + Unseen({me.nodeId}, peers)
  }

  /** What `qu init` leaves behind: version 1, the node as its own only peer. */
  function FoundedBy(me: PeerInfo, now: int): Snapshot {
    Snapshot(1, now, me.nodeId, EMPTY_CONTENT.(peers := [me]))
  }

  /** What enrolling leaves on the joiner: version 2, itself and the peers it was told of. */
  function SeededBy(me: PeerInfo, peers: seq<PeerInfo>, now: int): Snapshot {
    Snapshot(2, now, me.nodeId, EMPTY_CONTENT.(peers := SeedPeers(me, peers)))
  }

  method Bootstrap(me: PeerInfo, now: int) returns (c: ClusterConfig)
    ensures fresh(c) && c.View() == FoundedBy(me, now)
    ensures c.version == 1 && c.peers == [me] && c.updatedBy == me.nodeId && c.updatedAt == now
    ensures c.checks == [] && c.alerts == [] && c.enrollments == [] && c.resolvers == []
  {
    c := new ClusterConfig();
    c.peers := [me];
    c.Bump(me.nodeId, now);
  }

  /** Rewrites the local peer list to self plus every distinct peer learned; one version up. */
  method SeedJoiner(c: ClusterConfig, me: PeerInfo, peers: seq<PeerInfo>, now: int)
    modifies c
    ensures c.View() == Snapshot(old(c.version) + 1, now, me.nodeId,
                                 old(c.View()).content.(peers := SeedPeers(me, peers)))
  {
    c.peers := [me];
    var seen := {me.nodeId};
    for i := 0 to |peers|
      invariant c.peers == SeedPeers(me, peers[..i])
      invariant seen == {me.nodeId} + Keys(Unseen({me.nodeId}, peers[..i]), PeerKey)
      invariant c.View() == old(c.View()).(content := old(c.View()).content.(peers := c.peers))
    {
      assert peers[..i + 1][..i] == peers[..i];
      ghost var before := Unseen({me.nodeId}, peers[..i]);
      if peers[i].nodeId in seen { continue; }
      c.peers := c.peers + [peers[i]];
      seen := seen + {peers[i].nodeId};
      KeysAppend(before, peers[i], PeerKey);
    }
    assert peers[..|peers|] == peers;
    c.Bump(me.nodeId, now);
  }

  /** Bootstrap followed by seeding always lands on version 2. */
  method JoinLocally(me: PeerInfo, peers: seq<PeerInfo>, bootAt: int, now: int) returns (c: ClusterConfig)
    ensures fresh(c) && c.View() == SeededBy(me, peers, now)
    ensures c.version == 2 && c.peers == SeedPeers(me, peers) && c.updatedBy == me.nodeId && c.updatedAt == now
    ensures c.checks == [] && c.alerts == [] && c.enrollments == [] && c.resolvers == []
  {
    c := Bootstrap(me, bootAt);
    SeedJoiner(c, me, peers, now);
  }

  /** The seeded list names the joiner and every peer it was told of, each once. */
  lemma {:induction false} SeedListsEveryoneOnce(me: PeerInfo, peers: seq<PeerInfo>)
    ensures DistinctBy(SeedPeers(me, peers), PeerKey)
    ensures Keys(SeedPeers(me, peers), PeerKey) == {me.nodeId} + Keys(peers, PeerKey)
  {
    if peers == [] {
      assert SeedPeers(me, peers) == [] + [me];
      KeysAppend([], me, PeerKey);
    } else {
      var n := |peers| - 1;
      SeedListsEveryoneOnce(me, peers[..n]);
      KeysOfSeed(me, Unseen({me.nodeId}, peers[..n]));
      assert peers == peers[..n] + [peers[n]];
      KeysAppend(peers[..n], peers[n], PeerKey);
      KeysAppend(SeedPeers(me, peers[..n]), peers[n], PeerKey);
      assert SeedPeers(me, peers) == SeedPeers(me, peers[..n])
             || SeedPeers(me, peers) == SeedPeers(me, peers[..n]) + [peers[n]];
    }
  }

  /** Self comes first, then the first entry of every other id, in the order in which they were learned. */
  ghost predicate SeedOrder(me: PeerInfo, peers: seq<PeerInfo>, seed: seq<PeerInfo>, at: seq<nat>) {
    && |seed| == |at| + 1 && seed[0] == me
    && (forall k :: 0 <= k < |at| ==> at[k] < |peers| && seed[k + 1] == peers[at[k]])
    && (forall j, k :: 0 <= j < k < |at| ==> at[j] < at[k])
    && (forall k, j :: 0 <= k < |at| && 0 <= j < at[k] ==> peers[j].nodeId != peers[at[k]].nodeId)
  }

  lemma SeedOrderSnoc(me: PeerInfo, peers: seq<PeerInfo>, seed: seq<PeerInfo>, at: seq<nat>, p: PeerInfo)
    requires SeedOrder(me, peers, seed, at)
    ensures SeedOrder(me, peers + [p], seed, at)
    ensures p.nodeId !in Keys(peers, PeerKey) ==> SeedOrder(me, peers + [p], seed + [p], at + [|peers|])
  {
    if p.nodeId !in Keys(peers, PeerKey) {
      assert forall j :: 0 <= j < |peers| ==> PeerKey(peers[j]) in Keys(peers, PeerKey);
    }
  }

  lemma {:induction false} SeedInOrder(me: PeerInfo, peers: seq<PeerInfo>) returns (at: seq<nat>)
    ensures SeedOrder(me, peers, SeedPeers(me, peers), at)
  {
    at := [];
    if peers != [] {
      var front, p := peers[..|peers| - 1], peers[|peers| - 1];
      at := SeedInOrder(me, front);
      SeedListsEveryoneOnce(me, front);
      KeysOfSeed(me, Unseen({me.nodeId}, front));
      SeedOrderSnoc(me, front, SeedPeers(me, front), at, p);
      assert peers == front + [p];
      if Unseen({me.nodeId}, peers) != Unseen({me.nodeId}, front) {
        assert SeedPeers(me, peers) == SeedPeers(me, front) + [p];
        at := at + [|front|];
      }
    }
  }

  lemma KeysOfSeed(me: PeerInfo, rest: seq<PeerInfo>)
    ensures Keys([me] + rest, PeerKey) == {me.nodeId} + Keys(rest, PeerKey)
  {
    var all := [me] + rest;
    assert all[0] == me;
    assert forall k :: 0 <= k < |rest| ==> all[k + 1] == rest[k];
  }
}
