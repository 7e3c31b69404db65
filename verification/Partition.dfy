/**
 A clean two-sided partition, over whole runs: clocks, heartbeats, elections,
 mutations and snapshot traffic, with only the cut itself fixed.
 */
module Partition {
  import opened NodeIds
  import opened Lists
  import opened Sets
  import opened Config
  import opened Quorum

  datatype Node = Node(snap: Snapshot, mgr: Mgr)

  datatype Flight = Flight(sender: NodeId, to: NodeId, snap: Snapshot)

  /**
   `cleared` are the nodes where a mutation has passed the quorum check; `commits`
   lists the side of every change committed since the cut, oldest first.
   */
  datatype State = State(
    now: int, nodes: map<NodeId, Node>, mail: set<Flight>, cleared: set<NodeId>, commits: seq<bool>)

  datatype Action =
    | Wait(dt: nat)
    | Heartbeat(sender: NodeId, to: NodeId)
    | SelfBeat(n: NodeId)
    | Ballot(n: NodeId, live: set<NodeId>)
    | Clear(n: NodeId)
    | Mutate(n: NodeId, m: Mutation)
    | Send(sender: NodeId, to: NodeId)
    | Deliver(f: Flight)
    | Restart(n: NodeId)
    | Boot(n: NodeId, snap: Snapshot, deadAfter: int, cooldown: int)

  type Side = NodeId -> bool

  function Quota(x: Node): nat { QuorumSize(|x.snap.content.peers|) }

  predicate HasQuorum(x: Node, now: int) { |Live(x.mgr, now)| >= Quota(x) }

  /** Who may send heartbeats to `x`: the peers it lists, and the `strays`, which it does not. */
  predicate MaySend(id: NodeId, x: Node, strays: set<NodeId>) {
    id in Keys(x.snap.content.peers, PeerKey) || id in strays
  }

  /**
   One step. Nothing crosses the cut. A mutation first passes the quorum check and is
   applied some time later; whether the node is master then does not matter here, nor
   which live set an election goes by. A new node enrolls through a side that can
   commit, so it appears only where something was committed; its configuration is then
   anything at all. A daemon that restarts keeps its configuration and forgets its contacts.
   */
  ghost function Next(s: State, side: Side, strays: set<NodeId>, a: Action): State {
    match a
    case Wait(dt) => s.(now := s.now + dt)
    case Heartbeat(sender, to) =>
      if to !in s.nodes || side(sender) != side(to) || !MaySend(sender, s.nodes[to], strays) then s
      else Put(s, to, s.nodes[to].(mgr := Mark(s.nodes[to].mgr, sender, s.now)))
    case SelfBeat(n) =>
      if n !in s.nodes then s else Put(s, n, s.nodes[n].(mgr := Mark(s.nodes[n].mgr, n, s.now)))
    case Ballot(n, live) =>
      if n !in s.nodes then s
      else Put(s, n, s.nodes[n].(mgr := Recompute(s.nodes[n].mgr, live, s.now, Quota(s.nodes[n]))))
    case Clear(n) =>
      if n !in s.nodes || !HasQuorum(s.nodes[n], s.now) then s else s.(cleared := s.cleared + {n})
    case Mutate(n, m) =>
      if n !in s.nodes || n !in s.cleared then s else
      (match Committed(s.nodes[n].snap, n, s.now, m)
       case Ok(t) => Put(s, n, s.nodes[n].(snap := t)).(commits := s.commits + [side(n)])
       case Err(_) => s)
    case Send(sender, to) =>
      if sender !in s.nodes then s else s.(mail := s.mail + {Flight(sender, to, s.nodes[sender].snap)})
    case Deliver(f) =>
      if f !in s.mail || f.to !in s.nodes || side(f.sender) != side(f.to) then s
      else Put(s, f.to, s.nodes[f.to].(snap := Adopted(s.nodes[f.to].snap, f.snap)))
    case Restart(n) =>
      if n !in s.nodes then s
      else
        var x := s.nodes[n];
        Put(s, n, x.(mgr := x.mgr.(lastSeen := map[], liveSince := map[], master := "", term := 0)))
    case Boot(n, snap, d, c) =>
      if n in s.nodes || side(n) !in s.commits then s
      else Put(s, n, Node(snap, Mgr(n, d, c, map[], map[], "", 0)))
  }

  function Put(s: State, n: NodeId, x: Node): State { s.(nodes := s.nodes[n := x]) }

  ghost function Run(s: State, side: Side, strays: set<NodeId>, acts: seq<Action>): State {
    if acts == [] then s else Next(Run(s, side, strays, acts[..|acts| - 1]), side, strays, acts[|acts| - 1])
  }

  /** Whatever `x` has heard from across the cut is at least `deadAfter` old. */
  ghost predicate CutOff(x: Node, n: NodeId, side: Side, now: int) {
    && x.mgr.self == n
    && forall id :: id in x.mgr.lastSeen && side(id) != side(n) ==> x.mgr.lastSeen[id] + x.mgr.deadAfter <= now
  }

  /** A listed node with the shared peer list `ps` that has heard from listed peers and strays only. */
  ghost predicate Shares(x: Node, n: NodeId, ps: seq<PeerInfo>, strays: set<NodeId>) {
    && x.snap.content.peers == ps
    && n in Keys(ps, PeerKey)
    && x.mgr.lastSeen.Keys <= Keys(ps, PeerKey) + strays
  }

  /**
   One peer list everywhere, in flight too, the cut has lasted for everybody's
   `deadAfter`, and no mutation is between its quorum check and its edit.
   */
  ghost predicate CleanCut(s: State, side: Side, strays: set<NodeId>, ps: seq<PeerInfo>) {
    && DistinctBy(ps, PeerKey)
    && (forall n :: n in s.nodes ==> CutOff(s.nodes[n], n, side, s.now) && Shares(s.nodes[n], n, ps, strays))
    && (forall f :: f in s.mail ==> f.snap.content.peers == ps)
    && s.cleared == {} && s.commits == []
  }

  /** Everybody on side `b` who can be live there. */
  function OnSide(ps: seq<PeerInfo>, strays: set<NodeId>, side: Side, b: bool): set<NodeId> {
    set id | id in Keys(ps, PeerKey) + strays && side(id) == b
  }

  /** A side that is too small for a quorum of `ps`, its strays included. */
  ghost predicate Minority(ps: seq<PeerInfo>, strays: set<NodeId>, side: Side, b: bool) {
    |OnSide(ps, strays, side, b)| < QuorumSize(|ps|)
  }

  /** Listed and stray senders together are too few for two quorums. */
  ghost predicate FewStrays(ps: seq<PeerInfo>, strays: set<NodeId>) {
    |Keys(ps, PeerKey) + strays| < 2 * QuorumSize(|ps|)
  }

  lemma OneSideIsMinority(ps: seq<PeerInfo>, strays: set<NodeId>, side: Side)
    requires FewStrays(ps, strays)
    ensures Minority(ps, strays, side, true) || Minority(ps, strays, side, false)
  {
    var a, b := OnSide(ps, strays, side, true), OnSide(ps, strays, side, false);
    assert a + b == Keys(ps, PeerKey) + strays;
    DisjointUnionSize(a, b);
  }

  /** Without strays, and with one when the number of peers is even, there is no room for two quorums. */
  lemma StraysThatFit(ps: seq<PeerInfo>, strays: set<NodeId>)
    requires DistinctBy(ps, PeerKey) && strays !! Keys(ps, PeerKey)
    ensures FewStrays(ps, strays) <==> |strays| < 2 * QuorumSize(|ps|) - |ps|
    ensures |ps| > 0 ==> 2 * QuorumSize(|ps|) - |ps| == if |ps| % 2 == 0 then 2 else 1
  {
    DistinctSize(ps, PeerKey);
    DisjointUnionSize(Keys(ps, PeerKey), strays);
  }

  /** What holds of every state of the run, for a minority side `b`. */
  ghost predicate Inv(s: State, side: Side, strays: set<NodeId>, ps: seq<PeerInfo>, b: bool) {
    && (forall n :: n in s.nodes ==> CutOff(s.nodes[n], n, side, s.now))
    && (forall n :: n in s.nodes && side(n) == b ==> Shares(s.nodes[n], n, ps, strays))
    && (forall f :: f in s.mail && side(f.sender) == b ==> f.snap.content.peers == ps)
    && (forall n :: n in s.cleared ==> side(n) != b)
    && b !in s.commits
  }

  lemma LiveStaysOnSide(x: Node, n: NodeId, side: Side, now: int)
    requires CutOff(x, n, side, now)
    ensures forall id :: id in Live(x.mgr, now) ==> side(id) == side(n)
  {
  }

  lemma MinorityHasNoQuorum(x: Node, n: NodeId, side: Side, strays: set<NodeId>, ps: seq<PeerInfo>, now: int)
    requires CutOff(x, n, side, now) && Shares(x, n, ps, strays) && Minority(ps, strays, side, side(n))
    ensures !HasQuorum(x, now)
  {
    LiveStaysOnSide(x, n, side, now);
    SubsetSize(Live(x.mgr, now), OnSide(ps, strays, side, side(n)));
  }

  /** A contact from the node's own side keeps it cut off. */
  lemma MarkKeeps(x: Node, n: NodeId, side: Side, strays: set<NodeId>, ps: seq<PeerInfo>, now: int, id: NodeId)
    requires CutOff(x, n, side, now) && side(id) == side(n)
    ensures CutOff(x.(mgr := Mark(x.mgr, id, now)), n, side, now)
    ensures Shares(x, n, ps, strays) && id in Keys(ps, PeerKey) + strays
            ==> Shares(x.(mgr := Mark(x.mgr, id, now)), n, ps, strays)
  {
  }

  /** Replacing one node by one that is still cut off, and still shares if it must. */
  lemma PutKeeps(s: State, side: Side, strays: set<NodeId>, ps: seq<PeerInfo>, b: bool, n: NodeId, x: Node)
    requires Inv(s, side, strays, ps, b) && CutOff(x, n, side, s.now)
    requires side(n) == b ==> Shares(x, n, ps, strays)
    ensures Inv(Put(s, n, x), side, strays, ps, b)
  {
  }

  /** Contacts and elections. */
  lemma MgrStep(s: State, side: Side, strays: set<NodeId>, ps: seq<PeerInfo>, b: bool, a: Action)
    requires Inv(s, side, strays, ps, b) && (a.Heartbeat? || a.SelfBeat? || a.Ballot?)
    ensures Inv(Next(s, side, strays, a), side, strays, ps, b)
  {
    var n := if a.Heartbeat? then a.to else a.n;
    var t := Next(s, side, strays, a);
    if t != s {
      var x, id := s.nodes[n], if a.Heartbeat? then a.sender else n;
      if !a.Ballot? { MarkKeeps(x, n, side, strays, ps, s.now, id); }
      PutKeeps(s, side, strays, ps, b, n, t.nodes[n]);
    }
  }

  /** The quorum check never passes on the minority side, so no change is committed there. */
  lemma MutationStep(s: State, side: Side, strays: set<NodeId>, ps: seq<PeerInfo>, b: bool, a: Action)
    requires Inv(s, side, strays, ps, b) && Minority(ps, strays, side, b) && (a.Clear? || a.Mutate?)
    ensures Inv(Next(s, side, strays, a), side, strays, ps, b)
  {
    if a.n in s.nodes {
      var x := s.nodes[a.n];
      if side(a.n) == b { MinorityHasNoQuorum(x, a.n, side, strays, ps, s.now); }
      if a.Mutate? && a.n in s.cleared {
        var c := Committed(x.snap, a.n, s.now, a.m);
        if c.Ok? {
          PutKeeps(s, side, strays, ps, b, a.n, x.(snap := c.value));
        }
      }
    }
  }

  /** Deliveries, restarts and new nodes. */
  lemma TrafficStep(s: State, side: Side, strays: set<NodeId>, ps: seq<PeerInfo>, b: bool, a: Action)
    requires Inv(s, side, strays, ps, b) && (a.Deliver? || a.Restart? || a.Boot?)
    ensures Inv(Next(s, side, strays, a), side, strays, ps, b)
  {
    var n, t := if a.Deliver? then a.f.to else a.n, Next(s, side, strays, a);
    if t != s {
      PutKeeps(s, side, strays, ps, b, n, t.nodes[n]);
    }
  }

  lemma InvStep(s: State, side: Side, strays: set<NodeId>, ps: seq<PeerInfo>, b: bool, a: Action)
    requires Inv(s, side, strays, ps, b) && Minority(ps, strays, side, b)
    ensures Inv(Next(s, side, strays, a), side, strays, ps, b)
  {
    if a.Heartbeat? || a.SelfBeat? || a.Ballot? {
      MgrStep(s, side, strays, ps, b, a);
    } else if a.Clear? || a.Mutate? {
      MutationStep(s, side, strays, ps, b, a);
    } else if a.Deliver? || a.Restart? || a.Boot? {
      TrafficStep(s, side, strays, ps, b, a);
    }
  }

  lemma {:induction false} InvRun(s: State, side: Side, strays: set<NodeId>, ps: seq<PeerInfo>, b: bool,
                                 acts: seq<Action>)
    requires CleanCut(s, side, strays, ps) && Minority(ps, strays, side, b)
    ensures Inv(Run(s, side, strays, acts), side, strays, ps, b)
  {
    if acts != [] {
      InvRun(s, side, strays, ps, b, acts[..|acts| - 1]);
      InvStep(Run(s, side, strays, acts[..|acts| - 1]), side, strays, ps, b, acts[|acts| - 1]);
    }
  }

  /**
   Partition safety. From a clean cut on, in every run, every live set lies within its
   own side, and there is a side on which no node ever has quorum and no change is ever
   committed, even while the other side keeps changing the peer list: provided that
   listed and stray senders together are too few for two quorums.
   */
  lemma OneSideOnly(s: State, side: Side, strays: set<NodeId>, ps: seq<PeerInfo>) returns (b: bool)
    requires CleanCut(s, side, strays, ps) && FewStrays(ps, strays)
    ensures forall acts :: LivesApart(Run(s, side, strays, acts), side)
    ensures forall acts :: Silent(Run(s, side, strays, acts), side, b)
  {
    OneSideIsMinority(ps, strays, side);
    b := Minority(ps, strays, side, true);
    forall acts
      ensures LivesApart(Run(s, side, strays, acts), side) && Silent(Run(s, side, strays, acts), side, b)
    {
      InvRun(s, side, strays, ps, b, acts);
      InvMeans(Run(s, side, strays, acts), side, strays, ps, b);
    }
  }

  ghost predicate LivesApart(s: State, side: Side) {
    forall n, id :: n in s.nodes && id in Live(s.nodes[n].mgr, s.now) ==> side(id) == side(n)
  }

  /** No node of side `b` has quorum, and nothing was committed there. */
  ghost predicate Silent(s: State, side: Side, b: bool) {
    && (forall n :: n in s.nodes && side(n) == b ==> !HasQuorum(s.nodes[n], s.now))
    && b !in s.commits
  }

  lemma InvMeans(s: State, side: Side, strays: set<NodeId>, ps: seq<PeerInfo>, b: bool)
    requires Inv(s, side, strays, ps, b) && Minority(ps, strays, side, b)
    ensures LivesApart(s, side) && Silent(s, side, b)
  {
    forall n | n in s.nodes ensures side(n) == b ==> !HasQuorum(s.nodes[n], s.now) {
      if side(n) == b { MinorityHasNoQuorum(s.nodes[n], n, side, strays, ps, s.now); }
    }
    forall n, id | n in s.nodes && id in Live(s.nodes[n].mgr, s.now) ensures side(id) == side(n) {
      LiveStaysOnSide(s.nodes[n], n, side, s.now);
    }
  }

  // ----- how many it takes -----

  lemma RunSnoc(s: State, side: Side, strays: set<NodeId>, acts: seq<Action>, a: Action)
    ensures Run(s, side, strays, acts + [a]) == Next(Run(s, side, strays, acts), side, strays, a)
  {
    assert (acts + [a])[..|acts|] == acts;
  }

  /** `t` is `s` after `n` has just heard from all of `ids`. */
  ghost predicate HasHeard(s: State, t: State, n: NodeId, ids: set<NodeId>) {
    && n in s.nodes && n in t.nodes && t.now == s.now && t.nodes[n].snap == s.nodes[n].snap
    && t.nodes[n].mgr.deadAfter == s.nodes[n].mgr.deadAfter
    && forall id :: id in ids ==> id in t.nodes[n].mgr.lastSeen && t.nodes[n].mgr.lastSeen[id] == t.now
  }

  /** All who may send to `n` on its side do so at once. */
  lemma {:induction false} AllBeat(s: State, side: Side, strays: set<NodeId>, n: NodeId, ids: set<NodeId>)
    returns (acts: seq<Action>)
    requires n in s.nodes && forall id :: id in ids ==> side(id) == side(n) && MaySend(id, s.nodes[n], strays)
    ensures HasHeard(s, Run(s, side, strays, acts), n, ids)
  {
    acts := [];
    if ids != {} {
      var id :| id in ids;
      acts := AllBeat(s, side, strays, n, ids - {id});
      RunSnoc(s, side, strays, acts, Heartbeat(id, n));
      acts := acts + [Heartbeat(id, n)];
    }
  }

  /**
   The bound is exact: from a clean cut a node can come to quorum, in some run, if and
   only if the listed peers and strays on its side are enough for one.
   */
  lemma QuorumReachableExactly(s: State, side: Side, strays: set<NodeId>, ps: seq<PeerInfo>, n: NodeId)
    requires CleanCut(s, side, strays, ps) && n in s.nodes && s.nodes[n].mgr.deadAfter > 0
    ensures (exists acts :: QuorateAfter(s, side, strays, acts, n)) <==> !Minority(ps, strays, side, side(n))
  {
    if Minority(ps, strays, side, side(n)) {
      forall acts ensures !QuorateAfter(s, side, strays, acts, n) {
        InvRun(s, side, strays, ps, side(n), acts);
        InvMeans(Run(s, side, strays, acts), side, strays, ps, side(n));
      }
    } else {
      var ids := OnSide(ps, strays, side, side(n));
      var acts := AllBeat(s, side, strays, n, ids);
      var t := Run(s, side, strays, acts);
      SubsetSize(ids, Live(t.nodes[n].mgr, t.now));
      assert QuorateAfter(s, side, strays, acts, n);
    }
  }

  ghost predicate QuorateAfter(s: State, side: Side, strays: set<NodeId>, acts: seq<Action>, n: NodeId) {
    var t := Run(s, side, strays, acts);
    n in t.nodes && HasQuorum(t.nodes[n], t.now)
  }
}
