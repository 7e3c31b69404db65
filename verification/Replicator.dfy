/** Routing of mutations and the in-place edits behind them, on one node. */
module Replicator {
  import opened Options
  import opened NodeIds
  import opened Lists
  import opened Config

  /** What the quorum manager tells the replicator at the moment of a call. */
  datatype MasterView = MasterView(master: NodeId, isMaster: bool, hasQuorum: bool)

  datatype Refusal =
    | NoQuorum | NotMaster | MasterUnknown | NoAddress | CallFailed
    | Failed(error: MutationError)
    | Declined(message: string)

  /** A mutation is applied here, applied by the master on this node's behalf, or refused. */
  datatype Routing = Applied(version: nat) | Answered(version: nat) | Refused(why: Refusal)

  /** A proposal sent to the master at its advertise address. */
  datatype Proposal = Proposal(master: NodeId, addr: string)

  /** How such a call comes back: not at all, or with the master's verdict. */
  type Reply = Option<Result<nat, string>>

  /** A full snapshot on its way to a peer. */
  datatype Envelope = Envelope(to: NodeId, snap: Snapshot)

  /** A broadcast reaches every listed, addressable peer other than the sender. */
  predicate Addressable(p: PeerInfo, self: NodeId) {
    p.nodeId != self && p.nodeId != "" && p.advertise != ""
  }

  ghost function Broadcast(self: NodeId, snap: Snapshot): set<Envelope> {
    set p | p in snap.content.peers && Addressable(p, self) :: Envelope(p.nodeId, snap)
  }

  predicate FirstPeerAt(peers: seq<PeerInfo>, id: NodeId, k: int) {
    0 <= k < |peers| && peers[k].nodeId == id && forall j :: 0 <= j < k ==> peers[j].nodeId != id
  }

  /** The advertise address of the first entry for `id`, or "" when unlisted. */
  function AddressOf(peers: seq<PeerInfo>, id: NodeId): (addr: string)
    ensures (forall p :: p in peers ==> p.nodeId != id) ==> addr == ""
    ensures (exists p :: p in peers && p.nodeId == id) ==>
              exists k :: FirstPeerAt(peers, id, k) && addr == peers[k].advertise
  {
    var i := FirstIndex(peers, PeerIs(id));
    assert i < |peers| ==> FirstPeerAt(peers, id, i);
    assert forall p :: p in peers && p.nodeId == id ==> PeerIs(id)(p);
    if i < |peers| then peers[i].advertise else ""
  }

  /** The edit's verdict and its effect on the configuration are those of `Apply`. */
  ghost predicate EditedAs(before: Snapshot, m: Mutation, r: Result<(), MutationError>, after: Snapshot) {
    match Apply(before.content, m)
    case Ok(c) => r.Ok? && after == before.(content := c)
    case Err(e) => r == Err(e) && after == before
  }

  class Replicator {
    const selfId: NodeId
    const cluster: ClusterConfig

    constructor (selfId: NodeId, cluster: ClusterConfig)
      ensures this.selfId == selfId && this.cluster == cluster
    {
      this.selfId, this.cluster := selfId, cluster;
    }

    /** The edit that runs under the configuration's lock; a refused edit touches nothing. */
    method Edit(m: Mutation) returns (r: Result<(), MutationError>)
      modifies cluster`peers, cluster`checks, cluster`alerts, cluster`enrollments, cluster`resolvers
      ensures EditedAs(old(cluster.View()), m, r, cluster.View())
    {
      match m {
        case AddCheck(_) | RemoveCheck(_) => r := EditChecks(m);
        case AddAlert(_) | RemoveAlert(_) => r := EditAlerts(m);
        case AddPeer(_) | RemovePeer(_) => r := EditPeers(m);
        case AddEnrollment(_) | RemoveEnrollment(_) | RecordEnrollPending(_, _) => r := EditEnrollments(m);
        case ApproveEnrollment(_) => r := Approve(m);
        case ReplaceConfig(n) =>
          cluster.peers, cluster.checks, cluster.alerts := n.peers, n.checks, n.alerts;
          cluster.resolvers := n.resolvers;
          r := Ok(());
        case SetResolvers(list) =>
          cluster.resolvers := CleanResolvers(list);
          r := Ok(());
        case Undecodable => r := Err(BadPayload);
      }
    }

    method EditChecks(m: Mutation) returns (r: Result<(), MutationError>)
      requires m.AddCheck? || m.RemoveCheck?
      modifies cluster`checks
      ensures EditedAs(old(cluster.View()), m, r, cluster.View())
    {
      if m.AddCheck? {
        var x := m.check;
        if x.id == "" || x.name == "" { return Err(MissingFields); }
        var i := Search(cluster.checks, ClashesWithCheck(x));
        if i < |cluster.checks| {
          cluster.checks := cluster.checks[i := x];
        } else {
          cluster.checks := cluster.checks + [x];
        }
      } else {
        var i := Search(cluster.checks, CheckNamed(m.target));
        if i == |cluster.checks| { return Err(NotFound); }
        cluster.checks := cluster.checks[..i] + cluster.checks[i + 1..];
      }
      return Ok(());
    }

    method EditAlerts(m: Mutation) returns (r: Result<(), MutationError>)
      requires m.AddAlert? || m.RemoveAlert?
      modifies cluster`alerts
      ensures EditedAs(old(cluster.View()), m, r, cluster.View())
    {
      if m.AddAlert? {
        var x := m.alert;
        if x.id == "" || x.name == "" { return Err(MissingFields); }
        var i := Search(cluster.alerts, ClashesWithAlert(x));
        if i < |cluster.alerts| {
          cluster.alerts := cluster.alerts[i := x];
        } else {
          cluster.alerts := cluster.alerts + [x];
        }
      } else {
        var i := Search(cluster.alerts, AlertNamed(m.target));
        if i == |cluster.alerts| { return Err(NotFound); }
        cluster.alerts := cluster.alerts[..i] + cluster.alerts[i + 1..];
      }
      return Ok(());
    }

    method EditPeers(m: Mutation) returns (r: Result<(), MutationError>)
      requires m.AddPeer? || m.RemovePeer?
      modifies cluster`peers
      ensures EditedAs(old(cluster.View()), m, r, cluster.View())
    {
      if m.AddPeer? {
        if m.peer.nodeId == "" { return Err(MissingFields); }
        PutPeer(m.peer);
      } else {
        var i := Search(cluster.peers, PeerIs(m.target));
        if i == |cluster.peers| { return Err(NotFound); }
        cluster.peers := cluster.peers[..i] + cluster.peers[i + 1..];
      }
      return Ok(());
    }

    method EditEnrollments(m: Mutation) returns (r: Result<(), MutationError>)
      requires m.AddEnrollment? || m.RemoveEnrollment? || m.RecordEnrollPending?
      modifies cluster`enrollments
      ensures EditedAs(old(cluster.View()), m, r, cluster.View())
    {
      match m {
        case AddEnrollment(e) =>
          if e.id == "" || e.secretHash == "" { return Err(MissingFields); }
          var i := Search(cluster.enrollments, EnrollmentIs(e.id));
          if i < |cluster.enrollments| {
            cluster.enrollments := cluster.enrollments[i := e];
          } else {
            cluster.enrollments := cluster.enrollments + [e];
          }
        case RemoveEnrollment(t) =>
          var i := Search(cluster.enrollments, EnrollmentNamed(t));
          if i == |cluster.enrollments| { return Err(NotFound); }
          cluster.enrollments := cluster.enrollments[..i] + cluster.enrollments[i + 1..];
        case RecordEnrollPending(id, pj) =>
          if id == "" || pj == None { return Err(MissingFields); }
          var i := Search(cluster.enrollments, EnrollmentIs(id));
          if i == |cluster.enrollments| { return Err(NotFound); }
          cluster.enrollments := cluster.enrollments[i := cluster.enrollments[i].(pendingJoin := pj)];
      }
      return Ok(());
    }

    /** One step: the recorded joiner becomes a peer and its enrollment goes away. */
    method Approve(m: Mutation) returns (r: Result<(), MutationError>)
      requires m.ApproveEnrollment?
      modifies cluster`peers, cluster`enrollments
      ensures EditedAs(old(cluster.View()), m, r, cluster.View())
    {
      var i := Search(cluster.enrollments, EnrollmentNamed(m.target));
      if i == |cluster.enrollments| { return Err(NotFound); }
      var pj := cluster.enrollments[i].pendingJoin;
      if pj == None { return Err(NothingToApprove); }
      PutPeer(JoinedPeer(pj.value));
      cluster.enrollments := cluster.enrollments[..i] + cluster.enrollments[i + 1..];
      return Ok(());
    }

    /** Trims every entry and drops the blanks. */
    method CleanResolvers(list: seq<string>) returns (cleaned: seq<string>)
      ensures cleaned == Cleaned(list)
    {
      cleaned := [];
      for k := 0 to |list|
        invariant cleaned == Cleaned(list[..k])
      {
        assert list[..k + 1][..k] == list[..k];
        var s := TrimSpace(list[k]);
        if s != "" {
          cleaned := cleaned + [s];
        }
      }
      assert list[..|list|] == list;
    }

    /** Adds the peer, or overwrites the entry with its id. */
    method PutPeer(x: PeerInfo)
      modifies cluster`peers
      ensures cluster.peers == Upsert(old(cluster.peers), PeerIs(x.nodeId), x)
    {
      var i := Search(cluster.peers, PeerIs(x.nodeId));
      if i < |cluster.peers| {
        cluster.peers := cluster.peers[i := x];
      } else {
        cluster.peers := cluster.peers + [x];
      }
    }

    method ApplyLocally(m: Mutation, now: int) returns (r: Result<nat, MutationError>)
      modifies cluster
      ensures match Committed(old(cluster.View()), selfId, now, m)
              case Ok(s) => r == Ok(s.version) && cluster.View() == s
              case Err(e) => r == Err(e) && cluster.View() == old(cluster.View())
      ensures r.Ok? ==> r.value == cluster.version == old(cluster.version) + 1
                        && cluster.updatedAt == now && cluster.updatedBy == selfId
                        && Apply(old(cluster.View()).content, m) == Ok(cluster.View().content)
      ensures r.Ok? <==> Apply(old(cluster.View()).content, m).Ok?
    {
      var edit := Edit(m);
      if edit.Err? { return Err(edit.error); }
      cluster.Bump(selfId, now);
      r := Ok(cluster.version);
    }

    /**
     A change commits here exactly when this node is a master with quorum and the edit
     succeeds, and a broadcast of the configuration (`push`) follows exactly then. A
     follower proposes the change to the master exactly if it knows where, and hands
     the master's `reply` on.
     */
    method LocalMutate(v: MasterView, m: Mutation, now: int, reply: Reply)
      returns (r: Routing, push: bool, asked: Option<Proposal>)
      modifies cluster
      ensures r.Applied? <==>
              v.hasQuorum && v.isMaster && Committed(old(cluster.View()), selfId, now, m).Ok?
      ensures r.Applied? ==> Committed(old(cluster.View()), selfId, now, m) == Ok(cluster.View())
                             && r.version == old(cluster.version) + 1
      ensures !r.Applied? ==> cluster.View() == old(cluster.View())
      ensures push == r.Applied?
      ensures asked == var addr := AddressOf(old(cluster.peers), v.master);
                       if v.hasQuorum && !v.isMaster && v.master != "" && addr != ""
                       then Some(Proposal(v.master, addr)) else None
      ensures r.Answered? <==> asked.Some? && reply.Some? && reply.value.Ok?
      ensures r.Answered? ==> r.version == reply.value.value
      ensures r == Refused(NoQuorum) <==> !v.hasQuorum
      ensures r == Refused(MasterUnknown) <==> v.hasQuorum && !v.isMaster && v.master == ""
      ensures r == Refused(NoAddress) <==>
              v.hasQuorum && !v.isMaster && v.master != "" && AddressOf(old(cluster.peers), v.master) == ""
      ensures r == Refused(CallFailed) <==> asked.Some? && reply == None
    {
      push, asked := false, None;
      if !v.hasQuorum { return Refused(NoQuorum), false, None; }
      if v.isMaster {
        var res := ApplyLocally(m, now);
        if res.Err? { return Refused(Failed(res.error)), false, None; }
        return Applied(res.value), true, None;
      }
      if v.master == "" { return Refused(MasterUnknown), false, None; }
      var i := Search(cluster.peers, PeerIs(v.master));
      var addr := if i < |cluster.peers| then cluster.peers[i].advertise else "";
      if addr == "" { return Refused(NoAddress), false, None; }
      asked := Some(Proposal(v.master, addr));
      if reply == None { return Refused(CallFailed), false, asked; }
      if reply.value.Err? { return Refused(Declined(reply.value.error)), false, asked; }
      r := Answered(reply.value.value);
    }

    /** A broadcast is started (`push`) exactly after a commit. */
    method HandleProposeMutation(v: MasterView, m: Mutation, now: int) returns (r: Result<nat, Refusal>, push: bool)
      modifies cluster
      ensures r.Ok? <==> v.isMaster && v.hasQuorum && Committed(old(cluster.View()), selfId, now, m).Ok?
      ensures r.Ok? ==> Committed(old(cluster.View()), selfId, now, m) == Ok(cluster.View())
                        && r.value == cluster.version
      ensures r.Err? ==> cluster.View() == old(cluster.View())
      ensures !v.isMaster ==> r == Err(NotMaster)
      ensures v.isMaster && !v.hasQuorum ==> r == Err(NoQuorum)
      ensures v.isMaster && v.hasQuorum && r.Err? ==> r.error.Failed?
      ensures push == r.Ok?
    {
      if !v.isMaster { return Err(NotMaster), false; }
      if !v.hasQuorum { return Err(NoQuorum), false; }
      var res := ApplyLocally(m, now);
      if res.Err? { return Err(Failed(res.error)), false; }
      return Ok(res.value), true;
    }

    /** Answers with the version held afterwards, which never goes down. */
    method HandleApplyClusterCfg(config: Option<Snapshot>) returns (applied: bool, version: nat)
      modifies cluster
      ensures applied <==> config.Some? && old(cluster.version) < config.value.version
      ensures cluster.View() == if config.Some? then Adopted(old(cluster.View()), config.value)
                                else old(cluster.View())
      ensures version == cluster.version && old(cluster.version) <= version
    {
      applied := false;
      if config.Some? {
        applied := cluster.Replace(config.value);
      }
      version := cluster.version;
    }

    /** A pull whose call failed (`None`) or brought nothing newer changes nothing. */
    method PullFrom(peerId: NodeId, addr: string, response: Option<Snapshot>) returns (ok: bool)
      modifies cluster
      ensures ok <==> peerId != "" && addr != "" && response.Some?
      ensures cluster.View() == if ok then Adopted(old(cluster.View()), response.value)
                                else old(cluster.View())
    {
      if peerId == "" || addr == "" || response.None? { return false; }
      var _ := cluster.Replace(response.value);
      ok := true;
    }

    /** What a broadcast sends: the configuration as it is by then, which may have moved on. */
    method SendBroadcast() returns (sent: set<Envelope>)
      ensures sent == Broadcast(selfId, cluster.View())
      ensures forall e :: e in sent <==>
                && e.snap == cluster.View() && e.to != selfId && e.to != ""
                && exists p :: p in cluster.peers && p.nodeId == e.to && p.advertise != ""
    {
      var snap := cluster.TakeSnapshot();
      var peers := snap.content.peers;
      sent := {};
      for i := 0 to |peers|
        invariant sent == set k | 0 <= k < i && Addressable(peers[k], selfId) :: Envelope(peers[k].nodeId, snap)
      {
        if peers[i].nodeId == selfId || peers[i].nodeId == "" || peers[i].advertise == "" { continue; }
        sent := sent + {Envelope(peers[i].nodeId, snap)};
      }
    }
  }
}
