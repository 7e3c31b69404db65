/** Liveness, quorum and master election on one node. */
module Quorum {
  import opened NodeIds
  import opened Options
  import opened Config

  /** What one node knows about the others; `master` is "" when there is none. */
  datatype Mgr = Mgr(
    self: NodeId, deadAfter: int, cooldown: int,
    lastSeen: map<NodeId, int>, liveSince: map<NodeId, int>, master: NodeId, term: nat)

  /** A contact; the liveness streak restarts only after a gap longer than `deadAfter`. */
  function Mark(m: Mgr, id: NodeId, now: int): Mgr {
    m.(lastSeen := m.lastSeen[id := now],
       liveSince := if id in m.lastSeen && now - m.lastSeen[id] <= m.deadAfter
                    then m.liveSince else m.liveSince[id := now])
  }

  /** Contacted less than `deadAfter` ago, or self. */
  predicate IsLive(m: Mgr, id: NodeId, now: int) {
    id in m.lastSeen && (m.lastSeen[id] > now - m.deadAfter || id == m.self)
  }

  function Live(m: Mgr, now: int): (live: set<NodeId>)
    ensures forall id :: id in live <==> id in m.lastSeen && (now - m.lastSeen[id] < m.deadAfter || id == m.self)
  {
    set id | id in m.lastSeen && IsLive(m, id, now)
  }

  /** In its current streak for the whole cooldown. */
  predicate Ripe(m: Mgr, id: NodeId, now: int) {
    id in m.liveSince && now - m.liveSince[id] >= m.cooldown
  }

  /** Those of `live` that may take the role from a live master. */
  function Challengers(m: Mgr, live: set<NodeId>, now: int): set<NodeId> {
    set id | id in live && Less(id, m.master) && Ripe(m, id, now)
  }

  ghost function Least(ids: set<NodeId>): (r: NodeId)
    requires ids != {}
    ensures IsLeast(r, ids)
  {
    LeastExists(ids);
    var r :| IsLeast(r, ids);
    r
  }

  lemma {:induction false} LeastExists(ids: set<NodeId>)
    requires ids != {}
    ensures exists r :: IsLeast(r, ids)
  {
    LessIsTotalOrder();
    var x :| x in ids;
    if ids == {x} {
      assert IsLeast(x, ids);
    } else {
      assert ids - {x} != {};
      LeastExists(ids - {x});
      var r :| IsLeast(r, ids - {x});
      assert IsLeast(if Less(x, r) then x else r, ids);
    }
  }

  lemma LeastIs(r: NodeId, ids: set<NodeId>)
    requires IsLeast(r, ids)
    ensures Least(ids) == r
  {
    LessIsTotalOrder();
  }

  /**
   The election rule for a quorum of `q` nodes. The live set is read before the
   election takes its lock, so it need not be the one at `now`.
   */
  ghost function Elect(m: Mgr, live: set<NodeId>, now: int, q: nat): NodeId {
    if |live| < q || live == {} then ""
    else if m.master == "" || m.master !in live then Least(live)
    else if Challengers(m, live, now) == {} then m.master
    else Least(Challengers(m, live, now))
  }

  ghost function Recompute(m: Mgr, live: set<NodeId>, now: int, q: nat): Mgr {
    var next := Elect(m, live, now, q);
    if next == m.master then m else m.(master := next, term := m.term + 1)
  }

  /** Strictly ascending, as the sorted live list is. */
  ghost predicate Ascending(s: seq<NodeId>) {
    forall i, j :: 0 <= i < j < |s| ==> Less(s[i], s[j])
  }

  method Insert(s: seq<NodeId>, id: NodeId) returns (r: seq<NodeId>)
    requires Ascending(s) && id !in s
    ensures Ascending(r) && |r| == |s| + 1
    ensures forall x :: x in r <==> x in s || x == id
  {
    LessIsTotalOrder();
    var i := 0;
    while i < |s| && Less(s[i], id)
      invariant i <= |s|
      invariant forall j :: 0 <= j < i ==> Less(s[j], id)
    {
      i := i + 1;
    }
    r := s[..i] + [id] + s[i..];
    assert forall j :: i <= j < |s| ==> Less(id, s[j]);
    assert r[i] == id;
    assert forall x :: x in s ==> x in s[..i] || x in s[i..];
  }

  datatype Notice = Notice(peer: NodeId, addr: string, version: nat)

  datatype HeartbeatRequest = HeartbeatRequest(from: NodeId, advertise: string, version: nat)

  datatype HeartbeatResponse = HeartbeatResponse(id: NodeId, advertise: string, term: nat, master: NodeId, version: nat)

  class Manager {
    const selfId: NodeId
    const cluster: ClusterConfig
    const deadAfter: int
    const masterCooldown: int
    var selfAdvertise: string
    var term: nat
    var masterId: NodeId
    var lastSeen: map<NodeId, int>
    var liveSince: map<NodeId, int>
    var addrOf: map<NodeId, string>
    var observed: bool                  // a version observer is registered

    ghost function View(): Mgr
      reads this
    {
      Mgr(selfId, deadAfter, masterCooldown, lastSeen, liveSince, masterId, term)
    }

    ghost function Quota(): nat
      reads cluster
    {
      QuorumSize(|cluster.peers|)
    }

    constructor (selfId: NodeId, cluster: ClusterConfig, deadAfter: int, masterCooldown: int)
      ensures this.cluster == cluster
      ensures View() == Mgr(selfId, deadAfter, masterCooldown, map[], map[], "", 0)
      ensures addrOf == map[] && selfAdvertise == "" && !observed
    {
      this.selfId, this.cluster := selfId, cluster;
      this.deadAfter, this.masterCooldown := deadAfter, masterCooldown;
      selfAdvertise, term, masterId := "", 0, "";
      lastSeen, liveSince, addrOf, observed := map[], map[], map[], false;
    }

    method MarkLive(id: NodeId, now: int)
      modifies `lastSeen, `liveSince
      ensures View() == Mark(old(View()), id, now)
    {
      if id !in lastSeen || now - lastSeen[id] > deadAfter {
        liveSince := liveSince[id := now];
      }
      lastSeen := lastSeen[id := now];
    }

    /** The live ids, each once, in ascending order. */
    method LiveSet(now: int) returns (out: seq<NodeId>)
      ensures Ascending(out)
      ensures forall id :: id in out <==> id in Live(View(), now)
      ensures |out| == |Live(View(), now)|
      ensures forall id :: id in out <==> id in lastSeen && (now - lastSeen[id] < deadAfter || id == selfId)
    {
      out := [];
      var keys := lastSeen.Keys;
      ghost var done: set<NodeId> := {};
      while keys != {}
        invariant keys <= lastSeen.Keys && Ascending(out)
        invariant done == (set id | id in lastSeen.Keys - keys && IsLive(View(), id, now))
        invariant |out| == |done| && forall id :: id in out <==> id in done
        decreases keys
      {
        var id :| id in keys;
        keys := keys - {id};
        if lastSeen[id] > now - deadAfter || id == selfId {
          out := Insert(out, id);
          done := done + {id};
        }
      }
      assert done == Live(View(), now);
    }

    method HasQuorum(now: int) returns (b: bool)
      ensures b <==> |Live(View(), now)| >= Quota()
    {
      var live := LiveSet(now);
      b := |live| >= QuorumSize(|cluster.peers|);
    }

    /** The two parts of `recomputeMaster`: reading the live set, and electing from it under the lock. */
    method RecomputeMaster(now: int)
      modifies `masterId, `term
      ensures View() == Recompute(old(View()), Live(old(View()), now), now, Quota())
      ensures term == old(term) + (if masterId != old(masterId) then 1 else 0)
    {
      var live := LiveSet(now);
      assert (set id | id in live) == Live(View(), now);
      ElectFrom(live, Live(View(), now), now, QuorumSize(|cluster.peers|));
    }

    method ElectFrom(live: seq<NodeId>, ghost ids: set<NodeId>, now: int, quorum: nat)
      requires Ascending(live) && |live| == |ids| && forall id :: id in live <==> id in ids
      modifies `masterId, `term
      ensures View() == Recompute(old(View()), ids, now, quorum)
      ensures term == old(term) + (if masterId != old(masterId) then 1 else 0)
      ensures |ids| < quorum || ids == {} ==> masterId == ""
      ensures |ids| >= quorum && ids != {} ==> masterId in ids
      ensures |ids| >= quorum && old(masterId) in ids && old(masterId) != "" ==>
                masterId == old(masterId)
                || (Less(masterId, old(masterId)) && masterId in liveSince
                    && now - liveSince[masterId] >= masterCooldown)
    {
      LessIsTotalOrder();
      var newMaster := "";
      if |live| >= quorum && |live| > 0 {
        assert IsLeast(live[0], ids);
        LeastIs(live[0], ids);
        if masterId == "" || masterId !in live {
          newMaster := live[0];
        } else {
          newMaster := masterId;
          var i := 0;
          while i < |live| && Less(live[i], masterId)
            invariant i <= |live| && newMaster == masterId
            invariant forall j :: 0 <= j < i ==> live[j] !in Challengers(View(), ids, now)
          {
            if live[i] in liveSince && now - liveSince[live[i]] >= masterCooldown {
              newMaster := live[i];
              assert IsLeast(live[i], Challengers(View(), ids, now));
              LeastIs(live[i], Challengers(View(), ids, now));
              break;
            }
            i := i + 1;
          }
          if newMaster == masterId {
            assert forall id :: id in live ==> id !in Challengers(View(), ids, now);
          }
        }
      }
      if newMaster != masterId {
        term := term + 1;
        masterId := newMaster;
      }
    }

    /** The observer is told exactly when there is one and the peer is strictly ahead and can be dialled. */
    method MaybeNotifyVersion(peer: NodeId, version: nat) returns (due: Option<Notice>)
      ensures due.Some? <==> observed && version > cluster.version && peer in addrOf && addrOf[peer] != ""
      ensures due.Some? ==> due.value == Notice(peer, addrOf[peer], version)
    {
      if !observed || version <= cluster.version { return None; }
      var addr := if peer in addrOf then addrOf[peer] else "";
      if addr == "" { return None; }
      due := Some(Notice(peer, addr, version));
    }

    /** A named sender other than self is marked live before the election is run again. */
    method HandleHeartbeat(req: HeartbeatRequest, now: int) returns (resp: HeartbeatResponse, due: Option<Notice>)
      modifies `lastSeen, `liveSince, `addrOf, `masterId, `term
      ensures var heard := req.from != "" && req.from != selfId;
              var m := if heard then Mark(old(View()), req.from, now) else old(View());
              View() == Recompute(m, Live(m, now), now, Quota())
      ensures term == old(term) + (if masterId != old(masterId) then 1 else 0)
      ensures resp == HeartbeatResponse(selfId, selfAdvertise, term, masterId, cluster.version)
      ensures addrOf == if req.from != "" && req.from != selfId && req.advertise != ""
                        then old(addrOf)[req.from := req.advertise] else old(addrOf)
      ensures due == if observed && req.from != "" && req.from != selfId && req.version > cluster.version
                        && req.from in addrOf && addrOf[req.from] != ""
                     then Some(Notice(req.from, addrOf[req.from], req.version)) else None
    {
      due := None;
      if req.from != "" && req.from != selfId {
        MarkLive(req.from, now);
        if req.advertise != "" {
          addrOf := addrOf[req.from := req.advertise];
        }
        due := MaybeNotifyVersion(req.from, req.version);
      }
      RecomputeMaster(now);
      resp := HeartbeatResponse(selfId, selfAdvertise, term, masterId, cluster.version);
    }
  }
}
