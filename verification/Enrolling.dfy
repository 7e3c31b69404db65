/** The cluster side of an enrollment: check the token, record the joiner, approve it. */
module Enrolling {
  import opened Options
  import opened NodeIds
  import opened Lists
  import opened Config
  import opened Replicator
  import opened MutationLaws

  /** `derived` is the fingerprint of the certificate sent along, if that parses; `secretOk` the hash comparison. */
  datatype Request = Request(
    tokenId: string, tokenSecret: string, nodeId: NodeId, advertise: string, fingerprint: string, certPem: string,
    derived: Option<string>, secretOk: bool)

  datatype Rejection =
    Incomplete | BadCert | WrongFingerprint | UnknownToken | Expired | BadSecret | NotRecorded | NotApproved

  datatype Response = Rejected(why: Rejection) | Pending | Accepted(peers: seq<PeerInfo>)

  function JoinOf(r: Request, now: int): PendingJoin {
    PendingJoin(r.nodeId, r.advertise, r.fingerprint, r.certPem, now)
  }

  /** Why a request is turned away before anything is written; an `expiresAt` of 0 never expires. */
  function Screen(c: Content, r: Request, now: int): Option<Rejection> {
    if r.tokenId == "" || r.tokenSecret == "" || r.nodeId == "" || r.certPem == "" || r.fingerprint == ""
    then Some(Incomplete)
    else if r.derived == None then Some(BadCert)
    else if r.derived.value != r.fingerprint then Some(WrongFingerprint)
    else
      var i := FirstIndex(c.enrollments, EnrollmentIs(r.tokenId));
      if i == |c.enrollments| then Some(UnknownToken)
      else if c.enrollments[i].expiresAt != 0 && now > c.enrollments[i].expiresAt then Some(Expired)
      else if !r.secretOk then Some(BadSecret)
      else None
  }

  /** All five mandatory fields are there. */
  predicate Complete(r: Request) {
    r.tokenId != "" && r.tokenSecret != "" && r.nodeId != "" && r.certPem != "" && r.fingerprint != ""
  }

  /** The first enrollment with that id exists and is `e`. */
  ghost predicate TokenIs(c: Content, id: string, e: PendingEnrollment) {
    exists k :: 0 <= k < |c.enrollments| && c.enrollments[k] == e && e.id == id
                && forall j :: 0 <= j < k ==> c.enrollments[j].id != id
  }

  /** What a request needs in order to be let through. */
  ghost predicate Presentable(c: Content, r: Request, now: int) {
    && r.tokenId != "" && r.tokenSecret != "" && r.nodeId != "" && r.certPem != "" && r.fingerprint != ""
    && r.derived == Some(r.fingerprint) && r.secretOk
    && exists e :: TokenIs(c, r.tokenId, e) && (e.expiresAt == 0 || now <= e.expiresAt)
  }

  lemma TokenFound(c: Content, id: string)
    ensures var k := FirstIndex(c.enrollments, EnrollmentIs(id));
            && (k < |c.enrollments| ==> forall e :: TokenIs(c, id, e) <==> e == c.enrollments[k])
            && (k == |c.enrollments| <==> forall e :: e in c.enrollments ==> e.id != id)
            && (k == |c.enrollments| ==> forall e :: !TokenIs(c, id, e))
  {
    var k := FirstIndex(c.enrollments, EnrollmentIs(id));
    assert forall j :: 0 <= j < k ==> !EnrollmentIs(id)(c.enrollments[j]);
    if k < |c.enrollments| {
      assert EnrollmentIs(id)(c.enrollments[k]) && c.enrollments[k] in c.enrollments;
      forall e | TokenIs(c, id, e) ensures e == c.enrollments[k] {
        var j :| 0 <= j < |c.enrollments| && c.enrollments[j] == e && e.id == id
                 && forall i :: 0 <= i < j ==> c.enrollments[i].id != id;
        FirstIndexUnique(c.enrollments, EnrollmentIs(id), j);
      }
      assert TokenIs(c, id, c.enrollments[k]);
    }
  }

  /** The screening, reason by reason: it lets through exactly the presentable, and names the first thing wrong. */
  lemma ScreenExactly(c: Content, r: Request, now: int)
    ensures var why := Screen(c, r, now);
            && (why == None <==> Presentable(c, r, now))
            && (why == Some(Incomplete) <==> !Complete(r))
            && (why == Some(BadCert) <==> Complete(r) && r.derived == None)
            && (why == Some(WrongFingerprint) <==>
                  Complete(r) && r.derived.Some? && r.derived.value != r.fingerprint)
            && (why == Some(UnknownToken) <==>
                  Complete(r) && r.derived == Some(r.fingerprint)
                  && forall e :: e in c.enrollments ==> e.id != r.tokenId)
            && (why == Some(Expired) <==>
                  Complete(r) && r.derived == Some(r.fingerprint)
                  && exists e :: TokenIs(c, r.tokenId, e) && e.expiresAt != 0 && now > e.expiresAt)
            && (why == Some(BadSecret) <==>
                  Complete(r) && r.derived == Some(r.fingerprint) && !r.secretOk
                  && exists e :: TokenIs(c, r.tokenId, e) && (e.expiresAt == 0 || now <= e.expiresAt))
  {
    TokenFound(c, r.tokenId);
  }

  /** In the order of the configuration; `at` gives their positions in it. */
  method EnrollPeersForJoiner(peers: seq<PeerInfo>, joiner: NodeId) returns (out: seq<PeerInfo>, ghost at: seq<nat>)
    ensures |at| == |out| && forall k :: 0 <= k < |at| ==> at[k] < |peers| && out[k] == peers[at[k]]
    ensures forall j, k :: 0 <= j < k < |at| ==> at[j] < at[k]
    ensures forall i :: 0 <= i < |peers| ==>
              (i in at <==> && peers[i].nodeId != joiner && peers[i].nodeId != ""
                            && peers[i].fingerprint != "" && peers[i].certPem != "")
  {
    out, at := [], [];
    for i := 0 to |peers|
      invariant |at| == |out| && forall k :: 0 <= k < |at| ==> at[k] < i && out[k] == peers[at[k]]
      invariant forall j, k :: 0 <= j < k < |at| ==> at[j] < at[k]
      invariant forall j :: 0 <= j < i ==>
                  (j in at <==> && peers[j].nodeId != joiner && peers[j].nodeId != ""
                                && peers[j].fingerprint != "" && peers[j].certPem != "")
    {
      if peers[i].nodeId == joiner || peers[i].nodeId == "" { continue; }
      if peers[i].fingerprint == "" || peers[i].certPem == "" { continue; }
      out, at := out + [peers[i]], at + [i];
    }
  }

  /**
   The local configuration after a mutation that went through: with the change on the
   master, as it was on a follower whose master reported success.
   */
  function Carried(s: Snapshot, self: NodeId, v: MasterView, reply: Reply, m: Mutation, now: int): (t: Option<Snapshot>)
    ensures t.Some? <==> && v.hasQuorum
                         && (v.isMaster ==> Apply(s.content, m).Ok?)
                         && (!v.isMaster ==> v.master != "" && AddressOf(s.content.peers, v.master) != ""
                                             && reply.Some? && reply.value.Ok?)
    ensures t.Some? && !v.isMaster ==> t.value == s
    ensures t.Some? && v.isMaster ==> t.value == Snapshot(s.version + 1, now, self, Apply(s.content, m).value)
  {
    if !v.hasQuorum then None
    else if v.isMaster then
      (match Committed(s, self, now, m) case Ok(t) => Some(t) case Err(_) => None)
    else if v.master == "" || AddressOf(s.content.peers, v.master) == "" || reply == None || reply.value.Err? then None
    else Some(s)
  }

  method Carry(repl: Replicator, v: MasterView, reply: Reply, m: Mutation, now: int) returns (ok: bool)
    modifies repl.cluster
    ensures var c := Carried(old(repl.cluster.View()), repl.selfId, v, reply, m, now);
            ok == c.Some? && repl.cluster.View() == if ok then c.value else old(repl.cluster.View())
  {
    var r, _, _ := repl.LocalMutate(v, m, now, reply);
    ok := !r.Refused?;
  }

  /** What others do to the configuration while the handler does not hold its lock. */
  datatype Change = Adopt(snap: Snapshot) | Commit(m: Mutation, at: int)

  /** It never takes the node back: it ends up at least as new as it was, and as all that it was sent. */
  function Later(s: Snapshot, self: NodeId, cs: seq<Change>): (t: Snapshot)
    ensures t.version >= s.version
    ensures forall i :: 0 <= i < |cs| && cs[i].Adopt? ==> t.version >= cs[i].snap.version
  {
    if cs == [] then s
    else
      var t := Later(s, self, cs[..|cs| - 1]);
      match cs[|cs| - 1]
      case Adopt(snap) => Adopted(t, snap)
      case Commit(m, at) => (match Committed(t, self, at, m) case Ok(u) => u case Err(_) => t)
  }

  method Meanwhile(repl: Replicator, cs: seq<Change>)
    modifies repl.cluster
    ensures repl.cluster.View() == Later(old(repl.cluster.View()), repl.selfId, cs)
  {
    for i := 0 to |cs|
      invariant repl.cluster.View() == Later(old(repl.cluster.View()), repl.selfId, cs[..i])
    {
      assert cs[..i + 1][..i] == cs[..i];
      match cs[i] {
        case Adopt(snap) => var _ := repl.cluster.Replace(snap);
        case Commit(m, at) => var _ := repl.ApplyLocally(m, at);
      }
    }
    assert cs[..|cs|] == cs;
  }

  /** The circumstances of one of the handler's mutations: what happened before it, and how it is routed. */
  datatype Turn = Turn(before: seq<Change>, view: MasterView, reply: Reply)

  function Taken(s: Snapshot, self: NodeId, t: Turn, m: Mutation, now: int): Option<Snapshot> {
    Carried(Later(s, self, t.before), self, t.view, t.reply, m, now)
  }

  /**
   The handler, on master or follower, with whatever happens around its two mutations
   and before it lists the peers. What it answers says exactly how far it got: turned
   away, joiner recorded, or approved; only an approved joiner is `trusted`.
   */
  method HandleEnroll(repl: Replicator, r: Request, now: int, t1: Turn, t2: Turn, rest: seq<Change>)
    returns (resp: Response, trusted: Option<PeerInfo>)
    modifies repl.cluster
    ensures var s, self := old(repl.cluster.View()), repl.selfId;
            var why := Screen(s.content, r, now);
            var auto := s.content.enrollments;
            var pj := PendingJoin(r.nodeId, r.advertise, r.fingerprint, r.certPem, now);
            var recorded := Taken(s, self, t1, RecordEnrollPending(r.tokenId, Some(pj)), now);
            if why != None then resp == Rejected(why.value) && repl.cluster.View() == s
            else if recorded == None then
              resp == Rejected(NotRecorded) && repl.cluster.View() == Later(s, self, t1.before)
            else if !auto[FirstIndex(auto, EnrollmentIs(r.tokenId))].autoApprove then
              resp == Pending && repl.cluster.View() == recorded.value
            else
              var approved := Taken(recorded.value, self, t2, ApproveEnrollment(r.tokenId), now);
              if approved == None then
                resp == Rejected(NotApproved) && repl.cluster.View() == Later(recorded.value, self, t2.before)
              else
                && repl.cluster.View() == Later(approved.value, self, rest)
                && resp.Accepted?
                && forall p :: p in resp.peers <==>
                     p in repl.cluster.peers && p.nodeId != r.nodeId && p.nodeId != ""
                     && p.fingerprint != "" && p.certPem != ""
    ensures resp.Pending? || resp.Accepted? || resp == Rejected(NotRecorded) || resp == Rejected(NotApproved)
       <==> Presentable(old(repl.cluster.View()).content, r, now)
    ensures trusted == if resp.Accepted? then Some(PeerInfo(r.nodeId, r.advertise, r.fingerprint, r.certPem)) else None
  {
    trusted := None;
    ScreenExactly(repl.cluster.View().content, r, now);
    if r.tokenId == "" || r.tokenSecret == "" { return Rejected(Incomplete), None; }
    if r.nodeId == "" || r.certPem == "" || r.fingerprint == "" { return Rejected(Incomplete), None; }
    if r.derived == None { return Rejected(BadCert), None; }
    if r.derived.value != r.fingerprint { return Rejected(WrongFingerprint), None; }
    var i := Search(repl.cluster.enrollments, EnrollmentIs(r.tokenId));
    if i == |repl.cluster.enrollments| { return Rejected(UnknownToken), None; }
    var entry := repl.cluster.enrollments[i];
    if entry.expiresAt != 0 && now > entry.expiresAt { return Rejected(Expired), None; }
    if !r.secretOk { return Rejected(BadSecret), None; }
    var pj := JoinOf(r, now);
    Meanwhile(repl, t1.before);
    var ok := Carry(repl, t1.view, t1.reply, RecordEnrollPending(entry.id, Some(pj)), now);
    if !ok { return Rejected(NotRecorded), None; }
    if !entry.autoApprove { return Pending, None; }
    Meanwhile(repl, t2.before);
    ok := Carry(repl, t2.view, t2.reply, ApproveEnrollment(entry.id), now);
    if !ok { return Rejected(NotApproved), None; }
    Meanwhile(repl, rest);
    var peers, at := EnrollPeersForJoiner(repl.cluster.peers, r.nodeId);
    PickedExactly(repl.cluster.peers, r.nodeId, peers, at);
    return Accepted(peers), Some(JoinedPeer(pj));
  }

  lemma PickedExactly(peers: seq<PeerInfo>, joiner: NodeId, out: seq<PeerInfo>, at: seq<nat>)
    requires |at| == |out| && forall k :: 0 <= k < |at| ==> at[k] < |peers| && out[k] == peers[at[k]]
    requires forall i :: 0 <= i < |peers| ==>
               (i in at <==> && peers[i].nodeId != joiner && peers[i].nodeId != ""
                             && peers[i].fingerprint != "" && peers[i].certPem != "")
    ensures forall p :: p in out <==>
              p in peers && p.nodeId != joiner && p.nodeId != "" && p.fingerprint != "" && p.certPem != ""
  {
    forall p | p in peers && p.nodeId != joiner && p.nodeId != "" && p.fingerprint != "" && p.certPem != ""
      ensures p in out
    {
      var i :| 0 <= i < |peers| && peers[i] == p;
      var k :| 0 <= k < |at| && at[k] == i;
      assert out[k] == p;
    }
  }

  // ----- what becomes of the token -----

  /** The content at the moment of approval: the joiner recorded, then any mutations at all. */
  function AtApproval(c: Content, id: string, pj: PendingJoin, ms: seq<Mutation>): Content {
    Run(Edit(c, RecordEnrollPending(id, Some(pj))), ms)
  }

  /** No mutation of any kind gives two enrollments one id. */
  lemma {:induction false} EnrollmentsStayDistinct(c: Content, ms: seq<Mutation>)
    requires DistinctEnrollments(c)
    ensures DistinctEnrollments(Run(c, ms))
  {
    if ms != [] {
      var front, m := ms[..|ms| - 1], ms[|ms| - 1];
      EnrollmentsStayDistinct(c, front);
      if !m.AddPeer? && !m.ReplaceConfig? {
        EnrollmentStep(Run(c, front), m);
      }
    }
  }

  /** Approving consumes the token of that id exactly when it has a joiner and no token ahead bears its id as a name. */
  predicate Consumable(d: Content, id: string) {
    var k := FirstIndex(d.enrollments, EnrollmentIs(id));
    && k < |d.enrollments| && d.enrollments[k].pendingJoin.Some?
    && forall j :: 0 <= j < k ==> d.enrollments[j].name != id
  }

  /**
   Whatever is done to the configuration between recording and approving: the approval
   consumes the presented token exactly if by then it is still there with a joiner on
   record and no enrollment ahead of it bears its id as a name. The joiner who then
   becomes a peer is the one on record by then.
   */
  lemma TokenIsConsumedExactly(c: Content, id: string, pj: PendingJoin, ms: seq<Mutation>)
    requires DistinctEnrollments(c) && id != ""
    ensures var d := AtApproval(c, id, pj, ms);
            var r, k := Apply(d, ApproveEnrollment(id)), FirstIndex(d.enrollments, EnrollmentIs(id));
            && (id in Keys(d.enrollments, EnrollmentId) && r.Ok? && id !in Keys(r.value.enrollments, EnrollmentId)
                <==> Consumable(d, id))
            && (Consumable(d, id) ==>
                  && JoinedPeer(d.enrollments[k].pendingJoin.value) in r.value.peers
                  && |r.value.enrollments| == |d.enrollments| - 1)
  {
    var d := AtApproval(c, id, pj, ms);
    EnrollmentsStayDistinct(c, [RecordEnrollPending(id, Some(pj))]);
    assert Run(c, [RecordEnrollPending(id, Some(pj))]) == Edit(c, RecordEnrollPending(id, Some(pj))) by {
      assert [RecordEnrollPending(id, Some(pj))][..0] == [];
    }
    EnrollmentsStayDistinct(Edit(c, RecordEnrollPending(id, Some(pj))), ms);
    ApprovalConsumesExactly(d, id);
  }

  lemma ApprovalConsumesExactly(d: Content, id: string)
    requires DistinctEnrollments(d) && id != ""
    ensures var r, k := Apply(d, ApproveEnrollment(id)), FirstIndex(d.enrollments, EnrollmentIs(id));
            && (id in Keys(d.enrollments, EnrollmentId) && r.Ok? && id !in Keys(r.value.enrollments, EnrollmentId)
                <==> Consumable(d, id))
            && (Consumable(d, id) ==>
                  && JoinedPeer(d.enrollments[k].pendingJoin.value) in r.value.peers
                  && |r.value.enrollments| == |d.enrollments| - 1)
  {
    var k := FirstIndex(d.enrollments, EnrollmentIs(id));
    if k < |d.enrollments| {
      assert EnrollmentId(d.enrollments[k]) == id;
      var f := FirstMatch(d, id, k);
      if f < k {
        ApprovesAnother(d, id, f, k);
      } else if d.enrollments[k].pendingJoin.Some? {
        ApprovesAt(d, id, k, d.enrollments[k].pendingJoin.value);
      }
    } else {
      assert forall i :: 0 <= i < |d.enrollments| ==> !EnrollmentIs(id)(d.enrollments[i]);
    }
  }

  /** Approval by id picks the entry with that id unless an earlier one is named so. */
  lemma FirstMatch(d: Content, id: string, k: nat) returns (f: nat)
    requires id != "" && k == FirstIndex(d.enrollments, EnrollmentIs(id)) < |d.enrollments|
    ensures f == FirstIndex(d.enrollments, EnrollmentNamed(id)) <= k
    ensures f == k <==> forall j :: 0 <= j < k ==> d.enrollments[j].name != id
  {
    var p := EnrollmentNamed(id);
    f := FirstIndex(d.enrollments, p);
    assert p(d.enrollments[k]);
    if f == k {
      forall j | 0 <= j < k ensures d.enrollments[j].name != id {
        assert !p(d.enrollments[j]);
      }
    } else {
      assert p(d.enrollments[f]) && !EnrollmentIs(id)(d.enrollments[f]);
    }
  }

  /** Approving an earlier entry leaves the one with the id in place. */
  lemma ApprovesAnother(d: Content, id: string, f: nat, k: nat)
    requires f == FirstIndex(d.enrollments, EnrollmentNamed(id)) < k < |d.enrollments| && d.enrollments[k].id == id
    ensures Apply(d, ApproveEnrollment(id)).Ok? ==>
              id in Keys(Apply(d, ApproveEnrollment(id)).value.enrollments, EnrollmentId)
  {
    var rest := RemoveAt(d.enrollments, f);
    assert rest[k - 1] == d.enrollments[k] && EnrollmentId(rest[k - 1]) == id;
  }

  lemma ApprovesAt(d: Content, id: string, k: nat, pj: PendingJoin)
    requires DistinctEnrollments(d) && k == FirstIndex(d.enrollments, EnrollmentNamed(id)) < |d.enrollments|
    requires d.enrollments[k].id == id && d.enrollments[k].pendingJoin == Some(pj)
    ensures var r := Apply(d, ApproveEnrollment(id));
            && r.Ok? && id !in Keys(r.value.enrollments, EnrollmentId)
            && JoinedPeer(pj) in r.value.peers && |r.value.enrollments| == |d.enrollments| - 1
  {
    RemoveByKey(d.enrollments, EnrollmentId, k);
    var x, i := JoinedPeer(pj), FirstIndex(d.peers, PeerIs(pj.nodeId));
    var ps := Upsert(d.peers, PeerIs(x.nodeId), x);
    assert ps[i] == x;
  }

  /**
   The exception is real: with another joiner waiting under a token whose name is the
   presented token's id, the presented token approves that other joiner and stays. A
   raw proposal that adds an enrollment, or one that re-issues the earlier token in
   place under that name, leads there; issuing tokens in the ordinary way would have to
   guess an id that is drawn at random later.
   */
  lemma ApprovesTheOtherJoiner() returns (c: Content, id: string, pj: PendingJoin, other: PendingJoin)
    ensures DistinctEnrollments(c) && id in Keys(c.enrollments, EnrollmentId) && other != pj
    ensures var r := Apply(AtApproval(c, id, pj, []), ApproveEnrollment(id));
            && r.Ok? && r.value.peers == [JoinedPeer(other)]
            && id in Keys(r.value.enrollments, EnrollmentId)
  {
    id, pj, other := "t2", PendingJoin("n2", "", "", "", 0), PendingJoin("n1", "", "", "", 0);
    var e1 := PendingEnrollment("t1", "t2", "h", false, "", 0, 0, Some(other));
    var e2 := PendingEnrollment("t2", "", "h", true, "", 0, 0, None);
    c := EMPTY_CONTENT.(enrollments := [e1, e2]);
    var d := c.(enrollments := [e1, e2.(pendingJoin := Some(pj))]);
    assert EnrollmentId(c.enrollments[1]) == id;
    FirstIndexUnique(c.enrollments, EnrollmentIs(id), 1);
    assert c.enrollments[1 := e2.(pendingJoin := Some(pj))] == d.enrollments;
    assert AtApproval(c, id, pj, []) == d;
    FirstIndexUnique(d.enrollments, EnrollmentNamed(id), 0);
    var rest := RemoveAt(d.enrollments, 0);
    assert EnrollmentId(rest[0]) == id;
  }
}
