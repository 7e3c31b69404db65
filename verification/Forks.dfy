/** A fork of the replicated configuration, from the founding on, and how long it lasts. */
module Forks {
  import opened Options
  import opened NodeIds
  import opened Config
  import opened Replicator
  import opened Replication
  import opened Convergence

  // ----- a fork lasts -----

  /** No node and nothing in flight is above version `v`. */
  ghost predicate Capped(s: State, v: nat) {
    && (forall n :: n in s.nodes ==> s.nodes[n].version <= v)
    && (forall e :: e in s.mail ==> e.snap.version <= v)
  }

  lemma CappedStep(s: State, v: nat, a: Action)
    requires Capped(s, v) && !a.Mutate? && !a.Join?
    ensures Capped(Next(s, a), v)
    ensures forall n :: n in s.nodes && s.nodes[n].version == v ==> SameOn(s, Next(s, a), n)
  {
  }

  /** Without mutations whoever holds the top version keeps what it holds. */
  lemma {:induction false} TopStays(s: State, v: nat, acts: seq<Action>, n: NodeId)
    requires Capped(s, v) && Quiet(acts) && n in s.nodes && s.nodes[n].version == v
    ensures var t := Run(s, acts); Capped(t, v) && n in t.nodes && t.nodes[n] == s.nodes[n]
  {
    if acts != [] {
      var front := acts[..|acts| - 1];
      TopStays(s, v, front, n);
      CappedStep(Run(s, front), v, acts[|acts| - 1]);
    }
  }

  /** Two nodes hold different contents under one version. */
  ghost predicate Diverged(s: State, a: NodeId, b: NodeId) {
    && a in s.nodes && b in s.nodes
    && s.nodes[a].version == s.nodes[b].version && s.nodes[a].content != s.nodes[b].content
  }

  /** Whatever is pushed, pulled, delivered or lost, the two stay as they are. */
  ghost predicate Lasts(s: State, a: NodeId, b: NodeId)
    requires a in s.nodes && b in s.nodes
  {
    forall acts :: Quiet(acts) ==> SameOn(s, Run(s, acts), a) && SameOn(s, Run(s, acts), b)
  }

  ghost predicate SameOn(s: State, t: State, n: NodeId)
    requires n in s.nodes
  {
    n in t.nodes && t.nodes[n] == s.nodes[n]
  }

  /** Two nodes that diverge at the top version do so until somebody commits again. */
  lemma DivergenceLasts(s: State, a: NodeId, b: NodeId)
    requires Diverged(s, a, b) && Capped(s, s.nodes[a].version)
    ensures Lasts(s, a, b)
  {
    forall acts | Quiet(acts) ensures SameOn(s, Run(s, acts), a) && SameOn(s, Run(s, acts), b) {
      TopStays(s, s.nodes[a].version, acts, a);
      TopStays(s, s.nodes[a].version, acts, b);
    }
  }

  // ----- and can be reached -----

  /** `s` comes up in some run from the founding. */
  ghost predicate Reachable(me: PeerInfo, s: State) {
    exists acts :: BlankTokens(acts) && s == Run(Start(me), acts)
  }

  lemma ReachStart(me: PeerInfo)
    ensures Reachable(me, Start(me)) && Inv(Start(me))
  {
    StartInv(me);
    assert BlankTokens([]) && Start(me) == Run(Start(me), []);
  }

  lemma ReachNext(me: PeerInfo, s: State, a: Action)
    requires Reachable(me, s) && IssuesBlank(a)
    ensures Reachable(me, Next(s, a))
  {
    var acts :| BlankTokens(acts) && s == Run(Start(me), acts);
    var more := acts + [a];
    assert more[..|more| - 1] == acts;
    assert BlankTokens(more) && Next(s, a) == Run(Start(me), more);
  }

  /** An up-to-date node commits a change. */
  lemma CommitNext(me: PeerInfo, s: State, a: NodeId, m: Mutation) returns (t: State)
    requires Reachable(me, s) && Inv(s) && UpToDate(s, a) && IssuesBlank(Mutate(a, m))
    requires Apply(s.nodes[a].content, m).Ok?
    ensures Reachable(me, t) && Inv(t) && UpToDate(t, a) && t.nodes.Keys == s.nodes.Keys
    ensures t.nodes[a].content == Apply(s.nodes[a].content, m).value
    ensures t.log == s.log + [t.nodes[a]]
  {
    CommitOnTop(s, a, m);
    ReachNext(me, s, Mutate(a, m));
    t := Next(s, Mutate(a, m));
  }

  lemma TokenThenJoin(c: Content, token: PendingEnrollment, join: PendingJoin)
    requires c.enrollments == [] && token.id != "" && token.secretHash != ""
    ensures Apply(c, AddEnrollment(token)) == Ok(c.(enrollments := [token]))
    ensures Apply(c.(enrollments := [token]), RecordEnrollPending(token.id, Some(join)))
            == Ok(c.(enrollments := [token.(pendingJoin := Some(join))]))
  {
    assert c.enrollments + [token] == [token];
    var one, joined := [token], token.(pendingJoin := Some(join));
    assert EnrollmentIs(token.id)(one[0]);
    assert one[0 := joined] == [joined];
  }

  /** The founder issues a token and records a joiner under it. */
  lemma EnrollOne(me: PeerInfo, id: NodeId) returns (s: State)
    ensures Reachable(me, s) && Inv(s) && UpToDate(s, me.nodeId)
    ensures s.nodes.Keys == {me.nodeId} && RecordedInCluster(s.log, id)
  {
    var a, token := me.nodeId, PendingEnrollment("t", "", "h", true, me.nodeId, 0, 9, None);
    var join := PendingJoin(id, "", "", "", 0);
    TokenThenJoin(Start(me).nodes[a].content, token, join);
    ReachStart(me);
    s := CommitNext(me, Start(me), a, AddEnrollment(token));
    s := CommitNext(me, s, a, RecordEnrollPending("t", Some(join)));
    var last := s.log[|s.log| - 1].content;
    assert IsJoinOf(last.enrollments[0], id);
    assert HasRecordedJoin(last, id);
  }

  /** A recorded joiner comes in with its seed. */
  lemma JoinerEnters(me: PeerInfo, s: State, a: NodeId, p: PeerInfo) returns (t: State)
    requires Reachable(me, s) && Inv(s) && UpToDate(s, a)
    requires p.nodeId !in s.nodes && RecordedInCluster(s.log, p.nodeId)
    ensures Reachable(me, t) && Inv(t) && UpToDate(t, a)
    ensures p.nodeId in t.nodes && t.nodes[p.nodeId].version == 2 && |t.log| >= 3
  {
    var i :| 0 <= i < |s.log| && HasRecordedJoin(s.log[i].content, p.nodeId);
    assert SomeJoinRecorded(s.log[i].content);
    InvStep(s, Join(p, []));
    ReachNext(me, s, Join(p, []));
    t := Next(s, Join(p, []));
  }

  /** A node that is behind starts to agree with an up-to-date one after one pull. */
  lemma Pull(me: PeerInfo, s: State, a: NodeId, n: NodeId) returns (t: State)
    requires Reachable(me, s) && Inv(s) && UpToDate(s, a) && n in s.nodes && s.nodes[n].version < |s.log|
    ensures Reachable(me, t) && Inv(t) && UpToDate(t, a) && UpToDate(t, n) && t.log == s.log
  {
    var ask, take := Answer(a, n), Deliver(Envelope(n, s.nodes[a]));
    var s1 := Next(s, ask);
    assert s1 == Tick(Post(s, {take.env}));
    InvStep(s, ask);
    ReachNext(me, s, ask);
    InvStep(s1, take);
    ReachNext(me, s1, take);
    t := Next(s1, take);
    assert t == Tick(Receive(s1, take.env));
  }

  /** A list of one resolver that needs no cleaning. */
  lemma OneResolver(c: Content, x: char)
    requires !IsSpace(x)
    ensures Apply(c, SetResolvers([[x]])) == Ok(c.(resolvers := [[x]]))
  {
    var one := [[x]];
    assert one[..|one| - 1] == [] && one[|one| - 1] == [x] && TrimSpace([x]) == [x];
    assert Cleaned(one) == Cleaned([]) + [[x]] == one;
  }

  /** Two different changes to one configuration. */
  lemma TwoChanges(c: Content)
    ensures Apply(c, SetResolvers(["x"])).Ok? && Apply(c, SetResolvers(["y"])).Ok?
    ensures Apply(c, SetResolvers(["x"])) != Apply(c, SetResolvers(["y"]))
  {
    OneResolver(c, 'x');
    OneResolver(c, 'y');
    assert c.(resolvers := ["x"]).resolvers[0] != c.(resolvers := ["y"]).resolvers[0];
  }

  /** Nothing is above the history, nor above the version after it once that is committed. */
  lemma CapAfter(s: State, a: NodeId, b: NodeId, first: Mutation, second: Mutation)
    requires Inv(s) && UpToDate(s, a) && UpToDate(s, b) && a != b && |s.log| >= 2
    requires Commits(s, Mutate(a, first)) && Commits(s, Mutate(b, second))
    ensures Capped(Next(Next(s, Mutate(a, first)), Mutate(b, second)), |s.log| + 1)
  {
    InvIsCoherent(s);
  }

  /** From a state with two up-to-date nodes a lasting divergence is two commits away. */
  lemma TwoCommitsFork(me: PeerInfo, s: State, a: NodeId, b: NodeId) returns (t: State)
    requires Reachable(me, s) && Inv(s) && a != b && UpToDate(s, a) && UpToDate(s, b) && |s.log| >= 2
    ensures Reachable(me, t) && Diverged(t, a, b) && Lasts(t, a, b)
  {
    var first, second := SetResolvers(["x"]), SetResolvers(["y"]);
    TwoChanges(s.log[|s.log| - 1].content);
    InvIsCoherent(s);
    UnheardCommitForksExactly(s, a, b, first, second);
    ReachNext(me, s, Mutate(a, first));
    ReachNext(me, Next(s, Mutate(a, first)), Mutate(b, second));
    CapAfter(s, a, b, first, second);
    t := Next(Next(s, Mutate(a, first)), Mutate(b, second));
    DivergenceLasts(t, a, b);
  }

  /**
   Every founding can lead to two nodes that hold different contents under one version,
   and go on doing so however much the network delivers, until somebody commits again.
   */
  lemma ForkIsReachable(me: PeerInfo, p: PeerInfo) returns (s: State)
    requires p.nodeId != me.nodeId
    ensures Reachable(me, s) && Diverged(s, me.nodeId, p.nodeId) && Lasts(s, me.nodeId, p.nodeId)
  {
    s := EnrollOne(me, p.nodeId);
    s := JoinerEnters(me, s, me.nodeId, p);
    s := Pull(me, s, me.nodeId, p.nodeId);
    s := TwoCommitsFork(me, s, me.nodeId, p.nodeId);
  }
}
