/**
 The replicated configuration as a whole: nodes, a network that may lose,
 duplicate and reorder snapshots, joiners, and the history of commits.
 */
module Replication {
  import opened Options
  import opened NodeIds
  import opened Config
  import opened Joining
  import opened Replicator

  /**
   `unsynced` are joiners that still hold only their own seed, `seeds` the seeds of
   all who ever joined. `log` is the history of successful mutations, in the order in
   which they happened.
   */
  datatype State = State(
    clock: int, nodes: map<NodeId, Snapshot>, unsynced: set<NodeId>, seeds: map<NodeId, Snapshot>,
    mail: set<Envelope>, log: seq<Snapshot>)

  datatype Action =
    | Mutate(n: NodeId, m: Mutation)
    | Push(n: NodeId)                       // broadcast to every listed peer
    | Answer(n: NodeId, to: NodeId)         // reply to a pull
    | Deliver(env: Envelope)                // the envelope stays available: it may be delivered again
    | Lose(env: Envelope)
    | Join(me: PeerInfo, peers: seq<PeerInfo>)

  function Start(me: PeerInfo): State {
    var first := FoundedBy(me, 0);
    State(1, map[me.nodeId := first], {}, map[], {}, [first])
  }

  /** Enrolling needs a cluster that has recorded this joiner under a token. */
  predicate RecordedInCluster(log: seq<Snapshot>, id: NodeId) {
    exists i :: 0 <= i < |log| && HasRecordedJoin(log[i].content, id)
  }

  predicate HasRecordedJoin(c: Content, id: NodeId) {
    exists e :: e in c.enrollments && IsJoinOf(e, id)
  }

  predicate IsJoinOf(e: PendingEnrollment, id: NodeId) {
    e.pendingJoin.Some? && e.pendingJoin.value.nodeId == id
  }

  /** The effects of the steps. */
  function Commit(s: State, n: NodeId, t: Snapshot): State {
    s.(nodes := s.nodes[n := t], log := s.log + [t])
  }

  function Post(s: State, envs: set<Envelope>): State { s.(mail := s.mail + envs) }

  function Receive(s: State, e: Envelope): State
    requires e.to in s.nodes
  {
    if e.snap.version <= s.nodes[e.to].version then s
    else s.(nodes := s.nodes[e.to := Adopted(s.nodes[e.to], e.snap)], unsynced := s.unsynced - {e.to})
  }

  function Admit(s: State, id: NodeId, seed: Snapshot): State {
    s.(nodes := s.nodes[id := seed], unsynced := s.unsynced + {id}, seeds := s.seeds[id := seed])
  }

  function Tick(s: State): State { s.(clock := s.clock + 1) }

  /** One step; an action that is not possible does nothing but let time pass. */
  ghost function Next(s: State, a: Action): State {
    match a
    case Mutate(n, m) =>
      if n !in s.nodes then Tick(s) else
      (match Committed(s.nodes[n], n, s.clock, m)
       case Ok(t) => Tick(Commit(s, n, t))
       case Err(_) => Tick(s))
    case Push(n) => if n !in s.nodes then Tick(s) else Tick(Post(s, Broadcast(n, s.nodes[n])))
    case Answer(n, to) => if n !in s.nodes then Tick(s) else Tick(Post(s, {Envelope(to, s.nodes[n])}))
    case Deliver(e) => if e !in s.mail || e.to !in s.nodes then Tick(s) else Tick(Receive(s, e))
    case Lose(e) => Tick(s.(mail := s.mail - {e}))
    case Join(me, peers) =>
      if me.nodeId in s.nodes || !RecordedInCluster(s.log, me.nodeId) then Tick(s)
      else Tick(Admit(s, me.nodeId, SeededBy(me, peers, s.clock)))
  }

  ghost function Run(s: State, acts: seq<Action>): State {
    if acts == [] then s else Next(Run(s, acts[..|acts| - 1]), acts[|acts| - 1])
  }

  /** This action commits a change. */
  ghost predicate Commits(s: State, a: Action) {
    a.Mutate? && a.n in s.nodes && Apply(s.nodes[a.n].content, a.m).Ok?
  }

  /** Nobody has committed a version above the one that `n` holds. */
  ghost predicate HoldsHighest(s: State, n: NodeId)
    requires n in s.nodes
  {
    forall i :: 0 <= i < |s.log| ==> s.log[i].version <= s.nodes[n].version
  }

  /** A change committed by a node that is behind the history. */
  ghost predicate Lapse(s: State, a: Action) {
    Commits(s, a) && !HoldsHighest(s, a.n)
  }

  /** In this run every change was committed by a node holding the highest committed version. */
  ghost predicate Disciplined(s: State, acts: seq<Action>) {
    acts == [] ||
    (Disciplined(s, acts[..|acts| - 1]) && !Lapse(Run(s, acts[..|acts| - 1]), acts[|acts| - 1]))
  }

  /** Tokens are issued without a joiner attached. */
  predicate BlankTokens(acts: seq<Action>) {
    forall k :: 0 <= k < |acts| ==> IssuesBlank(acts[k])
  }

  predicate IssuesBlank(a: Action) {
    a.Mutate? && a.m.AddEnrollment? ==> a.m.enrollment.pendingJoin == None
  }

  /** One content per committed version. */
  ghost predicate AgreedContent(log: seq<Snapshot>) {
    forall i, j :: 0 <= i < |log| && 0 <= j < |log| && log[i].version == log[j].version
                   ==> log[i].content == log[j].content
  }

  /** One snapshot per committed version, with the same author and time too. */
  ghost predicate Agreed(log: seq<Snapshot>) {
    forall i, j :: 0 <= i < |log| && 0 <= j < |log| && log[i].version == log[j].version ==> log[i] == log[j]
  }

  /** `snap` is the snapshot that was committed at its version. */
  predicate OnLog(snap: Snapshot, log: seq<Snapshot>) {
    1 <= snap.version <= |log| && snap == log[snap.version - 1]
  }

  /** What enrolling leaves on the joiner `id`. */
  ghost predicate IsSeedOf(x: Snapshot, id: NodeId) {
    exists me: PeerInfo, peers: seq<PeerInfo>, now: int :: me.nodeId == id && x == SeededBy(me, peers, now)
  }

  /** `x` is the seed of somebody who joined. */
  ghost predicate Seeded(x: Snapshot, seeds: map<NodeId, Snapshot>) {
    exists n :: n in seeds && seeds[n] == x
  }

  ghost predicate Numbered(log: seq<Snapshot>) {
    log != [] && forall i :: 0 <= i < |log| ==> log[i].version == i + 1
  }

  ghost predicate Stamped(log: seq<Snapshot>, clock: int) {
    forall i :: 0 <= i < |log| ==> log[i].updatedAt < clock
  }

  /** A token takes one commit after the founding, a recorded joiner two. */
  ghost predicate TokensLate(log: seq<Snapshot>) {
    forall i :: 0 <= i < |log| ==>
      && (log[i].content.enrollments != [] ==> i >= 1)
      && (SomeJoinRecorded(log[i].content) ==> i >= 2)
  }

  predicate SomeJoinRecorded(c: Content) {
    exists e :: e in c.enrollments && e.pendingJoin.Some?
  }

  ghost predicate LogOk(log: seq<Snapshot>, clock: int) {
    Numbered(log) && Stamped(log, clock) && TokensLate(log)
  }

  ghost predicate NodesOk(nodes: map<NodeId, Snapshot>, unsynced: set<NodeId>, seeds: map<NodeId, Snapshot>,
                          log: seq<Snapshot>)
  {
    && unsynced <= seeds.Keys <= nodes.Keys
    && (forall n :: n in seeds ==> IsSeedOf(seeds[n], n))
    && (forall n :: n in nodes ==> if n in unsynced then nodes[n] == seeds[n] else OnLog(nodes[n], log))
    && (seeds != map[] ==> |log| >= 3)
  }

  ghost predicate UpToDate(s: State, n: NodeId) {
    n in s.nodes && n !in s.unsynced && s.nodes[n].version == |s.log|
  }

  ghost predicate MailOk(mail: set<Envelope>, seeds: map<NodeId, Snapshot>, log: seq<Snapshot>) {
    forall e :: e in mail ==> OnLog(e.snap, log) || Seeded(e.snap, seeds)
  }

  /** Nothing but committed snapshots is in flight. */
  ghost predicate Delivers(mail: set<Envelope>, log: seq<Snapshot>) {
    forall e :: e in mail ==> OnLog(e.snap, log)
  }

  /** `h` is the only node, and no seed is about. */
  ghost predicate Alone(s: State, h: NodeId) {
    s.nodes.Keys == {h} && s.unsynced == {} && Delivers(s.mail, s.log)
  }

  /** Every synced node is past the version of any seed. */
  ghost predicate PastSeeds(nodes: map<NodeId, Snapshot>, unsynced: set<NodeId>) {
    forall n :: n in nodes && n !in unsynced ==> nodes[n].version >= 3
  }

  /** The invariant, with `h` a node that holds the highest committed version. */
  ghost predicate InvAt(s: State, h: NodeId) {
    && LogOk(s.log, s.clock)
    && NodesOk(s.nodes, s.unsynced, s.seeds, s.log)
    && MailOk(s.mail, s.seeds, s.log)
    && UpToDate(s, h)
    && (Alone(s, h) || PastSeeds(s.nodes, s.unsynced))
  }

  ghost predicate Inv(s: State) { exists h :: InvAt(s, h) }

  lemma StartInv(me: PeerInfo)
    ensures Inv(Start(me))
  {
    assert InvAt(Start(me), me.nodeId);
  }

  /** Recording a joiner needs an enrollment that is already there. */
  lemma JoinNeedsToken(c: Content, m: Mutation)
    requires IssuesBlank(Mutate("", m)) && Apply(c, m).Ok? && SomeJoinRecorded(Apply(c, m).value)
    ensures c.enrollments != []
  {
  }

  lemma CommitTokens(log: seq<Snapshot>, t: Snapshot, m: Mutation)
    requires Numbered(log) && TokensLate(log) && IssuesBlank(Mutate("", m))
    requires Apply(log[|log| - 1].content, m) == Ok(t.content)
    ensures TokensLate(log + [t])
  {
    if SomeJoinRecorded(t.content) {
      JoinNeedsToken(log[|log| - 1].content, m);
    }
  }

  lemma NextVersion(log: seq<Snapshot>, clock: int, t: Snapshot)
    requires LogOk(log, clock) && t.version == |log| + 1 && t.updatedAt == clock && TokensLate(log + [t])
    ensures LogOk(log + [t], clock + 1)
  {
  }

  lemma NodesCommit(nodes: map<NodeId, Snapshot>, unsynced: set<NodeId>, seeds: map<NodeId, Snapshot>,
                    log: seq<Snapshot>, n: NodeId, t: Snapshot)
    requires NodesOk(nodes, unsynced, seeds, log) && n in nodes && n !in unsynced && t.version == |log| + 1
    ensures NodesOk(nodes[n := t], unsynced, seeds, log + [t])
  {
    assert nodes[n := t].Keys == nodes.Keys;
  }

  lemma MailGrows(mail: set<Envelope>, seeds: map<NodeId, Snapshot>, log: seq<Snapshot>, t: Snapshot)
    ensures MailOk(mail, seeds, log) ==> MailOk(mail, seeds, log + [t])
    ensures Delivers(mail, log) ==> Delivers(mail, log + [t])
  {
  }

  /** A commit by a holder of the highest version extends the history by its next version. */
  lemma CommitKeeps(s: State, h: NodeId, n: NodeId, t: Snapshot)
    requires InvAt(s, h) && UpToDate(s, n)
    requires t.version == |s.log| + 1 && t.updatedAt == s.clock && TokensLate(s.log + [t])
    ensures InvAt(Tick(Commit(s, n, t)), n)
  {
    NextVersion(s.log, s.clock, t);
    NodesCommit(s.nodes, s.unsynced, s.seeds, s.log, n, t);
    MailGrows(s.mail, s.seeds, s.log, t);
    assert Alone(s, h) ==> Commit(s, n, t).nodes.Keys == {n};
  }

  lemma PostKeeps(s: State, h: NodeId, n: NodeId, envs: set<Envelope>)
    requires InvAt(s, h) && n in s.nodes && forall e :: e in envs ==> e.snap == s.nodes[n]
    ensures InvAt(Tick(Post(s, envs)), h)
  {
  }

  lemma LoseKeeps(s: State, h: NodeId, e: Envelope)
    requires InvAt(s, h)
    ensures InvAt(Tick(s.(mail := s.mail - {e})), h)
    ensures InvAt(Tick(s), h)
  {
  }

  lemma SeedsGrow(mail: set<Envelope>, seeds: map<NodeId, Snapshot>, log: seq<Snapshot>, id: NodeId, seed: Snapshot)
    requires MailOk(mail, seeds, log) && id !in seeds
    ensures MailOk(mail, seeds[id := seed], log)
  {
    forall e | e in mail && Seeded(e.snap, seeds) ensures Seeded(e.snap, seeds[id := seed]) {
      var n :| n in seeds && seeds[n] == e.snap;
      assert seeds[id := seed][n] == e.snap;
    }
  }

  lemma NodesAdmit(nodes: map<NodeId, Snapshot>, unsynced: set<NodeId>, seeds: map<NodeId, Snapshot>,
                   log: seq<Snapshot>, id: NodeId, seed: Snapshot)
    requires NodesOk(nodes, unsynced, seeds, log) && id !in nodes && IsSeedOf(seed, id) && |log| >= 3
    ensures NodesOk(nodes[id := seed], unsynced + {id}, seeds[id := seed], log)
  {
  }

  lemma AdmitKeeps(s: State, h: NodeId, id: NodeId, seed: Snapshot)
    requires InvAt(s, h) && id !in s.nodes && IsSeedOf(seed, id) && |s.log| >= 3
    ensures InvAt(Tick(Admit(s, id, seed)), h)
  {
    assert Alone(s, h) ==> PastSeeds(s.nodes, s.unsynced);
    SeedsGrow(s.mail, s.seeds, s.log, id, seed);
    NodesAdmit(s.nodes, s.unsynced, s.seeds, s.log, id, seed);
  }

  lemma NodesReceive(nodes: map<NodeId, Snapshot>, unsynced: set<NodeId>, seeds: map<NodeId, Snapshot>,
                     log: seq<Snapshot>, e: Envelope)
    requires NodesOk(nodes, unsynced, seeds, log) && PastSeeds(nodes, unsynced)
    requires e.to in nodes && OnLog(e.snap, log) && nodes[e.to].version < e.snap.version
    ensures NodesOk(nodes[e.to := e.snap], unsynced - {e.to}, seeds, log)
    ensures PastSeeds(nodes[e.to := e.snap], unsynced - {e.to})
  {
    assert nodes[e.to := e.snap].Keys == nodes.Keys;
  }

  lemma ReceiveKeeps(s: State, h: NodeId, e: Envelope)
    requires InvAt(s, h) && e in s.mail && e.to in s.nodes
    ensures InvAt(Tick(Receive(s, e)), h)
  {
    if s.nodes[e.to].version < e.snap.version {
      assert OnLog(e.snap, s.log) && e.to != h;
      assert !Alone(s, h);
      NodesReceive(s.nodes, s.unsynced, s.seeds, s.log, e);
    }
  }

  lemma MutateKeeps(s: State, h: NodeId, n: NodeId, m: Mutation)
    requires InvAt(s, h) && Commits(s, Mutate(n, m)) && HoldsHighest(s, n) && IssuesBlank(Mutate("", m))
    ensures InvAt(Next(s, Mutate(n, m)), n)
  {
    assert s.log[|s.log| - 1].version == |s.log|;
    var t := Committed(s.nodes[n], n, s.clock, m).value;
    CommitTokens(s.log, t, m);
    CommitKeeps(s, h, n, t);
  }

  lemma JoinKeeps(s: State, h: NodeId, me: PeerInfo, peers: seq<PeerInfo>)
    requires InvAt(s, h)
    ensures InvAt(Next(s, Join(me, peers)), h)
  {
    if me.nodeId in s.nodes || !RecordedInCluster(s.log, me.nodeId) {
      LoseKeeps(s, h, Envelope("", s.log[0]));
    } else {
      var i :| 0 <= i < |s.log| && HasRecordedJoin(s.log[i].content, me.nodeId);
      assert SomeJoinRecorded(s.log[i].content);
      AdmitKeeps(s, h, me.nodeId, SeededBy(me, peers, s.clock));
    }
  }

  /** The invariant survives every step that obeys the discipline. */
  lemma InvStep(s: State, a: Action)
    requires Inv(s) && IssuesBlank(a) && !Lapse(s, a)
    ensures Inv(Next(s, a))
  {
    var h :| InvAt(s, h);
    LoseKeeps(s, h, Envelope("", s.log[0]));
    match a {
      case Mutate(n, m) => if Commits(s, a) { MutateKeeps(s, h, n, m); }
      case Push(n) => if n in s.nodes { PostKeeps(s, h, n, Broadcast(n, s.nodes[n])); }
      case Answer(n, to) => if n in s.nodes { PostKeeps(s, h, n, {Envelope(to, s.nodes[n])}); }
      case Deliver(e) => if e in s.mail && e.to in s.nodes { ReceiveKeeps(s, h, e); }
      case Lose(e) => LoseKeeps(s, h, e);
      case Join(me, peers) => JoinKeeps(s, h, me, peers);
    }
  }

  lemma {:induction false} InvRun(s: State, acts: seq<Action>)
    requires Inv(s) && Disciplined(s, acts) && BlankTokens(acts)
    ensures Inv(Run(s, acts))
  {
    if acts != [] {
      var k := |acts| - 1;
      InvRun(s, acts[..k]);
      InvStep(Run(s, acts[..k]), acts[k]);
    }
  }

  /** Synced nodes, and all in flight but the seeds of those who joined, carry what was committed at their version. */
  ghost predicate Coherent(s: State) {
    && Agreed(s.log)
    && (forall n :: n in s.nodes && n !in s.unsynced ==> OnLog(s.nodes[n], s.log))
    && (forall e :: e in s.mail ==> OnLog(e.snap, s.log) || Seeded(e.snap, s.seeds))
    && (forall n :: n in s.seeds ==> IsSeedOf(s.seeds[n], n))
    && (forall n :: n in s.nodes ==> s.nodes[n].version <= |s.log|)
    && (exists n :: UpToDate(s, n))
  }

  /**
   Safety of a disciplined run: whatever the network does and however the role of
   committing moves about, the history names each version once, every synced node
   and every snapshot in flight that is no joiner's seed is the one committed at
   its version, so two nodes with equal versions are equal, and nobody is ahead of
   the history.
   */
  lemma DisciplinedRunsAgree(me: PeerInfo, acts: seq<Action>, m: NodeId, n: NodeId)
    requires Disciplined(Start(me), acts) && BlankTokens(acts)
    ensures var s := Run(Start(me), acts);
            && Coherent(s)
            && (m in s.nodes && n in s.nodes && m !in s.unsynced && n !in s.unsynced
                && s.nodes[m].version == s.nodes[n].version
                ==> s.nodes[m] == s.nodes[n])
  {
    StartInv(me);
    InvRun(Start(me), acts);
    InvIsCoherent(Run(Start(me), acts));
  }

  lemma InvIsCoherent(s: State)
    requires Inv(s)
    ensures Coherent(s)
  {
  }

  /** `late` may follow `early`: no version went down, no node vanished, no history was rewritten. */
  ghost predicate Follows(early: State, late: State) {
    && early.log <= late.log
    && forall n :: n in early.nodes ==> n in late.nodes && early.nodes[n].version <= late.nodes[n].version
  }

  lemma NextFollows(s: State, a: Action)
    ensures Follows(s, Next(s, a))
  {
  }

  /** In every run, disciplined or not, versions only go up and the history only grows. */
  lemma {:induction false} VersionsNeverDecrease(s: State, acts: seq<Action>, k: nat)
    requires k <= |acts|
    ensures Follows(Run(s, acts[..k]), Run(s, acts))
  {
    if k == |acts| {
      assert acts[..k] == acts;
    } else {
      var front := acts[..|acts| - 1];
      VersionsNeverDecrease(s, front, k);
      assert front[..k] == acts[..k];
      NextFollows(Run(s, front), acts[|acts| - 1]);
    }
  }

  /** A commit by a node that is behind gives its version a second snapshot. */
  lemma LapseRestamps(s: State, a: Action)
    requires Inv(s) && Lapse(s, a)
    ensures !Agreed(Next(s, a).log)
  {
    var log, v := Next(s, a).log, s.nodes[a.n].version;
    assert 1 <= v < |s.log|;
    assert log[v] == s.log[v] && log[|s.log|].version == v + 1;
    assert log[v].updatedAt < log[|s.log|].updatedAt;
  }

  /** A disagreement in the history never heals. */
  lemma ForksStay(early: seq<Snapshot>, late: seq<Snapshot>)
    requires early <= late
    ensures !Agreed(early) ==> !Agreed(late)
    ensures !AgreedContent(early) ==> !AgreedContent(late)
  {
    assert forall i :: 0 <= i < |early| ==> late[i] == early[i];
  }

  /**
   One snapshot per version, stamp included, holds of a run exactly when every change
   in it was committed by a node that held the highest committed version.
   */
  lemma {:induction false} OneSnapshotPerVersionExactly(me: PeerInfo, acts: seq<Action>)
    requires BlankTokens(acts)
    ensures Agreed(Run(Start(me), acts).log) <==> Disciplined(Start(me), acts)
  {
    StartInv(me);
    if acts != [] {
      var front, a := acts[..|acts| - 1], acts[|acts| - 1];
      var s := Run(Start(me), front);
      OneSnapshotPerVersionExactly(me, front);
      NextFollows(s, a);
      ForksStay(s.log, Next(s, a).log);
      if Disciplined(Start(me), front) && Lapse(s, a) {
        InvRun(Start(me), front);
        LapseRestamps(s, a);
      } else if Disciplined(Start(me), acts) {
        DisciplinedRunsAgree(me, acts, "", "");
      }
    }
  }

  /**
   A joiner's seed never wins. In a disciplined run an envelope that does not carry
   a committed snapshot changes no node at all; and a node that still holds its seed
   adopts a committed snapshot exactly when that is of version 3 or more.
   */
  lemma SeedsNeverWin(me: PeerInfo, acts: seq<Action>, e: Envelope)
    requires Disciplined(Start(me), acts) && BlankTokens(acts)
    requires var s := Run(Start(me), acts); e in s.mail && e.to in s.nodes
    ensures var s := Run(Start(me), acts);
            var t := Next(s, Deliver(e));
            && (!OnLog(e.snap, s.log) ==> t.nodes == s.nodes)
            && (e.to in s.unsynced && OnLog(e.snap, s.log) ==>
                  (t.nodes[e.to] == e.snap && e.to !in t.unsynced <==> e.snap.version >= 3))
  {
    StartInv(me);
    InvRun(Start(me), acts);
    var s := Run(Start(me), acts);
    var h :| InvAt(s, h);
    if Alone(s, h) {
      assert e.to == h;
    }
  }

  /** An up-to-date node commits: it stays up to date, and nothing else changes. */
  lemma CommitOnTop(s: State, n: NodeId, m: Mutation)
    requires Inv(s) && UpToDate(s, n) && Commits(s, Mutate(n, m)) && IssuesBlank(Mutate(n, m))
    ensures var t, c := Next(s, Mutate(n, m)), Committed(s.nodes[n], n, s.clock, m).value;
            Inv(t) && UpToDate(t, n) && t.nodes == s.nodes[n := c] && t.log == s.log + [c]
  {
    var h :| InvAt(s, h);
    MutateKeeps(s, h, n, m);
  }

  /** One more entry, at a version that the history has already. */
  lemma RepeatAgreesExactly(log: seq<Snapshot>, t: Snapshot)
    requires Numbered(log) && 1 <= t.version <= |log|
    ensures AgreedContent(log + [t]) <==> t.content == log[t.version - 1].content
  {
    var all, v := log + [t], t.version - 1;
    assert all[|log|] == t && all[v] == log[v] && all[v].version == t.version;
    assert forall i :: 0 <= i < |log| ==> all[i] == log[i] && all[i].version == i + 1;
  }

  /**
   In every state of a disciplined run, a commit by a node that is behind, at version
   `v`, keeps one content per version exactly if it comes to what `v + 1` already holds.
   */
  lemma LapseForksExactly(s: State, a: Action)
    requires Inv(s) && Lapse(s, a)
    ensures var v := s.nodes[a.n].version;
            && v < |s.log|
            && (AgreedContent(Next(s, a).log)
                <==> Apply(s.nodes[a.n].content, a.m).value == s.log[v].content)
  {
    InvIsCoherent(s);
    RepeatAgreesExactly(s.log, Committed(s.nodes[a.n], a.n, s.clock, a.m).value);
  }

  /**
   In every state of a disciplined run: when one of two up-to-date nodes commits a
   change that the other does not hear of, and the other then commits a change of its
   own, both hold the same version, and hold one content under it exactly if both
   changes come to the same thing.
   */
  lemma UnheardCommitForksExactly(s: State, a: NodeId, b: NodeId, first: Mutation, second: Mutation)
    requires Inv(s) && a != b && UpToDate(s, a) && UpToDate(s, b)
    requires IssuesBlank(Mutate(a, first)) && Commits(s, Mutate(a, first)) && Commits(s, Mutate(b, second))
    ensures var last := s.log[|s.log| - 1].content;
            var t := Next(Next(s, Mutate(a, first)), Mutate(b, second));
            && (AgreedContent(t.log) <==> Apply(last, first) == Apply(last, second))
            && t.nodes[a].version == t.nodes[b].version == |s.log| + 1
            && (t.nodes[a].content == t.nodes[b].content <==> Apply(last, first) == Apply(last, second))
  {
    CommitOnTop(s, a, first);
    InvIsCoherent(s);
    LapseForksExactly(Next(s, Mutate(a, first)), Mutate(b, second));
  }
}
