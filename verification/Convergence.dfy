/** Once mutations stop, the replicated configuration settles. */
module Convergence {
  import opened NodeIds
  import opened Config
  import opened Replicator
  import opened Replication

  /** How far the nodes of `ids` are behind the history, summed. */
  ghost function Lag(nodes: map<NodeId, Snapshot>, ids: set<NodeId>, top: nat): int
    requires ids <= nodes.Keys
  {
    if ids == {} then 0
    else
      var n :| n in ids;
      (top - nodes[n].version) + Lag(nodes, ids - {n}, top)
  }

  ghost function TotalLag(s: State): int { Lag(s.nodes, s.nodes.Keys, |s.log|) }

  lemma {:induction false} LagSplit(nodes: map<NodeId, Snapshot>, ids: set<NodeId>, top: nat, n: NodeId)
    requires ids <= nodes.Keys && n in ids
    ensures Lag(nodes, ids, top) == (top - nodes[n].version) + Lag(nodes, ids - {n}, top)
  {
    var k :| k in ids && Lag(nodes, ids, top) == (top - nodes[k].version) + Lag(nodes, ids - {k}, top);
    if k != n {
      LagSplit(nodes, ids - {k}, top, n);
      LagSplit(nodes, ids - {n}, top, k);
      assert ids - {k} - {n} == ids - {n} - {k};
    }
  }

  /** Nodes outside `ids` do not matter. */
  lemma {:induction false} LagFrame(nodes: map<NodeId, Snapshot>, ids: set<NodeId>, top: nat, n: NodeId, x: Snapshot)
    requires ids <= nodes.Keys && n !in ids
    ensures Lag(nodes[n := x], ids, top) == Lag(nodes, ids, top)
  {
    if ids != {} {
      var k :| k in ids;
      LagSplit(nodes, ids, top, k);
      LagSplit(nodes[n := x], ids, top, k);
      LagFrame(nodes, ids - {k}, top, n, x);
    }
  }

  /** Moving one node forward takes exactly that much off the lag. */
  lemma LagAdvance(nodes: map<NodeId, Snapshot>, top: nat, n: NodeId, x: Snapshot)
    requires n in nodes
    ensures nodes[n := x].Keys == nodes.Keys
    ensures Lag(nodes[n := x], nodes.Keys, top) == Lag(nodes, nodes.Keys, top) - (x.version - nodes[n].version)
  {
    assert nodes[n := x].Keys == nodes.Keys;
    LagSplit(nodes, nodes.Keys, top, n);
    LagSplit(nodes[n := x], nodes.Keys, top, n);
    LagFrame(nodes, nodes.Keys - {n}, top, n, x);
  }

  lemma {:induction false} LagNonNegative(nodes: map<NodeId, Snapshot>, ids: set<NodeId>, top: nat)
    requires ids <= nodes.Keys && forall n :: n in ids ==> nodes[n].version <= top
    ensures Lag(nodes, ids, top) >= 0
  {
    if ids != {} {
      var k :| k in ids;
      LagSplit(nodes, ids, top, k);
      LagNonNegative(nodes, ids - {k}, top);
    }
  }

  /** No mutation and no new joiner: only the network is at work. */
  predicate Quiet(acts: seq<Action>) {
    forall k :: 0 <= k < |acts| ==> !acts[k].Mutate? && !acts[k].Join?
  }

  /** A delivery that `Replace` acts on. */
  ghost predicate Effective(s: State, a: Action) {
    a.Deliver? && Next(s, a).nodes != s.nodes
  }

  ghost function EffectiveCount(s: State, acts: seq<Action>): nat {
    if acts == [] then 0
    else EffectiveCount(s, acts[..|acts| - 1]) +
         if Effective(Run(s, acts[..|acts| - 1]), acts[|acts| - 1]) then 1 else 0
  }

  /** What a step without mutation or join does to the nodes. */
  lemma QuietNodes(s: State, a: Action)
    requires !a.Mutate? && !a.Join?
    ensures Next(s, a).log == s.log
    ensures if Effective(s, a)
            then a.env.to in s.nodes && s.nodes[a.env.to].version < a.env.snap.version
                 && Next(s, a).nodes == s.nodes[a.env.to := a.env.snap]
            else Next(s, a).nodes == s.nodes
  {
  }

  lemma QuietStep(s: State, a: Action)
    requires Inv(s) && !a.Mutate? && !a.Join?
    ensures Inv(Next(s, a)) && Next(s, a).log == s.log
    ensures TotalLag(Next(s, a)) <= TotalLag(s) - (if Effective(s, a) then 1 else 0)
  {
    InvStep(s, a);
    QuietNodes(s, a);
    if Effective(s, a) {
      LagAdvance(s.nodes, |s.log|, a.env.to, a.env.snap);
    }
  }

  /**
   After mutations stop, every delivery that takes effect uses up some of the total
   lag, so no more of them take effect than the lag there was.
   */
  lemma {:induction false} FinitelyManyTakeEffect(s: State, acts: seq<Action>)
    requires Inv(s) && Quiet(acts)
    ensures var t := Run(s, acts);
            && Inv(t) && t.log == s.log
            && 0 <= TotalLag(t) <= TotalLag(s) - EffectiveCount(s, acts)
  {
    if acts == [] {
      InvIsCoherent(s);
      LagNonNegative(s.nodes, s.nodes.Keys, |s.log|);
    } else {
      var front := acts[..|acts| - 1];
      FinitelyManyTakeEffect(s, front);
      QuietStep(Run(s, front), acts[|acts| - 1]);
      InvIsCoherent(Run(s, acts));
      LagNonNegative(Run(s, acts).nodes, Run(s, acts).nodes.Keys, |s.log|);
    }
  }

  /** No node's version is below another's. */
  ghost predicate Level(s: State) {
    forall m, n :: m in s.nodes && n in s.nodes ==> s.nodes[m].version == s.nodes[n].version
  }

  /** Level means settled: every node, joiners included, holds the last committed configuration. */
  lemma LevelMeansSettled(s: State)
    requires Inv(s)
    ensures Level(s) <==> forall n :: n in s.nodes ==> n !in s.unsynced && s.nodes[n] == s.log[|s.log| - 1]
    ensures Level(s) <==> TotalLag(s) == 0
  {
    var h :| InvAt(s, h);
    InvIsCoherent(s);
    if Level(s) {
      forall n | n in s.nodes ensures n !in s.unsynced && s.nodes[n] == s.log[|s.log| - 1] {
        assert s.nodes[n].version == s.nodes[h].version;
      }
      ZeroLag(s.nodes, s.nodes.Keys, |s.log|);
    } else {
      var n :| n in s.nodes && s.nodes[n].version < |s.log|;
      LagSplit(s.nodes, s.nodes.Keys, |s.log|, n);
      LagNonNegative(s.nodes, s.nodes.Keys - {n}, |s.log|);
    }
  }

  lemma {:induction false} ZeroLag(nodes: map<NodeId, Snapshot>, ids: set<NodeId>, top: nat)
    requires ids <= nodes.Keys && forall n :: n in ids ==> nodes[n].version == top
    ensures Lag(nodes, ids, top) == 0
  {
    if ids != {} {
      var k :| k in ids;
      LagSplit(nodes, ids, top, k);
      ZeroLag(nodes, ids - {k}, top);
    }
  }

  lemma RunSnoc(s: State, acts: seq<Action>, a: Action)
    ensures Run(s, acts + [a]) == Next(Run(s, acts), a)
  {
    assert (acts + [a])[..|acts|] == acts;
  }

  lemma RunAppendOne(s: State, xs: seq<Action>, ys: seq<Action>, a: Action)
    requires Run(s, xs + ys) == Run(Run(s, xs), ys)
    ensures Run(s, xs + (ys + [a])) == Run(Run(s, xs), ys + [a])
  {
    RunSnoc(s, xs + ys, a);
    RunSnoc(Run(s, xs), ys, a);
    assert xs + (ys + [a]) == (xs + ys) + [a];
  }

  lemma {:induction false} RunAppend(s: State, xs: seq<Action>, ys: seq<Action>)
    ensures Run(s, xs + ys) == Run(Run(s, xs), ys)
  {
    if ys == [] {
      assert xs + ys == xs;
    } else {
      RunAppend(s, xs, ys[..|ys| - 1]);
      RunAppendOne(s, xs, ys[..|ys| - 1], ys[|ys| - 1]);
      assert ys == ys[..|ys| - 1] + [ys[|ys| - 1]];
    }
  }

  lemma RunTwo(s: State, a: Action, b: Action)
    ensures Run(s, [a, b]) == Next(Next(s, a), b)
  {
    assert [a, b][..1] == [a] && [a][..0] == [];
    assert Run(s, [a]) == Next(Run(s, []), a);
  }

  /** A node that is behind catches up with one pull from a node that is not. */
  lemma PullCatchesUp(s: State, h: NodeId, n: NodeId)
    requires InvAt(s, h) && n in s.nodes && s.nodes[n].version < |s.log|
    ensures var t := Next(Next(s, Answer(h, n)), Deliver(Envelope(n, s.nodes[h])));
            Inv(t) && t.nodes == s.nodes[n := s.log[|s.log| - 1]] && TotalLag(t) < TotalLag(s)
  {
    var take := Deliver(Envelope(n, s.nodes[h]));
    var s1 := Next(s, Answer(h, n));
    QuietStep(s, Answer(h, n));
    QuietNodes(s, Answer(h, n));
    assert s1 == Tick(Post(s, {take.env}));
    QuietStep(s1, take);
    QuietNodes(s1, take);
    assert Next(s1, take) == Tick(Receive(s1, take.env));
  }

  /** Somebody is behind somebody, who can be asked. */
  lemma WhoIsBehind(s: State) returns (h: NodeId, n: NodeId)
    requires Inv(s) && !Level(s)
    ensures InvAt(s, h) && n in s.nodes && s.nodes[n].version < |s.log|
  {
    h :| InvAt(s, h);
    InvIsCoherent(s);
    n :| n in s.nodes && s.nodes[n].version < |s.log|;
  }

  lemma LagIsNat(s: State)
    requires Inv(s)
    ensures TotalLag(s) >= 0
  {
    InvIsCoherent(s);
    LagNonNegative(s.nodes, s.nodes.Keys, |s.log|);
  }

  /** One pull that brings the cluster closer. */
  lemma OnePull(s: State) returns (pull: seq<Action>)
    requires Inv(s) && !Level(s)
    ensures Quiet(pull) && Inv(Run(s, pull)) && TotalLag(Run(s, pull)) < TotalLag(s)
  {
    var h, n := WhoIsBehind(s);
    pull := [Answer(h, n), Deliver(Envelope(n, s.nodes[h]))];
    PullCatchesUp(s, h, n);
    RunTwo(s, Answer(h, n), Deliver(Envelope(n, s.nodes[h])));
  }

  /** From every state of a disciplined run the pulls alone can settle the cluster. */
  lemma {:induction false} CanSettle(s: State) returns (acts: seq<Action>)
    requires Inv(s)
    ensures Quiet(acts) && Level(Run(s, acts))
    decreases TotalLag(s)
  {
    acts := [];
    if !Level(s) {
      LagIsNat(s);
      var pull := OnePull(s);
      LagIsNat(Run(s, pull));
      var rest := CanSettle(Run(s, pull));
      acts := pull + rest;
      RunAppend(s, pull, rest);
    }
  }
}
