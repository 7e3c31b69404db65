/** Elections over whole runs of one node, and across nodes. */
module Election {
  import opened NodeIds
  import opened Sets
  import opened Quorum

  /** Contact with a peer, or an election from a live set read some time before, with quorum size `q`. */
  datatype Event = Beat(id: NodeId, at: int) | Ballot(live: set<NodeId>, at: int, q: nat)

  ghost function Next(m: Mgr, e: Event): Mgr {
    match e
    case Beat(id, at) => Mark(m, id, at)
    case Ballot(live, at, q) => Recompute(m, live, at, q)
  }

  ghost function Run(m: Mgr, es: seq<Event>): Mgr {
    if es == [] then m else Next(Run(m, es[..|es| - 1]), es[|es| - 1])
  }

  predicate Fresh(m: Mgr) { m.lastSeen == map[] && m.liveSince == map[] && m.master == "" }

  // ----- liveness streaks -----

  /** The times at which `id` was heard from, oldest first. */
  function Heard(es: seq<Event>, id: NodeId): seq<int> {
    if es == [] then []
    else
      var e, before := es[|es| - 1], Heard(es[..|es| - 1], id);
      if e.Beat? && e.id == id then before + [e.at] else before
  }

  /** `k` starts the longest suffix of `h` in which no gap exceeds `d`. */
  predicate StartsStreak(h: seq<int>, d: int, k: nat) {
    && k < |h|
    && (forall i :: k < i < |h| ==> h[i] - h[i - 1] <= d)
    && (k > 0 ==> h[k] - h[k - 1] > d)
  }

  /** `m` has heard exactly `h` from `id`. */
  ghost predicate Tracks(m: Mgr, id: NodeId, h: seq<int>) {
    if h == [] then id !in m.lastSeen && id !in m.liveSince
    else
      && id in m.lastSeen && m.lastSeen[id] == h[|h| - 1]
      && id in m.liveSince
      && exists k: nat :: StartsStreak(h, m.deadAfter, k) && m.liveSince[id] == h[k]
  }

  /** In every run `liveSince` is the start of the longest gap-free suffix of what was heard. */
  lemma {:induction false} LiveSinceIsStreakStart(m: Mgr, es: seq<Event>, id: NodeId)
    requires Fresh(m)
    ensures Tracks(Run(m, es), id, Heard(es, id))
    ensures Run(m, es).deadAfter == m.deadAfter && Run(m, es).cooldown == m.cooldown && Run(m, es).self == m.self
  {
    if es != [] {
      var front, e := es[..|es| - 1], es[|es| - 1];
      LiveSinceIsStreakStart(m, front, id);
      if e.Beat? && e.id == id {
        BeatTracks(Run(m, front), id, Heard(front, id), e.at);
      }
    }
  }

  lemma BeatTracks(m: Mgr, id: NodeId, h: seq<int>, at: int)
    requires Tracks(m, id, h)
    ensures Tracks(Mark(m, id, at), id, h + [at])
  {
    var r := h + [at];
    if h == [] || at - h[|h| - 1] > m.deadAfter {
      assert StartsStreak(r, m.deadAfter, |h|);
    } else {
      var k: nat :| StartsStreak(h, m.deadAfter, k) && m.liveSince[id] == h[k];
      assert StartsStreak(r, m.deadAfter, k);
    }
  }

  /** Heard at or before `w`, and no gap longer than `d` has ended since. */
  predicate SteadySince(h: seq<int>, d: int, w: int) {
    h != [] && h[0] <= w && forall i :: 1 <= i < |h| && h[i] - h[i - 1] > d ==> h[i] <= w
  }

  predicate Chronological(h: seq<int>) { forall i, j :: 0 <= i < j < |h| ==> h[i] <= h[j] }

  lemma StreakCovers(h: seq<int>, d: int, k: nat, w: int)
    requires Chronological(h) && StartsStreak(h, d, k)
    ensures h[k] <= w <==> SteadySince(h, d, w)
  {
  }

  /** Live ids below the master that have been heard without a gap for the whole cooldown. */
  ghost function HeardSteadily(m0: Mgr, es: seq<Event>, live: set<NodeId>, now: int): set<NodeId> {
    set id | id in live && Less(id, Run(m0, es).master)
             && SteadySince(Heard(es, id), m0.deadAfter, now - m0.cooldown)
  }

  lemma RipeByHistory(m0: Mgr, es: seq<Event>, id: NodeId, now: int)
    requires Fresh(m0) && Chronological(Heard(es, id)) && id in Run(m0, es).lastSeen
    ensures Ripe(Run(m0, es), id, now) <==> SteadySince(Heard(es, id), m0.deadAfter, now - m0.cooldown)
  {
    var m, h := Run(m0, es), Heard(es, id);
    LiveSinceIsStreakStart(m0, es, id);
    var k: nat :| StartsStreak(h, m.deadAfter, k) && m.liveSince[id] == h[k];
    StreakCovers(h, m.deadAfter, k, now - m.cooldown);
  }

  /** A live master under quorum gives way exactly to the least challenger. */
  lemma DisplacedExactly(m: Mgr, live: set<NodeId>, now: int, q: nat, j: NodeId)
    requires m.master != "" && m.master in live && |live| >= q && j != m.master
    ensures Recompute(m, live, now, q).master == j <==> IsLeast(j, Challengers(m, live, now))
  {
    if IsLeast(j, Challengers(m, live, now)) {
      LeastIs(j, Challengers(m, live, now));
    }
  }

  /**
   Displacement, in terms of what was heard. In every run with a forward clock, a
   live master under quorum is replaced by `j` exactly when `j` is the smallest live
   id below it that has been heard without a gap for the whole cooldown; one longer
   gap that ended inside that window rules a peer out. The live set may be any set of
   ids heard from by then.
   */
  lemma DisplacementByHistory(m0: Mgr, es: seq<Event>, live: set<NodeId>, now: int, q: nat, j: NodeId)
    requires Fresh(m0) && (forall id :: Chronological(Heard(es, id))) && live <= Run(m0, es).lastSeen.Keys
    requires var m := Run(m0, es); m.master != "" && m.master in live && |live| >= q && j != m.master
    ensures Recompute(Run(m0, es), live, now, q).master == j <==> IsLeast(j, HeardSteadily(m0, es, live, now))
  {
    var m := Run(m0, es);
    DisplacedExactly(m, live, now, q, j);
    assert Challengers(m, live, now) == HeardSteadily(m0, es, live, now) by {
      forall id | id in live
        ensures Ripe(m, id, now) <==> SteadySince(Heard(es, id), m0.deadAfter, now - m0.cooldown)
      {
        RipeByHistory(m0, es, id, now);
      }
    }
  }

  /**
   The two time limits differ at one point: a peer can drop out of the live set and
   come back with its streak unbroken exactly when it was silent for `deadAfter` to the tick.
   */
  lemma BoundaryBeat(m: Mgr, id: NodeId, now: int)
    requires id != m.self && id in m.lastSeen && id in m.liveSince && m.liveSince[id] < now
    ensures !IsLive(m, id, now) && Mark(m, id, now).liveSince[id] == m.liveSince[id]
       <==> now - m.lastSeen[id] == m.deadAfter
  {
  }

  /** How many ballots of the run changed the master, to and from none included. */
  ghost function Changes(m: Mgr, es: seq<Event>): nat {
    if es == [] then 0
    else Changes(m, es[..|es| - 1]) + if Run(m, es).master != Run(m, es[..|es| - 1]).master then 1 else 0
  }

  /** In every run the term has grown by exactly that many. */
  lemma {:induction false} TermCountsChanges(m: Mgr, es: seq<Event>)
    ensures Run(m, es).term == m.term + Changes(m, es)
  {
    if es != [] {
      TermCountsChanges(m, es[..|es| - 1]);
    }
  }

  // ----- agreement -----

  /** The node elects the least live id exactly when nothing protects another master from it. */
  lemma ElectsLeastExactly(m: Mgr, live: set<NodeId>, now: int, q: nat)
    requires |live| >= q && live != {}
    ensures var j := Least(live);
            Elect(m, live, now, q) == j
            <==> m.master == "" || m.master !in live || m.master == j || Ripe(m, j, now)
  {
    LessIsTotalOrder();
    var j := Least(live);
    if m.master != "" && m.master in live && m.master != j && Ripe(m, j, now) {
      assert IsLeast(j, Challengers(m, live, now));
      LeastIs(j, Challengers(m, live, now));
    }
  }

  /** The node's master is live, and so cannot be replaced by just anybody. */
  predicate Protected(m: Mgr, live: set<NodeId>) { m.master != "" && m.master in live }

  /** The ids that the node may make master: its live incumbent and who is ripe to replace it, else all live ones. */
  function Eligible(m: Mgr, live: set<NodeId>, now: int): set<NodeId> {
    if Protected(m, live) then {m.master} + Challengers(m, live, now) else live
  }

  /** Under quorum the election picks the least eligible id, which is a live one; otherwise it picks nobody. */
  lemma ElectsLeastEligible(m: Mgr, live: set<NodeId>, now: int, q: nat)
    ensures |live| >= q && live != {} ==>
              && Eligible(m, live, now) != {} && Eligible(m, live, now) <= live
              && IsLeast(Elect(m, live, now, q), Eligible(m, live, now))
    ensures "" !in live ==> (Elect(m, live, now, q) != "" <==> |live| >= q && live != {})
  {
    LessIsTotalOrder();
    if |live| >= q && Protected(m, live) && Challengers(m, live, now) != {} {
      assert IsLeast(Least(Challengers(m, live, now)), Eligible(m, live, now));
    }
  }

  /**
   Agreement, exactly: two nodes under quorum, whatever they see and whoever was master
   on each, elect the same master if and only if the least id that either finds
   eligible is eligible on both.
   */
  lemma AgreeExactly(a: Mgr, b: Mgr, la: set<NodeId>, lb: set<NodeId>, nowA: int, nowB: int, qa: nat, qb: nat)
    requires |la| >= qa && la != {} && |lb| >= qb && lb != {}
    ensures var ea, eb := Eligible(a, la, nowA), Eligible(b, lb, nowB);
            && ea + eb != {}
            && (Recompute(a, la, nowA, qa).master == Recompute(b, lb, nowB, qb).master
                <==> Least(ea + eb) in ea && Least(ea + eb) in eb)
  {
    var ea, eb := Eligible(a, la, nowA), Eligible(b, lb, nowB);
    ElectsLeastEligible(a, la, nowA, qa);
    ElectsLeastEligible(b, lb, nowB, qb);
    var x, y := Elect(a, la, nowA, qa), Elect(b, lb, nowB, qb);
    assert x in ea + eb;
    LessIsTotalOrder();
    if x == y {
      assert IsLeast(x, ea + eb);
      LeastIs(x, ea + eb);
    } else {
      var l := Least(ea + eb);
      assert l in ea && l in eb ==> IsLeast(l, ea) && IsLeast(l, eb);
    }
  }

  /** In particular nodes with one live set, its least id past the cooldown, elect it whatever their incumbents. */
  lemma SameLiveSetSameMaster(a: Mgr, b: Mgr, live: set<NodeId>, nowA: int, nowB: int, qa: nat, qb: nat)
    requires live != {} && |live| >= qa && |live| >= qb
    requires Ripe(a, Least(live), nowA) && Ripe(b, Least(live), nowB)
    ensures Recompute(a, live, nowA, qa).master == Recompute(b, live, nowB, qb).master == Least(live)
  {
    ElectsLeastExactly(a, live, nowA, qa);
    ElectsLeastExactly(b, live, nowB, qb);
  }

  /**
   When a node makes itself master: with a live incumbent, if it is that or is ripe and
   below it, and no live id below itself is ripe; otherwise if no live id is below it.
   */
  predicate Reigns(m: Mgr, live: set<NodeId>, now: int) {
    && m.self in live
    && (Protected(m, live) ==> m.self == m.master || (Less(m.self, m.master) && Ripe(m, m.self, now)))
    && forall x :: x in live && Less(x, m.self) ==> Protected(m, live) && !Ripe(m, x, now)
  }

  lemma SelfElectedExactly(m: Mgr, live: set<NodeId>, now: int, q: nat)
    requires |live| >= q && live != {}
    ensures Recompute(m, live, now, q).master == m.self <==> Reigns(m, live, now)
  {
    LessIsTotalOrder();
    ElectsLeastEligible(m, live, now, q);
    if Reigns(m, live, now) {
      assert IsLeast(m.self, Eligible(m, live, now));
    }
  }

  /**
   Two masters, exactly, whatever the incumbents: of two nodes under quorum both make
   themselves master if and only if both reign. The higher one then does not hear the
   lower, or keeps the role from it for the rest of its cooldown.
   */
  lemma TwoMastersExactly(a: Mgr, b: Mgr, la: set<NodeId>, lb: set<NodeId>, nowA: int, nowB: int, qa: nat, qb: nat)
    requires |la| >= qa && la != {} && |lb| >= qb && lb != {} && Less(a.self, b.self)
    ensures Recompute(a, la, nowA, qa).master == a.self && Recompute(b, lb, nowB, qb).master == b.self
       <==> Reigns(a, la, nowA) && Reigns(b, lb, nowB)
    ensures Reigns(b, lb, nowB) ==> a.self !in lb || (Protected(b, lb) && !Ripe(b, a.self, nowB))
  {
    SelfElectedExactly(a, la, nowA, qa);
    SelfElectedExactly(b, lb, nowB, qb);
  }

  /** Every ballot of the run sees the live set `live`, with quorum. */
  predicate SeesOnly(es: seq<Event>, live: set<NodeId>) {
    forall i :: 0 <= i < |es| && es[i].Ballot? ==> es[i].live == live && |live| >= es[i].q
  }

  /** Once the least live id is master it stays so for as long as the live set does not change. */
  lemma {:induction false} LeastMasterStays(m: Mgr, es: seq<Event>, live: set<NodeId>)
    requires live != {} && m.master == Least(live) && m.master != "" && SeesOnly(es, live)
    ensures Run(m, es).master == m.master && Run(m, es).term == m.term
  {
    if es != [] {
      var front, e := es[..|es| - 1], es[|es| - 1];
      LeastMasterStays(m, front, live);
      if e.Ballot? {
        ElectsLeastExactly(Run(m, front), live, e.at, e.q);
      }
    }
  }

  /** At every ballot of the run quorum holds, the master is live, and only `ids` are. */
  ghost predicate Undisturbed(m: Mgr, es: seq<Event>, ids: set<NodeId>) {
    es == [] ||
    (Undisturbed(m, es[..|es| - 1], ids) &&
     (es[|es| - 1].Ballot? ==>
        var live := es[|es| - 1].live;
        Protected(Run(m, es[..|es| - 1]), live) && |live| >= es[|es| - 1].q && live <= ids))
  }

  ghost function Below(ids: set<NodeId>, m: NodeId): set<NodeId> { set x | x in ids && Less(x, m) }

  /**
   While quorum holds and the master stays live, every change of master moves to a
   lower id, so the term grows by no more than the master's rank among the live ids.
   */
  lemma {:induction false} TermBoundedByRank(m: Mgr, es: seq<Event>, ids: set<NodeId>)
    requires Undisturbed(m, es, ids)
    ensures var r := Run(m, es);
            && m.term <= r.term
            && r.term - m.term <= |Below(ids, m.master)| - |Below(ids, r.master)|
            && (r.master == m.master || Less(r.master, m.master))
            && (r.term == m.term <==> r.master == m.master)
  {
    if es != [] {
      var front, e := es[..|es| - 1], es[|es| - 1];
      var s, r := Run(m, front), Run(m, es);
      TermBoundedByRank(m, front, ids);
      LessIsTotalOrder();
      if r.master != s.master {
        var x := r.master;
        assert x in Challengers(s, e.live, e.at);
        assert Below(ids, x) + {x} <= Below(ids, s.master) && x !in Below(ids, x);
        SubsetSize(Below(ids, x) + {x}, Below(ids, s.master));
      }
    }
  }

  // ----- what the rule does not give -----

  /** A node that has just come up. */
  function Started(id: NodeId): Mgr { Mgr(id, 4, 120, map[], map[], "", 0) }

  lemma RunNext(m: Mgr, es: seq<Event>, e: Event)
    ensures Run(m, es + [e]) == Next(Run(m, es), e)
  {
    assert (es + [e])[..|es|] == es;
  }

  /** A node that hears itself and `other`, both just now. */
  lemma HearsTwo(id: NodeId, other: NodeId)
    requires id != other
    ensures Run(Started(id), [Beat(id, 0), Beat(other, 0)])
            == Mgr(id, 4, 120, map[id := 0, other := 0], map[id := 0, other := 0], "", 0)
    ensures Live(Run(Started(id), [Beat(id, 0), Beat(other, 0)]), 0) == {id, other}
    ensures |{id, other}| == 2
  {
    RunNext(Started(id), [], Beat(id, 0));
    RunNext(Started(id), [Beat(id, 0)], Beat(other, 0));
    assert [] + [Beat(id, 0)] == [Beat(id, 0)];
    assert [Beat(id, 0)] + [Beat(other, 0)] == [Beat(id, 0), Beat(other, 0)];
  }

  lemma ElectsItself(id: NodeId, other: NodeId)
    requires id != "" && Less(id, other)
    ensures var beats, live := [Beat(id, 0), Beat(other, 0)], {id, other};
            && Live(Run(Started(id), beats), 0) == live
            && Run(Started(id), beats + [Ballot(live, 0, 2)]).master == id
  {
    LessIsTotalOrder();
    var beats, live := [Beat(id, 0), Beat(other, 0)], {id, other};
    HearsTwo(id, other);
    RunNext(Started(id), beats, Ballot(live, 0, 2));
    SelfElectedExactly(Run(Started(id), beats), live, 0, 2);
  }

  /** With the link between "a" and "b" down and "c" heard by both, each of the two elects itself. */
  lemma TwoMasters(a: seq<Event>, b: seq<Event>)
    requires a == [Beat("a", 0), Beat("c", 0)] && b == [Beat("b", 0), Beat("c", 0)]
    ensures Live(Run(Started("a"), a), 0) == {"a", "c"} && Live(Run(Started("b"), b), 0) == {"b", "c"}
    ensures Run(Started("a"), a + [Ballot({"a", "c"}, 0, 2)]).master == "a"
    ensures Run(Started("b"), b + [Ballot({"b", "c"}, 0, 2)]).master == "b"
  {
    assert Less("a", "c") && Less("b", "c");
    ElectsItself("a", "c");
    ElectsItself("b", "c");
  }

  /**
   The same live set is not enough either: "b" was master of its own one-node cluster
   when "a" came in, and keeps the role from "a" for the cooldown; "a" elects itself.
   */
  lemma SameLiveSetTwoMasters() returns (es: seq<Event>, fs: seq<Event>)
    ensures Live(Run(Started("a"), es), 0) == Live(Run(Started("b"), fs), 0) == {"a", "b"}
    ensures Recompute(Run(Started("a"), es), {"a", "b"}, 0, 2).master == "a"
    ensures Recompute(Run(Started("b"), fs), {"a", "b"}, 0, 2).master == "b"
  {
    es, fs := [Beat("a", 0), Beat("b", 0)], [Beat("b", 0), Ballot({"b"}, 0, 1), Beat("a", 0)];
    assert Less("a", "b") && !Less("b", "a") && !Less("a", "a") && !Less("b", "b");
    HearsTwo("a", "b");
    SelfElectedExactly(Run(Started("a"), es), {"a", "b"}, 0, 2);
    var b := AloneThenJoined();
    assert b == Run(Started("b"), fs) && Live(b, 0) == {"a", "b"};
    SelfElectedExactly(b, {"a", "b"}, 0, 2);
  }

  lemma AloneThenJoined() returns (b: Mgr)
    ensures b == Run(Started("b"), [Beat("b", 0), Ballot({"b"}, 0, 1), Beat("a", 0)])
    ensures b == Mgr("b", 4, 120, map["b" := 0, "a" := 0], map["b" := 0, "a" := 0], "b", 1)
  {
    var m0 := Started("b");
    RunNext(m0, [], Beat("b", 0));
    RunNext(m0, [Beat("b", 0)], Ballot({"b"}, 0, 1));
    RunNext(m0, [Beat("b", 0), Ballot({"b"}, 0, 1)], Beat("a", 0));
    assert [] + [Beat("b", 0)] == [Beat("b", 0)];
    assert [Beat("b", 0)] + [Ballot({"b"}, 0, 1)] == [Beat("b", 0), Ballot({"b"}, 0, 1)];
    assert [Beat("b", 0), Ballot({"b"}, 0, 1)] + [Beat("a", 0)] == [Beat("b", 0), Ballot({"b"}, 0, 1), Beat("a", 0)];
    var alone := Run(m0, [Beat("b", 0)]);
    assert alone == Mgr("b", 4, 120, map["b" := 0], map["b" := 0], "", 0);
    assert Live(alone, 0) == {"b"};
    assert IsLeast("b", {"b"});
    LeastIs("b", {"b"});
    b := Run(m0, [Beat("b", 0), Ballot({"b"}, 0, 1), Beat("a", 0)]);
  }
}
