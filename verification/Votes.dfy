/** What it takes, over whole runs of reports and evaluations, for a check to be announced down. */
module Votes {
  import opened Sets
  import opened Aggregator
  import opened HysteresisLaws

  // ----- the verdict -----

  /** The nodes with a result no older than `cutoff` that is `ok` or not. */
  ghost function Reporting(latest: map<string, NodeResult>, cutoff: int, ok: bool): set<string> {
    set n | n in latest && cutoff <= latest[n].at && latest[n].ok == ok
  }

  /**
   The verdict: Unknown exactly if every result is too old, Down exactly if more recent
   results failed than succeeded, Up exactly if there are recent results and at least as
   many succeeded as failed.
   */
  lemma VerdictExactly(latest: map<string, NodeResult>, cutoff: int)
    ensures var good, bad := Reporting(latest, cutoff, true), Reporting(latest, cutoff, false);
            && (Vote(latest, cutoff) == Unknown <==> forall n :: n in latest ==> latest[n].at < cutoff)
            && (Vote(latest, cutoff) == Down <==> |bad| > |good|)
            && (Vote(latest, cutoff) == Up
                <==> |good| >= |bad| && exists n :: n in latest && latest[n].at >= cutoff)
  {
    var good, bad := Reporting(latest, cutoff, true), Reporting(latest, cutoff, false);
    assert Fresh(latest, cutoff, true) == good && Fresh(latest, cutoff, false) == bad;
    if n :| n in latest && latest[n].at >= cutoff {
      assert n in good + bad;
    } else {
      assert good == {} && bad == {};
    }
  }

  // ----- never outvoted -----

  /** At this step the check is not judged with more fresh failures than fresh successes. */
  predicate NotOutvotedAt(b: Board, s: Step, id: string) {
    s.Evaluation? && s.checkId == id && id in b && Configured(s.checks, id).Some? ==>
      var cutoff := s.now - FreshWindow(Configured(s.checks, id).value.interval);
      |Fresh(b[id].latest, cutoff, false)| <= |Fresh(b[id].latest, cutoff, true)|
  }

  ghost predicate NeverOutvoted(steps: seq<Step>, id: string) {
    steps == [] ||
    (NeverOutvoted(steps[..|steps| - 1], id)
     && NotOutvotedAt(RunBoard(steps[..|steps| - 1]), steps[|steps| - 1], id))
  }

  /**
   A check whose fresh failures never exceed its fresh successes at an evaluation is
   never down, and nothing that is announced about it leads to Down.
   */
  lemma {:induction false} NeverOutvotedNeverDown(steps: seq<Step>, id: string)
    requires NeverOutvoted(steps, id)
    ensures StateOf(RunBoard(steps), id).committed != Down
    ensures forall t :: t in AnnouncedIn(steps, id) ==> t.after != Down
  {
    HistoryDecides(steps, id);
    NoDownVerdict(steps, id);
    OnlyVerdictsCommit(Events(steps, id));
  }

  lemma {:induction false} NoDownVerdict(steps: seq<Step>, id: string)
    requires NeverOutvoted(steps, id)
    ensures Judged(Down) !in Events(steps, id)
  {
    if steps != [] {
      NoDownVerdict(steps[..|steps| - 1], id);
    }
  }

  lemma {:induction false} OnlyVerdictsCommit(es: seq<Event>)
    requires Judged(Down) !in es
    ensures Follow(es).committed != Down
    ensures forall t :: t in Fired(es) ==> t.after != Down
  {
    if es != [] {
      OnlyVerdictsCommit(es[..|es| - 1]);
      assert es[|es| - 1] in es;
    }
  }

  /** Failures come from `flaky` alone, and every evaluation of the check finds some fresh success. */
  ghost predicate OnlyFlaky(steps: seq<Step>, id: string, flaky: string) {
    steps == [] ||
    (OnlyFlaky(steps[..|steps| - 1], id, flaky) &&
     HarmlessNext(RunBoard(steps[..|steps| - 1]), steps[|steps| - 1], id, flaky))
  }

  predicate HarmlessNext(b: Board, s: Step, id: string, flaky: string) {
    s.checkId == id ==>
      match s
      case Report(_, node, r) => r.ok || node == flaky
      case Evaluation(checks, _, now) =>
        id in b && Configured(checks, id).Some? ==>
          Fresh(b[id].latest, now - FreshWindow(Configured(checks, id).value.interval), true) != {}
  }

  ghost predicate FailuresFrom(latest: map<string, NodeResult>, flaky: string) {
    forall n :: n in latest && !latest[n].ok ==> n == flaky
  }

  /** One flaky node, with another that keeps reporting success, never takes a check down. */
  lemma OneFlakyNodeNeverDown(steps: seq<Step>, id: string, flaky: string)
    requires OnlyFlaky(steps, id, flaky)
    ensures StateOf(RunBoard(steps), id).committed != Down
    ensures forall t :: t in AnnouncedIn(steps, id) ==> t.after != Down
  {
    FlakyIsNotOutvoted(steps, id, flaky);
    NeverOutvotedNeverDown(steps, id);
  }

  lemma {:induction false} FlakyIsNotOutvoted(steps: seq<Step>, id: string, flaky: string)
    requires OnlyFlaky(steps, id, flaky)
    ensures NeverOutvoted(steps, id)
    ensures id in RunBoard(steps) ==> FailuresFrom(RunBoard(steps)[id].latest, flaky)
  {
    if steps != [] {
      FlakyIsNotOutvoted(steps[..|steps| - 1], id, flaky);
      HarmlessKeeps(RunBoard(steps[..|steps| - 1]), steps[|steps| - 1], id, flaky);
    }
  }

  lemma HarmlessKeeps(b: Board, s: Step, id: string, flaky: string)
    requires HarmlessNext(b, s, id, flaky) && (id in b ==> FailuresFrom(b[id].latest, flaky))
    ensures NotOutvotedAt(b, s, id)
    ensures id in After(b, s).0 ==> FailuresFrom(After(b, s).0[id].latest, flaky)
  {
    if s.Evaluation? && s.checkId == id && id in b && Configured(s.checks, id).Some? {
      var cutoff := s.now - FreshWindow(Configured(s.checks, id).value.interval);
      OneFailureAtMost(b[id].latest, cutoff, flaky);
    }
  }

  lemma OneFailureAtMost(latest: map<string, NodeResult>, cutoff: int, flaky: string)
    requires FailuresFrom(latest, flaky) && Fresh(latest, cutoff, true) != {}
    ensures |Fresh(latest, cutoff, false)| <= |Fresh(latest, cutoff, true)|
  {
    var oks, bads := Fresh(latest, cutoff, true), Fresh(latest, cutoff, false);
    SubsetSize(bads, {flaky});
    var n :| n in oks;
    SubsetSize({n}, oks);
  }

  // ----- a majority that fails -----

  ghost function RunFrom(b: Board, steps: seq<Step>): Board {
    if steps == [] then b else After(RunFrom(b, steps[..|steps| - 1]), steps[|steps| - 1]).0
  }

  /** Every one of `nodes` has reported success no earlier than `floor`, and the check is not down. */
  ghost predicate Healthy(b: Board, id: string, nodes: set<string>, floor: int) {
    && id in b && Reflects(b[id].latest, {}, nodes, floor)
    && b[id].hyst.committed != Down && b[id].hyst.candidate != Down
  }

  /** The latest results are those of `nodes`: failed ones failing, the others fine, all since `floor`. */
  ghost predicate Reflects(latest: map<string, NodeResult>, failed: set<string>, nodes: set<string>, floor: int) {
    && failed <= nodes && latest.Keys == nodes
    && forall n :: n in nodes ==> latest[n].ok == (n !in failed) && latest[n].at >= floor
  }

  function Failed(steps: seq<Step>, id: string): set<string> {
    if steps == [] then {} else Failed(steps[..|steps| - 1], id) + FailedAt(steps[|steps| - 1], id)
  }

  function FailedAt(s: Step, id: string): set<string> {
    if s.Report? && s.checkId == id && !s.result.ok then {s.node} else {}
  }

  /** Nobody who has failed reports success again, and nothing goes stale. */
  ghost predicate NoRecovery(steps: seq<Step>, id: string, nodes: set<string>, floor: int) {
    steps == [] ||
    (NoRecovery(steps[..|steps| - 1], id, nodes, floor)
     && InWindow(steps[|steps| - 1], id, nodes, Failed(steps[..|steps| - 1], id), floor))
  }

  predicate InWindow(s: Step, id: string, nodes: set<string>, failed: set<string>, floor: int) {
    s.checkId == id ==>
      match s
      case Report(_, node, r) => node in nodes && r.at >= floor && (r.ok ==> node !in failed)
      case Evaluation(checks, _, now) =>
        Configured(checks, id).Some? && now - FreshWindow(Configured(checks, id).value.interval) <= floor
  }

  predicate Most(failed: set<string>, nodes: set<string>) { |failed| >= |nodes| / 2 + 1 }

  /** For each evaluation of the check, in order, whether a majority had been recorded as failed by then. */
  function Majorities(steps: seq<Step>, id: string, nodes: set<string>): seq<bool> {
    if steps == [] then []
    else
      var front := steps[..|steps| - 1];
      Majorities(front, id, nodes) + MajorityAt(steps[|steps| - 1], id, Failed(front, id), nodes)
  }

  function MajorityAt(s: Step, id: string, failed: set<string>, nodes: set<string>): seq<bool> {
    if s.Evaluation? && s.checkId == id then [Most(failed, nodes)] else []
  }

  predicate LastTwo(ms: seq<bool>) { |ms| >= 2 && ms[|ms| - 2] && ms[|ms| - 1] }

  lemma VoteOf(latest: map<string, NodeResult>, failed: set<string>, nodes: set<string>, floor: int, cutoff: int)
    requires Reflects(latest, failed, nodes, floor) && cutoff <= floor
    ensures Vote(latest, cutoff) == Down <==> Most(failed, nodes)
  {
    assert Fresh(latest, cutoff, false) == failed;
    assert Fresh(latest, cutoff, true) == nodes - failed;
    UnionSize(nodes - failed, failed);
    assert (nodes - failed) + failed == nodes && (nodes - failed) - failed == nodes - failed;
  }

  /** The candidate is Down exactly by the last evaluation, the committed state exactly by the last two. */
  predicate FollowsMajorities(h: Hysteresis, ms: seq<bool>) {
    && (h.candidate == Down <==> ms != [] && ms[|ms| - 1])
    && (h.candidate == Down ==> h.consecutive >= 1)
    && (h.committed == Down <==> LastTwo(ms))
  }

  lemma AdvanceFollows(h: Hysteresis, ms: seq<bool>, v: Verdict, now: bool)
    requires FollowsMajorities(h, ms) && (v == Down <==> now) && (ms != [] && ms[|ms| - 1] ==> now)
    ensures FollowsMajorities(Advance(h, v), ms + [now])
  {
    assert (ms + [now])[|ms|] == now;
  }

  /** What the check's state says after a run with these failures and majorities. */
  ghost predicate InStep(b: Board, id: string, failed: set<string>, ms: seq<bool>, nodes: set<string>, floor: int) {
    id in b && Reflects(b[id].latest, failed, nodes, floor) && FollowsMajorities(b[id].hyst, ms)
  }

  lemma ReportKeeps(b: Board, s: Step, id: string, failed: set<string>, ms: seq<bool>, nodes: set<string>, floor: int)
    requires id != "" && InStep(b, id, failed, ms, nodes, floor)
    requires s.Report? && InWindow(s, id, nodes, failed, floor)
    ensures InStep(After(b, s).0, id, failed + FailedAt(s, id), ms, nodes, floor)
  {
  }

  lemma EvaluationKeeps(b: Board, s: Step, id: string, failed: set<string>, ms: seq<bool>,
                        nodes: set<string>, floor: int)
    requires InStep(b, id, failed, ms, nodes, floor) && (ms != [] && ms[|ms| - 1] ==> Most(failed, nodes))
    requires s.Evaluation? && InWindow(s, id, nodes, failed, floor)
    ensures InStep(After(b, s).0, id, failed, ms + MajorityAt(s, id, failed, nodes), nodes, floor)
  {
    if s.checkId == id {
      var cutoff := s.now - FreshWindow(Configured(s.checks, id).value.interval);
      VoteOf(b[id].latest, failed, nodes, floor, cutoff);
      AdvanceFollows(b[id].hyst, ms, Vote(b[id].latest, cutoff), Most(failed, nodes));
    } else {
      assert ms + [] == ms;
    }
  }

  /**
   With all of `nodes` fresh and fine to begin with, and no recovery, the check is
   committed down exactly when floor(n/2)+1 of them had been recorded as failed by
   each of its last two evaluations, however reports and evaluations interleave.
   */
  lemma DownExactlyByMajority(b: Board, steps: seq<Step>, id: string, nodes: set<string>, floor: int)
    requires id != "" && Healthy(b, id, nodes, floor) && NoRecovery(steps, id, nodes, floor)
    ensures var r := RunFrom(b, steps);
            id in r && (r[id].hyst.committed == Down <==> LastTwo(Majorities(steps, id, nodes)))
  {
    RunInStep(b, steps, id, nodes, floor);
  }

  lemma {:induction false} RunInStep(b: Board, steps: seq<Step>, id: string, nodes: set<string>, floor: int)
    requires id != "" && Healthy(b, id, nodes, floor) && NoRecovery(steps, id, nodes, floor)
    ensures InStep(RunFrom(b, steps), id, Failed(steps, id), Majorities(steps, id, nodes), nodes, floor)
  {
    if steps != [] {
      var front, s := steps[..|steps| - 1], steps[|steps| - 1];
      var failed, ms := Failed(front, id), Majorities(front, id, nodes);
      RunInStep(b, front, id, nodes, floor);
      if s.Report? {
        ReportKeeps(RunFrom(b, front), s, id, failed, ms, nodes, floor);
        assert ms + [] == ms;
      } else {
        MajorityStays(front, id, nodes);
        EvaluationKeeps(RunFrom(b, front), s, id, failed, ms, nodes, floor);
        assert failed + {} == failed;
      }
    }
  }

  // ----- what a steady picture commits -----

  function Evaluations(steps: seq<Step>, id: string): nat {
    if steps == [] then 0
    else Evaluations(steps[..|steps| - 1], id)
         + if steps[|steps| - 1].Evaluation? && steps[|steps| - 1].checkId == id then 1 else 0
  }

  /** If this step evaluates the check, it finds it configured and judges it `v`. */
  predicate Judges(b: Board, s: Step, id: string, v: Verdict) {
    s.Evaluation? && s.checkId == id ==>
      id in b && Configured(s.checks, id).Some?
      && Vote(b[id].latest, s.now - FreshWindow(Configured(s.checks, id).value.interval)) == v
  }

  ghost predicate AlwaysJudges(b: Board, steps: seq<Step>, id: string, v: Verdict) {
    steps == [] ||
    (AlwaysJudges(b, steps[..|steps| - 1], id, v)
     && Judges(RunFrom(b, steps[..|steps| - 1]), steps[|steps| - 1], id, v))
  }

  /** Two evaluations to the same verdict commit it, whatever was committed before. */
  lemma {:induction false} SteadyCommits(b: Board, steps: seq<Step>, id: string, v: Verdict)
    requires id in b && AlwaysJudges(b, steps, id, v)
    ensures var r, n := RunFrom(b, steps), Evaluations(steps, id);
            && id in r
            && (n >= 1 ==> r[id].hyst.candidate == v && r[id].hyst.consecutive >= 1)
            && (n >= 2 ==> r[id].hyst.committed == v)
  {
    if steps != [] {
      SteadyCommits(b, steps[..|steps| - 1], id, v);
    }
  }

  /** Reports of successes by `nodes` only, all of them recent at every evaluation of the check. */
  predicate Thriving(s: Step, id: string, nodes: set<string>, floor: int) {
    InWindow(s, id, nodes, {}, floor) && (s.Report? && s.checkId == id ==> s.result.ok)
  }

  /** With fresh healthy nodes and no failures, two evaluations commit Up, whatever was committed before. */
  lemma HealthyCommitsUp(b: Board, steps: seq<Step>, id: string, nodes: set<string>, floor: int)
    requires id != "" && nodes != {} && id in b && Reflects(b[id].latest, {}, nodes, floor)
    requires forall i :: 0 <= i < |steps| ==> Thriving(steps[i], id, nodes, floor)
    ensures var r := RunFrom(b, steps); id in r && (Evaluations(steps, id) >= 2 ==> r[id].hyst.committed == Up)
  {
    HealthyJudgesUp(b, steps, id, nodes, floor);
    SteadyCommits(b, steps, id, Up);
  }

  lemma {:induction false} HealthyJudgesUp(b: Board, steps: seq<Step>, id: string, nodes: set<string>, floor: int)
    requires id != "" && nodes != {} && id in b && Reflects(b[id].latest, {}, nodes, floor)
    requires forall i :: 0 <= i < |steps| ==> Thriving(steps[i], id, nodes, floor)
    ensures AlwaysJudges(b, steps, id, Up)
    ensures id in RunFrom(b, steps) && Reflects(RunFrom(b, steps)[id].latest, {}, nodes, floor)
  {
    if steps != [] {
      HealthyJudgesUp(b, steps[..|steps| - 1], id, nodes, floor);
      ThrivingStep(RunFrom(b, steps[..|steps| - 1]), steps[|steps| - 1], id, nodes, floor);
    }
  }

  lemma ThrivingStep(b: Board, s: Step, id: string, nodes: set<string>, floor: int)
    requires id != "" && nodes != {} && id in b && Reflects(b[id].latest, {}, nodes, floor)
    requires Thriving(s, id, nodes, floor)
    ensures Judges(b, s, id, Up)
    ensures id in After(b, s).0 && Reflects(After(b, s).0[id].latest, {}, nodes, floor)
  {
    if s.Evaluation? && s.checkId == id {
      var cutoff := s.now - FreshWindow(Configured(s.checks, id).value.interval);
      VerdictExactly(b[id].latest, cutoff);
      assert Reporting(b[id].latest, cutoff, false) == {};
      var n :| n in nodes;
      assert n in b[id].latest;
    }
  }

  /** No report on the check, and everything on it too old at every evaluation. */
  predicate GoneQuiet(s: Step, id: string, latest: map<string, NodeResult>) {
    s.checkId == id ==>
      s.Evaluation? && Configured(s.checks, id).Some?
      && forall n :: n in latest ==> latest[n].at < s.now - FreshWindow(Configured(s.checks, id).value.interval)
  }

  /** With everything stale, two evaluations commit Unknown. */
  lemma StaleCommitsUnknown(b: Board, steps: seq<Step>, id: string)
    requires id in b && forall i :: 0 <= i < |steps| ==> GoneQuiet(steps[i], id, b[id].latest)
    ensures var r := RunFrom(b, steps); id in r && (Evaluations(steps, id) >= 2 ==> r[id].hyst.committed == Unknown)
  {
    StaleJudgesUnknown(b, steps, id);
    SteadyCommits(b, steps, id, Unknown);
  }

  lemma {:induction false} StaleJudgesUnknown(b: Board, steps: seq<Step>, id: string)
    requires id in b && forall i :: 0 <= i < |steps| ==> GoneQuiet(steps[i], id, b[id].latest)
    ensures AlwaysJudges(b, steps, id, Unknown)
    ensures id in RunFrom(b, steps) && RunFrom(b, steps)[id].latest == b[id].latest
  {
    if steps != [] {
      var front, s := steps[..|steps| - 1], steps[|steps| - 1];
      StaleJudgesUnknown(b, front, id);
      if s.Evaluation? && s.checkId == id {
        VerdictExactly(b[id].latest, s.now - FreshWindow(Configured(s.checks, id).value.interval));
      }
    }
  }

  /** A majority recorded at the last evaluation is still recorded now. */
  lemma {:induction false} MajorityStays(steps: seq<Step>, id: string, nodes: set<string>)
    ensures var ms := Majorities(steps, id, nodes); ms != [] && ms[|ms| - 1] ==> Most(Failed(steps, id), nodes)
  {
    if steps != [] {
      var front, s := steps[..|steps| - 1], steps[|steps| - 1];
      MajorityStays(front, id, nodes);
      SubsetSize(Failed(front, id), Failed(steps, id));
      if MajorityAt(s, id, Failed(front, id), nodes) == [] {
        assert Majorities(front, id, nodes) + [] == Majorities(front, id, nodes);
      }
    }
  }
}
