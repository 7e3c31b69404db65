/** Per-check vote counting, freshness and hysteresis, as the master runs them. */
module Aggregator {
  import opened Options
  import opened Lists
  import opened Config

  datatype Verdict = Unknown | Up | Down

  datatype NodeResult = NodeResult(ok: bool, detail: string, at: int)

  /** The announced state, the state under consideration and how often it came up in a row. */
  datatype Hysteresis = Hysteresis(committed: Verdict, candidate: Verdict, consecutive: nat)

  datatype CheckState = CheckState(latest: map<string, NodeResult>, hyst: Hysteresis)

  datatype Transition = Transition(before: Verdict, after: Verdict)

  datatype Summary = Summary(
    checkId: string, state: Verdict, reports: nat, okCount: nat, notOk: nat, detail: string)

  /**
   The two critical sections of a submission: recording one node's result for one
   check, and evaluating a check at `now` under the checks configured then. Those of
   different submissions may come in any order.
   */
  datatype Step =
    | Report(checkId: string, node: string, result: NodeResult)
    | Evaluation(checks: seq<Check>, checkId: string, now: int)

  const HYSTERESIS_COUNT := 2
  const SECOND := 1_000_000_000
  const INITIAL := CheckState(map[], Hysteresis(Unknown, Unknown, 0))

  function CheckIs(id: string): Check -> bool { (c: Check) => c.id == id }

  function Configured(checks: seq<Check>, id: string): (c: Option<Check>)
    ensures c == None <==> forall x :: x in checks ==> x.id != id
    ensures c.Some? ==> exists k :: 0 <= k < |checks| && checks[k] == c.value && c.value.id == id
                                    && forall j :: 0 <= j < k ==> checks[j].id != id
  {
    var i := FirstIndex(checks, CheckIs(id));
    assert forall x :: x in checks && x.id == id ==> CheckIs(id)(x);
    assert i < |checks| ==> checks[i].id == id && forall j :: 0 <= j < i ==> !CheckIs(id)(checks[j]);
    if i < |checks| then Some(checks[i]) else None
  }

  /** Three intervals, at least 30 s; 60 s when no interval is set. */
  function FreshWindow(interval: int): (w: int)
    ensures interval <= 0 ==> w == 60 * SECOND
    ensures interval > 0 ==> w >= 3 * interval && w >= 30 * SECOND && (w == 3 * interval || w == 30 * SECOND)
  {
    if interval <= 0 then 60 * SECOND
    else if 3 * interval < 30 * SECOND then 30 * SECOND
    else 3 * interval
  }

  /** The nodes whose result is no older than `cutoff`, by what they reported. */
  function Fresh(latest: map<string, NodeResult>, cutoff: int, ok: bool): set<string> {
    set n | n in latest && latest[n].at >= cutoff && latest[n].ok == ok
  }

  /** A tie counts as up. */
  function Majority(oks: nat, bads: nat): Verdict {
    if oks + bads == 0 then Unknown else if bads > oks then Down else Up
  }

  function Vote(latest: map<string, NodeResult>, cutoff: int): Verdict {
    Majority(|Fresh(latest, cutoff, true)|, |Fresh(latest, cutoff, false)|)
  }

  function Advance(h: Hysteresis, c: Verdict): Hysteresis {
    var n := if c == h.candidate then h.consecutive + 1 else 1;
    Hysteresis(if n >= HYSTERESIS_COUNT then c else h.committed, c, n)
  }

  /** What an evaluation announces. */
  function Announced(h: Hysteresis, c: Verdict): Option<Transition> {
    if Advance(h, c).committed == h.committed then None
    else Some(Transition(h.committed, Advance(h, c).committed))
  }

  type Board = map<string, CheckState>

  /** A result without a check id is ignored. */
  function Recorded(b: Board, id: string, node: string, r: NodeResult): Board {
    if id == "" then b
    else
      var st := if id in b then b[id] else INITIAL;
      b[id := st.(latest := st.latest[node := r])]
  }

  /** A check that is no longer configured is forgotten; one without a state is left alone. */
  function Evaluated(b: Board, checks: seq<Check>, id: string, now: int): (Board, Option<Transition>) {
    match Configured(checks, id)
    case None => (b - {id}, None)
    case Some(check) =>
      if id !in b then (b, None)
      else
        var st := b[id];
        var c := Vote(st.latest, now - FreshWindow(check.interval));
        (b[id := st.(hyst := Advance(st.hyst, c))], Announced(st.hyst, c))
  }

  function After(b: Board, s: Step): (Board, Option<Transition>) {
    match s
    case Report(id, node, r) => (Recorded(b, id, node, r), None)
    case Evaluation(checks, id, now) => Evaluated(b, checks, id, now)
  }

  /** How far back a summary looks; 60 s for a check that is not configured. */
  function Window(checks: seq<Check>, id: string): (w: int)
    ensures Configured(checks, id) == None ==> w == 60 * SECOND
    ensures Configured(checks, id).Some? ==> w == FreshWindow(Configured(checks, id).value.interval)
  {
    var check := Configured(checks, id);
    if check.Some? then FreshWindow(check.value.interval) else 60 * SECOND
  }

  /** `r` shows the state: the fresh counts, the announced state, and a failure's detail if there is one. */
  ghost predicate Shows(r: Summary, st: CheckState, checks: seq<Check>, id: string, now: int) {
    var cutoff := now - Window(checks, id);
    var oks, bads := Fresh(st.latest, cutoff, true), Fresh(st.latest, cutoff, false);
    && r.checkId == id && r.state == st.hyst.committed
    && r.okCount == |oks| && r.notOk == |bads| && r.reports == |oks| + |bads|
    && (r.detail == "" <==> forall n :: n in bads ==> st.latest[n].detail == "")
    && (r.detail != "" ==> exists n :: n in bads && st.latest[n].detail == r.detail)
  }

  class Aggregator {
    var perCheck: map<string, CheckState>

    constructor ()
      ensures perCheck == map[]
    {
      perCheck := map[];
    }

    method LookupCheck(checks: seq<Check>, id: string) returns (c: Option<Check>)
      ensures c == Configured(checks, id)
    {
      var i := Search(checks, CheckIs(id));
      c := if i < |checks| then Some(checks[i]) else None;
    }

    /** Counts the fresh results; `detail` is one non-empty failure detail if there is any. */
    static method Tally(latest: map<string, NodeResult>, cutoff: int) returns (oks: nat, bads: nat, detail: string)
      ensures oks == |Fresh(latest, cutoff, true)| && bads == |Fresh(latest, cutoff, false)|
      ensures detail == "" <==> forall n :: n in Fresh(latest, cutoff, false) ==> latest[n].detail == ""
      ensures detail != "" ==> exists n :: n in Fresh(latest, cutoff, false) && latest[n].detail == detail
    {
      oks, bads, detail := 0, 0, "";
      var left := latest.Keys;
      ghost var okSeen: set<string>, badSeen: set<string> := {}, {};
      while left != {}
        invariant left <= latest.Keys
        invariant okSeen == set n | n in latest.Keys - left && latest[n].at >= cutoff && latest[n].ok
        invariant badSeen == set n | n in latest.Keys - left && latest[n].at >= cutoff && !latest[n].ok
        invariant oks == |okSeen| && bads == |badSeen|
        invariant detail == "" <==> forall n :: n in badSeen ==> latest[n].detail == ""
        invariant detail != "" ==> exists n :: n in badSeen && latest[n].detail == detail
        decreases left
      {
        var n :| n in left;
        left := left - {n};
        var nr := latest[n];
        if nr.at < cutoff { continue; }
        if nr.ok {
          oks := oks + 1;
          okSeen := okSeen + {n};
        } else {
          bads := bads + 1;
          badSeen := badSeen + {n};
          if detail == "" {
            detail := nr.detail;
          }
        }
      }
      assert okSeen == Fresh(latest, cutoff, true) && badSeen == Fresh(latest, cutoff, false);
    }

    /** The first critical section of a submission. */
    method Record(id: string, node: string, r: NodeResult)
      modifies this
      ensures perCheck == Recorded(old(perCheck), id, node, r)
      ensures id == "" ==> perCheck == old(perCheck)
      ensures id != "" ==>
                && perCheck.Keys == old(perCheck).Keys + {id}
                && (forall k :: k in old(perCheck) && k != id ==> perCheck[k] == old(perCheck)[k])
                && perCheck[id].latest == (if id in old(perCheck) then old(perCheck)[id].latest else map[])[node := r]
                && perCheck[id].hyst == if id in old(perCheck) then old(perCheck)[id].hyst
                                        else Hysteresis(Unknown, Unknown, 0)
    {
      if id == "" { return; }
      var st := if id in perCheck then perCheck[id] else INITIAL;
      perCheck := perCheck[id := st.(latest := st.latest[node := r])];
    }

    /**
     The second one; the check's state may have been dropped in between. A transition
     comes with a summary, which looks the check up `again` and reads the clock `later`.
     */
    method Evaluate(checks: seq<Check>, id: string, now: int, again: seq<Check>, later: int)
      returns (fired: Option<Transition>, summary: Option<Summary>)
      modifies this
      ensures (perCheck, fired) == Evaluated(old(perCheck), checks, id, now)
      ensures id in perCheck <==> id in old(perCheck) && exists x :: x in checks && x.id == id
      ensures perCheck - {id} == old(perCheck) - {id}
      ensures id in perCheck ==> perCheck[id].latest == old(perCheck)[id].latest
      ensures summary.Some? <==> fired.Some?
      ensures fired.Some? ==> id in perCheck && Shows(summary.value, perCheck[id], again, id, later)
      ensures fired.Some? ==> fired.value == Transition(old(perCheck)[id].hyst.committed, perCheck[id].hyst.committed)
      ensures fired.Some? <==> id in perCheck && perCheck[id].hyst.committed != old(perCheck)[id].hyst.committed
    {
      fired, summary := None, None;
      var check := LookupCheck(checks, id);
      if check == None {
        perCheck := perCheck - {id};
        return;
      }
      if id !in perCheck { return; }
      var st := perCheck[id];
      var oks, bads, _ := Tally(st.latest, now - FreshWindow(check.value.interval));
      var candidate := Unknown;
      if oks + bads == 0 {
      } else if bads > oks {
        candidate := Down;
      } else {
        candidate := Up;
      }
      var h := st.hyst;
      if candidate == h.candidate {
        h := h.(consecutive := h.consecutive + 1);
      } else {
        h := h.(candidate := candidate, consecutive := 1);
      }
      if candidate != h.committed && h.consecutive >= HYSTERESIS_COUNT {
        fired := Some(Transition(h.committed, candidate));
        h := h.(committed := candidate);
      }
      st := st.(hyst := h);
      perCheck := perCheck[id := st];
      if fired.Some? {
        var shown := Summarise(st, again, id, later);
        summary := Some(shown);
      }
    }

    /** A submission that nothing interrupts. */
    method Submit(checks: seq<Check>, id: string, node: string, r: NodeResult, now: int)
      returns (fired: Option<Transition>, summary: Option<Summary>)
      modifies this
      ensures if id == "" then perCheck == old(perCheck) && fired == None
              else (perCheck, fired) == Evaluated(Recorded(old(perCheck), id, node, r), checks, id, now)
      ensures summary.Some? <==> fired.Some?
      ensures fired.Some? ==> id in perCheck && Shows(summary.value, perCheck[id], checks, id, now)
    {
      if id == "" { return None, None; }
      Record(id, node, r);
      fired, summary := Evaluate(checks, id, now, checks, now);
    }

    /** The counts that alerts and status show. */
    method SnapshotFor(checks: seq<Check>, id: string, now: int) returns (r: Option<Summary>)
      ensures r.Some? <==> id in perCheck
      ensures r.Some? ==> Shows(r.value, perCheck[id], checks, id, now)
    {
      if id !in perCheck { return None; }
      var shown := Summarise(perCheck[id], checks, id, now);
      r := Some(shown);
    }

    method Summarise(st: CheckState, checks: seq<Check>, id: string, now: int) returns (r: Summary)
      ensures Shows(r, st, checks, id, now)
    {
      var check := LookupCheck(checks, id);
      var window := 60 * SECOND;
      if check != None {
        window := FreshWindow(check.value.interval);
      }
      var oks, bads, detail := Tally(st.latest, now - window);
      r := Summary(id, st.hyst.committed, oks + bads, oks, bads, detail);
    }
  }
}
