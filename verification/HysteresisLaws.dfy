/** The aggregator's state machine, against what its evaluation history says. */
module HysteresisLaws {
  import opened Options
  import opened Aggregator

  /** What one evaluation amounts to: a verdict, or the check's removal. */
  datatype Event = Judged(v: Verdict) | Dropped

  ghost function RunBoard(steps: seq<Step>): Board {
    if steps == [] then map[] else After(RunBoard(steps[..|steps| - 1]), steps[|steps| - 1]).0
  }

  /** What a step means for check `id`; an evaluation without a state to evaluate means nothing. */
  function EventsOf(b: Board, s: Step, id: string): seq<Event> {
    if s.Report? || s.checkId != id then []
    else
      match Configured(s.checks, id)
      case None => [Dropped]
      case Some(check) =>
        if id in b then [Judged(Vote(b[id].latest, s.now - FreshWindow(check.interval)))] else []
  }

  /** The history of one check within a run of interleaved reports and evaluations. */
  ghost function Events(steps: seq<Step>, id: string): seq<Event> {
    if steps == [] then []
    else Events(steps[..|steps| - 1], id) + EventsOf(RunBoard(steps[..|steps| - 1]), steps[|steps| - 1], id)
  }

  /** What a step announces about check `id`. */
  function News(b: Board, s: Step, id: string): seq<Transition> {
    if s.checkId == id then Listed(After(b, s).1) else []
  }

  /** The transitions announced for one check within a run. */
  ghost function AnnouncedIn(steps: seq<Step>, id: string): seq<Transition> {
    if steps == [] then []
    else AnnouncedIn(steps[..|steps| - 1], id) + News(RunBoard(steps[..|steps| - 1]), steps[|steps| - 1], id)
  }

  function Listed(t: Option<Transition>): seq<Transition> {
    match t
    case None => []
    case Some(x) => [x]
  }

  /** The same, computed from the history alone. */
  function Follow(es: seq<Event>): Hysteresis {
    if es == [] then INITIAL.hyst else Moved(Follow(es[..|es| - 1]), es[|es| - 1])
  }

  function Moved(h: Hysteresis, e: Event): Hysteresis {
    match e
    case Judged(v) => Advance(h, v)
    case Dropped => INITIAL.hyst
  }

  function StepAnnounces(h: Hysteresis, e: Event): seq<Transition> {
    match e
    case Judged(v) => Listed(Announced(h, v))
    case Dropped => []
  }

  function Fired(es: seq<Event>): seq<Transition> {
    if es == [] then []
    else Fired(es[..|es| - 1]) + StepAnnounces(Follow(es[..|es| - 1]), es[|es| - 1])
  }

  lemma FollowSnoc(es: seq<Event>, e: Event)
    ensures Follow(es + [e]) == Moved(Follow(es), e)
    ensures Fired(es + [e]) == Fired(es) + StepAnnounces(Follow(es), e)
  {
    assert (es + [e])[..|es|] == es;
  }

  function StateOf(b: Board, id: string): Hysteresis { if id in b then b[id].hyst else INITIAL.hyst }

  /** A report changes no check's state; an evaluation moves its own check as its event says. */
  lemma StepFollows(b: Board, s: Step, id: string)
    ensures var es := EventsOf(b, s, id);
            && |es| <= 1
            && StateOf(After(b, s).0, id) == (if es == [] then StateOf(b, id) else Moved(StateOf(b, id), es[0]))
            && News(b, s, id) == (if es == [] then [] else StepAnnounces(StateOf(b, id), es[0]))
  {
  }

  /**
   In every run, however the reports and evaluations of all checks interleave, the
   state and the announcements of a check are those of its own evaluation history.
   */
  lemma {:induction false} HistoryDecides(steps: seq<Step>, id: string)
    ensures StateOf(RunBoard(steps), id) == Follow(Events(steps, id))
    ensures AnnouncedIn(steps, id) == Fired(Events(steps, id))
  {
    if steps != [] {
      var front, s := steps[..|steps| - 1], steps[|steps| - 1];
      var es, more := Events(front, id), EventsOf(RunBoard(front), s, id);
      HistoryDecides(front, id);
      StepFollows(RunBoard(front), s, id);
      if more == [] {
        assert es + [] == es && Fired(es) + [] == Fired(es);
      } else {
        FollowSnoc(es, more[0]);
        assert more == [more[0]];
      }
    }
  }

  // ----- what the history says -----

  /** The verdicts evaluated since the check was last dropped. */
  function SinceDrop(es: seq<Event>): seq<Verdict> {
    if es == [] || es[|es| - 1].Dropped? then []
    else SinceDrop(es[..|es| - 1]) + [es[|es| - 1].v]
  }

  /** `n` is the length of the run of equal verdicts that `vs` ends with. */
  predicate TrailingRun(vs: seq<Verdict>, n: nat) {
    && n <= |vs|
    && (forall i :: |vs| - n <= i < |vs| ==> vs[i] == vs[|vs| - 1])
    && (n < |vs| ==> n > 0 && vs[|vs| - n - 1] != vs[|vs| - 1])
  }

  predicate Repeats(vs: seq<Verdict>, i: int) { 1 <= i < |vs| && vs[i] == vs[i - 1] }

  /** `c` is the verdict that last came twice in a row, `Unknown` when none did. */
  ghost predicate LastRepeated(vs: seq<Verdict>, c: Verdict) {
    || (c == Unknown && forall i :: !Repeats(vs, i))
    || (exists i :: Repeats(vs, i) && vs[i] == c && forall j :: i < j ==> !Repeats(vs, j))
  }

  /** The machine's state is exactly that summary of the history. */
  ghost predicate Summarises(h: Hysteresis, vs: seq<Verdict>) {
    && LastRepeated(vs, h.committed)
    && TrailingRun(vs, h.consecutive)
    && h.candidate == if vs == [] then Unknown else vs[|vs| - 1]
  }

  lemma AdvanceSummarises(h: Hysteresis, vs: seq<Verdict>, v: Verdict)
    requires Summarises(h, vs)
    ensures Summarises(Advance(h, v), vs + [v])
  {
    var ws, n := vs + [v], |vs|;
    var g := Advance(h, v);
    assert TrailingRun(ws, g.consecutive);
    assert forall i :: Repeats(vs, i) ==> Repeats(ws, i);
    assert forall i :: Repeats(ws, i) && i < n ==> Repeats(vs, i);
    if Repeats(ws, n) {
      assert g.committed == v == ws[n];
    } else {
      assert g.committed == h.committed;
    }
  }

  lemma {:induction false} StateSummarisesHistory(es: seq<Event>)
    ensures Summarises(Follow(es), SinceDrop(es))
  {
    if es != [] {
      StateSummarisesHistory(es[..|es| - 1]);
      if es[|es| - 1].Judged? {
        AdvanceSummarises(Follow(es[..|es| - 1]), SinceDrop(es[..|es| - 1]), es[|es| - 1].v);
      }
    }
  }

  /** Every transition leaves the state the one before it reached, from `start` to `end`. */
  predicate Chain(ts: seq<Transition>, start: Verdict, end: Verdict) {
    && (forall i :: 0 <= i < |ts| ==> ts[i].before != ts[i].after)
    && (forall i :: 1 <= i < |ts| ==> ts[i].before == ts[i - 1].after)
    && (if ts == [] then start == end else ts[0].before == start && ts[|ts| - 1].after == end)
  }

  /** The announcements since the check was last dropped. */
  function FiredSinceDrop(es: seq<Event>): seq<Transition> {
    if es == [] || es[|es| - 1].Dropped? then []
    else FiredSinceDrop(es[..|es| - 1]) + StepAnnounces(Follow(es[..|es| - 1]), es[|es| - 1])
  }

  predicate EndsWith(all: seq<Transition>, tail: seq<Transition>) {
    |tail| <= |all| && all[|all| - |tail|..] == tail
  }

  lemma EndsWithMore(all: seq<Transition>, tail: seq<Transition>, more: seq<Transition>)
    requires EndsWith(all, tail)
    ensures EndsWith(all + more, tail + more)
  {
    var k := |all| - |tail|;
    assert (all + more)[k..] == all[k..] + more;
  }

  lemma {:induction false} FiredEndsSinceDrop(es: seq<Event>)
    ensures EndsWith(Fired(es), FiredSinceDrop(es))
  {
    if es == [] || es[|es| - 1].Dropped? {
      assert Fired(es)[|Fired(es)|..] == [];
    } else {
      var front, e := es[..|es| - 1], es[|es| - 1];
      FiredEndsSinceDrop(front);
      EndsWithMore(Fired(front), FiredSinceDrop(front), StepAnnounces(Follow(front), e));
    }
  }

  /**
   They are the last of everything announced, form a chain from Unknown to the
   committed state, and without a repeat there are none.
   */
  lemma AnnouncementsChain(es: seq<Event>)
    ensures EndsWith(Fired(es), FiredSinceDrop(es))
    ensures Chain(FiredSinceDrop(es), Unknown, Follow(es).committed)
    ensures (forall i :: !Repeats(SinceDrop(es), i)) ==> FiredSinceDrop(es) == []
  {
    FiredEndsSinceDrop(es);
    ChainSinceDrop(es);
  }

  lemma {:induction false} ChainSinceDrop(es: seq<Event>)
    ensures Chain(FiredSinceDrop(es), Unknown, Follow(es).committed)
    ensures (forall i :: !Repeats(SinceDrop(es), i)) ==> FiredSinceDrop(es) == []
  {
    if es != [] {
      var front, e := es[..|es| - 1], es[|es| - 1];
      ChainSinceDrop(front);
      if e.Judged? {
        ChainGrows(FiredSinceDrop(front), Follow(front), e.v);
        StateSummarisesHistory(front);
        NoRepeatNoNews(SinceDrop(front), Follow(front), e.v);
        assert SinceDrop(es) == SinceDrop(front) + [e.v];
        assert FiredSinceDrop(es) == FiredSinceDrop(front) + Listed(Announced(Follow(front), e.v));
      }
    }
  }

  lemma ChainGrows(ts: seq<Transition>, h: Hysteresis, v: Verdict)
    requires Chain(ts, Unknown, h.committed)
    ensures Chain(ts + Listed(Announced(h, v)), Unknown, Advance(h, v).committed)
  {
    if Announced(h, v) == None {
      assert ts + [] == ts;
    }
  }

  lemma NoRepeatNoNews(vs: seq<Verdict>, h: Hysteresis, v: Verdict)
    requires Summarises(h, vs)
    ensures (forall i :: !Repeats(vs + [v], i)) ==> (forall i :: !Repeats(vs, i)) && Announced(h, v) == None
  {
    var ws := vs + [v];
    assert forall i :: Repeats(vs, i) ==> Repeats(ws, i);
    if Announced(h, v).Some? {
      assert v == h.candidate && h.consecutive >= 1;
      assert Repeats(ws, |vs|);
    }
  }
}
