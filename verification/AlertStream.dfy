/** What reaches the alert channels: the transition filter, the verbs and their order. */
module AlertStream {
  import opened Config
  import opened Aggregator
  import opened HysteresisLaws
  import EffectiveAlerts

  datatype Verb = DOWN | RECOVERED | UP | UNKNOWN

  predicate ShouldAlert(before: Verdict, after: Verdict) {
    if after == Unknown then false
    else !(before == Unknown && after == Up)
  }

  function TransitionVerb(before: Verdict, after: Verdict): Verb {
    match after
    case Down => DOWN
    case Up => if before == Down then RECOVERED else UP
    case Unknown => UNKNOWN
  }

  /** The verb that a transition puts on the channels, if any. */
  function Verbs(t: Transition): seq<Verb> {
    if ShouldAlert(t.before, t.after) then [TransitionVerb(t.before, t.after)] else []
  }

  datatype Message = Message(alert: Alert, verb: Verb)

  /** One message per effective alert, in their order, all with the same verb; none when filtered out. */
  method OnTransition(alerts: seq<Alert>, check: Check, t: Transition) returns (sent: seq<Message>)
    ensures Verbs(t) == [] ==> sent == []
    ensures Verbs(t) != [] ==>
              && |sent| == |EffectiveAlerts.Effective(alerts, check)|
              && forall i :: 0 <= i < |sent| ==>
                   sent[i] == Message(EffectiveAlerts.Effective(alerts, check)[i], Verbs(t)[0])
  {
    sent := [];
    if !ShouldAlert(t.before, t.after) { return; }
    var effective := EffectiveAlerts.EffectiveAlertsFor(alerts, check);
    for i := 0 to |effective|
      invariant |sent| == i
      invariant forall j :: 0 <= j < i ==> sent[j] == Message(effective[j], TransitionVerb(t.before, t.after))
    {
      sent := sent + [Message(effective[i], TransitionVerb(t.before, t.after))];
    }
  }

  // ----- the language of the stream -----

  /** (DOWN | DOWN RECOVERED)* */
  predicate InLanguage(vs: seq<Verb>) {
    if vs == [] then true
    else vs[0] == DOWN
         && (InLanguage(vs[1..]) || (|vs| >= 2 && vs[1] == RECOVERED && InLanguage(vs[2..])))
  }

  /** Only DOWN and RECOVERED, and every RECOVERED right after a DOWN. */
  predicate Paired(vs: seq<Verb>) {
    && (forall i :: 0 <= i < |vs| ==> vs[i] == DOWN || vs[i] == RECOVERED)
    && (vs != [] ==> vs[0] == DOWN)
    && (forall i, j :: 0 <= i < |vs| && j == i + 1 < |vs| && vs[j] == RECOVERED ==> vs[i] == DOWN)
  }

  lemma PairedTail(vs: seq<Verb>, k: nat)
    requires Paired(vs) && k <= |vs| && (k < |vs| ==> vs[k] == DOWN)
    ensures Paired(vs[k..])
  {
  }

  lemma PairedPrepend(head: seq<Verb>, vs: seq<Verb>)
    requires Paired(head) && Paired(vs)
    ensures Paired(head + vs)
  {
  }

  /** The two descriptions of the language agree. */
  lemma {:induction false} LanguageIsPaired(vs: seq<Verb>)
    ensures InLanguage(vs) <==> Paired(vs)
  {
    if vs != [] {
      LanguageIsPaired(vs[1..]);
      if |vs| >= 2 {
        LanguageIsPaired(vs[2..]);
      }
      if InLanguage(vs) {
        if InLanguage(vs[1..]) {
          PairedPrepend([DOWN], vs[1..]);
          assert vs == [DOWN] + vs[1..];
        } else {
          PairedPrepend([DOWN, RECOVERED], vs[2..]);
          assert vs == [DOWN, RECOVERED] + vs[2..];
        }
      }
      if Paired(vs) {
        if |vs| >= 2 && vs[1] == RECOVERED {
          PairedTail(vs, 2);
        } else {
          PairedTail(vs, 1);
        }
      }
    }
  }

  /** The verbs that a check's history puts on the channels, on a node that is master throughout. */
  function Stream(es: seq<Event>): seq<Verb> {
    if es == [] then []
    else
      var front := es[..|es| - 1];
      Stream(front) + StepVerbs(Follow(front), es[|es| - 1])
  }

  function StepVerbs(h: Hysteresis, e: Event): seq<Verb> {
    match e
    case Judged(v) => (match Announced(h, v) case None => [] case Some(t) => Verbs(t))
    case Dropped => []
  }

  function VerbsOf(ts: seq<Transition>): seq<Verb> {
    if ts == [] then [] else VerbsOf(ts[..|ts| - 1]) + Verbs(ts[|ts| - 1])
  }

  /** Announcing one more step keeps the pairing; in state Down the last verb was DOWN. */
  lemma StreamStep(vs: seq<Verb>, h: Hysteresis, e: Event)
    requires Paired(vs) && (h.committed == Down ==> vs != [] && vs[|vs| - 1] == DOWN)
    ensures var more, g := vs + StepVerbs(h, e), Moved(h, e);
            Paired(more) && (g.committed == Down ==> more != [] && more[|more| - 1] == DOWN)
  {
    var new_ := StepVerbs(h, e);
    if new_ == [] {
      assert vs + [] == vs;
    } else if new_ == [RECOVERED] {
      PairedGrows(vs);
    } else {
      assert new_ == [DOWN];
      PairedPrepend(vs, [DOWN]);
    }
  }

  lemma PairedGrows(vs: seq<Verb>)
    requires Paired(vs) && vs != [] && vs[|vs| - 1] == DOWN
    ensures Paired(vs + [RECOVERED])
  {
  }

  /**
   For every history of a check, through spells of Unknown and through removals of
   the check, the stream lies in (DOWN | DOWN RECOVERED)*: UP never fires, and every
   RECOVERED follows a DOWN directly.
   */
  lemma {:induction false} StreamInLanguage(es: seq<Event>)
    ensures InLanguage(Stream(es)) && Paired(Stream(es))
    ensures Follow(es).committed == Down ==> Stream(es) != [] && Stream(es)[|Stream(es)| - 1] == DOWN
  {
    if es != [] {
      var front := es[..|es| - 1];
      StreamInLanguage(front);
      StreamStep(Stream(front), Follow(front), es[|es| - 1]);
    }
    LanguageIsPaired(Stream(es));
  }

  /** The same for every run of reports and evaluations, check by check. */
  lemma AnnouncementsInLanguage(steps: seq<Step>, id: string)
    ensures InLanguage(VerbsOf(AnnouncedIn(steps, id)))
  {
    HistoryDecides(steps, id);
    StreamIsVerbs(Events(steps, id));
    StreamInLanguage(Events(steps, id));
  }

  lemma {:induction false} StreamIsVerbs(es: seq<Event>)
    ensures Stream(es) == VerbsOf(Fired(es))
  {
    if es != [] {
      var front, e := es[..|es| - 1], es[|es| - 1];
      StreamIsVerbs(front);
      var ts := StepAnnounces(Follow(front), e);
      if ts == [] {
        assert Fired(front) + [] == Fired(front) && Stream(front) + [] == Stream(front);
      } else {
        VerbsSnoc(Fired(front), ts[0]);
      }
    }
  }

  lemma VerbsSnoc(a: seq<Transition>, t: Transition)
    ensures VerbsOf(a + [t]) == VerbsOf(a) + Verbs(t)
  {
    assert (a + [t])[..|a|] == a;
  }

  // ----- mastership that comes and goes -----

  /** A transition on its way to the channels; it is passed on only by a node that is master then. */
  datatype Dispatch = Dispatch(t: Transition, master: bool)

  function Passed(d: Dispatch): seq<Verb> { if d.master then Verbs(d.t) else [] }

  function Sent(ds: seq<Dispatch>): seq<Verb> {
    if ds == [] then [] else Sent(ds[..|ds| - 1]) + Passed(ds[|ds| - 1])
  }

  /** What one step does to the stream: an outage passed on, a recovery passed on, or nothing. */
  datatype Mark = Opens | Closes | Nothing

  function VerbOf(m: Mark): seq<Verb> {
    match m
    case Opens => [DOWN]
    case Closes => [RECOVERED]
    case Nothing => []
  }

  function StreamOf(ms: seq<Mark>): seq<Verb> {
    if ms == [] then [] else StreamOf(ms[..|ms| - 1]) + VerbOf(ms[|ms| - 1])
  }

  /** Step `j` opened what is still open before step `i`. */
  predicate OpenedBy(ms: seq<Mark>, i: int, j: int) {
    0 <= j < i <= |ms| && ms[j] == Opens && forall k :: j < k < i ==> ms[k] != Closes
  }

  /** An outage was passed on before `i`, and no recovery since. */
  ghost predicate Open(ms: seq<Mark>, i: int) { exists j :: OpenedBy(ms, i, j) }

  /** Every recovery passed on closes an outage passed on. */
  ghost predicate Matched(ms: seq<Mark>) {
    forall i :: 0 <= i < |ms| && ms[i] == Closes ==> Open(ms, i)
  }

  predicate EndsDown(vs: seq<Verb>) { vs != [] && vs[|vs| - 1] == DOWN }

  lemma OpenSnoc(ms: seq<Mark>, m: Mark)
    ensures Open(ms + [m], |ms| + 1) <==> m == Opens || (Open(ms, |ms|) && m != Closes)
    ensures forall i :: 0 <= i <= |ms| ==> (Open(ms + [m], i) <==> Open(ms, i))
  {
    var all, n := ms + [m], |ms|;
    assert all[n] == m && forall i :: 0 <= i < n ==> all[i] == ms[i];
    assert forall i, j :: 0 <= i <= n ==> (OpenedBy(all, i, j) <==> OpenedBy(ms, i, j));
    forall j ensures OpenedBy(all, n + 1, j) <==> (j == n && m == Opens) || (OpenedBy(ms, n, j) && m != Closes) {
      if 0 <= j < n {
        assert OpenedBy(all, n, j) <==> OpenedBy(ms, n, j);
        assert OpenedBy(all, n + 1, j) ==> all[n] != Closes;
      }
    }
    if Open(all, n + 1) {
      var j :| OpenedBy(all, n + 1, j);
      assert (j == n && m == Opens) || (OpenedBy(ms, n, j) && m != Closes);
    }
    if Open(ms, n) && m != Closes {
      var j :| OpenedBy(ms, n, j);
      assert OpenedBy(all, n + 1, j);
    }
    if m == Opens {
      assert OpenedBy(all, n + 1, n);
    }
  }

  lemma MatchedSnoc(ms: seq<Mark>, m: Mark)
    ensures Matched(ms + [m]) <==> Matched(ms) && (m == Closes ==> Open(ms, |ms|))
  {
    var all := ms + [m];
    OpenSnoc(ms, m);
    assert all[|ms|] == m && forall i :: 0 <= i < |ms| ==> all[i] == ms[i];
  }

  /** What one more mark does to the pairing. */
  lemma MarkKeeps(vs: seq<Verb>, m: Mark)
    ensures Paired(vs + VerbOf(m)) <==> Paired(vs) && (m == Closes ==> EndsDown(vs))
    ensures Paired(vs) ==> (EndsDown(vs + VerbOf(m)) <==> m == Opens || (EndsDown(vs) && m != Closes))
  {
    var more := vs + VerbOf(m);
    if m == Nothing {
      assert more == vs;
    } else {
      assert more[|vs|] == VerbOf(m)[0];
      assert forall i :: 0 <= i < |vs| ==> more[i] == vs[i];
      if Paired(more) {
        assert Paired(vs) by {
          assert forall i :: 0 <= i < |vs| ==> vs[i] == DOWN || vs[i] == RECOVERED;
        }
      }
    }
  }

  lemma {:induction false} PairedExactly(ms: seq<Mark>)
    ensures Paired(StreamOf(ms)) <==> Matched(ms)
    ensures Paired(StreamOf(ms)) ==> (EndsDown(StreamOf(ms)) <==> Open(ms, |ms|))
  {
    if ms != [] {
      var front, m := ms[..|ms| - 1], ms[|ms| - 1];
      PairedExactly(front);
      MarkKeeps(StreamOf(front), m);
      OpenSnoc(front, m);
      MatchedSnoc(front, m);
      assert ms == front + [m];
    }
  }

  function MarkOf(d: Dispatch): Mark {
    if d.master && d.t.after == Down then Opens
    else if d.master && d.t.before == Down && d.t.after == Up then Closes
    else Nothing
  }

  function Marks(ds: seq<Dispatch>): seq<Mark> {
    if ds == [] then [] else Marks(ds[..|ds| - 1]) + [MarkOf(ds[|ds| - 1])]
  }

  predicate Changing(ds: seq<Dispatch>) { forall i :: 0 <= i < |ds| ==> ds[i].t.before != ds[i].t.after }

  /**
   Exactly when what a node sends stays in the language, whatever the order in which
   transitions are dispatched and however often it gains and loses the role: when every
   recovery it passes on follows an outage that it passed on, with no other such
   recovery in between.
   */
  lemma DispatchedExactly(ds: seq<Dispatch>)
    requires Changing(ds)
    ensures InLanguage(Sent(ds)) <==> Matched(Marks(ds))
  {
    SentIsMarked(ds);
    PairedExactly(Marks(ds));
    LanguageIsPaired(Sent(ds));
  }

  lemma PassedIsMarked(d: Dispatch)
    requires d.t.before != d.t.after
    ensures Passed(d) == VerbOf(MarkOf(d))
  {
  }

  lemma StreamOfSnoc(ms: seq<Mark>, m: Mark)
    ensures StreamOf(ms + [m]) == StreamOf(ms) + VerbOf(m)
  {
    assert (ms + [m])[..|ms|] == ms;
  }

  lemma {:induction false} SentIsMarked(ds: seq<Dispatch>)
    requires Changing(ds)
    ensures Sent(ds) == StreamOf(Marks(ds))
  {
    if ds != [] {
      SentIsMarked(ds[..|ds| - 1]);
      PassedIsMarked(ds[|ds| - 1]);
      StreamOfSnoc(Marks(ds[..|ds| - 1]), MarkOf(ds[|ds| - 1]));
    }
  }

  /** What a run dispatches about one check; `on` tells at which steps the node is master. */
  ghost function Dispatches(steps: seq<Step>, id: string, on: seq<bool>): seq<Dispatch>
    requires |on| == |steps|
  {
    if steps == [] then []
    else
      var n := |steps| - 1;
      Dispatches(steps[..n], id, on[..n]) + Flagged(News(RunBoard(steps[..n]), steps[n], id), on[n])
  }

  function Flagged(ts: seq<Transition>, master: bool): seq<Dispatch> {
    seq(|ts|, i requires 0 <= i < |ts| => Dispatch(ts[i], master))
  }

  /** What a step does to the state of the check, when the node is master at it. */
  function Shift(b: Board, s: Step, id: string, master: bool): Mark {
    var was, now := StateOf(b, id).committed, StateOf(After(b, s).0, id).committed;
    if master && was != Down && now == Down then Opens
    else if master && was == Down && now == Up then Closes
    else Nothing
  }

  ghost function Shifts(steps: seq<Step>, id: string, on: seq<bool>): (ms: seq<Mark>)
    requires |on| == |steps|
    ensures |ms| == |steps|
  {
    if steps == [] then []
    else
      var n := |steps| - 1;
      Shifts(steps[..n], id, on[..n]) + [Shift(RunBoard(steps[..n]), steps[n], id, on[n])]
  }

  /**
   For every run and every pattern of mastership: what is sent about a check stays in
   the language exactly if every step that takes it from Down to Up while the node is
   master comes after a step into Down while the node was master, with no such recovery
   in between.
   */
  lemma RunInLanguageExactly(steps: seq<Step>, id: string, on: seq<bool>)
    requires |on| == |steps|
    ensures InLanguage(Sent(Dispatches(steps, id, on))) <==> Matched(Shifts(steps, id, on))
  {
    RunIsMarked(steps, id, on);
    PairedExactly(Shifts(steps, id, on));
    LanguageIsPaired(Sent(Dispatches(steps, id, on)));
  }

  lemma {:induction false} RunIsMarked(steps: seq<Step>, id: string, on: seq<bool>)
    requires |on| == |steps|
    ensures Sent(Dispatches(steps, id, on)) == StreamOf(Shifts(steps, id, on))
  {
    if steps != [] {
      var n := |steps| - 1;
      var front, b := Dispatches(steps[..n], id, on[..n]), RunBoard(steps[..n]);
      RunIsMarked(steps[..n], id, on[..n]);
      StepIsMarked(front, b, steps[n], id, on[n]);
      StreamOfSnoc(Shifts(steps[..n], id, on[..n]), Shift(b, steps[n], id, on[n]));
    }
  }

  lemma StepIsMarked(ds: seq<Dispatch>, b: Board, s: Step, id: string, master: bool)
    ensures Sent(ds + Flagged(News(b, s, id), master)) == Sent(ds) + VerbOf(Shift(b, s, id, master))
  {
    StepFollows(b, s, id);
    var ts := News(b, s, id);
    if ts == [] {
      assert ds + Flagged(ts, master) == ds && Sent(ds) + [] == Sent(ds);
    } else {
      var d := Dispatch(ts[0], master);
      assert ds + Flagged(ts, master) == ds + [d];
      assert (ds + [d])[..|ds|] == ds;
    }
  }

  /** Whether the node was master at the check's latest evaluation. */
  function WasMaster(steps: seq<Step>, id: string, on: seq<bool>): bool
    requires |on| == |steps|
  {
    if steps == [] then false
    else
      var n := |steps| - 1;
      if steps[n].Evaluation? && steps[n].checkId == id then on[n] else WasMaster(steps[..n], id, on[..n])
  }

  /** The check is never down at its first evaluation in a term. */
  ghost predicate CleanTerms(steps: seq<Step>, id: string, on: seq<bool>)
    requires |on| == |steps|
  {
    steps == [] ||
    var n := |steps| - 1;
    && CleanTerms(steps[..n], id, on[..n])
    && (steps[n].Evaluation? && steps[n].checkId == id && on[n] && !WasMaster(steps[..n], id, on[..n]) ==>
          StateOf(RunBoard(steps[..n]), id).committed != Down)
  }

  /** A node that finds the check not down whenever a term begins always keeps to the language. */
  lemma CleanTermsInLanguage(steps: seq<Step>, id: string, on: seq<bool>)
    requires |on| == |steps| && CleanTerms(steps, id, on)
    ensures InLanguage(Sent(Dispatches(steps, id, on)))
  {
    CleanTermsMatch(steps, id, on);
    RunInLanguageExactly(steps, id, on);
  }

  lemma {:induction false} CleanTermsMatch(steps: seq<Step>, id: string, on: seq<bool>)
    requires |on| == |steps| && CleanTerms(steps, id, on)
    ensures Matched(Shifts(steps, id, on))
    ensures WasMaster(steps, id, on) && StateOf(RunBoard(steps), id).committed == Down
            ==> Open(Shifts(steps, id, on), |steps|)
  {
    if steps != [] {
      var n := |steps| - 1;
      var b, ms := RunBoard(steps[..n]), Shifts(steps[..n], id, on[..n]);
      CleanTermsMatch(steps[..n], id, on[..n]);
      StepFollows(b, steps[n], id);
      MatchedSnoc(ms, Shift(b, steps[n], id, on[n]));
      OpenSnoc(ms, Shift(b, steps[n], id, on[n]));
    }
  }

  /** Two equal verdicts in a row that differ from the state fire one transition. */
  lemma TwiceFires(es: seq<Event>, v: Verdict)
    requires Follow(es).committed != v && Follow(es).candidate != v
    ensures Follow(es + [Judged(v)] + [Judged(v)]) == Hysteresis(v, v, 2)
    ensures Fired(es + [Judged(v)] + [Judged(v)]) == Fired(es) + [Transition(Follow(es).committed, v)]
  {
    FollowSnoc(es, Judged(v));
    FollowSnoc(es + [Judged(v)], Judged(v));
    assert Fired(es) + [] == Fired(es);
  }

  function Twice(v: Verdict): seq<Event> { [Judged(v), Judged(v)] }

  lemma TwiceMore(es: seq<Event>, v: Verdict)
    requires Follow(es).committed != v && Follow(es).candidate != v
    ensures Follow(es + Twice(v)) == Hysteresis(v, v, 2)
    ensures Fired(es + Twice(v)) == Fired(es) + [Transition(Follow(es).committed, v)]
  {
    TwiceFires(es, v);
    assert es + [Judged(v)] + [Judged(v)] == es + Twice(v);
  }

  function OneOutage(): seq<Event> { Twice(Down) + Twice(Up) }

  /** A check that goes down and up, and down and up again. */
  lemma TwoOutages()
    ensures Fired(OneOutage()) == [Transition(Unknown, Down), Transition(Down, Up)]
    ensures Fired(OneOutage() + Twice(Down) + Twice(Up))
            == [Transition(Unknown, Down), Transition(Down, Up), Transition(Up, Down), Transition(Down, Up)]
  {
    var none: seq<Event> := [];
    TwiceMore(none, Down);
    assert none + Twice(Down) == Twice(Down);
    TwiceMore(Twice(Down), Up);
    TwiceMore(OneOutage(), Down);
    TwiceMore(OneOutage() + Twice(Down), Up);
  }

  lemma SentTwo(ds: seq<Dispatch>, d: Dispatch, e: Dispatch)
    ensures Sent(ds + [d, e]) == Sent(ds) + Passed(d) + Passed(e)
  {
    assert (ds + [d, e])[..|ds| + 1] == ds + [d];
    assert (ds + [d])[..|ds|] == ds;
  }

  lemma SentFour(a: Dispatch, b: Dispatch, c: Dispatch, d: Dispatch)
    ensures Sent([a, b]) == Passed(a) + Passed(b)
    ensures Sent([a, b, c, d]) == Passed(a) + Passed(b) + Passed(c) + Passed(d)
  {
    SentTwo([], a, b);
    assert [] + [a, b] == [a, b] && [] + Passed(a) == Passed(a);
    SentTwo([a, b], c, d);
    assert [a, b] + [c, d] == [a, b, c, d];
  }

  lemma LoneRecoveries()
    ensures !InLanguage([RECOVERED]) && !InLanguage([DOWN, RECOVERED, RECOVERED])
  {
    LanguageIsPaired([DOWN, RECOVERED, RECOVERED]);
    var vs := [DOWN, RECOVERED, RECOVERED];
    assert vs[2] == RECOVERED && vs[1] != DOWN;
  }

  /** A node that becomes master between outage and recovery sends a RECOVERED of its own accord. */
  lemma NewMasterBreaksPairing() returns (down: Dispatch, up: Dispatch)
    ensures [down.t, up.t] == Fired(OneOutage()) && !down.master && up.master
    ensures Sent([down, up]) == [RECOVERED] && !InLanguage(Sent([down, up]))
  {
    TwoOutages();
    down, up := Dispatch(Transition(Unknown, Down), false), Dispatch(Transition(Down, Up), true);
    SentFour(down, up, down, up);
    LoneRecoveries();
  }

  /** One that loses the role for an outage and regains it before the recovery sends RECOVERED twice in a row. */
  lemma SecondTermBreaksPairing() returns (down: Dispatch, up: Dispatch, unseen: Dispatch, again: Dispatch)
    ensures [down.t, up.t, unseen.t, again.t] == Fired(OneOutage() + Twice(Down) + Twice(Up))
    ensures down.master && up.master && !unseen.master && again.master
    ensures Sent([down, up, unseen, again]) == [DOWN, RECOVERED, RECOVERED]
    ensures !InLanguage(Sent([down, up, unseen, again]))
  {
    TwoOutages();
    down, up := Dispatch(Transition(Unknown, Down), true), Dispatch(Transition(Down, Up), true);
    unseen, again := Dispatch(Transition(Up, Down), false), Dispatch(Transition(Down, Up), true);
    SentFour(down, up, unseen, again);
    LoneRecoveries();
  }

  /** The documented one-shot UP for a check that is first seen healthy is filtered out. */
  lemma FirstUpIsSilent()
    ensures Fired([Judged(Up), Judged(Up)]) == [Transition(Unknown, Up)]
    ensures Stream([Judged(Up), Judged(Up)]) == []
  {
    FollowSnoc([], Judged(Up));
    FollowSnoc([Judged(Up)], Judged(Up));
    assert [] + [Judged(Up)] == [Judged(Up)];
    assert [Judged(Up)] + [Judged(Up)] == [Judged(Up), Judged(Up)];
    StreamIsVerbs([Judged(Up), Judged(Up)]);
    var one := Transition(Unknown, Up);
    assert [one][..0] == [];
    assert VerbsOf([one]) == [];
  }
}
