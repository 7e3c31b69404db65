/** Which alerts a check's transition goes to. */
module EffectiveAlerts {
  import opened Lists
  import opened Config

  /** The first alert that answers to `t`, as a list of at most one. */
  function FirstNamed(alerts: seq<Alert>, t: string): seq<Alert> {
    var i := FirstIndex(alerts, AlertNamed(t));
    if i < |alerts| then [alerts[i]] else []
  }

  /** The alerts listed by id or name, in listed order; an entry that names nothing is skipped. */
  function Listed(alerts: seq<Alert>, wanted: seq<string>): seq<Alert> {
    if wanted == [] then []
    else Listed(alerts, wanted[..|wanted| - 1]) + FirstNamed(alerts, wanted[|wanted| - 1])
  }

  /** The alerts attached to every check, in configuration order. */
  function Defaults(alerts: seq<Alert>): seq<Alert> {
    if alerts == [] then []
    else Defaults(alerts[..|alerts| - 1]) + if alerts[|alerts| - 1].isDefault then [alerts[|alerts| - 1]] else []
  }

  predicate Eligible(a: Alert, suppress: seq<string>) {
    !a.disabled && a.id !in suppress && a.name !in suppress
  }

  /** The eligible entries of `s`, each id at its first occurrence only. */
  function Chosen(s: seq<Alert>, suppress: seq<string>): seq<Alert> {
    if s == [] then []
    else
      var r, a := Chosen(s[..|s| - 1], suppress), s[|s| - 1];
      if Eligible(a, suppress) && a.id !in Keys(r, AlertId) then r + [a] else r
  }

  /** Listed first, then defaults. */
  function Candidates(alerts: seq<Alert>, check: Check): seq<Alert> {
    Listed(alerts, check.alertIds) + Defaults(alerts)
  }

  function Effective(alerts: seq<Alert>, check: Check): seq<Alert> {
    Chosen(Candidates(alerts, check), check.suppressAlertIds)
  }

  lemma {:induction false} ChosenAppend(s: seq<Alert>, a: Alert, suppress: seq<string>)
    ensures Chosen(s + [a], suppress)
            == if Eligible(a, suppress) && a.id !in Keys(Chosen(s, suppress), AlertId)
               then Chosen(s, suppress) + [a] else Chosen(s, suppress)
  {
    assert (s + [a])[..|s|] == s;
  }

  lemma ListedNext(alerts: seq<Alert>, wanted: seq<string>, k: nat)
    requires k < |wanted|
    ensures Listed(alerts, wanted[..k + 1]) == Listed(alerts, wanted[..k]) + FirstNamed(alerts, wanted[k])
  {
    assert wanted[..k + 1][..k] == wanted[..k];
  }

  lemma DefaultsNext(alerts: seq<Alert>, k: nat)
    requires k < |alerts|
    ensures Defaults(alerts[..k + 1])
            == if alerts[k].isDefault then Defaults(alerts[..k]) + [alerts[k]] else Defaults(alerts[..k])
  {
    assert alerts[..k + 1][..k] == alerts[..k];
  }

  /** The nested scans, with the sets of suppressed and already chosen ids, in one pass each. */
  method EffectiveAlertsFor(alerts: seq<Alert>, check: Check) returns (out: seq<Alert>)
    ensures out == Effective(alerts, check)
  {
    var suppress := check.suppressAlertIds;
    var seen: set<string> := {};
    out := [];
    for k := 0 to |check.alertIds|
      invariant out == Chosen(Listed(alerts, check.alertIds[..k]), suppress) && seen == Keys(out, AlertId)
    {
      ListedNext(alerts, check.alertIds, k);
      ghost var tried := Listed(alerts, check.alertIds[..k]);
      var i := Search(alerts, AlertNamed(check.alertIds[k]));
      if i < |alerts| {
        out, seen := Add(alerts[i], suppress, out, seen, tried);
      } else {
        assert tried + [] == tried;
      }
    }
    assert check.alertIds[..|check.alertIds|] == check.alertIds;
    out := AddDefaults(alerts, suppress, out, seen, Listed(alerts, check.alertIds));
  }

  method AddDefaults(alerts: seq<Alert>, suppress: seq<string>, out0: seq<Alert>, seen0: set<string>,
                     ghost listed: seq<Alert>)
    returns (out: seq<Alert>)
    requires out0 == Chosen(listed, suppress) && seen0 == Keys(out0, AlertId)
    ensures out == Chosen(listed + Defaults(alerts), suppress)
  {
    var seen := seen0;
    out := out0;
    ghost var tried, defaults := listed, [];
    for i := 0 to |alerts|
      invariant defaults == Defaults(alerts[..i]) && tried == listed + defaults
      invariant out == Chosen(tried, suppress) && seen == Keys(out, AlertId)
    {
      DefaultsNext(alerts, i);
      if alerts[i].isDefault {
        out, seen := Add(alerts[i], suppress, out, seen, tried);
        Regroup(listed, defaults, [alerts[i]]);
        tried, defaults := tried + [alerts[i]], defaults + [alerts[i]];
      }
    }
    assert alerts[..|alerts|] == alerts;
  }

  method Add(a: Alert, suppress: seq<string>, out: seq<Alert>, seen: set<string>, ghost tried: seq<Alert>)
    returns (more: seq<Alert>, seenToo: set<string>)
    requires out == Chosen(tried, suppress) && seen == Keys(out, AlertId)
    ensures more == Chosen(tried + [a], suppress) && seenToo == Keys(more, AlertId)
  {
    ChosenAppend(tried, a, suppress);
    more, seenToo := out, seen;
    if a.disabled || a.id in seen || a.id in suppress || a.name in suppress { return; }
    KeysAppend(out, a, AlertId);
    more, seenToo := out + [a], seen + {a.id};
  }

  // ----- the set it denotes -----

  ghost function EligibleIds(s: seq<Alert>, suppress: seq<string>): set<string> {
    set i | 0 <= i < |s| && Eligible(s[i], suppress) :: s[i].id
  }

  /** The choice drops duplicates and nothing else. */
  lemma {:induction false} ChosenIds(s: seq<Alert>, suppress: seq<string>)
    ensures DistinctBy(Chosen(s, suppress), AlertId)
    ensures Keys(Chosen(s, suppress), AlertId) == EligibleIds(s, suppress)
    ensures forall a :: a in Chosen(s, suppress) ==> a in s && Eligible(a, suppress)
  {
    if s != [] {
      var n := |s| - 1;
      var front, a := s[..n], s[n];
      ChosenIds(front, suppress);
      KeysAppend(Chosen(front, suppress), a, AlertId);
      assert EligibleIds(s, suppress)
             == EligibleIds(front, suppress) + if Eligible(a, suppress) then {a.id} else {} by {
        assert forall i :: 0 <= i < n ==> front[i] == s[i];
      }
    }
  }

  /** `a` is the first match of one of the listed names, or a default. */
  ghost predicate Attached(alerts: seq<Alert>, check: Check, a: Alert) {
    || (exists k :: 0 <= k < |check.alertIds| && FirstNamed(alerts, check.alertIds[k]) == [a])
    || (a in alerts && a.isDefault)
  }

  /** `a` is the first alert whose id or name is `t`. */
  ghost predicate IsFirstMatch(alerts: seq<Alert>, t: string, a: Alert) {
    exists i :: 0 <= i < |alerts| && alerts[i] == a && (a.id == t || a.name == t)
                && forall j :: 0 <= j < i ==> alerts[j].id != t && alerts[j].name != t
  }

  lemma FirstNamedMeans(alerts: seq<Alert>, t: string, a: Alert)
    ensures FirstNamed(alerts, t) == [a] <==> IsFirstMatch(alerts, t, a)
    ensures FirstNamed(alerts, t) == [] <==> forall x :: x in alerts ==> x.id != t && x.name != t
  {
    var i := FirstIndex(alerts, AlertNamed(t));
    assert forall j :: 0 <= j < i ==> !AlertNamed(t)(alerts[j]);
    if IsFirstMatch(alerts, t, a) {
      var k :| 0 <= k < |alerts| && alerts[k] == a && (a.id == t || a.name == t)
               && forall j :: 0 <= j < k ==> alerts[j].id != t && alerts[j].name != t;
      FirstIndexUnique(alerts, AlertNamed(t), k);
    }
    if i < |alerts| {
      assert AlertNamed(t)(alerts[i]) && alerts[i] in alerts;
    }
  }

  lemma {:induction false} ListedMembers(alerts: seq<Alert>, wanted: seq<string>, a: Alert)
    ensures a in Listed(alerts, wanted) <==> exists k :: 0 <= k < |wanted| && FirstNamed(alerts, wanted[k]) == [a]
  {
    if wanted != [] {
      var n := |wanted| - 1;
      ListedMembers(alerts, wanted[..n], a);
      assert forall k :: 0 <= k < n ==> wanted[..n][k] == wanted[k];
      if a in Listed(alerts, wanted) && a !in Listed(alerts, wanted[..n]) {
        assert FirstNamed(alerts, wanted[n]) == [a];
      }
    }
  }

  lemma {:induction false} DefaultsMembers(alerts: seq<Alert>, a: Alert)
    ensures a in Defaults(alerts) <==> a in alerts && a.isDefault
  {
    if alerts != [] {
      DefaultsMembers(alerts[..|alerts| - 1], a);
      assert alerts == alerts[..|alerts| - 1] + [alerts[|alerts| - 1]];
    }
  }

  /**
   With unique alert ids the result has no duplicate id and consists of exactly the
   attached alerts that are neither disabled nor suppressed by id or name.
   */
  lemma EffectiveIsSetFormula(alerts: seq<Alert>, check: Check, a: Alert)
    requires DistinctBy(alerts, AlertId)
    ensures DistinctBy(Effective(alerts, check), AlertId)
    ensures a in Effective(alerts, check)
       <==> && ((exists t :: t in check.alertIds && IsFirstMatch(alerts, t, a)) || (a in alerts && a.isDefault))
            && !a.disabled && a.id !in check.suppressAlertIds && a.name !in check.suppressAlertIds
  {
    AttachedMeans(alerts, check, a);
    var s, sup := Candidates(alerts, check), check.suppressAlertIds;
    ChosenIds(s, sup);
    CandidatesAreAttached(alerts, check, a);
    if Attached(alerts, check, a) && Eligible(a, sup) {
      var i :| 0 <= i < |s| && s[i] == a;
      assert a.id in EligibleIds(s, sup);
      var r := Chosen(s, sup);
      var j :| 0 <= j < |r| && AlertId(r[j]) == a.id;
      CandidatesAreAttached(alerts, check, r[j]);
      SameIdSameAlert(alerts, a, r[j]);
    }
  }

  lemma AttachedMeans(alerts: seq<Alert>, check: Check, a: Alert)
    ensures Attached(alerts, check, a)
       <==> (exists t :: t in check.alertIds && IsFirstMatch(alerts, t, a)) || (a in alerts && a.isDefault)
  {
    forall t ensures FirstNamed(alerts, t) == [a] <==> IsFirstMatch(alerts, t, a) {
      FirstNamedMeans(alerts, t, a);
    }
  }

  lemma CandidatesAreAttached(alerts: seq<Alert>, check: Check, a: Alert)
    ensures a in Candidates(alerts, check) <==> Attached(alerts, check, a)
    ensures Attached(alerts, check, a) ==> a in alerts
  {
    ListedMembers(alerts, check.alertIds, a);
    DefaultsMembers(alerts, a);
  }

  lemma SameIdSameAlert(alerts: seq<Alert>, a: Alert, b: Alert)
    requires DistinctBy(alerts, AlertId) && a in alerts && b in alerts && a.id == b.id
    ensures a == b
  {
    var i :| 0 <= i < |alerts| && alerts[i] == a;
    var j :| 0 <= j < |alerts| && alerts[j] == b;
    assert AlertId(alerts[i]) == AlertId(alerts[j]);
  }

  /** Choosing from `s` and then `t` keeps the choice from `s` and adds entries of `t`, in order. */
  lemma {:induction false} ListedComeFirst(s: seq<Alert>, t: seq<Alert>, suppress: seq<string>)
    returns (tail: seq<Alert>, at: seq<nat>)
    ensures Chosen(s + t, suppress) == Chosen(s, suppress) + tail
    ensures PicksInOrder(tail, t, at)
  {
    if t == [] {
      assert s + t == s;
      tail, at := [], [];
    } else {
      var u, x := t[..|t| - 1], t[|t| - 1];
      tail, at := ListedComeFirst(s, u, suppress);
      assert s + t == (s + u) + [x] && t == u + [x];
      tail, at := OneMore(s + u, Chosen(s, suppress), tail, u, at, x, suppress);
    }
  }

  lemma OneMore(p: seq<Alert>, base: seq<Alert>, tail: seq<Alert>, u: seq<Alert>, at: seq<nat>,
                x: Alert, suppress: seq<string>)
    returns (tailToo: seq<Alert>, atToo: seq<nat>)
    requires Chosen(p, suppress) == base + tail && PicksInOrder(tail, u, at)
    ensures Chosen(p + [x], suppress) == base + tailToo && PicksInOrder(tailToo, u + [x], atToo)
  {
    ChosenAppend(p, x, suppress);
    PickOneMore(tail, u, at, x);
    if Eligible(x, suppress) && x.id !in Keys(Chosen(p, suppress), AlertId) {
      tailToo, atToo := tail + [x], at + [|u|];
      assert base + (tail + [x]) == (base + tail) + [x];
    } else {
      tailToo, atToo := tail, at;
    }
  }

  lemma PickOneMore(tail: seq<Alert>, u: seq<Alert>, at: seq<nat>, x: Alert)
    requires PicksInOrder(tail, u, at)
    ensures PicksInOrder(tail, u + [x], at) && PicksInOrder(tail + [x], u + [x], at + [|u|])
  {
  }

  /** `picked` are the first matches of the names at the ascending positions `at` of `wanted`. */
  ghost predicate NamedInOrder(picked: seq<Alert>, alerts: seq<Alert>, wanted: seq<string>, at: seq<nat>) {
    && |at| == |picked|
    && (forall k :: 0 <= k < |at| ==> at[k] < |wanted| && IsFirstMatch(alerts, wanted[at[k]], picked[k]))
    && (forall i, j :: 0 <= i < j < |at| ==> at[i] < at[j])
  }

  lemma NamedInOrderSnoc(picked: seq<Alert>, alerts: seq<Alert>, wanted: seq<string>, at: seq<nat>, t: string, a: Alert)
    requires NamedInOrder(picked, alerts, wanted, at)
    ensures NamedInOrder(picked, alerts, wanted + [t], at)
    ensures IsFirstMatch(alerts, t, a) ==> NamedInOrder(picked + [a], alerts, wanted + [t], at + [|wanted|])
  {
  }

  lemma {:induction false} ListedInOrder(alerts: seq<Alert>, wanted: seq<string>) returns (at: seq<nat>)
    ensures NamedInOrder(Listed(alerts, wanted), alerts, wanted, at)
  {
    at := [];
    if wanted != [] {
      var front, t := wanted[..|wanted| - 1], wanted[|wanted| - 1];
      at := ListedInOrder(alerts, front);
      assert wanted == front + [t];
      var found := FirstNamed(alerts, t);
      if found == [] {
        NamedInOrderSnoc(Listed(alerts, front), alerts, front, at, t, Alert("", "", "", false, false, ""));
        assert Listed(alerts, front) + [] == Listed(alerts, front);
      } else {
        assert found == [found[0]];
        FirstNamedMeans(alerts, t, found[0]);
        NamedInOrderSnoc(Listed(alerts, front), alerts, front, at, t, found[0]);
        at := at + [|front|];
      }
    }
  }

  lemma {:induction false} DefaultsInOrder(alerts: seq<Alert>) returns (at: seq<nat>)
    ensures PicksInOrder(Defaults(alerts), alerts, at)
    ensures forall a :: a in Defaults(alerts) ==> a.isDefault
  {
    at := [];
    if alerts != [] {
      var front, a := alerts[..|alerts| - 1], alerts[|alerts| - 1];
      at := DefaultsInOrder(front);
      PickOneMore(Defaults(front), front, at, a);
      assert alerts == front + [a];
      if a.isDefault {
        at := at + [|front|];
      } else {
        assert Defaults(alerts) == Defaults(front);
      }
    }
  }

  /** Ascending positions of ascending positions ascend. */
  function Through(at: seq<nat>, of_: seq<nat>): seq<nat>
    requires forall k :: 0 <= k < |at| ==> at[k] < |of_|
  {
    seq(|at|, k requires 0 <= k < |at| => of_[at[k]])
  }

  lemma ComposeNamed(picked: seq<Alert>, all: seq<Alert>, within: seq<nat>, alerts: seq<Alert>, wanted: seq<string>,
                     at: seq<nat>)
    requires PicksInOrder(picked, all, within) && NamedInOrder(all, alerts, wanted, at)
    ensures NamedInOrder(picked, alerts, wanted, Through(within, at))
  {
  }

  lemma ComposePicks(picked: seq<Alert>, all: seq<Alert>, within: seq<nat>, alerts: seq<Alert>, at: seq<nat>)
    requires PicksInOrder(picked, all, within) && PicksInOrder(all, alerts, at)
    ensures PicksInOrder(picked, alerts, Through(within, at))
    ensures forall a :: a in picked ==> a in all
  {
    forall a | a in picked ensures a in all {
      var k :| 0 <= k < |picked| && picked[k] == a;
      assert all[within[k]] == a;
    }
  }

  /**
   The listed alerts come first, in the order in which the check lists them, then the
   remaining defaults in the order of the configuration.
   */
  lemma EffectiveOrder(alerts: seq<Alert>, check: Check)
    returns (listed: seq<Alert>, at: seq<nat>, defaults: seq<Alert>, dat: seq<nat>)
    ensures Effective(alerts, check) == listed + defaults
    ensures NamedInOrder(listed, alerts, check.alertIds, at)
    ensures PicksInOrder(defaults, alerts, dat) && forall a :: a in defaults ==> a.isDefault
  {
    var sup, first, rest := check.suppressAlertIds, Listed(alerts, check.alertIds), Defaults(alerts);
    var within: seq<nat>;
    listed, within := ListedComeFirst([], first, sup);
    assert [] + first == first && [] + listed == listed;
    var positions := ListedInOrder(alerts, check.alertIds);
    ComposeNamed(listed, first, within, alerts, check.alertIds, positions);
    at := Through(within, positions);
    defaults, within := ListedComeFirst(first, rest, sup);
    positions := DefaultsInOrder(alerts);
    ComposePicks(defaults, rest, within, alerts, positions);
    dat := Through(within, positions);
  }

  /** `tail` consists of the entries of `t` at the ascending positions `at`. */
  ghost predicate PicksInOrder(tail: seq<Alert>, t: seq<Alert>, at: seq<nat>) {
    && |at| == |tail|
    && (forall k :: 0 <= k < |at| ==> at[k] < |t| && tail[k] == t[at[k]])
    && (forall i, j :: 0 <= i < j < |at| ==> at[i] < at[j])
  }
}
