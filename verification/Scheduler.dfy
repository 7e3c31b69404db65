/** The ledger of probe workers: which are started, which are running, which were cancelled. */
module Scheduler {
  import opened Options
  import opened Config
  import opened Probes

  /** `serial` tells one start of a worker from another. */
  datatype Worker = Worker(serial: nat, check: Check)

  /** What restarts a probe when it changes; TLS and DNS options are not among it. */
  predicate SameCheck(a: Check, b: Check) {
    && a.id == b.id && a.kind == b.kind && a.target == b.target && a.interval == b.interval
    && a.timeout == b.timeout && a.expectStatus == b.expectStatus && a.bodyMatch == b.bodyMatch
    && a.resolvers == b.resolvers
  }

  method SameStrings(a: seq<string>, b: seq<string>) returns (same: bool)
    ensures same <==> a == b
  {
    if |a| != |b| { return false; }
    for i := 0 to |a|
      invariant a[..i] == b[..i]
    {
      if a[i] != b[i] { return false; }
      assert a[..i + 1] == a[..i] + [a[i]] && b[..i + 1] == b[..i] + [b[i]];
    }
    assert a[..|a|] == a && b[..|b|] == b;
    return true;
  }

  /** The comparison as it is carried out. */
  method CompareChecks(a: Check, b: Check) returns (same: bool)
    ensures same <==> SameCheck(a, b)
  {
    if a.id != b.id || a.kind != b.kind || a.target != b.target || a.interval != b.interval { return false; }
    if a.timeout != b.timeout || a.expectStatus != b.expectStatus || a.bodyMatch != b.bodyMatch { return false; }
    same := SameStrings(a.resolvers, b.resolvers);
  }

  type Resolve = (Check, seq<string>) -> seq<string>

  /** The check as its worker gets it. */
  function Baked(c: Check, defaults: seq<string>, resolve: Resolve): Check {
    c.(resolvers := resolve(c, defaults))
  }

  predicate Wanted(c: Check) { c.id != "" && !c.disabled }

  /** What should be running: enabled checks with an id; of several with one id the last counts. */
  function Want(checks: seq<Check>, defaults: seq<string>, resolve: Resolve): map<string, Check> {
    if checks == [] then map[]
    else
      var w, c := Want(checks[..|checks| - 1], defaults, resolve), checks[|checks| - 1];
      if Wanted(c) then w[c.id := Baked(c, defaults, resolve)] else w
  }

  /** `running` by check id; `started` counts starts; `cancelled` counts cancellations by serial. */
  datatype Ledger = Ledger(running: map<string, Worker>, started: nat, cancelled: multiset<nat>)

  ghost predicate Runs(m: map<string, Worker>, n: nat) { exists id :: id in m && m[id].serial == n }

  /** Every worker ever started is either running, under one id, or was cancelled, and that once. */
  ghost predicate Balanced(l: Ledger) {
    && (forall i, j :: i in l.running && j in l.running && l.running[i].serial == l.running[j].serial ==> i == j)
    && (forall n: nat ::
          (if Runs(l.running, n) then 1 else 0) + l.cancelled[n] == if n < l.started then 1 else 0)
  }

  lemma CancelBalances(l: Ledger, id: string)
    requires Balanced(l) && id in l.running
    ensures Balanced(Ledger(l.running - {id}, l.started, l.cancelled + multiset{l.running[id].serial}))
  {
    var m := l.running - {id};
    forall n: nat ensures Runs(m, n) <==> Runs(l.running, n) && n != l.running[id].serial {
      if Runs(l.running, n) && n != l.running[id].serial {
        var j :| j in l.running && l.running[j].serial == n;
        assert j in m;
      }
    }
    assert Runs(l.running, l.running[id].serial);
  }

  lemma LaunchBalances(l: Ledger, id: string, c: Check)
    requires Balanced(l) && id !in l.running
    ensures Balanced(Ledger(l.running[id := Worker(l.started, c)], l.started + 1, l.cancelled))
  {
    var m := l.running[id := Worker(l.started, c)];
    assert !Runs(l.running, l.started);
    forall n: nat ensures Runs(m, n) <==> Runs(l.running, n) || n == l.started {
      assert m[id].serial == l.started;
      if Runs(l.running, n) {
        var j :| j in l.running && l.running[j].serial == n;
        assert j in m && m[j].serial == n;
      }
    }
  }

  /** A worker whose check is still wanted in the same form. */
  predicate Stays(w: Worker, id: string, want: map<string, Check>) {
    id in want && SameCheck(want[id], w.check)
  }

  /** The workers that run `want` after `before`: what stays is untouched, the rest is newly started. */
  ghost predicate Reconciled(before: Ledger, want: map<string, Check>, after: Ledger) {
    && after.running.Keys == want.Keys
    && (forall id :: id in after.running ==>
          if id in before.running && Stays(before.running[id], id, want)
          then after.running[id] == before.running[id]
          else after.running[id].check == want[id] && before.started <= after.running[id].serial)
    && before.started <= after.started
    && (forall n :: before.started <= n < after.started ==> Runs(after.running, n))
  }

  /** The workers of `was` that are not looked at yet, or stay. */
  function Kept(was: map<string, Worker>, left: set<string>, want: map<string, Check>): map<string, Worker> {
    map id | id in was && (id in left || Stays(was[id], id, want)) :: was[id]
  }

  lemma KeptNext(was: map<string, Worker>, left: set<string>, want: map<string, Check>, id: string)
    requires id in left && id in was
    ensures id in Kept(was, left, want) && Kept(was, left, want)[id] == was[id]
    ensures Kept(was, left - {id}, want)
            == if Stays(was[id], id, want) then Kept(was, left, want) else Kept(was, left, want) - {id}
  {
  }

  /** The worker under `id` probes as `c` says, through `resolvers`. */
  predicate RunsAs(running: map<string, Worker>, id: string, c: Check, resolvers: seq<string>) {
    id in running &&
    var w := running[id].check;
    && w.id == id && w.kind == c.kind && w.target == c.target && w.interval == c.interval
    && w.timeout == c.timeout && w.expectStatus == c.expectStatus && w.bodyMatch == c.bodyMatch
    && w.resolvers == resolvers
  }

  class Scheduler {
    var running: map<string, Worker>
    var started: nat
    var cancelled: multiset<nat>

    ghost function View(): Ledger
      reads this
    {
      Ledger(running, started, cancelled)
    }

    constructor ()
      ensures View() == Ledger(map[], 0, multiset{}) && Balanced(View())
    {
      running, started, cancelled := map[], 0, multiset{};
    }

    method WantedChecks(checks: seq<Check>, defaults: seq<string>, resolve: Resolve) returns (want: map<string, Check>)
      ensures want == Want(checks, defaults, resolve)
    {
      want := map[];
      for i := 0 to |checks|
        invariant want == Want(checks[..i], defaults, resolve)
      {
        assert checks[..i + 1][..i] == checks[..i];
        if checks[i].id == "" || checks[i].disabled { continue; }
        want := want[checks[i].id := Baked(checks[i], defaults, resolve)];
      }
      assert checks[..|checks|] == checks;
    }

    method Reconcile(checks: seq<Check>, defaults: seq<string>, resolve: Resolve)
      requires Balanced(View())
      modifies this
      ensures Balanced(View())
      ensures Reconciled(old(View()), Want(checks, defaults, resolve), View())
      ensures forall id :: id in running <==> exists i :: IsLastEnabled(checks, i, id)
      ensures forall id, i :: IsLastEnabled(checks, i, id) ==>
                var w, c := running[id].check, checks[i];
                && w.id == id && w.kind == c.kind && w.target == c.target && w.interval == c.interval
                && w.timeout == c.timeout && w.expectStatus == c.expectStatus && w.bodyMatch == c.bodyMatch
                && w.resolvers == resolve(c, defaults)
    {
      var want := WantedChecks(checks, defaults, resolve);
      StopStale(want);
      StartMissing(want);
      WantHasIds(checks, defaults, resolve);
      forall id ensures id in running <==> exists i :: IsLastEnabled(checks, i, id) {
        WantIsLastEnabled(checks, defaults, resolve, id);
      }
      forall id, i | IsLastEnabled(checks, i, id) ensures RunsAs(running, id, checks[i], resolve(checks[i], defaults)) {
        WantIsLastEnabled(checks, defaults, resolve, id);
        ReconciledMeans(old(View()), want, View(), id);
      }
    }

    /** Cancels and drops every worker that is no longer wanted as it is. */
    method StopStale(want: map<string, Check>)
      requires Balanced(View())
      modifies `running, `cancelled
      ensures Balanced(View())
      ensures running == Kept(old(running), {}, want)
    {
      var left := running.Keys;
      ghost var was := running;
      while left != {}
        invariant left <= was.Keys && Balanced(View())
        invariant running == Kept(was, left, want)
        decreases left
      {
        var id :| id in left;
        KeptNext(was, left, want, id);
        left := left - {id};
        var stays := false;
        if id in want {
          stays := CompareChecks(want[id], running[id].check);
        }
        if !stays {
          Cancel(id);
        }
      }
    }

    /** Cancels one running worker. */
    method Cancel(id: string)
      requires Balanced(View()) && id in running
      modifies `running, `cancelled
      ensures Balanced(View())
      ensures running == old(running) - {id} && cancelled == old(cancelled) + multiset{old(running)[id].serial}
    {
      CancelBalances(View(), id);
      cancelled := cancelled + multiset{running[id].serial};
      running := running - {id};
    }

    /** Starts a worker for every wanted check that has none. */
    method StartMissing(want: map<string, Check>)
      requires Balanced(View()) && running.Keys <= want.Keys
      modifies `running, `started
      ensures Balanced(View()) && running.Keys == want.Keys
      ensures Started(old(running), old(started), want, running, started)
    {
      var left := want.Keys;
      while left != {}
        invariant left <= want.Keys && Balanced(View())
        invariant running.Keys == old(running).Keys + (want.Keys - left)
        invariant Started(old(running), old(started), want, running, started)
        decreases left
      {
        var id :| id in left;
        left := left - {id};
        if id in running { continue; }
        ghost var m, n := running, started;
        Launch(id, want[id]);
        StartedOne(old(running), old(started), want, m, n, id);
      }
    }

    method Launch(id: string, c: Check)
      requires Balanced(View()) && id !in running
      modifies `running, `started
      ensures Balanced(View())
      ensures running == old(running)[id := Worker(old(started), c)] && started == old(started) + 1
    {
      LaunchBalances(View(), id, c);
      running := running[id := Worker(started, c)];
      started := started + 1;
    }

    /** Cancels everything that runs. */
    method StopAll()
      requires Balanced(View())
      modifies `running, `cancelled
      ensures Balanced(View()) && running == map[]
      ensures forall n: nat :: cancelled[n] == if n < started then 1 else 0
    {
      var left := running.Keys;
      while left != {}
        invariant left == running.Keys && Balanced(View())
        decreases left
      {
        var id :| id in left;
        Cancel(id);
        left := left - {id};
      }
      assert forall n: nat :: !Runs(running, n);
    }
  }

  /** `m` holds the workers of `was` and newly started ones, which all still run. */
  ghost predicate Started(was: map<string, Worker>, from: nat, want: map<string, Check>,
                          m: map<string, Worker>, to: nat)
  {
    && from <= to && was.Keys <= m.Keys
    && (forall id :: id in m ==>
          if id in was then m[id] == was[id]
          else id in want && m[id].check == want[id] && from <= m[id].serial)
    && (forall n :: from <= n < to ==> Runs(m, n))
  }

  lemma StartedOne(was: map<string, Worker>, from: nat, want: map<string, Check>,
                   m: map<string, Worker>, to: nat, id: string)
    requires Started(was, from, want, m, to) && id in want && id !in m
    ensures Started(was, from, want, m[id := Worker(to, want[id])], to + 1)
  {
    var r := m[id := Worker(to, want[id])];
    assert r[id].serial == to;
    forall n | from <= n < to ensures Runs(r, n) {
      assert Runs(m, n);
      var j :| j in m && m[j].serial == n;
      assert j in r && r[j].serial == n;
    }
  }

  /** The two checks ask for the same probing at the same pace, TLS and DNS options apart. */
  lemma SameCheckMeans(a: Check, b: Check)
    ensures SameCheck(a, b) <==>
            && a.id == b.id && a.kind == b.kind && a.target == b.target && a.interval == b.interval
            && a.timeout == b.timeout && a.expectStatus == b.expectStatus && a.bodyMatch == b.bodyMatch
            && a.resolvers == b.resolvers
  {
  }

  /**
   After a reconciliation exactly the wanted ids run, each with the wanted kind, target,
   pace, timeout, expectations and resolvers. A worker that had all of these before is
   still the same one; any other is newly started, on exactly the wanted check.
   */
  lemma ReconciledMeans(a: Ledger, want: map<string, Check>, b: Ledger, id: string)
    requires Reconciled(a, want, b) && forall i :: i in want ==> want[i].id == i
    ensures id in b.running <==> id in want
    ensures id in want ==>
              var w, c := b.running[id].check, want[id];
              && w.id == id && w.kind == c.kind && w.target == c.target && w.interval == c.interval
              && w.timeout == c.timeout && w.expectStatus == c.expectStatus && w.bodyMatch == c.bodyMatch
              && w.resolvers == c.resolvers
    ensures id in want && id in a.running ==>
              var w, c := a.running[id].check, want[id];
              var asWanted := w.id == c.id && w.kind == c.kind && w.target == c.target && w.interval == c.interval
                               && w.timeout == c.timeout && w.expectStatus == c.expectStatus
                               && w.bodyMatch == c.bodyMatch && w.resolvers == c.resolvers;
              && (asWanted ==> b.running[id] == a.running[id])
              && (!asWanted ==> b.running[id].serial >= a.started && b.running[id].check == c)
    ensures id in want && id !in a.running ==> b.running[id].serial >= a.started && b.running[id].check == want[id]
  {
    if id in want && id in a.running {
      SameCheckMeans(want[id], a.running[id].check);
    }
  }

  /** A reconciliation cancels exactly the workers that do not stay, each once, and nothing else. */
  lemma CancelledExactly(a: Ledger, want: map<string, Check>, b: Ledger, n: nat)
    requires Balanced(a) && Balanced(b) && Reconciled(a, want, b)
    ensures b.cancelled[n] - a.cancelled[n]
            == if exists id :: id in a.running && a.running[id].serial == n && !Stays(a.running[id], id, want)
               then 1 else 0
  {
    if Runs(a.running, n) {
      var i :| i in a.running && a.running[i].serial == n;
      assert Runs(a.running, a.running[i].serial) && n < a.started;
      if Stays(a.running[i], i, want) {
        assert b.running[i].serial == n;
      } else {
        assert forall j :: j in b.running ==> b.running[j].serial != n;
      }
    } else {
      assert forall j :: j in a.running ==> a.running[j].serial != n;
    }
  }

  /** Reconciling again with the same wish neither starts nor stops anything. */
  lemma ReconcileTwiceIsOnce(a: Ledger, want: map<string, Check>, b: Ledger, c: Ledger)
    requires Balanced(b) && Balanced(c) && Reconciled(a, want, b) && Reconciled(b, want, c)
    ensures c == b
  {
    forall id | id in b.running ensures Stays(b.running[id], id, want) {
      assert id in want;
    }
    assert c.running == b.running;
    assert !Runs(b.running, b.started);
    forall n: nat ensures c.cancelled[n] == b.cancelled[n] {
    }
  }

  /**
   A worker that a reconciliation leaves running probes as the new configuration says,
   on every network, exactly if the TLS or DNS options that its kind reads come to the
   same thing. For the other kinds it always does.
   */
  lemma StaleProbeExactly(w: Worker, wanted: Check, env: Env)
    requires SameCheck(wanted, w.check)
    ensures ProbeAlike(w.check, wanted, env) <==> SameOptions(w.check, wanted, env)
    ensures w.check.kind != "tls" && w.check.kind != "dns" ==> ProbeAlike(w.check, wanted, env)
  {
    AlikeExactly(w.check, wanted, env);
  }

  function Sample(kind: string): Check {
    Check("1", "c", kind, "h", 0, 0, 0, "", 0, "", "", "", "", [], [], false, [])
  }

  /** Asking for 30 days' warning instead of the default 14 does not reach a running TLS probe. */
  lemma StaleTlsProbe() returns (env: Env, was: Check, wanted: Check)
    ensures SameCheck(wanted, was) && was.kind == "tls" && !ProbeAlike(was, wanted, env)
  {
    env := Env((t: string) => Some((t, t)), (c: char) => c);
    was, wanted := Sample("tls"), Sample("tls").(tlsWarnDays := 30);
    AlikeExactly(was, wanted, env);
  }

  /** Nor does another record type reach a running DNS probe. */
  lemma StaleDnsProbe() returns (env: Env, was: Check, wanted: Check)
    ensures SameCheck(wanted, was) && was.kind == "dns" && !ProbeAlike(was, wanted, env)
  {
    env := Env((t: string) => Some((t, t)), (c: char) => c);
    was, wanted := Sample("dns"), Sample("dns").(dnsRecord := "mx");
    assert TrimSpace("h") == "h" && TrimSpace("mx") == "mx" && TrimSpace("") == "";
    assert Lower("mx", env.fold) == "mx" && Lower("", env.fold) == "";
    AlikeExactly(was, wanted, env);
  }

  /**
   What is wanted, by id: the last enabled entry with that id, its resolvers replaced by
   the effective ones and nothing else changed. Entries without an id are never wanted.
   */
  lemma {:induction false} WantIsLastEnabled(checks: seq<Check>, defaults: seq<string>, resolve: Resolve, id: string)
    ensures id in Want(checks, defaults, resolve) <==> exists i :: IsLastEnabled(checks, i, id)
    ensures forall i :: IsLastEnabled(checks, i, id) ==>
              id in Want(checks, defaults, resolve)
              && Want(checks, defaults, resolve)[id] == checks[i].(resolvers := resolve(checks[i], defaults))
  {
    if checks != [] {
      var n := |checks| - 1;
      var front := checks[..n];
      WantIsLastEnabled(front, defaults, resolve, id);
      if checks[n].id != "" && !checks[n].disabled && checks[n].id == id {
        assert IsLastEnabled(checks, n, id);
      } else {
        forall i ensures IsLastEnabled(checks, i, id) <==> IsLastEnabled(front, i, id) {
        }
      }
    }
  }

  predicate IsLastEnabled(checks: seq<Check>, i: int, id: string) {
    && 0 <= i < |checks| && id != "" && checks[i].id == id && !checks[i].disabled
    && forall j :: i < j < |checks| ==> !(checks[j].id == id && !checks[j].disabled)
  }

  /** What is wanted under an id has that id. */
  lemma WantHasIds(checks: seq<Check>, defaults: seq<string>, resolve: Resolve)
    ensures var want := Want(checks, defaults, resolve); forall i :: i in want ==> want[i].id == i
  {
    var want := Want(checks, defaults, resolve);
    forall i | i in want ensures want[i].id == i {
      WantIsLastEnabled(checks, defaults, resolve, i);
      var k :| IsLastEnabled(checks, k, i);
    }
  }
}
