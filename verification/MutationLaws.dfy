/** What the mutations keep, alone and over whole runs. */
module MutationLaws {
  import opened Options
  import opened NodeIds
  import opened Lists
  import opened Sets
  import opened Config

  // ----- what each edit does, and what it leaves alone -----

  /** Listing a peer makes its entry the one for its id and leaves every other id's entry alone. */
  lemma PutPeerMeans(c: Content, x: PeerInfo)
    requires DistinctPeers(c) && x.nodeId != ""
    ensures var r := Apply(c, AddPeer(x));
            && r.Ok? && Members(r.value) == Members(c) + {x.nodeId} && x in r.value.peers
            && forall p: PeerInfo :: p.nodeId != x.nodeId ==> (p in r.value.peers <==> p in c.peers)
  {
    UpsertByKey(c.peers, PeerIs(x.nodeId), PeerKey, x);
    UpsertMembers(c.peers, PeerIs(x.nodeId), x);
  }

  lemma UpsertMembers(s: seq<PeerInfo>, matches: PeerInfo -> bool, x: PeerInfo)
    requires matches(x)
    ensures x in Upsert(s, matches, x)
    ensures forall p :: !matches(p) ==> (p in Upsert(s, matches, x) <==> p in s)
  {
    var r, i := Upsert(s, matches, x), FirstIndex(s, matches);
    assert r[i] == x;
    forall p | !matches(p) ensures p in r <==> p in s {
      if p in s {
        var j :| 0 <= j < |s| && s[j] == p;
        assert r[j] == p;
      }
    }
  }

  /** Dropping a peer succeeds exactly for a listed one and drops that one. */
  lemma DropPeerMeans(c: Content, t: string)
    requires DistinctPeers(c)
    ensures Apply(c, RemovePeer(t)).Ok? <==> t in Members(c)
    ensures t in Members(c) ==> Members(Apply(c, RemovePeer(t)).value) == Members(c) - {t}
  {
    var i := FirstIndex(c.peers, PeerIs(t));
    if i < |c.peers| {
      assert PeerKey(c.peers[i]) == t;
      RemoveByKey(c.peers, PeerKey, i);
    } else {
      assert forall j :: 0 <= j < |c.peers| ==> !PeerIs(t)(c.peers[j]);
    }
  }

  /**
   An addition is accepted exactly with its mandatory fields. What is added is then the
   first entry that carries its id (or, for checks and alerts, its name), every other
   position is as it was, and so is the rest of the configuration.
   */
  lemma AdditionMeans(c: Content, m: Mutation)
    requires m.AddCheck? || m.AddAlert? || m.AddPeer? || m.AddEnrollment?
    ensures Apply(c, m) == Err(MissingFields)
       <==> match m
            case AddCheck(x) => x.id == "" || x.name == ""
            case AddAlert(x) => x.id == "" || x.name == ""
            case AddPeer(x) => x.nodeId == ""
            case AddEnrollment(x) => x.id == "" || x.secretHash == ""
    ensures Apply(c, m) == Err(MissingFields) || Apply(c, m).Ok?
    ensures Apply(c, m).Ok? ==>
              var d := Apply(c, m).value;
              match m
              case AddCheck(x) =>
                d == c.(checks := d.checks)
                && Placed(c.checks, d.checks, (e: Check) => e.id == x.id || e.name == x.name, x)
              case AddAlert(x) =>
                d == c.(alerts := d.alerts)
                && Placed(c.alerts, d.alerts, (e: Alert) => e.id == x.id || e.name == x.name, x)
              case AddPeer(x) =>
                d == c.(peers := d.peers)
                && Placed(c.peers, d.peers, (e: PeerInfo) => e.nodeId == x.nodeId, x)
              case AddEnrollment(x) =>
                d == c.(enrollments := d.enrollments)
                && Placed(c.enrollments, d.enrollments, (e: PendingEnrollment) => e.id == x.id, x)
  {
    match m {
      case AddCheck(x) =>
        UpsertPlaces(c.checks, ClashesWithCheck(x), (e: Check) => e.id == x.id || e.name == x.name, x);
      case AddAlert(x) =>
        UpsertPlaces(c.alerts, ClashesWithAlert(x), (e: Alert) => e.id == x.id || e.name == x.name, x);
      case AddPeer(x) =>
        UpsertPlaces(c.peers, PeerIs(x.nodeId), (e: PeerInfo) => e.nodeId == x.nodeId, x);
      case AddEnrollment(x) =>
        UpsertPlaces(c.enrollments, EnrollmentIs(x.id), (e: PendingEnrollment) => e.id == x.id, x);
    }
  }

  /**
   A removal succeeds exactly if an entry answers to the id or name, and takes away the
   first that does, leaving everything else as it was and in its order. An unnamed
   enrollment does not answer to the empty name.
   */
  lemma RemovalMeans(c: Content, m: Mutation)
    requires m.RemoveCheck? || m.RemoveAlert? || m.RemovePeer? || m.RemoveEnrollment?
    ensures Apply(c, m).Ok? <==>
            match m
            case RemoveCheck(t) => exists x :: x in c.checks && (x.id == t || x.name == t)
            case RemoveAlert(t) => exists x :: x in c.alerts && (x.id == t || x.name == t)
            case RemovePeer(t) => exists x :: x in c.peers && x.nodeId == t
            case RemoveEnrollment(t) =>
              exists x :: x in c.enrollments && (x.id == t || (x.name == t && x.name != ""))
    ensures Apply(c, m) == Err(NotFound) || Apply(c, m).Ok?
    ensures Apply(c, m).Ok? ==>
              var d := Apply(c, m).value;
              match m
              case RemoveCheck(t) =>
                d == c.(checks := d.checks)
                && TakenOut(c.checks, d.checks, (x: Check) => x.id == t || x.name == t)
              case RemoveAlert(t) =>
                d == c.(alerts := d.alerts)
                && TakenOut(c.alerts, d.alerts, (x: Alert) => x.id == t || x.name == t)
              case RemovePeer(t) =>
                d == c.(peers := d.peers)
                && TakenOut(c.peers, d.peers, (x: PeerInfo) => x.nodeId == t)
              case RemoveEnrollment(t) =>
                d == c.(enrollments := d.enrollments)
                && TakenOut(c.enrollments, d.enrollments,
                            (x: PendingEnrollment) => x.id == t || (x.name == t && x.name != ""))
  {
    match m {
      case RemoveCheck(t) => RemovalTakesOut(c.checks, CheckNamed(t), (x: Check) => x.id == t || x.name == t);
      case RemoveAlert(t) => RemovalTakesOut(c.alerts, AlertNamed(t), (x: Alert) => x.id == t || x.name == t);
      case RemovePeer(t) => RemovalTakesOut(c.peers, PeerIs(t), (x: PeerInfo) => x.nodeId == t);
      case RemoveEnrollment(t) =>
        RemovalTakesOut(c.enrollments, EnrollmentNamed(t),
                        (x: PendingEnrollment) => x.id == t || (x.name == t && x.name != ""));
    }
  }

  /** `e`, at position `k`, is the first token with the id or non-empty name `t`. */
  ghost predicate FirstTokenIs(c: Content, t: string, e: PendingEnrollment, k: int) {
    && IsFirst(c.enrollments, (x: PendingEnrollment) => x.id == t || (x.name == t && x.name != ""), k)
    && c.enrollments[k] == e
  }

  /**
   Approval succeeds exactly if the first token that answers to `t` has a joiner on
   record. The joiner, as recorded, then is the peer with its id, all other peers stay,
   and that token is gone; nothing else changes.
   */
  lemma ApproveMeans(c: Content, t: string)
    ensures var r := Apply(c, ApproveEnrollment(t));
            && (r.Ok? <==> exists e, k :: FirstTokenIs(c, t, e, k) && e.pendingJoin.Some?)
            && (r == Err(NothingToApprove) <==> exists e, k :: FirstTokenIs(c, t, e, k) && e.pendingJoin == None)
            && (r == Err(NotFound) <==> forall e, k :: !FirstTokenIs(c, t, e, k))
    ensures forall e, k :: FirstTokenIs(c, t, e, k) && e.pendingJoin.Some? ==>
              var d, pj := Apply(c, ApproveEnrollment(t)).value, e.pendingJoin.value;
              && d == c.(peers := d.peers, enrollments := d.enrollments)
              && Placed(c.peers, d.peers, (p: PeerInfo) => p.nodeId == pj.nodeId,
                        PeerInfo(pj.nodeId, pj.advertise, pj.fingerprint, pj.certPem))
              && Without(c.enrollments, d.enrollments, k)
  {
    var i := FirstIndex(c.enrollments, EnrollmentNamed(t));
    forall e, k | FirstTokenIs(c, t, e, k) ensures k == i {
      FirstIndexUnique(c.enrollments, EnrollmentNamed(t), k);
    }
    if i < |c.enrollments| {
      var e := c.enrollments[i];
      assert FirstTokenIs(c, t, e, i);
      if e.pendingJoin.Some? {
        var x := JoinedPeer(e.pendingJoin.value);
        UpsertPlaces(c.peers, PeerIs(x.nodeId), (p: PeerInfo) => p.nodeId == e.pendingJoin.value.nodeId, x);
      }
    }
  }

  /**
   Recording a joiner succeeds exactly with an id, a join and an enrollment of that id.
   The first of that id then carries the join; its other fields, every other enrollment
   and the rest of the configuration are as before.
   */
  lemma RecordMeans(c: Content, id: string, join: Option<PendingJoin>)
    ensures var r := Apply(c, RecordEnrollPending(id, join));
            && (r == Err(MissingFields) <==> id == "" || join == None)
            && (r.Ok? <==> id != "" && join != None && exists e :: e in c.enrollments && e.id == id)
            && (r.Err? ==> r.error == MissingFields || r.error == NotFound)
            && (r.Ok? ==>
                  && r.value == c.(enrollments := r.value.enrollments)
                  && exists k :: RecordedAt(c.enrollments, r.value.enrollments, id, join, k))
  {
    var i := FirstIndex(c.enrollments, EnrollmentIs(id));
    if i < |c.enrollments| {
      assert c.enrollments[i] in c.enrollments;
      if id != "" && join != None {
        assert RecordedAt(c.enrollments, Apply(c, RecordEnrollPending(id, join)).value.enrollments, id, join, i);
      }
    } else {
      assert forall j :: 0 <= j < |c.enrollments| ==> !EnrollmentIs(id)(c.enrollments[j]);
    }
  }

  ghost predicate RecordedAt(before: seq<PendingEnrollment>, after: seq<PendingEnrollment>,
                             id: string, join: Option<PendingJoin>, k: int)
  {
    && IsFirst(before, (e: PendingEnrollment) => e.id == id, k) && |after| == |before|
    && (var e := before[k];
        after[k] == PendingEnrollment(e.id, e.name, e.secretHash, e.autoApprove, e.createdBy,
                                      e.createdAt, e.expiresAt, join))
    && forall j :: 0 <= j < |before| && j != k ==> after[j] == before[j]
  }

  /**
   A replacement always succeeds, brings in the incoming peers, checks, alerts and
   resolvers, and keeps the enrollments; what cannot be decoded is refused.
   */
  lemma ReplacementMeans(c: Content, n: Content)
    ensures var r := Apply(c, ReplaceConfig(n));
            && r.Ok? && r.value.peers == n.peers && r.value.checks == n.checks && r.value.alerts == n.alerts
            && r.value.resolvers == n.resolvers && r.value.enrollments == c.enrollments
    ensures Apply(c, Undecodable) == Err(BadPayload)
  {
  }

  /** Setting the resolvers always succeeds, and touches only them. */
  lemma ResolversMeans(c: Content, list: seq<string>) returns (at: seq<nat>)
    ensures var r := Apply(c, SetResolvers(list));
            r.Ok? && r.value == c.(resolvers := r.value.resolvers) && KeepsAll(list, r.value.resolvers, at)
  {
    at := KeptPositions(list);
    assert Apply(c, SetResolvers(list)).value.resolvers == Cleaned(list);
  }

  /** `r` is `s` without the white space around it. */
  ghost predicate IsTrimOf(r: string, s: string) {
    exists i: nat, j: nat :: i <= j <= |s| && IsTrimmedAt(r, s, i, j)
  }

  predicate IsTrimmedAt(r: string, s: string, i: nat, j: nat)
    requires i <= j <= |s|
  {
    && r == s[i..j]
    && (forall k :: 0 <= k < i ==> IsSpace(s[k])) && (forall k :: j <= k < |s| ==> IsSpace(s[k]))
    && (r != "" ==> !IsSpace(r[0]) && !IsSpace(r[|r| - 1]))
  }

  lemma TrimFront(r: string, c: char, s: string)
    requires IsTrimOf(r, s) && IsSpace(c)
    ensures IsTrimOf(r, [c] + s)
  {
    var i: nat, j: nat :| i <= j <= |s| && IsTrimmedAt(r, s, i, j);
    assert ([c] + s)[i + 1..j + 1] == s[i..j];
    assert IsTrimmedAt(r, [c] + s, i + 1, j + 1);
  }

  lemma TrimBack(r: string, s: string, c: char)
    requires IsTrimOf(r, s) && IsSpace(c)
    ensures IsTrimOf(r, s + [c])
  {
    var i: nat, j: nat :| i <= j <= |s| && IsTrimmedAt(r, s, i, j);
    assert (s + [c])[i..j] == s[i..j];
    assert IsTrimmedAt(r, s + [c], i, j);
  }

  /** Trimming takes white space off both ends and nothing else. */
  lemma {:induction false} TrimMeans(s: string)
    ensures IsTrimOf(TrimSpace(s), s)
  {
    if s == "" {
      assert IsTrimmedAt("", s, 0, 0);
    } else if IsSpace(s[0]) {
      TrimMeans(s[1..]);
      TrimFront(TrimSpace(s), s[0], s[1..]);
      assert s == [s[0]] + s[1..];
    } else if IsSpace(s[|s| - 1]) {
      TrimMeans(s[..|s| - 1]);
      TrimBack(TrimSpace(s), s[..|s| - 1], s[|s| - 1]);
      assert s == s[..|s| - 1] + [s[|s| - 1]];
    } else {
      assert s[0..|s|] == s;
      assert IsTrimmedAt(s, s, 0, |s|);
    }
  }

  /** `at` lists, in order, the positions of `list` that hold more than white space. */
  ghost predicate NonBlankAt(list: seq<string>, at: seq<nat>) {
    && (forall k :: 0 <= k < |at| ==> at[k] < |list|)
    && (forall i, j :: 0 <= i < j < |at| ==> at[i] < at[j])
    && (forall i :: 0 <= i < |list| ==> (TrimSpace(list[i]) != "" <==> i in at))
  }

  /** The resolvers kept are those of all non-blank positions, trimmed and in order. */
  ghost predicate KeepsAll(list: seq<string>, kept: seq<string>, at: seq<nat>) {
    && NonBlankAt(list, at) && |kept| == |at|
    && forall k :: 0 <= k < |at| ==> kept[k] == TrimSpace(list[at[k]])
  }

  lemma KeepsAllSnoc(list: seq<string>, kept: seq<string>, at: seq<nat>, x: string)
    requires KeepsAll(list, kept, at)
    ensures TrimSpace(x) == "" ==> KeepsAll(list + [x], kept, at)
    ensures TrimSpace(x) != "" ==> KeepsAll(list + [x], kept + [TrimSpace(x)], at + [|list|])
  {
    assert |list| in at + [|list|];
  }

  lemma {:induction false} KeptPositions(list: seq<string>) returns (at: seq<nat>)
    ensures KeepsAll(list, Cleaned(list), at)
  {
    at := [];
    if list != [] {
      var front, x := list[..|list| - 1], list[|list| - 1];
      at := KeptPositions(front);
      KeepsAllSnoc(front, Cleaned(front), at, x);
      assert list == front + [x];
      if TrimSpace(x) != "" {
        at := at + [|front|];
      } else {
        assert Cleaned(list) == Cleaned(front);
      }
    }
  }

  lemma {:induction false} TrimTwice(s: string)
    ensures TrimSpace(TrimSpace(s)) == TrimSpace(s)
  {
    if s == "" {
    } else if IsSpace(s[0]) {
      TrimTwice(s[1..]);
    } else if IsSpace(s[|s| - 1]) {
      TrimTwice(s[..|s| - 1]);
    }
  }

  lemma {:induction false} CleanedTwice(list: seq<string>)
    ensures Cleaned(Cleaned(list)) == Cleaned(list)
  {
    if list != [] {
      var front, s := list[..|list| - 1], TrimSpace(list[|list| - 1]);
      CleanedTwice(front);
      TrimTwice(list[|list| - 1]);
      if s != "" {
        var r := Cleaned(front) + [s];
        assert r[..|r| - 1] == Cleaned(front);
        assert Cleaned(r) == Cleaned(Cleaned(front)) + [s];
      } else {
        assert Cleaned(list) == Cleaned(front);
      }
    }
  }

  /**
   The resolvers kept are those of exactly the non-blank positions, in order, each
   without the white space around it; cleaning them again changes nothing.
   */
  lemma CleanedKeepsAll(list: seq<string>) returns (at: seq<nat>)
    ensures KeepsAll(list, Cleaned(list), at)
    ensures forall k :: 0 <= k < |at| ==> IsTrimOf(Cleaned(list)[k], list[at[k]])
    ensures Cleaned(Cleaned(list)) == Cleaned(list)
  {
    at := KeptPositions(list);
    forall k | 0 <= k < |at| ensures IsTrimOf(Cleaned(list)[k], list[at[k]]) {
      TrimMeans(list[at[k]]);
    }
    CleanedTwice(list);
  }

  /** What the manual-edit watcher forwards: peers, checks and alerts, nothing else. */
  function ManualEdit(edited: Content): Mutation {
    ReplaceConfig(Content(edited.peers, edited.checks, edited.alerts, [], []))
  }

  /** A manual edit keeps the cluster's resolvers exactly when there were none; tokens survive it. */
  lemma ManualEditKeepsResolversExactly(c: Content, edited: Content)
    ensures var d := Apply(c, ManualEdit(edited)).value;
            && (d.resolvers == c.resolvers <==> c.resolvers == [])
            && d.enrollments == c.enrollments && d.peers == edited.peers
  {
  }

  /** An edit of the file that touches a check's name only still clears the resolvers of the cluster. */
  lemma ManualEditDropsResolvers() returns (c: Content, edited: Content)
    ensures edited.resolvers == c.resolvers == ["9.9.9.9"] && edited.checks != c.checks
    ensures Apply(c, ManualEdit(edited)).value == edited.(resolvers := [])
  {
    var x := SampleCheck("1", "web");
    c := EMPTY_CONTENT.(checks := [x], resolvers := ["9.9.9.9"]);
    edited := c.(checks := [x.(name := "site")]);
    assert c.checks[0].name != edited.checks[0].name;
  }

  function SampleCheck(id: string, name: string): Check {
    Check(id, name, "http", "h", 0, 0, 0, "", 0, "", "", "", "", [], [], false, [])
  }

  // ----- unique ids and names -----

  ghost predicate UniqueChecks(c: Content) { DistinctBy(c.checks, CheckId) && DistinctBy(c.checks, CheckName) }

  ghost predicate UniqueAlerts(c: Content) { DistinctBy(c.alerts, AlertId) && DistinctBy(c.alerts, AlertName) }

  /** An accepted check keeps ids and names unique exactly when it clashes with at most one entry. */
  lemma AddCheckUniqueness(c: Content, x: Check)
    requires UniqueChecks(c) && Apply(c, AddCheck(x)).Ok?
    ensures UniqueChecks(Apply(c, AddCheck(x)).value) <==> AtMostOneMatch(c.checks, ClashesWithCheck(x))
  {
    UpsertTwoKeys(c.checks, ClashesWithCheck(x), CheckId, CheckName, x);
  }

  lemma AddAlertUniqueness(c: Content, x: Alert)
    requires UniqueAlerts(c) && Apply(c, AddAlert(x)).Ok?
    ensures UniqueAlerts(Apply(c, AddAlert(x)).value) <==> AtMostOneMatch(c.alerts, ClashesWithAlert(x))
  {
    UpsertTwoKeys(c.alerts, ClashesWithAlert(x), AlertId, AlertName, x);
  }

  /** The clash is real: with (a, m) and (b, n) configured, adding (a, n) leaves two checks named n. */
  lemma ClashingAddRepeatsName() returns (c: Content, x: Check)
    ensures UniqueChecks(c) && Apply(c, AddCheck(x)).Ok?
    ensures !UniqueChecks(Apply(c, AddCheck(x)).value)
    ensures var d := Apply(c, AddCheck(x)).value.checks; |d| == 2 && d[0].name == d[1].name == x.name
  {
    var am, bn := SampleCheck("a", "m"), SampleCheck("b", "n");
    c, x := EMPTY_CONTENT.(checks := [am, bn]), SampleCheck("a", "n");
    assert CheckId(am) != CheckId(bn) && CheckName(am) != CheckName(bn);
    FirstIndexUnique(c.checks, ClashesWithCheck(x), 0);
    var d := Apply(c, AddCheck(x)).value.checks;
    assert d == [x, bn];
    assert CheckName(d[0]) == CheckName(d[1]);
  }

  /** Every mutation other than the two upserts and the wholesale replacement keeps uniqueness. */
  lemma OtherEditsKeepUniqueness(c: Content, m: Mutation)
    requires UniqueChecks(c) && UniqueAlerts(c) && Apply(c, m).Ok?
    requires !m.AddCheck? && !m.AddAlert? && !m.ReplaceConfig?
    ensures UniqueChecks(Apply(c, m).value) && UniqueAlerts(Apply(c, m).value)
  {
    match m {
      case RemoveCheck(t) =>
        var i := FirstIndex(c.checks, CheckNamed(t));
        RemoveKeepsDistinct(c.checks, CheckId, i);
        RemoveKeepsDistinct(c.checks, CheckName, i);
      case RemoveAlert(t) =>
        var i := FirstIndex(c.alerts, AlertNamed(t));
        RemoveKeepsDistinct(c.alerts, AlertId, i);
        RemoveKeepsDistinct(c.alerts, AlertName, i);
      case _ =>
    }
  }

  /** With nobody ahead who bears the id as a name, an appended check is the one that removal by id finds. */
  lemma AppendedIsRemoved(s: seq<Check>, x: Check)
    requires forall e :: e in s ==> !CheckNamed(x.id)(e)
    ensures FirstIndex(s + [x], CheckNamed(x.id)) == |s| && RemoveAt(s + [x], |s|) == s
  {
    FirstIndexUnique(s + [x], CheckNamed(x.id), |s|);
  }

  /** Otherwise removal takes one of the old checks, and the list does not come back. */
  lemma NamesakeIsRemoved(s: seq<Check>, x: Check)
    requires (exists e :: e in s && CheckNamed(x.id)(e)) && x !in s
    ensures var r := FirstIndex(s + [x], CheckNamed(x.id)); r < |s| && RemoveAt(s + [x], r) != s
  {
    var e :| e in s && CheckNamed(x.id)(e);
    var k :| 0 <= k < |s| && s[k] == e;
    var t := s + [x];
    assert t[k] == e && CheckNamed(x.id)(t[k]);
    var r := FirstIndex(t, CheckNamed(x.id));
    assert r <= k;
    assert RemoveAt(t, r)[|s| - 1] == x;
  }

  /**
   Adding a check and removing it by its id gives the old configuration back
   exactly when no existing check shares its id or name, or bears its id as a name.
   */
  lemma AddThenRemoveUndoes(c: Content, x: Check)
    requires Apply(c, AddCheck(x)).Ok?
    ensures Apply(Apply(c, AddCheck(x)).value, RemoveCheck(x.id)) == Ok(c)
       <==> forall e :: e in c.checks ==> !ClashesWithCheck(x)(e) && e.name != x.id
  {
    var after := Apply(c, AddCheck(x)).value;
    var i, n := FirstIndex(c.checks, ClashesWithCheck(x)), |c.checks|;
    if i < n {
      assert c.checks[i] in c.checks && ClashesWithCheck(x)(c.checks[i]);
      assert CheckNamed(x.id)(after.checks[i]);
      assert |Apply(after, RemoveCheck(x.id)).value.checks| == n - 1;
    } else {
      NoneClash(c.checks, x);
      if exists e :: e in c.checks && CheckNamed(x.id)(e) {
        NamesakeIsRemoved(c.checks, x);
      } else {
        AppendedIsRemoved(c.checks, x);
      }
    }
  }

  lemma NoneClash(s: seq<Check>, x: Check)
    requires FirstIndex(s, ClashesWithCheck(x)) == |s|
    ensures forall e :: e in s ==> !ClashesWithCheck(x)(e)
  {
    assert forall j :: 0 <= j < |s| ==> !ClashesWithCheck(x)(s[j]);
  }

  // ----- membership changes and quorums -----

  ghost predicate DistinctPeers(c: Content) { DistinctBy(c.peers, PeerKey) }

  ghost function Members(c: Content): set<NodeId> { Keys(c.peers, PeerKey) }

  /** Some nodes listed by `c`, enough of them to act. */
  ghost predicate IsQuorum(q: set<NodeId>, c: Content) { q <= Members(c) && |q| >= QuorumSize(|c.peers|) }

  /** `d` lists all but at most one of the nodes of `c`, and at most one more; never both. */
  ghost predicate MovesAtMostOne(c: seq<PeerInfo>, d: seq<PeerInfo>) {
    && DistinctBy(d, PeerKey)
    && |Keys(d, PeerKey) - Keys(c, PeerKey)| + |Keys(c, PeerKey) - Keys(d, PeerKey)| <= 1
  }

  lemma PutMovesAtMostOne(c: seq<PeerInfo>, x: PeerInfo)
    requires DistinctBy(c, PeerKey)
    ensures MovesAtMostOne(c, Upsert(c, PeerIs(x.nodeId), x))
  {
    UpsertByKey(c, PeerIs(x.nodeId), PeerKey, x);
    AddedAtMostOne(Keys(c, PeerKey), x.nodeId);
  }

  lemma DropMovesAtMostOne(c: seq<PeerInfo>, i: nat)
    requires DistinctBy(c, PeerKey) && i < |c|
    ensures MovesAtMostOne(c, RemoveAt(c, i))
  {
    RemoveByKey(c, PeerKey, i);
    var before, after := Keys(c, PeerKey), Keys(RemoveAt(c, i), PeerKey);
    assert after - before == {};
    assert before - after <= {c[i].nodeId};
    SubsetSize(before - after, {c[i].nodeId});
  }

  /** `d` is `c` with one peer put in. */
  ghost predicate PutsOne(c: seq<PeerInfo>, d: seq<PeerInfo>) {
    exists x: PeerInfo :: d == Upsert(c, PeerIs(x.nodeId), x)
  }

  /** `d` is `c` with one peer taken out. */
  ghost predicate DropsOne(c: seq<PeerInfo>, d: seq<PeerInfo>) {
    exists i: nat :: i < |c| && d == RemoveAt(c, i)
  }

  /** Short of a wholesale replacement the peer list stays, gains one entry, or loses one. */
  lemma PeersChangeByOne(c: Content, m: Mutation)
    requires !m.ReplaceConfig? && Apply(c, m).Ok?
    ensures var d := Apply(c, m).value.peers;
            d == c.peers || PutsOne(c.peers, d) || DropsOne(c.peers, d)
  {
  }

  /** Every mutation except the wholesale replacement moves the membership by at most one node. */
  lemma MembershipStep(c: Content, m: Mutation)
    requires DistinctPeers(c) && !m.ReplaceConfig? && Apply(c, m).Ok?
    ensures MovesAtMostOne(c.peers, Apply(c, m).value.peers)
  {
    PeersChangeByOne(c, m);
    var d := Apply(c, m).value.peers;
    StayingMovesNone(c.peers);
    if x: PeerInfo :| d == Upsert(c.peers, PeerIs(x.nodeId), x) {
      PutMovesAtMostOne(c.peers, x);
    } else if i: nat :| i < |c.peers| && d == RemoveAt(c.peers, i) {
      DropMovesAtMostOne(c.peers, i);
    }
  }

  lemma StayingMovesNone(c: seq<PeerInfo>)
    requires DistinctBy(c, PeerKey)
    ensures MovesAtMostOne(c, c)
  {
    assert Keys(c, PeerKey) - Keys(c, PeerKey) == {};
  }

  lemma AddedAtMostOne(s: set<NodeId>, x: NodeId)
    ensures |(s + {x}) - s| + |s - (s + {x})| <= 1
  {
    assert s - (s + {x}) == {};
    SubsetSize((s + {x}) - s, {x});
  }

  /**
   For any two configurations with distinct, non-empty peer lists: every quorum
   of one meets every quorum of the other exactly when the two lists together
   name fewer nodes than the two quorum sizes add up to.
   */
  lemma QuorumsMeetExactly(c: Content, d: Content)
    requires DistinctPeers(c) && DistinctPeers(d) && c.peers != [] && d.peers != []
    ensures (forall q: set<NodeId>, r: set<NodeId> :: IsQuorum(q, c) && IsQuorum(r, d) ==> q * r != {})
       <==> |Members(c) + Members(d)| < QuorumSize(|c.peers|) + QuorumSize(|d.peers|)
  {
    DistinctSize(c.peers, PeerKey);
    DistinctSize(d.peers, PeerKey);
    SubsetsMeet(Members(c), Members(d), QuorumSize(|c.peers|), QuorumSize(|d.peers|));
  }

  /** The quorum size is the smallest that makes any two quorums of one list meet. */
  lemma QuorumSizeIsTight(c: Content, q: nat)
    requires DistinctPeers(c) && q <= |c.peers| && c.peers != []
    ensures (forall x: set<NodeId>, y: set<NodeId> ::
               x <= Members(c) && |x| >= q && y <= Members(c) && |y| >= q ==> x * y != {})
       <==> q >= QuorumSize(|c.peers|)
  {
    DistinctSize(c.peers, PeerKey);
    SubsetsMeet(Members(c), Members(c), q, q);
    assert Members(c) + Members(c) == Members(c);
  }

  /** A quorum before and a quorum after any one such mutation share a node. */
  lemma ConsecutiveQuorumsMeet(c: Content, m: Mutation, q: set<NodeId>, r: set<NodeId>)
    requires DistinctPeers(c) && !m.ReplaceConfig? && Apply(c, m).Ok?
    requires IsQuorum(q, c) && IsQuorum(r, Apply(c, m).value)
    ensures q * r != {}
  {
    var after := Apply(c, m).value;
    MembershipStep(c, m);
    DistinctSize(c.peers, PeerKey);
    DistinctSize(after.peers, PeerKey);
    UnionSize(Members(c), Members(after));
    UnionSize(Members(after), Members(c));
    assert Members(c) + Members(after) == Members(after) + Members(c);
    SubsetSize(q, Members(c));
    SubsetSize(r, Members(after));
    if q * r == {} {
      SubsetSize(q + r, Members(c) + Members(after));
    }
  }

  /** The exception is real: one wholesale replacement can leave two quorums with no node in common. */
  lemma ReplacementCanSplitQuorums() returns (c: Content, m: Mutation, q: set<NodeId>, r: set<NodeId>)
    ensures DistinctPeers(c) && m.ReplaceConfig? && Apply(c, m).Ok?
    ensures DistinctPeers(Apply(c, m).value)
    ensures IsQuorum(q, c) && IsQuorum(r, Apply(c, m).value) && q * r == {}
  {
    var a, b := PeerInfo("a", "", "", ""), PeerInfo("b", "", "", "");
    c := EMPTY_CONTENT.(peers := [a]);
    m := ReplaceConfig(EMPTY_CONTENT.(peers := [b]));
    q, r := {"a"}, {"b"};
    assert PeerKey(c.peers[0]) == "a" && PeerKey(Apply(c, m).value.peers[0]) == "b";
  }

  // ----- enrollments over whole runs -----

  /** A rejected mutation leaves the content as it was. */
  function Edit(c: Content, m: Mutation): Content {
    match Apply(c, m)
    case Ok(d) => d
    case Err(_) => c
  }

  function Run(c: Content, ms: seq<Mutation>): Content {
    if ms == [] then c else Edit(Run(c, ms[..|ms| - 1]), ms[|ms| - 1])
  }

  function TokensIssued(ms: seq<Mutation>): nat {
    if ms == [] then 0 else TokensIssued(ms[..|ms| - 1]) + if ms[|ms| - 1].AddEnrollment? then 1 else 0
  }

  ghost predicate DistinctEnrollments(c: Content) { DistinctBy(c.enrollments, EnrollmentId) }

  /** Peers enter by enrollment only: nobody adds them directly or replaces the whole list. */
  predicate ByEnrollmentOnly(ms: seq<Mutation>) {
    forall i :: 0 <= i < |ms| ==> !ms[i].AddPeer? && !ms[i].ReplaceConfig?
  }

  /** `pj` was on record in `c`, or was put on record by one of `ms`. */
  ghost predicate OnRecord(c: Content, ms: seq<Mutation>, pj: PendingJoin) {
    || (exists e :: e in c.enrollments && e.pendingJoin == Some(pj))
    || (exists i :: 0 <= i < |ms| && Records(ms[i], pj))
  }

  predicate Records(m: Mutation, pj: PendingJoin) {
    (m.RecordEnrollPending? && m.join == Some(pj)) || (m.AddEnrollment? && m.enrollment.pendingJoin == Some(pj))
  }

  /** `p` is the peer recorded under an enrollment of `c` that `d` no longer has. */
  ghost predicate CameFromEnrollment(c: Content, d: Content, p: PeerInfo) {
    exists e :: e in c.enrollments && e.pendingJoin.Some? && p == JoinedPeer(e.pendingJoin.value)
                && e.id !in Keys(d.enrollments, EnrollmentId)
  }

  /**
   One step: enrollment ids stay distinct; peers plus outstanding enrollments
   grow only by issuing a token; and a peer that is new came from the join
   recorded under an enrollment that this same step removed for good.
   */
  lemma EnrollmentStep(c: Content, m: Mutation)
    requires DistinctEnrollments(c) && !m.AddPeer? && !m.ReplaceConfig?
    ensures var d := Edit(c, m);
            && DistinctEnrollments(d)
            && |d.peers| + |d.enrollments|
               <= |c.peers| + |c.enrollments| + (if m.AddEnrollment? then 1 else 0)
            && forall p :: p in d.peers && p !in c.peers ==> CameFromEnrollment(c, d, p)
  {
    if Apply(c, m).Ok? {
      match m {
        case AddEnrollment(e) => UpsertByKey(c.enrollments, EnrollmentIs(e.id), EnrollmentId, e);
        case RemoveEnrollment(t) =>
          RemoveByKey(c.enrollments, EnrollmentId, FirstIndex(c.enrollments, EnrollmentNamed(t)));
        case ApproveEnrollment(t) => ApproveStep(c, t);
        case _ =>
      }
    }
  }

  lemma ApproveStep(c: Content, t: string)
    requires DistinctEnrollments(c) && Apply(c, ApproveEnrollment(t)).Ok?
    ensures var d := Apply(c, ApproveEnrollment(t)).value;
            && DistinctEnrollments(d) && |d.peers| + |d.enrollments| <= |c.peers| + |c.enrollments|
            && forall p :: p in d.peers && p !in c.peers ==> CameFromEnrollment(c, d, p)
  {
    var i := FirstIndex(c.enrollments, EnrollmentNamed(t));
    RemoveByKey(c.enrollments, EnrollmentId, i);
    var e := c.enrollments[i];
    assert e in c.enrollments && e.id == EnrollmentId(e);
  }

  /** Whatever the order of issuing, recording, approving and revoking, the books balance. */
  lemma {:induction false} EnrollmentConservation(c: Content, ms: seq<Mutation>)
    requires DistinctEnrollments(c) && ByEnrollmentOnly(ms)
    ensures var d := Run(c, ms);
            && DistinctEnrollments(d)
            && |d.peers| + |d.enrollments| <= |c.peers| + |c.enrollments| + TokensIssued(ms)
  {
    if ms != [] {
      EnrollmentConservation(c, ms[..|ms| - 1]);
      EnrollmentStep(Run(c, ms[..|ms| - 1]), ms[|ms| - 1]);
    }
  }

  /** Every pending join in the final state, and every peer that is new, traces back to a recorded join. */
  lemma {:induction false} EveryPeerWasRecorded(c: Content, ms: seq<Mutation>)
    requires DistinctEnrollments(c) && ByEnrollmentOnly(ms)
    ensures forall e :: e in Run(c, ms).enrollments && e.pendingJoin.Some? ==> OnRecord(c, ms, e.pendingJoin.value)
    ensures forall p :: p in Run(c, ms).peers ==>
              p in c.peers || exists pj :: OnRecord(c, ms, pj) && p == JoinedPeer(pj)
  {
    if ms != [] {
      var front, m := ms[..|ms| - 1], ms[|ms| - 1];
      var mid, d := Run(c, front), Run(c, ms);
      EveryPeerWasRecorded(c, front);
      EnrollmentConservation(c, front);
      EnrollmentStep(mid, m);
      forall pj | OnRecord(c, front, pj) ensures OnRecord(c, ms, pj) {
        if i :| 0 <= i < |front| && Records(front[i], pj) {
          assert Records(ms[i], pj);
        }
      }
      forall e | e in d.enrollments && e.pendingJoin.Some? ensures OnRecord(c, ms, e.pendingJoin.value) {
        JoinsInStep(mid, m, e);
        assert Records(ms[|ms| - 1], e.pendingJoin.value) || OnRecord(c, front, e.pendingJoin.value);
      }
    }
  }

  /** A join on record after a step was on record before it, or the step recorded it. */
  lemma JoinsInStep(c: Content, m: Mutation, e: PendingEnrollment)
    requires !m.AddPeer? && !m.ReplaceConfig? && e in Edit(c, m).enrollments && e.pendingJoin.Some?
    ensures Records(m, e.pendingJoin.value)
            || exists f :: f in c.enrollments && f.pendingJoin == e.pendingJoin
  {
    var d := Edit(c, m);
    var j :| 0 <= j < |d.enrollments| && d.enrollments[j] == e;
    if e !in c.enrollments {
      assert Apply(c, m).Ok?;
    }
  }
}
