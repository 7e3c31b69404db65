/**
 The replicated cluster configuration: its entities, its mutations as pure
 edits of the content, and the version rule that `Mutate` and `Replace` follow.
 */
module Config {
  import opened Options
  import opened NodeIds
  import opened Lists

  datatype PeerInfo = PeerInfo(nodeId: NodeId, advertise: string, fingerprint: string, certPem: string)

  datatype Check = Check(
    id: string, name: string, kind: string, target: string, interval: int, timeout: int,
    expectStatus: int, bodyMatch: string,
    tlsWarnDays: int, tlsServerName: string,
    dnsRecord: string, dnsResolver: string, dnsExpect: string,
    alertIds: seq<string>, suppressAlertIds: seq<string>, disabled: bool, resolvers: seq<string>)

  /** `settings` stands for the delivery options and templates, which nothing here reads. */
  datatype Alert = Alert(
    id: string, name: string, kind: string, isDefault: bool, disabled: bool, settings: string)

  datatype PendingJoin = PendingJoin(
    nodeId: NodeId, advertise: string, fingerprint: string, certPem: string, submittedAt: int)

  datatype PendingEnrollment = PendingEnrollment(
    id: string, name: string, secretHash: string, autoApprove: bool, createdBy: NodeId,
    createdAt: int, expiresAt: int, pendingJoin: Option<PendingJoin>)

  datatype Content = Content(
    peers: seq<PeerInfo>, checks: seq<Check>, alerts: seq<Alert>,
    enrollments: seq<PendingEnrollment>, resolvers: seq<string>)

  /** Everything that cluster.yaml holds. */
  datatype Snapshot = Snapshot(version: nat, updatedAt: int, updatedBy: NodeId, content: Content)

  const EMPTY_CONTENT := Content([], [], [], [], [])

  /** Keys and matching rules of the configured entities. */
  function PeerKey(p: PeerInfo): string { p.nodeId }
  function CheckId(c: Check): string { c.id }
  function CheckName(c: Check): string { c.name }
  function AlertId(a: Alert): string { a.id }
  function AlertName(a: Alert): string { a.name }
  function EnrollmentId(e: PendingEnrollment): string { e.id }

  function CheckNamed(t: string): Check -> bool { (c: Check) => c.id == t || c.name == t }
  function AlertNamed(t: string): Alert -> bool { (a: Alert) => a.id == t || a.name == t }
  function PeerIs(t: string): PeerInfo -> bool { (p: PeerInfo) => p.nodeId == t }
  function EnrollmentIs(t: string): PendingEnrollment -> bool { (e: PendingEnrollment) => e.id == t }

  /** An unnamed enrollment is not reachable by the empty name. */
  function EnrollmentNamed(t: string): PendingEnrollment -> bool {
    (e: PendingEnrollment) => e.id == t || (e.name != "" && e.name == t)
  }

  function ClashesWithCheck(x: Check): Check -> bool { (c: Check) => c.id == x.id || c.name == x.name }
  function ClashesWithAlert(x: Alert): Alert -> bool { (a: Alert) => a.id == x.id || a.name == x.name }

  /** Smallest number of live nodes that lets a cluster of `n` listed peers make progress. */
  function QuorumSize(n: nat): (q: nat)
    ensures 2 * (q - 1) <= n < 2 * q
  {
    if n == 0 then 1 else n / 2 + 1
  }

  /** A decoded mutation payload; `Undecodable` covers bad payloads and unknown kinds. */
  datatype Mutation =
    | AddCheck(check: Check)
    | RemoveCheck(target: string)
    | AddAlert(alert: Alert)
    | RemoveAlert(target: string)
    | AddPeer(peer: PeerInfo)
    | RemovePeer(target: string)
    | ReplaceConfig(incoming: Content)
    | AddEnrollment(enrollment: PendingEnrollment)
    | RemoveEnrollment(target: string)
    | RecordEnrollPending(id: string, join: Option<PendingJoin>)
    | ApproveEnrollment(target: string)
    | SetResolvers(list: seq<string>)
    | Undecodable

  datatype MutationError = BadPayload | MissingFields | NotFound | NothingToApprove

  type Edited = Result<Content, MutationError>

  function JoinedPeer(pj: PendingJoin): PeerInfo {
    PeerInfo(pj.nodeId, pj.advertise, pj.fingerprint, pj.certPem)
  }

  function Apply(c: Content, m: Mutation): Edited {
    match m
    case AddCheck(x) =>
      if x.id == "" || x.name == "" then Err(MissingFields)
      else Ok(c.(checks := Upsert(c.checks, ClashesWithCheck(x), x)))
    case RemoveCheck(t) =>
      var i := FirstIndex(c.checks, CheckNamed(t));
      if i < |c.checks| then Ok(c.(checks := RemoveAt(c.checks, i))) else Err(NotFound)
    case AddAlert(x) =>
      if x.id == "" || x.name == "" then Err(MissingFields)
      else Ok(c.(alerts := Upsert(c.alerts, ClashesWithAlert(x), x)))
    case RemoveAlert(t) =>
      var i := FirstIndex(c.alerts, AlertNamed(t));
      if i < |c.alerts| then Ok(c.(alerts := RemoveAt(c.alerts, i))) else Err(NotFound)
    case AddPeer(x) =>
      if x.nodeId == "" then Err(MissingFields)
      else Ok(c.(peers := Upsert(c.peers, PeerIs(x.nodeId), x)))
    case RemovePeer(t) =>
      var i := FirstIndex(c.peers, PeerIs(t));
      if i < |c.peers| then Ok(c.(peers := RemoveAt(c.peers, i))) else Err(NotFound)
    case ReplaceConfig(n) =>
      Ok(Content(n.peers, n.checks, n.alerts, c.enrollments, n.resolvers))
    case AddEnrollment(e) =>
      if e.id == "" || e.secretHash == "" then Err(MissingFields)
      else Ok(c.(enrollments := Upsert(c.enrollments, EnrollmentIs(e.id), e)))
    case RemoveEnrollment(t) =>
      var i := FirstIndex(c.enrollments, EnrollmentNamed(t));
      if i < |c.enrollments| then Ok(c.(enrollments := RemoveAt(c.enrollments, i))) else Err(NotFound)
    case RecordEnrollPending(id, pj) =>
      if id == "" || pj == None then Err(MissingFields)
      else
        var i := FirstIndex(c.enrollments, EnrollmentIs(id));
        if i < |c.enrollments|
        then Ok(c.(enrollments := c.enrollments[i := c.enrollments[i].(pendingJoin := pj)]))
        else Err(NotFound)
    case ApproveEnrollment(t) =>
      var i := FirstIndex(c.enrollments, EnrollmentNamed(t));
      if i == |c.enrollments| then Err(NotFound)
      else if c.enrollments[i].pendingJoin == None then Err(NothingToApprove)
      else
        var peer := JoinedPeer(c.enrollments[i].pendingJoin.value);
        Ok(c.(peers := Upsert(c.peers, PeerIs(peer.nodeId), peer),
              enrollments := RemoveAt(c.enrollments, i)))
    case SetResolvers(list) => Ok(c.(resolvers := Cleaned(list)))
    case Undecodable => Err(BadPayload)
  }

  /** Unicode white space, as `strings.TrimSpace` counts it. */
  predicate IsSpace(c: char)
    ensures IsSpace(c) <==> 9 <= c as int <= 13 || 8192 <= c as int <= 8202
                            || c as int in {32, 133, 160, 5760, 8232, 8233, 8239, 8287, 12288}
  {
    c in {' ', '\t', '\n', '\U{0B}', '\U{0C}', '\r', '\U{85}', '\U{A0}', '\U{1680}',
          '\U{2028}', '\U{2029}', '\U{202F}', '\U{205F}', '\U{3000}'}
    || '\U{2000}' <= c <= '\U{200A}'
  }

  function TrimSpace(s: string): string {
    if s == "" then ""
    else if IsSpace(s[0]) then TrimSpace(s[1..])
    else if IsSpace(s[|s| - 1]) then TrimSpace(s[..|s| - 1])
    else s
  }

  /** Each entry trimmed, blanks dropped, order kept. */
  function Cleaned(list: seq<string>): seq<string> {
    if list == [] then []
    else
      var s := TrimSpace(list[|list| - 1]);
      Cleaned(list[..|list| - 1]) + if s == "" then [] else [s]
  }

  /** One successful pass through `Mutate`: the edit, then version, time and author. */
  function Committed(s: Snapshot, author: NodeId, now: int, m: Mutation): Result<Snapshot, MutationError> {
    match Apply(s.content, m)
    case Ok(c) => Ok(Snapshot(s.version + 1, now, author, c))
    case Err(e) => Err(e)
  }

  /** The strictly-newer rule of `Replace`. */
  function Adopted(mine: Snapshot, incoming: Snapshot): Snapshot {
    if incoming.version <= mine.version then mine else incoming
  }

  /** The live, mutable configuration of one node. */
  class ClusterConfig {
    var version: nat
    var updatedAt: int
    var updatedBy: NodeId
    var peers: seq<PeerInfo>
    var checks: seq<Check>
    var alerts: seq<Alert>
    var enrollments: seq<PendingEnrollment>
    var resolvers: seq<string>

    ghost function View(): Snapshot
      reads this
    {
      Snapshot(version, updatedAt, updatedBy, Content(peers, checks, alerts, enrollments, resolvers))
    }

    constructor ()
      ensures View() == Snapshot(0, 0, "", EMPTY_CONTENT)
    {
      version, updatedAt, updatedBy := 0, 0, "";
      peers, checks, alerts, enrollments, resolvers := [], [], [], [], [];
    }

    method TakeSnapshot() returns (s: Snapshot)
      ensures s == View()
    {
      s := Snapshot(version, updatedAt, updatedBy, Content(peers, checks, alerts, enrollments, resolvers));
    }

    /** Overwrites this configuration when, and only when, `incoming` is strictly newer. */
    method Replace(incoming: Snapshot) returns (applied: bool)
      modifies this
      ensures applied <==> old(version) < incoming.version
      ensures View() == Adopted(old(View()), incoming)
      ensures View() == if old(version) < incoming.version then incoming else old(View())
    {
      if incoming.version <= version {
        return false;
      }
      version, updatedAt, updatedBy := incoming.version, incoming.updatedAt, incoming.updatedBy;
      peers, checks, alerts := incoming.content.peers, incoming.content.checks, incoming.content.alerts;
      enrollments, resolvers := incoming.content.enrollments, incoming.content.resolvers;
      return true;
    }

    /** The tail of `Mutate`, reached only when the edit succeeded. */
    method Bump(author: NodeId, now: int)
      modifies `version, `updatedAt, `updatedBy
      ensures version == old(version) + 1 && updatedAt == now && updatedBy == author
    {
      version, updatedAt, updatedBy := version + 1, now, author;
    }
  }
}
