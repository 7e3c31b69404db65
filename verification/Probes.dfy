/**
 What a probe reads of its check, by kind, and what it accepts. The network is any
 function from questions to answers; parsing targets and folding case are parameters.
 */
module Probes {
  import opened Options
  import opened Config

  const DEFAULT_TLS_WARN_DAYS := 14
  const DAY := 24 * 3600 * 1_000_000_000
  const RECORD_TYPES := {"a", "aaaa", "cname", "mx", "txt", "ns"}

  /** `parse` finds the address and host of a TLS target; `fold` lowers one character. */
  datatype Env = Env(parse: string -> Option<(string, string)>, fold: char -> char)

  datatype Question =
    | Get(url: string, timeout: int, resolvers: seq<string>)
    | Dial(addr: string, timeout: int, resolvers: seq<string>)
    | Ping(host: string, timeout: int, resolvers: seq<string>)
    | Handshake(addr: string, sni: string, timeout: int, resolvers: seq<string>)
    | Lookup(host: string, record: string, timeout: int, resolvers: seq<string>)

  datatype Answer =
    | Failure
    | Response(status: int, body: string)
    | Connected
    | Echo
    | Certificate(remaining: int)
    | Records(list: seq<string>)

  type Network = Question -> Answer

  function Lower(s: string, fold: char -> char): string { seq(|s|, i requires 0 <= i < |s| => fold(s[i])) }

  predicate ContainsAt(s: string, t: string, i: nat) { i + |t| <= |s| && s[i..i + |t|] == t }

  predicate Contains(s: string, t: string) { exists i: nat :: i <= |s| && ContainsAt(s, t, i) }

  /** The options that only a TLS probe reads: the name it asks for and the days it warns ahead. */
  function TlsOptions(c: Check, env: Env): Option<(string, string, int)> {
    match env.parse(c.target)
    case None => None
    case Some((addr, host)) =>
      Some((addr, if c.tlsServerName == "" then host else c.tlsServerName,
            if c.tlsWarnDays <= 0 then DEFAULT_TLS_WARN_DAYS else c.tlsWarnDays))
  }

  /** The options that only a DNS probe reads: the record type, and what an answer must contain. */
  function DnsOptions(c: Check, env: Env): Option<(string, string)> {
    var asked := Lower(TrimSpace(c.dnsRecord), env.fold);
    var record := if asked == "" then "a" else asked;
    if TrimSpace(c.target) == "" || record !in RECORD_TYPES then None
    else Some((record, Lower(TrimSpace(c.dnsExpect), env.fold)))
  }

  /** What the probe asks the network; `None` when it fails before asking anything. */
  function Ask(c: Check, env: Env): Option<Question> {
    if c.kind == "http" then Some(Get(c.target, c.timeout, c.resolvers))
    else if c.kind == "tcp" then Some(Dial(c.target, c.timeout, c.resolvers))
    else if c.kind == "icmp" then
      if TrimSpace(c.target) == "" then None else Some(Ping(TrimSpace(c.target), c.timeout, c.resolvers))
    else if c.kind == "tls" then
      match TlsOptions(c, env)
      case None => None
      case Some((addr, sni, _)) => Some(Handshake(addr, sni, c.timeout, c.resolvers))
    else if c.kind == "dns" then
      match DnsOptions(c, env)
      case None => None
      case Some((record, _)) => Some(Lookup(TrimSpace(c.target), record, c.timeout, c.resolvers))
    else None
  }

  predicate Accepts(c: Check, env: Env, a: Answer) {
    match a
    case Failure => false
    case Response(status, body) =>
      c.kind == "http" && status == (if c.expectStatus == 0 then 200 else c.expectStatus)
      && (c.bodyMatch == "" || Contains(body, c.bodyMatch))
    case Connected => c.kind == "tcp"
    case Echo => c.kind == "icmp"
    case Certificate(remaining) =>
      c.kind == "tls" && remaining > 0
      && (match TlsOptions(c, env) case None => false case Some((_, _, days)) => remaining >= days * DAY)
    case Records(list) =>
      c.kind == "dns" && list != []
      && (match DnsOptions(c, env)
          case None => false
          case Some((_, want)) =>
            want == "" || exists i :: 0 <= i < |list| && Contains(Lower(list[i], env.fold), want))
  }

  /** The verdict of one probe. */
  predicate Succeeds(c: Check, env: Env, net: Network) {
    match Ask(c, env)
    case None => false
    case Some(q) => Accepts(c, env, net(q))
  }

  /** No network tells the two checks apart. */
  ghost predicate ProbeAlike(a: Check, b: Check, env: Env) {
    forall net: Network :: Succeeds(a, env, net) == Succeeds(b, env, net)
  }

  /** The kind's own options come to the same thing. */
  predicate SameOptions(a: Check, b: Check, env: Env) {
    && (a.kind == "tls" ==> TlsOptions(a, env) == TlsOptions(b, env))
    && (a.kind == "dns" ==> DnsOptions(a, env) == DnsOptions(b, env))
  }

  /** All that the two checks share besides TLS and DNS options. */
  predicate SameBasics(a: Check, b: Check) {
    && a.kind == b.kind && a.target == b.target && a.timeout == b.timeout
    && a.expectStatus == b.expectStatus && a.bodyMatch == b.bodyMatch && a.resolvers == b.resolvers
  }

  lemma SelfContained(s: string)
    ensures Contains(s, s)
  {
    assert s[0..0 + |s|] == s;
    assert ContainsAt(s, s, 0);
  }

  lemma ContainedIsShorter(s: string, t: string)
    requires Contains(s, t)
    ensures |t| <= |s|
    ensures |t| == |s| ==> t == s
  {
    var i: nat :| i <= |s| && ContainsAt(s, t, i);
    if |t| == |s| {
      assert s[i..i + |t|] == s;
    }
  }

  /** Two TLS checks with different options get different verdicts on some certificate. */
  lemma TlsTold(a: Check, b: Check, env: Env) returns (net: Network)
    requires SameBasics(a, b) && a.kind == "tls" && TlsOptions(a, env) != TlsOptions(b, env)
    ensures Succeeds(a, env, net) != Succeeds(b, env, net)
  {
    var x, y := TlsOptions(a, env).value, TlsOptions(b, env).value;
    if x.1 != y.1 {
      var q := Ask(a, env).value;
      net := (p: Question) => if p == q then Certificate(x.2 * DAY) else Failure;
    } else {
      var days := if x.2 < y.2 then x.2 else y.2;
      net := (_: Question) => Certificate(days * DAY);
    }
  }

  /** An answer that spells the wanted text out is accepted. */
  lemma DnsAccepts(c: Check, env: Env)
    requires c.kind == "dns" && DnsOptions(c, env).Some?
    ensures Accepts(c, env, Records([TrimSpace(c.dnsExpect)]))
  {
    var list := [TrimSpace(c.dnsExpect)];
    SelfContained(Lower(list[0], env.fold));
  }

  lemma DnsTold(a: Check, b: Check, env: Env) returns (net: Network)
    requires SameBasics(a, b) && a.kind == "dns" && DnsOptions(a, env).Some? && DnsOptions(a, env) != DnsOptions(b, env)
    requires DnsOptions(b, env).Some? ==> |DnsOptions(b, env).value.1| >= |DnsOptions(a, env).value.1|
    ensures Succeeds(a, env, net) != Succeeds(b, env, net)
  {
    DnsAccepts(a, env);
    var q, spelt := Ask(a, env).value, Records([TrimSpace(a.dnsExpect)]);
    net := (p: Question) => if p == q then spelt else Failure;
    if Succeeds(b, env, net) {
      var want := DnsOptions(b, env).value.1;
      var said := Lower(spelt.list[0], env.fold);
      if want != "" {
        ContainedIsShorter(said, want);
      }
    }
  }

  /**
   Checks that agree in everything but TLS and DNS options probe alike, on every
   network, exactly if the options that their kind reads come to the same thing.
   */
  lemma AlikeExactly(a: Check, b: Check, env: Env)
    requires SameBasics(a, b)
    ensures ProbeAlike(a, b, env) <==> SameOptions(a, b, env)
  {
    if a.kind == "tls" && TlsOptions(a, env) != TlsOptions(b, env) {
      var net := TlsTold(a, b, env);
    } else if a.kind == "dns" && DnsOptions(a, env) != DnsOptions(b, env) {
      var x, y := DnsOptions(a, env), DnsOptions(b, env);
      if x.Some? && (y.Some? ==> |y.value.1| >= |x.value.1|) {
        var net := DnsTold(a, b, env);
      } else {
        var net := DnsTold(b, a, env);
      }
    }
  }
}
