/** The sighting of the site on this link and the home decision: home_reach.go. Times are in seconds. */
module LocalSite {
  import opened Results
  import opened Text

  const POLL_INTERVAL := 30
  const SEEN_TTL := 3 * POLL_INTERVAL

  // ----- Two timestamps -----

  datatype Poll = Poll(at: int, seen: bool)

  /** The times of the last poll and the last sighting; none for the zero time. */
  datatype Sighting = Sighting(polled: Option<int>, lastPositive: Option<int>)

  datatype Answer = Answer(seen: bool, recent: bool)

  function Record(s: Sighting, poll: Poll): Sighting {
    Sighting(Some(poll.at), if poll.seen then Some(poll.at) else s.lastPositive)
  }

  function Ask(s: Sighting, now: int, ttl: int): Answer {
    if s.polled.None? || now - s.polled.value > ttl then Answer(false, false)
    else Answer(s.lastPositive.Some? && now - s.lastPositive.value <= ttl, true)
  }

  class SiteMemory {
    var polled: Option<int>
    var lastPositive: Option<int>

    constructor ()
      ensures Sighting(polled, lastPositive) == After([])
    {
      polled, lastPositive := None, None;
    }

    method SetLocalSiteSeen(now: int, seen: bool)
      modifies this
      ensures Sighting(polled, lastPositive) == Record(old(Sighting(polled, lastPositive)), Poll(now, seen))
    {
      polled := Some(now);
      if seen {
        lastPositive := polled;
      }
    }

    method LocalSiteSeen(now: int) returns (seen: bool, recent: bool)
      ensures Answer(seen, recent) == Ask(Sighting(polled, lastPositive), now, SEEN_TTL)
    {
      if polled.None? || now - polled.value > SEEN_TTL {
        return false, false;
      }
      seen := lastPositive.Some? && now - lastPositive.value <= SEEN_TTL;
      recent := true;
    }
  }

  // ----- The whole history of polls -----

  /** What the timestamps hold after some polls. */
  function After(polls: seq<Poll>): Sighting {
    if polls == [] then Sighting(None, None) else Record(After(polls[..|polls| - 1]), polls[|polls| - 1])
  }

  predicate InOrder(polls: seq<Poll>) {
    forall i, j :: 0 <= i <= j < |polls| ==> polls[i].at <= polls[j].at
  }

  lemma {:induction false} LastPositive(polls: seq<Poll>)
    requires InOrder(polls)
    ensures After(polls).lastPositive.None? <==> forall i :: 0 <= i < |polls| ==> !polls[i].seen
    ensures After(polls).lastPositive.Some? ==>
      (exists i :: 0 <= i < |polls| && polls[i].seen && polls[i].at == After(polls).lastPositive.value)
      && forall i :: 0 <= i < |polls| && polls[i].seen ==> polls[i].at <= After(polls).lastPositive.value
  {
    if polls != [] {
      var n := |polls| - 1;
      LastPositive(polls[..n]);
      assert forall i :: 0 <= i < n ==> polls[..n][i] == polls[i];
      if polls[n].seen {
        assert polls[n].at == After(polls).lastPositive.value;
      }
    }
  }

  predicate SeenWithin(polls: seq<Poll>, now: int, ttl: int) {
    exists i :: 0 <= i < |polls| && polls[i].seen && now - polls[i].at <= ttl
  }

  /** The two timestamps answer what the whole history of polls would. */
  lemma AnswersFromHistory(polls: seq<Poll>, now: int, ttl: int)
    requires InOrder(polls)
    ensures Ask(After(polls), now, ttl).recent <==> polls != [] && now - polls[|polls| - 1].at <= ttl
    ensures Ask(After(polls), now, ttl).seen
       <==> polls != [] && now - polls[|polls| - 1].at <= ttl && SeenWithin(polls, now, ttl)
  {
    LastPositive(polls);
    if SeenWithin(polls, now, ttl) {
      var i :| 0 <= i < |polls| && polls[i].seen && now - polls[i].at <= ttl;
      assert polls[i].at <= After(polls).lastPositive.value;
    }
  }

  // ----- Misses -----

  /** Polls at most p apart, of which the last k or fewer missed and the one before them did not. */
  predicate MissesAfterHit(polls: seq<Poll>, k: nat, p: int) {
    && (forall i :: 0 < i < |polls| ==> 0 <= polls[i].at - polls[i - 1].at <= p)
    && exists h :: 0 <= h < |polls| && |polls| - 1 - h <= k && polls[h].seen
  }

  lemma {:induction false} Apart(polls: seq<Poll>, p: int, h: nat, n: nat)
    requires h <= n < |polls| && forall i :: 0 < i < |polls| ==> 0 <= polls[i].at - polls[i - 1].at <= p
    ensures 0 <= polls[n].at - polls[h].at <= (n - h) * p
  {
    if h < n {
      Apart(polls, p, h, n - 1);
      assert (n - h) * p == (n - 1 - h) * p + p;
    }
  }

  lemma GapsMeanOrder(polls: seq<Poll>, p: int)
    requires forall i :: 0 < i < |polls| ==> 0 <= polls[i].at - polls[i - 1].at <= p
    ensures InOrder(polls)
  {
    forall i, j | 0 <= i <= j < |polls|
      ensures polls[i].at <= polls[j].at
    {
      Apart(polls, p, i, j);
    }
  }

  /** The answer up to one more poll interval after k misses. */
  ghost predicate Tolerates(k: nat, p: int, ttl: int) {
    forall polls: seq<Poll>, now: int ::
      MissesAfterHit(polls, k, p) && polls[|polls| - 1].at <= now <= polls[|polls| - 1].at + p
      ==> Ask(After(polls), now, ttl).seen
  }

  lemma MissesFit(polls: seq<Poll>, now: int, k: nat, p: int, ttl: int)
    requires 0 <= p && (k + 1) * p <= ttl
    requires MissesAfterHit(polls, k, p) && polls[|polls| - 1].at <= now <= polls[|polls| - 1].at + p
    ensures Ask(After(polls), now, ttl).seen
  {
    var n := |polls| - 1;
    var h :| 0 <= h < |polls| && n - h <= k && polls[h].seen;
    Apart(polls, p, h, n);
    GapsMeanOrder(polls, p);
    AnswersFromHistory(polls, now, ttl);
    hide *;
    Intervals(n - h, k, p);
    assert now - polls[n].at <= ttl && now - polls[h].at <= ttl;
    Witness(polls, now, ttl, h);
  }

  lemma Intervals(m: nat, k: nat, p: int)
    requires m <= k && 0 <= p
    ensures m * p <= k * p && (k + 1) * p == k * p + p && k * p >= 0
  {
    assert k * p - m * p == (k - m) * p;
  }

  lemma Witness(polls: seq<Poll>, now: int, ttl: int, h: nat)
    requires h < |polls| && polls[h].seen && now - polls[h].at <= ttl
    ensures SeenWithin(polls, now, ttl)
  {
  }

  function Misses(k: nat, p: int): seq<Poll> {
    seq(k + 1, i requires 0 <= i => Poll(i * p, i == 0))
  }

  lemma MissesAreMisses(k: nat, p: int)
    requires 0 <= p
    ensures MissesAfterHit(Misses(k, p), k, p)
    ensures !SeenWithin(Misses(k, p), (k + 1) * p, (k + 1) * p - 1)
  {
    var polls := Misses(k, p);
    forall i | 0 < i < |polls|
      ensures polls[i].at - polls[i - 1].at == p
    {
      assert i * p == (i - 1) * p + p;
    }
    assert polls[0].seen;
  }

  /** k misses in a row never flip the answer exactly when k + 1 intervals fit the lifetime of a sighting. */
  lemma MissesTolerated(k: nat, p: int, ttl: int)
    requires 0 <= p
    ensures Tolerates(k, p, ttl) <==> (k + 1) * p <= ttl
  {
    if (k + 1) * p <= ttl {
      forall polls: seq<Poll>, now: int
        | MissesAfterHit(polls, k, p) && polls[|polls| - 1].at <= now <= polls[|polls| - 1].at + p
        ensures Ask(After(polls), now, ttl).seen
      {
        MissesFit(polls, now, k, p, ttl);
      }
    } else {
      var (polls, now) := (Misses(k, p), (k + 1) * p);
      MissesAreMisses(k, p);
      GapsMeanOrder(polls, p);
      AnswersFromHistory(polls, now, ttl);
      assert now == k * p + p && polls[k].at == k * p;
      assert !SeenWithin(polls, now, ttl);
      assert !Ask(After(polls), now, ttl).seen;
    }
  }

  // ----- The home decision -----

  /** What net.SplitHostPort says about an endpoint: whether it carries a port. */
  type HasPort = string -> bool

  const DEFAULT_PORT := "443"

  function ColonCount(s: string): nat {
    if s == [] then 0 else (if s[0] == ':' then 1 else 0) + ColonCount(s[1..])
  }

  function WithDefaultPort(hostport: string, port: string, hasPort: HasPort): string {
    if hasPort(hostport) then hostport
    else if ColonCount(hostport) >= 2 && hostport[0] != '[' then ['['] + hostport + [']', ':'] + port
    else hostport + [':'] + port
  }

  function LastColon(s: string): (i: int)
    ensures -1 <= i < |s|
  {
    if s == [] then -1 else if s[|s| - 1] == ':' then |s| - 1 else LastColon(s[..|s| - 1])
  }

  function FirstClosing(s: string): (i: int)
    ensures -1 <= i < |s|
  {
    if s == [] then -1
    else if s[0] == ']' then 0
    else
      var i := FirstClosing(s[1..]);
      if i < 0 then -1 else i + 1
  }

  /** net.SplitHostPort: host and port, the host without its brackets; None for its errors. */
  function SplitHostPort(s: string): Option<(string, string)> {
    var i := LastColon(s);
    if i < 0 then None
    else if s[0] == '[' then
      var end := FirstClosing(s);
      if end < 0 || end + 1 != i || '[' in s[1..] || ']' in s[end + 1..] then None
      else Some((s[1..end], s[i + 1..]))
    else if ':' in s[..i] || '[' in s || ']' in s then None
    else Some((s[..i], s[i + 1..]))
  }

  predicate NoBrackets(s: string) {
    '[' !in s && ']' !in s
  }

  lemma {:induction false} LastColonIs(s: string, i: nat)
    requires i < |s| && s[i] == ':' && forall j :: i < j < |s| ==> s[j] != ':'
    ensures LastColon(s) == i
  {
    if i < |s| - 1 {
      LastColonIs(s[..|s| - 1], i);
    }
  }

  lemma {:induction false} FirstClosingIs(s: string, i: nat)
    requires i < |s| && s[i] == ']' && forall j :: 0 <= j < i ==> s[j] != ']'
    ensures FirstClosing(s) == i
  {
    if i > 0 {
      FirstClosingIs(s[1..], i - 1);
    }
  }

  lemma {:induction false} ColonsOf(s: string)
    ensures ColonCount(s) == 0 <==> ':' !in s
    ensures ':' in s ==> 0 <= LastColon(s) && s[LastColon(s)] == ':'
    ensures ColonCount(s) == 1 ==> 0 <= LastColon(s) && ':' !in s[..LastColon(s)]
  {
    if s != [] {
      var (front, last) := (s[..|s| - 1], s[|s| - 1]);
      ColonsOf(front);
      ColonsAppend(front, last);
      assert s == front + [last];
      assert front[..|front|] == front;
      if last == ':' {
        assert s[..|s| - 1] == front;
      } else if LastColon(front) >= 0 {
        assert s[..LastColon(front)] == front[..LastColon(front)];
      }
    }
  }

  lemma {:induction false} ColonsAppend(s: string, c: char)
    ensures ColonCount(s + [c]) == ColonCount(s) + if c == ':' then 1 else 0
  {
    if s != [] {
      assert (s + [c])[1..] == s[1..] + [c];
      ColonsAppend(s[1..], c);
    } else {
      assert [] + [c] == [c] && [c][1..] == [];
    }
  }

  /** Where host and port lie in a bracketed endpoint. */
  lemma BracketedParts(s: string, host: string, port: string)
    requires s == ['['] + host + [']', ':'] + port
    ensures var n := |host| + 1;
      && |s| == n + 2 + |port| && s[0] == '[' && s[n] == ']' && s[n + 1] == ':'
      && s[1..n] == host && s[n + 2..] == port
      && (forall j :: 0 < j < n ==> s[j] == host[j - 1]) && forall j :: n + 1 < j < |s| ==> s[j] == port[j - n - 2]
  {
  }

  lemma BracketsAtEnds(s: string, host: string, port: string)
    requires s == ['['] + host + [']', ':'] + port && NoBrackets(host) && NoBrackets(port)
    ensures '[' !in s[1..] && ']' !in s[|host| + 2..]
  {
    BracketedParts(s, host, port);
    var n := |host| + 1;
    forall j | 0 < j < |s|
      ensures s[j] != '[' && (n < j ==> s[j] != ']')
    {
      assert 0 < j < n ==> s[j] in host;
      assert n + 1 < j ==> s[j] in port;
    }
  }

  lemma BracketedSplits(host: string, port: string)
    requires NoBrackets(host) && NoBrackets(port) && ':' !in port
    ensures SplitHostPort(['['] + host + [']', ':'] + port) == Some((host, port))
  {
    var s := ['['] + host + [']', ':'] + port;
    BracketedParts(s, host, port);
    BracketsAtEnds(s, host, port);
    hide LastColon, FirstClosing;
    LastColonIs(s, |host| + 2);
    FirstClosingIs(s, |host| + 1);
  }

  lemma PlainSplits(host: string, port: string)
    requires NoBrackets(host) && NoBrackets(port) && ':' !in port && ':' !in host
    ensures SplitHostPort(host + [':'] + port) == Some((host, port))
  {
    var s := host + [':'] + port;
    assert s[..|host|] == host && s[|host| + 1..] == port && s[|host|] == ':';
    assert forall j :: |host| < j < |s| ==> s[j] == port[j - |host| - 1];
    LastColonIs(s, |host|);
    assert host != [] ==> s[0] == host[0];
  }

  /**
   An endpoint that carries a port is taken as it is; any other name or address
   without brackets, colons or not, gets the port behind it and is still the host.
   */
  lemma DefaultPortIsAdded(host: string, port: string, hasPort: HasPort)
    requires hasPort(host) <==> SplitHostPort(host).Some?
    requires NoBrackets(host) && NoBrackets(port) && ':' !in port
    ensures SplitHostPort(host).Some? ==> WithDefaultPort(host, port, hasPort) == host
    ensures SplitHostPort(host).None? ==>
      SplitHostPort(WithDefaultPort(host, port, hasPort)) == Some((host, port))
  {
    ColonsOf(host);
    if SplitHostPort(host).None? {
      if ColonCount(host) >= 2 {
        BracketedSplits(host, port);
      } else {
        PlainSplits(host, port);
      }
    }
  }

  /** A bracketed address without a port gets it behind the bracket. */
  lemma DefaultPortBehindBracket(host: string, port: string, hasPort: HasPort)
    requires var literal := ['['] + host + [']']; hasPort(literal) <==> SplitHostPort(literal).Some?
    requires NoBrackets(host) && NoBrackets(port) && ':' !in port
    ensures var literal := ['['] + host + [']'];
      SplitHostPort(WithDefaultPort(literal, port, hasPort)) == Some((host, port))
  {
    var literal := ['['] + host + [']'];
    var n := |host| + 1;
    assert literal[n] == ']' && literal[0] == '[';
    assert forall j :: 0 < j < n ==> literal[j] == host[j - 1];
    FirstClosingIs(literal, n);
    assert SplitHostPort(literal).None?;
    assert literal + [':'] + port == ['['] + host + [']', ':'] + port;
    BracketedSplits(host, port);
  }

  lemma PortOfHttps()
    ensures DEFAULT_PORT == "443" && NoBrackets(DEFAULT_PORT) && ':' !in DEFAULT_PORT
  {
  }

  /** The endpoints in a comma-separated list that the directory pushed, in order. */
  function PushedEndpoints(parts: seq<string>, hasPort: HasPort): seq<string> {
    if parts == [] then []
    else
      var (front, part) := (PushedEndpoints(parts[..|parts| - 1], hasPort), TrimSpace(parts[|parts| - 1]));
      if part == [] then front else front + [WithDefaultPort(part, DEFAULT_PORT, hasPort)]
  }

  /** Of parts with text in them each is an endpoint, in order, without its white space and with a port. */
  lemma {:induction false} PushedInOrder(parts: seq<string>, hasPort: HasPort)
    requires forall i :: 0 <= i < |parts| ==> TrimSpace(parts[i]) != ""
    ensures |PushedEndpoints(parts, hasPort)| == |parts|
    ensures forall i :: 0 <= i < |parts| ==>
      PushedEndpoints(parts, hasPort)[i] == WithDefaultPort(TrimSpace(parts[i]), "443", hasPort)
  {
    hide TrimSpace, WithDefaultPort;
    if parts != [] {
      PushedInOrder(parts[..|parts| - 1], hasPort);
    }
  }

  /** A blank part is none. */
  lemma BlankPartsAreNone(parts: seq<string>, blank: string, hasPort: HasPort)
    requires TrimSpace(blank) == ""
    ensures PushedEndpoints(parts + [blank], hasPort) == PushedEndpoints(parts, hasPort)
  {
    assert (parts + [blank])[..|parts|] == parts;
    hide TrimSpace;
  }

  /** The endpoints to probe; host is the bare host of the directory, empty if it has none. */
  method HomeEndpoints(host: string, lanEndpoint: string, hasPort: HasPort) returns (out: seq<string>)
    ensures out == PushedEndpoints(Split(lanEndpoint, ','), hasPort)
                 + if host == [] then [] else [WithDefaultPort(host, DEFAULT_PORT, hasPort)]
  {
    hide TrimSpace, WithDefaultPort;
    out := [];
    if lanEndpoint != [] {
      var parts := Split(lanEndpoint, ',');
      for i := 0 to |parts|
        invariant out == PushedEndpoints(parts[..i], hasPort)
      {
        assert parts[..i + 1][..i] == parts[..i];
        var part := TrimSpace(parts[i]);
        if part != [] {
          out := out + [WithDefaultPort(part, DEFAULT_PORT, hasPort)];
        }
      }
      assert parts[..|parts|] == parts;
    } else {
      NothingPushed(hasPort);
    }
    if host != [] {
      out := out + [WithDefaultPort(host, DEFAULT_PORT, hasPort)];
    }
  }

  lemma NothingPushed(hasPort: HasPort)
    ensures PushedEndpoints(Split([], ','), hasPort) == []
  {
    assert Split([], ',') == [[]] && TrimSpace([]) == [];
  }

  method IsPushedLanEndpoint(ep: string, lanEndpoint: string, hasPort: HasPort) returns (r: bool)
    ensures r <==> ep in PushedEndpoints(Split(lanEndpoint, ','), hasPort)
  {
    hide TrimSpace, WithDefaultPort;
    if lanEndpoint == [] {
      NothingPushed(hasPort);
      return false;
    }
    var parts := Split(lanEndpoint, ',');
    for i := 0 to |parts|
      invariant ep !in PushedEndpoints(parts[..i], hasPort)
    {
      assert parts[..i + 1][..i] == parts[..i];
      var part := TrimSpace(parts[i]);
      if part != [] && ep == WithDefaultPort(part, DEFAULT_PORT, hasPort) {
        FoundPushed(parts, i + 1, ep, hasPort);
        return true;
      }
    }
    assert parts[..|parts|] == parts;
    return false;
  }

  lemma {:induction false} FoundPushed(parts: seq<string>, n: nat, ep: string, hasPort: HasPort)
    requires n <= |parts| && ep in PushedEndpoints(parts[..n], hasPort)
    ensures ep in PushedEndpoints(parts, hasPort)
    decreases |parts| - n
  {
    if n < |parts| {
      assert parts[..n + 1][..n] == parts[..n];
      FoundPushed(parts, n + 1, ep, hasPort);
    } else {
      assert parts[..n] == parts;
    }
  }

  /** What the network says about an endpoint. */
  datatype Network = Network(isPrivate: string -> bool, answers: string -> bool, hasPort: HasPort)

  /** An endpoint that was pushed counts as home-only; the directory's own host only at a private address. */
  ghost predicate ReachesHome(host: string, lanEndpoint: string, net: Network) {
    || (exists ep :: ep in PushedEndpoints(Split(lanEndpoint, ','), net.hasPort) && net.answers(ep))
    || (host != [] && net.isPrivate(Directory(host, net)) && net.answers(Directory(host, net)))
  }

  function Directory(host: string, net: Network): string {
    WithDefaultPort(host, DEFAULT_PORT, net.hasPort)
  }

  /** Every signal speaks for home or not at all; with none of them the answer is away. */
  ghost predicate Home(seen: bool, reaches: bool, agentIP: string, homeIP: string, connected: bool) {
    connected && (seen || reaches || (agentIP == homeIP && homeIP != []))
  }

  /** Without a connection the answer is away; with one each signal is enough, the last for a known address only. */
  lemma HomeBySignals(seen: bool, reaches: bool, agentIP: string, homeIP: string)
    ensures !Home(seen, reaches, agentIP, homeIP, false)
    ensures Home(true, reaches, agentIP, homeIP, true) && Home(seen, true, agentIP, homeIP, true)
    ensures Home(false, false, agentIP, homeIP, true) <==> agentIP == homeIP && |agentIP| > 0
  {
  }

  /** An answer counts from any pushed endpoint, and from the directory's own host at a private address only. */
  lemma ReachesBySignals(host: string, lanEndpoint: string, net: Network, ep: string)
    ensures net.answers(ep) && ep in PushedEndpoints(Split(lanEndpoint, ','), net.hasPort) ==>
      ReachesHome(host, lanEndpoint, net)
    ensures host != "" && net.isPrivate(Directory(host, net)) && net.answers(Directory(host, net)) ==>
      ReachesHome(host, lanEndpoint, net)
    ensures (forall e :: !net.answers(e)) ==> !ReachesHome(host, lanEndpoint, net)
    ensures (forall e :: !net.isPrivate(e)) ==> !ReachesHome(host, "", net)
    ensures !ReachesHome("", "", net)
  {
    NothingPushed(net.hasPort);
    hide PushedEndpoints, WithDefaultPort, Split;
  }

  method DetectHome(memory: SiteMemory, now: int, net: Network, host: string, lanEndpoint: string,
                    agentIP: string, homeIP: string, connected: bool) returns (home: bool)
    ensures home <==>
      Home(Ask(Sighting(memory.polled, memory.lastPositive), now, SEEN_TTL).seen, ReachesHome(host, lanEndpoint, net),
           agentIP, homeIP, connected)
  {
    if !connected {
      return false;
    }
    var seen, recent := memory.LocalSiteSeen(now);
    if recent && seen {
      return true;
    }
    var reached := ProbeEndpoints(host, lanEndpoint, net);
    if reached {
      return true;
    }
    if homeIP != [] && agentIP != [] {
      return agentIP == homeIP;
    }
    return false;
  }

  method ProbeEndpoints(host: string, lanEndpoint: string, net: Network) returns (reached: bool)
    ensures reached <==> ReachesHome(host, lanEndpoint, net)
  {
    hide PushedEndpoints, WithDefaultPort, Split;
    ghost var pushed := PushedEndpoints(Split(lanEndpoint, ','), net.hasPort);
    var endpoints := HomeEndpoints(host, lanEndpoint, net.hasPort);
    for i := 0 to |endpoints|
      invariant forall j :: 0 <= j < i ==>
        !((endpoints[j] in pushed || net.isPrivate(endpoints[j])) && net.answers(endpoints[j]))
    {
      var ep := endpoints[i];
      var homeOnly := IsPushedLanEndpoint(ep, lanEndpoint, net.hasPort);
      homeOnly := homeOnly || net.isPrivate(ep);
      if homeOnly && net.answers(ep) {
        return true;
      }
    }
    assert forall ep :: ep in pushed ==> ep in endpoints;
    assert host != [] ==> Directory(host, net) in endpoints;
    return false;
  }

  /** While the agent polls every 30 seconds, two misses in a row do not move a connected host away from home. */
  lemma HomeThroughMisses(polls: seq<Poll>, now: int, reaches: bool, agentIP: string, homeIP: string)
    requires MissesAfterHit(polls, 2, POLL_INTERVAL)
    requires polls[|polls| - 1].at <= now <= polls[|polls| - 1].at + POLL_INTERVAL
    ensures Home(Ask(After(polls), now, SEEN_TTL).seen, reaches, agentIP, homeIP, true)
  {
    MissesTolerated(2, POLL_INTERVAL, SEEN_TTL);
  }
}
