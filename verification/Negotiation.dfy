/** Deciding, per registry host, between HTTPS and plain HTTP: one negotiation, and its probes. */
module Negotiation {

  type Host = string

  /** The links of an error chain that the decision looks for. */
  datatype Fault = OpError(op: string) | DnsError | DeadlineExceeded | SchemeMismatch | OtherFault

  /** What a GET of /v2/ came to: any response at all, or an error chain, outermost first. */
  datatype Probe = Responded | Failed(chain: seq<Fault>)

  datatype Verdict = Verdict(plain: bool, failed: bool)

  function FirstOp(chain: seq<Fault>): seq<Fault> {
    if chain == [] then [] else if chain[0].OpError? then [chain[0]] else FirstOp(chain[1..])
  }

  /** An operation error decides by itself; only without one do DNS failures and timeouts count. */
  predicate IsConnectionFailure(chain: seq<Fault>) {
    var ops := FirstOp(chain);
    if ops != [] then ops[0].OpError? && ops[0].op == "dial"
    else DnsError in chain || DeadlineExceeded in chain
  }

  function LastColon(s: string): (k: int)
    ensures -1 <= k < |s|
  {
    if s == "" then -1 else if s[|s| - 1] == ':' then |s| - 1 else LastColon(s[..|s| - 1])
  }

  function IndexOf(s: string, c: char): int {
    if s == "" then -1 else if s[0] == c then 0
    else var k := IndexOf(s[1..], c); if k < 0 then -1 else k + 1
  }

  /** Whether the host splits into host and port: "host:port" or "[address]:port". */
  predicate HasExplicitPort(host: Host) {
    var i := LastColon(host);
    if i < 0 then false
    else if host[0] == '[' then
      IndexOf(host, ']') + 1 == i && i > 0 && '[' !in host[1..] && ']' !in host[i..]
    else ':' !in host[..i] && '[' !in host && ']' !in host
  }

  /** One negotiation: HTTPS first, plain HTTP only on proof. `http` is what a plain probe would meet. */
  function Decide(host: Host, https: Probe, http: Probe): Verdict {
    if https.Responded? then Verdict(false, false)
    else if SchemeMismatch in https.chain then
      if http.Failed? then Verdict(false, true) else Verdict(true, false)
    else if !HasExplicitPort(host) && IsConnectionFailure(https.chain) && http.Responded? then Verdict(true, false)
    else Verdict(false, true)
  }

  /**
   * The chain says that nothing was reached: its first operation error is a failed dial, or it has no
   * operation error but a DNS error or a timeout.
   */
  ghost predicate NothingReached(chain: seq<Fault>) {
    || (exists i :: 0 <= i < |chain| && chain[i] == OpError("dial") && forall j :: 0 <= j < i ==> !chain[j].OpError?)
    || ((forall j :: 0 <= j < |chain| ==> !chain[j].OpError?) && (DnsError in chain || DeadlineExceeded in chain))
  }

  /** The host reads as a name and a port. */
  ghost predicate NamesPort(host: Host) {
    exists name, port :: IsHostPort(host, name, port)
  }

  /** Definitive proof of a plain HTTP endpoint. */
  ghost predicate PlainProof(host: Host, https: Probe, http: Probe) {
    && https.Failed? && http.Responded?
    && (|| SchemeMismatch in https.chain
        || (!NamesPort(host) && NothingReached(https.chain)))
  }

  ghost predicate FirstOpAt(chain: seq<Fault>, i: int) {
    0 <= i < |chain| && chain[i].OpError? && forall j :: 0 <= j < i ==> !chain[j].OpError?
  }

  lemma {:induction false} FirstOpIs(chain: seq<Fault>)
    ensures FirstOp(chain) == [] <==> forall j :: 0 <= j < |chain| ==> !chain[j].OpError?
    ensures FirstOp(chain) != [] ==> exists i :: FirstOpAt(chain, i) && FirstOp(chain) == [chain[i]]
    decreases |chain|
  {
    if chain != [] && !chain[0].OpError? {
      var rest := chain[1..];
      FirstOpIs(rest);
      assert forall j :: 0 < j < |chain| ==> chain[j] == rest[j - 1];
      if FirstOp(rest) != [] {
        var i :| FirstOpAt(rest, i) && FirstOp(rest) == [rest[i]];
        assert FirstOpAt(chain, i + 1);
      }
    } else if chain != [] {
      assert FirstOpAt(chain, 0);
    }
  }

  lemma OneFirstOp(chain: seq<Fault>, i: int, k: int)
    requires FirstOpAt(chain, i) && FirstOpAt(chain, k)
    ensures i == k
  {
  }

  lemma ConnectionFailureIff(chain: seq<Fault>)
    ensures IsConnectionFailure(chain) <==> NothingReached(chain)
  {
    FirstOpIs(chain);
    if FirstOp(chain) != [] {
      var k :| FirstOpAt(chain, k) && FirstOp(chain) == [chain[k]];
      forall i | FirstOpAt(chain, i) ensures i == k {
        OneFirstOp(chain, i, k);
      }
      if NothingReached(chain) {
        var i :| 0 <= i < |chain| && chain[i] == OpError("dial") && forall j :: 0 <= j < i ==> !chain[j].OpError?;
        assert FirstOpAt(chain, i);
      }
    }
  }

  /** A negotiation answers plain HTTP exactly on proof, and fails exactly when HTTPS failed without it. */
  lemma DecideIff(host: Host, https: Probe, http: Probe)
    ensures Decide(host, https, http).plain <==> PlainProof(host, https, http)
    ensures Decide(host, https, http).failed <==> https.Failed? && !PlainProof(host, https, http)
  {
    ExplicitPortIff(host);
    if https.Failed? {
      ConnectionFailureIff(https.chain);
    }
  }

  predicate NoneOf(s: string, colon: bool) {
    '[' !in s && ']' !in s && (colon ==> ':' !in s)
  }

  /** The text is a name and a port: bare, or with the name in brackets, where it may hold colons. */
  predicate IsHostPort(host: Host, name: string, port: string) {
    && NoneOf(port, true)
    && (|| (host == name + ":" + port && NoneOf(name, true))
        || (host == "[" + name + "]:" + port && NoneOf(name, false)))
  }

  lemma {:induction false} LastColonIs(s: string, port: string)
    requires ':' !in port
    ensures LastColon(s + ":" + port) == |s|
    decreases |port|
  {
    var all := s + ":" + port;
    if port != "" {
      assert all[..|all| - 1] == s + ":" + port[..|port| - 1];
      LastColonIs(s, port[..|port| - 1]);
    }
  }

  lemma {:induction false} LastColonSplits(s: string)
    requires LastColon(s) >= 0
    ensures s == s[..LastColon(s)] + ":" + s[LastColon(s) + 1..] && ':' !in s[LastColon(s) + 1..]
    decreases |s|
  {
    var n := |s| - 1;
    if s[n] != ':' {
      LastColonSplits(s[..n]);
      assert s == s[..n] + [s[n]];
      assert s[LastColon(s) + 1..] == s[..n][LastColon(s) + 1..] + [s[n]];
    }
  }

  lemma {:induction false} IndexOfIs(s: string, c: char, rest: string)
    requires c !in s
    ensures IndexOf(s + [c] + rest, c) == |s|
    decreases |s|
  {
    if s != "" {
      assert (s + [c] + rest)[1..] == s[1..] + [c] + rest;
      IndexOfIs(s[1..], c, rest);
    }
  }

  lemma {:induction false} IndexOfFinds(s: string, c: char)
    requires IndexOf(s, c) >= 0
    ensures IndexOf(s, c) < |s| && s[IndexOf(s, c)] == c && c !in s[..IndexOf(s, c)]
    decreases |s|
  {
    if s[0] != c {
      IndexOfFinds(s[1..], c);
      assert s[..IndexOf(s, c)] == [s[0]] + s[1..][..IndexOf(s[1..], c)];
    }
  }

  /** A port is explicit exactly when the text can be read as a name and a port. */
  lemma ExplicitPortIff(host: Host)
    ensures HasExplicitPort(host) <==> NamesPort(host)
  {
    if HasExplicitPort(host) {
      PortIsRead(host);
    }
    if name, port :| IsHostPort(host, name, port) {
      PortIsSeen(host, name, port);
    }
  }

  lemma PortIsRead(host: Host)
    requires HasExplicitPort(host)
    ensures NamesPort(host)
  {
    LastColonSplits(host);
    var i := LastColon(host);
    if host[0] == '[' {
      IndexOfFinds(host, ']');
      BracketsSplit(host, i);
      assert IsHostPort(host, host[1..i - 1], host[i + 1..]);
    } else {
      BareSplit(host, i);
      assert IsHostPort(host, host[..i], host[i + 1..]);
    }
  }

  lemma BracketsSplit(host: Host, i: nat)
    requires 2 <= i < |host| && host[0] == '[' && host[i - 1] == ']' && host[i] == ':'
    ensures host == "[" + host[1..i - 1] + "]:" + host[i + 1..]
    ensures forall c :: c in host[1..i - 1] ==> c in host[1..] && c in host[..i - 1]
    ensures forall c :: c in host[i + 1..] ==> c in host[1..] && c in host[i..]
  {
    var name, port := host[1..i - 1], host[i + 1..];
    assert host[1..] == name + "]:" + port && host[i..] == ":" + port && host[..i - 1] == "[" + name;
  }

  lemma BareSplit(host: Host, i: nat)
    requires i < |host| && host[i] == ':'
    ensures host == host[..i] + ":" + host[i + 1..]
    ensures forall c :: c in host[..i] || c in host[i + 1..] ==> c in host
  {
  }

  lemma PortIsSeen(host: Host, name: string, port: string)
    requires IsHostPort(host, name, port)
    ensures HasExplicitPort(host)
  {
    if host == name + ":" + port && NoneOf(name, true) {
      LastColonIs(name, port);
      assert host[..|name|] == name;
    } else {
      var head := "[" + name + "]";
      assert host == head + ":" + port;
      LastColonIs(head, port);
      assert host == ("[" + name) + "]" + (":" + port);
      IndexOfIs("[" + name, ']', ":" + port);
      assert host[1..] == name + "]:" + port && host[|head|..] == ":" + port;
    }
  }
}

/**
 * The concurrent negotiator: a cache with two expiry rules, single-flight sharing, a second lookup
 * inside the flight, and invalidation. Callers, flights, probes, the clock and invalidations
 * interleave freely, one atomic action at a time; a log records what happened.
 */
module Negotiator {
  import opened Outcomes
  import opened Negotiation

  /** In nanoseconds, as all times below. */
  const NEGATIVE_CACHE_TTL: int := 30_000_000_000

  /** How an answer reached its caller. */
  datatype Via = FromCache(readAt: int) | FromFlight(flight: nat)

  datatype Event =
    | Began(call: nat, host: Host)
    | Joined(call: nat, host: Host, flight: nat)
    | Started(host: Host, flight: nat, at: int)
    | Stored(host: Host, flight: nat, at: int, https: Probe, http: Probe)
    | Reused(host: Host, flight: nat, source: nat, readAt: int)
    | Closed(host: Host, flight: nat)
    | Returned(call: nat, host: Host, verdict: Verdict, source: nat, via: Via)
    | Invalidated(host: Host)

  /** `source` is the position in the log of the event that stored the entry. */
  datatype Entry = Entry(verdict: Verdict, at: int, source: nat)

  datatype Phase = Entered | Probing | Probed(https: Probe, http: Probe) | Settled(verdict: Verdict, source: nat)

  datatype Flight = Flight(id: nat, phase: Phase)

  datatype Caller = Looking(host: Host) | Missed(host: Host) | Waiting(host: Host, flight: nat) | Gone

  datatype Finished = Finished(host: Host, verdict: Verdict, source: nat)

  datatype State = State(
    now: int,
    cache: map<Host, Entry>,
    flights: map<Host, Flight>,
    finished: map<nat, Finished>,
    nextFlight: nat,
    callers: map<nat, Caller>,
    log: seq<Event>)

  datatype Action =
    | Tick(elapsed: nat)
    | Begin(call: nat, host: Host)
    | Lookup(call: nat)
    | Enter(call: nat)
    | Recheck(host: Host)
    | Probe(host: Host, https: Negotiation.Probe, http: Negotiation.Probe)
    | Store(host: Host)
    | Close(host: Host)
    | Return(call: nat)
    | Invalidate(host: Host)

  function Limit(ttl: int, verdict: Verdict): int {
    if verdict.failed then NEGATIVE_CACHE_TTL else ttl
  }

  predicate Expired(ttl: int, verdict: Verdict, at: int, now: int) {
    Limit(ttl, verdict) > 0 && now - at > Limit(ttl, verdict)
  }

  function Cached(ttl: int, s: State, host: Host): Option<Entry> {
    if host in s.cache && !Expired(ttl, s.cache[host].verdict, s.cache[host].at, s.now)
    then Some(s.cache[host]) else None
  }

  const INIT := State(0, map[], map[], map[], 0, map[], [])

  function Record(s: State, e: Event): State {
    s.(log := s.log + [e])
  }

  /** One atomic action; an action whose moment has not come changes nothing. */
  function Apply(ttl: int, s: State, a: Action): State {
    match a
    case Tick(elapsed) => s.(now := s.now + elapsed)
    case Begin(call, host) =>
      if call in s.callers then s
      else Record(s, Began(call, host)).(callers := s.callers[call := Looking(host)])
    case Lookup(call) =>
      if call !in s.callers || !s.callers[call].Looking? then s
      else
        var host := s.callers[call].host;
        var hit := Cached(ttl, s, host);
        if hit.None? then s.(callers := s.callers[call := Missed(host)])
        else Record(s, Returned(call, host, hit.value.verdict, hit.value.source, FromCache(s.now)))
             .(callers := s.callers[call := Gone])
    case Enter(call) =>
      if call !in s.callers || !s.callers[call].Missed? then s
      else
        var host := s.callers[call].host;
        if host in s.flights then
          Record(s, Joined(call, host, s.flights[host].id))
          .(callers := s.callers[call := Waiting(host, s.flights[host].id)])
        else
          Record(s, Joined(call, host, s.nextFlight))
          .(callers := s.callers[call := Waiting(host, s.nextFlight)],
            flights := s.flights[host := Flight(s.nextFlight, Entered)],
            nextFlight := s.nextFlight + 1)
    case Recheck(host) =>
      if host !in s.flights || !s.flights[host].phase.Entered? then s
      else
        var id := s.flights[host].id;
        var hit := Cached(ttl, s, host);
        if hit.None? then
          Record(s, Started(host, id, s.now)).(flights := s.flights[host := Flight(id, Probing)])
        else
          Record(s, Reused(host, id, hit.value.source, s.now))
          .(flights := s.flights[host := Flight(id, Settled(hit.value.verdict, hit.value.source))])
    case Probe(host, https, http) =>
      if host !in s.flights || !s.flights[host].phase.Probing? then s
      else s.(flights := s.flights[host := Flight(s.flights[host].id, Probed(https, http))])
    case Store(host) =>
      if host !in s.flights || !s.flights[host].phase.Probed? then s
      else
        var Flight(id, Probed(https, http)) := s.flights[host];
        var verdict := Decide(host, https, http);
        Record(s, Stored(host, id, s.now, https, http))
        .(cache := s.cache[host := Entry(verdict, s.now, |s.log|)],
          flights := s.flights[host := Flight(id, Settled(verdict, |s.log|))])
    case Close(host) =>
      if host !in s.flights || !s.flights[host].phase.Settled? then s
      else
        var Flight(id, Settled(verdict, source)) := s.flights[host];
        Record(s, Closed(host, id))
        .(flights := s.flights - {host}, finished := s.finished[id := Finished(host, verdict, source)])
    case Return(call) =>
      if call !in s.callers || !s.callers[call].Waiting? || s.callers[call].flight !in s.finished then s
      else
        var Waiting(host, flight) := s.callers[call];
        var result := s.finished[flight];
        Record(s, Returned(call, host, result.verdict, result.source, FromFlight(flight)))
        .(callers := s.callers[call := Gone])
    case Invalidate(host) =>
      Record(s, Invalidated(host)).(cache := s.cache - {host})
  }

  function Run(ttl: int, actions: seq<Action>): State {
    if actions == [] then INIT
    else Apply(ttl, Run(ttl, actions[..|actions| - 1]), actions[|actions| - 1])
  }

  // ---------------------------------------------------------------------------------------------
  // Reading a log
  // ---------------------------------------------------------------------------------------------

  /** The latest store for the host, unless an invalidation followed it. */
  ghost function Live(log: seq<Event>, host: Host): Option<nat> {
    if log == [] then None
    else
      var e := log[|log| - 1];
      if e.Stored? && e.host == host then Some(|log| - 1)
      else if e.Invalidated? && e.host == host then None
      else Live(log[..|log| - 1], host)
  }

  /** Where the host's negotiation started, if one has started and not been stored. */
  ghost function Opened(log: seq<Event>, host: Host): Option<nat> {
    if log == [] then None
    else
      var e := log[|log| - 1];
      if e.Started? && e.host == host then Some(|log| - 1)
      else if e.Stored? && e.host == host then None
      else Opened(log[..|log| - 1], host)
  }

  ghost predicate Busy(log: seq<Event>, host: Host) {
    Opened(log, host).Some?
  }

  /** The host's open negotiation is that of the flight. */
  ghost predicate OpenedBy(log: seq<Event>, host: Host, flight: nat) {
    && var p := Opened(log, host);
    && p.Some? && p.value < |log|
    && log[p.value].Started? && log[p.value].host == host && log[p.value].flight == flight
  }

  ghost predicate Settles(e: Event, flight: nat) {
    (e.Stored? || e.Reused?) && e.flight == flight
  }

  /** Where the flight's result was fixed. */
  ghost function SettledAt(log: seq<Event>, flight: nat): Option<nat> {
    if log == [] then None
    else if Settles(log[|log| - 1], flight) then Some(|log| - 1)
    else SettledAt(log[..|log| - 1], flight)
  }

  ghost function VerdictOf(e: Event): Verdict
    requires e.Stored?
  {
    Decide(e.host, e.https, e.http)
  }

  ghost predicate FreshRead(ttl: int, log: seq<Event>, host: Host, source: nat, readAt: int) {
    && Live(log, host) == Some(source)
    && source < |log| && log[source].Stored?
    && !Expired(ttl, VerdictOf(log[source]), log[source].at, readAt)
  }

  /** The flight has settled on `source`: its own store, or the entry it reused. */
  ghost predicate SettledOn(log: seq<Event>, host: Host, flight: nat, verdict: Verdict, source: nat) {
    && var r := SettledAt(log, flight);
    && r.Some? && r.value < |log| && log[r.value].host == host
    && source <= r.value && log[source].Stored? && log[source].host == host && verdict == VerdictOf(log[source])
    && (log[r.value].Stored? ==> source == r.value)
    && (log[r.value].Reused? ==> source == log[r.value].source)
  }

  /** What must hold of an event, given everything logged before it. */
  ghost predicate Justified(ttl: int, log: seq<Event>, e: Event) {
    match e
    case Began(call, _) => forall h :: Began(call, h) !in log
    case Joined(call, host, flight) => Began(call, host) in log && Closed(host, flight) !in log
    case Started(host, _, at) =>
      && !Busy(log, host)
      && (Live(log, host).Some? ==>
            && var i := Live(log, host).value;
            && i < |log| && log[i].Stored?
            && Expired(ttl, VerdictOf(log[i]), log[i].at, at))
    case Stored(host, flight, _, _, _) => OpenedBy(log, host, flight) && SettledAt(log, flight).None?
    case Reused(host, flight, source, readAt) =>
      FreshRead(ttl, log, host, source, readAt) && SettledAt(log, flight).None?
    case Closed(_, _) => true
    case Returned(call, host, verdict, source, FromCache(readAt)) =>
      && Began(call, host) in log
      && FreshRead(ttl, log, host, source, readAt) && verdict == VerdictOf(log[source])
    case Returned(call, host, verdict, source, FromFlight(flight)) =>
      Joined(call, host, flight) in log && SettledOn(log, host, flight, verdict, source)
    case Invalidated(_) => true
  }

  ghost predicate GoodLog(ttl: int, log: seq<Event>) {
    forall j :: 0 <= j < |log| ==> Justified(ttl, log[..j], log[j])
  }

  // ---------------------------------------------------------------------------------------------
  // The invariant
  // ---------------------------------------------------------------------------------------------

  /** The cache holds exactly each host's latest store that no invalidation followed. */
  ghost predicate CacheAt(log: seq<Event>, cache: map<Host, Entry>, h: Host) {
    && (h in cache <==> Live(log, h).Some?)
    && (h in cache ==>
          && var i := cache[h].source;
          && Live(log, h) == Some(i) && i < |log| && log[i].Stored? && log[i].host == h
          && cache[h] == Entry(VerdictOf(log[i]), log[i].at, i))
  }

  ghost predicate CacheInv(s: State) {
    forall h :: CacheAt(s.log, s.cache, h)
  }

  ghost predicate FlightAt(log: seq<Event>, h: Host, flight: Flight) {
    && Closed(h, flight.id) !in log
    && (if flight.phase.Probing? || flight.phase.Probed? then OpenedBy(log, h, flight.id) else !Busy(log, h))
    && match flight.phase
       case Settled(verdict, source) => SettledOn(log, h, flight.id, verdict, source)
       case _ => SettledAt(log, flight.id).None?
  }

  ghost predicate IdleAt(log: seq<Event>, f: nat) {
    SettledAt(log, f).None? && forall h :: Closed(h, f) !in log
  }

  ghost predicate FinishedAt(log: seq<Event>, f: nat, done: Finished) {
    SettledOn(log, done.host, f, done.verdict, done.source) && Closed(done.host, f) in log
  }

  ghost predicate IdsInv(s: State) {
    && (forall h :: h in s.flights ==> s.flights[h].id < s.nextFlight && s.flights[h].id !in s.finished)
    && (forall h, k :: h in s.flights && k in s.flights && s.flights[h].id == s.flights[k].id ==> h == k)
    && (forall f :: f in s.finished ==> f < s.nextFlight)
  }

  ghost predicate HasId(flights: map<Host, Flight>, f: nat) {
    exists h :: h in flights && flights[h].id == f
  }

  /** Every flight that was ever opened is open or finished. */
  ghost predicate IdsKnown(s: State) {
    forall f: nat :: KnownAt(s, f)
  }

  ghost predicate KnownAt(s: State, f: nat) {
    f < s.nextFlight ==> f in s.finished || HasId(s.flights, f)
  }

  ghost predicate FlightsInv(s: State) {
    && (forall h :: h in s.flights ==> FlightAt(s.log, h, s.flights[h]))
    && (forall h :: h !in s.flights ==> !Busy(s.log, h))
    && (forall f :: f in s.finished ==> FinishedAt(s.log, f, s.finished[f]))
    && (forall f :: f >= s.nextFlight ==> IdleAt(s.log, f))
  }

  ghost predicate CallerInv(s: State, call: nat, caller: Caller) {
    match caller
    case Looking(host) => Began(call, host) in s.log
    case Missed(host) => Began(call, host) in s.log
    case Waiting(host, flight) =>
      && Joined(call, host, flight) in s.log
      && ((host in s.flights && s.flights[host].id == flight)
          || (flight in s.finished && s.finished[flight].host == host))
    case Gone => true
  }

  ghost predicate CallersInv(s: State) {
    && (forall c :: c in s.callers ==> CallerInv(s, c, s.callers[c]))
    && (forall c, h :: Began(c, h) in s.log ==> c in s.callers)
  }

  ghost predicate Inv(ttl: int, s: State) {
    GoodLog(ttl, s.log) && CacheInv(s) && IdsInv(s) && IdsKnown(s) && FlightsInv(s) && CallersInv(s)
  }

  /** What one more event changes in the readings of the log. */
  lemma Reading(log: seq<Event>, e: Event)
    ensures (log + [e])[..|log|] == log
    ensures forall h :: Live(log + [e], h) ==
              if e.Stored? && e.host == h then Some(|log|)
              else if e.Invalidated? && e.host == h then None else Live(log, h)
    ensures forall h :: Opened(log + [e], h) ==
              if e.Started? && e.host == h then Some(|log|)
              else if e.Stored? && e.host == h then None else Opened(log, h)
    ensures forall f :: SettledAt(log + [e], f) == if Settles(e, f) then Some(|log|) else SettledAt(log, f)
  {
    assert (log + [e])[..|log|] == log;
  }

  lemma GoodLogGrows(ttl: int, log: seq<Event>, e: Event)
    requires GoodLog(ttl, log) && Justified(ttl, log, e)
    ensures GoodLog(ttl, log + [e])
  {
    forall j | 0 <= j < |log + [e]| ensures Justified(ttl, (log + [e])[..j], (log + [e])[j]) {
      assert (log + [e])[..j] == if j < |log| then log[..j] else log;
    }
  }

  lemma SettledStays(log: seq<Event>, e: Event, h: Host, f: nat, v: Verdict, i: nat)
    requires SettledOn(log, h, f, v, i) && !Settles(e, f)
    ensures SettledOn(log + [e], h, f, v, i)
  {
    Reading(log, e);
  }

  ghost function LoggedBy(ttl: int, s: State, a: Action): Option<Event> {
    var t := Apply(ttl, s, a);
    if |t.log| > |s.log| then Some(t.log[|s.log|]) else None
  }

  ghost function Grown(log: seq<Event>, e: Option<Event>): seq<Event> {
    if e.Some? then log + [e.value] else log
  }

  lemma LogGrows(ttl: int, s: State, a: Action)
    ensures Apply(ttl, s, a).log == Grown(s.log, LoggedBy(ttl, s, a))
  {
  }

  /** The event that an action logs, if it logs one, is justified. */
  ghost predicate Sound(ttl: int, s: State, a: Action) {
    LoggedBy(ttl, s, a).Some? ==> Justified(ttl, s.log, LoggedBy(ttl, s, a).value)
  }

  lemma LookupIsSound(ttl: int, s: State, call: nat)
    requires call in s.callers ==> CallerInv(s, call, s.callers[call])
    requires CacheInv(s)
    ensures Sound(ttl, s, Lookup(call))
  {
    if call in s.callers && s.callers[call].Looking? {
      assert CacheAt(s.log, s.cache, s.callers[call].host);
    }
  }

  lemma EnterIsSound(ttl: int, s: State, call: nat)
    requires call in s.callers ==> CallerInv(s, call, s.callers[call])
    requires forall h :: h in s.flights ==> Closed(h, s.flights[h].id) !in s.log
    requires IdleAt(s.log, s.nextFlight)
    ensures Sound(ttl, s, Enter(call))
  {
  }

  lemma RecheckIsSound(ttl: int, s: State, host: Host)
    requires CacheAt(s.log, s.cache, host) && (host in s.flights ==> FlightAt(s.log, host, s.flights[host]))
    ensures Sound(ttl, s, Recheck(host))
  {
  }

  lemma StoreIsSound(ttl: int, s: State, host: Host)
    requires host in s.flights ==> FlightAt(s.log, host, s.flights[host])
    ensures Sound(ttl, s, Store(host))
  {
  }

  lemma ReturnIsSound(ttl: int, s: State, call: nat)
    requires call in s.callers ==> CallerInv(s, call, s.callers[call])
    requires forall f :: f in s.finished ==> FinishedAt(s.log, f, s.finished[f])
    requires forall h :: h in s.flights ==> s.flights[h].id !in s.finished
    ensures Sound(ttl, s, Return(call))
  {
    if call in s.callers && s.callers[call].Waiting? && s.callers[call].flight in s.finished {
      var flight := s.callers[call].flight;
      assert FinishedAt(s.log, flight, s.finished[flight]);
    }
  }

  lemma BeginIsSound(ttl: int, s: State, call: nat, host: Host)
    requires forall c, h :: Began(c, h) in s.log ==> c in s.callers
    ensures Sound(ttl, s, Begin(call, host))
  {
  }

  lemma {:induction false} ActionIsSound(ttl: int, s: State, a: Action)
    requires Inv(ttl, s)
    ensures Sound(ttl, s, a)
  {
    match a {
      case Tick(_) =>
      case Begin(call, host) => BeginIsSound(ttl, s, call, host);
      case Lookup(call) => LookupIsSound(ttl, s, call);
      case Enter(call) =>
        assert forall h :: h in s.flights ==> FlightAt(s.log, h, s.flights[h]);
        EnterIsSound(ttl, s, call);
      case Recheck(host) => RecheckIsSound(ttl, s, host);
      case Probe(_, _, _) =>
      case Store(host) => StoreIsSound(ttl, s, host);
      case Close(_) =>
      case Return(call) => ReturnIsSound(ttl, s, call);
      case Invalidate(_) =>
    }
  }

  /** What an event may do to a host's entry. */
  ghost predicate EntryFollows(log: seq<Event>, e: Event, before: map<Host, Entry>, after: map<Host, Entry>, h: Host) {
    if e.Stored? && e.host == h then h in after && after[h] == Entry(VerdictOf(e), e.at, |log|)
    else if e.Invalidated? && e.host == h then h !in after
    else if h in before then h in after && after[h] == before[h]
    else h !in after
  }

  lemma CacheFollows(log: seq<Event>, e: Event, before: map<Host, Entry>, after: map<Host, Entry>, h: Host)
    requires CacheAt(log, before, h) && EntryFollows(log, e, before, after, h)
    ensures CacheAt(log + [e], after, h)
  {
    Reading(log, e);
  }

  lemma {:induction false} OnlyStoreAndInvalidateChangeCache(ttl: int, s: State, a: Action)
    requires !a.Store? && !a.Invalidate?
    ensures Apply(ttl, s, a).cache == s.cache
    ensures LoggedBy(ttl, s, a).Some? ==> !LoggedBy(ttl, s, a).value.Stored? && !LoggedBy(ttl, s, a).value.Invalidated?
  {
    match a {
      case Tick(_) =>
      case Begin(_, _) =>
      case Lookup(_) =>
      case Enter(_) =>
      case Recheck(_) =>
      case Probe(_, _, _) =>
      case Close(_) =>
      case Return(_) =>
    }
  }

  lemma EntryAfter(ttl: int, s: State, a: Action, h: Host)
    ensures var t, e := Apply(ttl, s, a), LoggedBy(ttl, s, a);
            if e.Some? then EntryFollows(s.log, e.value, s.cache, t.cache, h) else t.cache == s.cache
  {
    if !a.Store? && !a.Invalidate? {
      OnlyStoreAndInvalidateChangeCache(ttl, s, a);
    }
  }

  lemma {:induction false} ActionKeepsCache(ttl: int, s: State, a: Action)
    requires CacheInv(s)
    ensures CacheInv(Apply(ttl, s, a))
  {
    var t := Apply(ttl, s, a);
    var e := LoggedBy(ttl, s, a);
    LogGrows(ttl, s, a);
    forall h ensures CacheAt(t.log, t.cache, h) {
      assert CacheAt(s.log, s.cache, h);
      EntryAfter(ttl, s, a, h);
      if e.Some? {
        CacheFollows(s.log, e.value, s.cache, t.cache, h);
      }
    }
  }

  /** Every host's flight, if it has one, keeps its number. */
  ghost predicate SameIds(f: map<Host, Flight>, g: map<Host, Flight>) {
    f.Keys == g.Keys && forall h :: h in f ==> g[h].id == f[h].id
  }

  lemma {:induction false} OnlyEnterAndCloseChangeIds(ttl: int, s: State, a: Action)
    requires !a.Enter? && !a.Close?
    ensures var t := Apply(ttl, s, a);
            SameIds(s.flights, t.flights) && t.finished == s.finished && t.nextFlight == s.nextFlight
  {
    match a {
      case Tick(_) =>
      case Begin(_, _) =>
      case Lookup(_) =>
      case Recheck(_) =>
      case Probe(_, _, _) =>
      case Store(_) =>
      case Return(_) =>
      case Invalidate(_) =>
    }
  }

  lemma {:induction false} ActionKeepsIds(ttl: int, s: State, a: Action)
    requires IdsInv(s)
    ensures IdsInv(Apply(ttl, s, a))
  {
    if a.Enter? {
    } else if a.Close? {
    } else {
      OnlyEnterAndCloseChangeIds(ttl, s, a);
    }
  }

  lemma EnterKeepsKnown(ttl: int, s: State, call: nat, f: nat)
    ensures KnownAt(s, f) ==> KnownAt(Apply(ttl, s, Enter(call)), f)
  {
    var t := Apply(ttl, s, Enter(call));
    if f < s.nextFlight && HasId(s.flights, f) {
      var h :| h in s.flights && s.flights[h].id == f;
      assert h in t.flights && t.flights[h].id == f;
    } else if f == s.nextFlight < t.nextFlight {
      var host := s.callers[call].host;
      assert host in t.flights && t.flights[host].id == f;
    }
  }

  lemma CloseKeepsKnown(ttl: int, s: State, host: Host, f: nat)
    ensures KnownAt(s, f) ==> KnownAt(Apply(ttl, s, Close(host)), f)
  {
    var t := Apply(ttl, s, Close(host));
    if HasId(s.flights, f) {
      var h :| h in s.flights && s.flights[h].id == f;
      assert (h in t.flights && t.flights[h].id == f) || f in t.finished;
    }
  }

  lemma {:induction false} ActionKeepsKnown(ttl: int, s: State, a: Action)
    requires IdsKnown(s)
    ensures IdsKnown(Apply(ttl, s, a))
  {
    forall f: nat ensures KnownAt(Apply(ttl, s, a), f) {
      ActionKeepsKnownAt(ttl, s, a, f);
    }
  }

  lemma {:induction false} ActionKeepsKnownAt(ttl: int, s: State, a: Action, f: nat)
    ensures KnownAt(s, f) ==> KnownAt(Apply(ttl, s, a), f)
  {
    if a.Enter? {
      EnterKeepsKnown(ttl, s, a.call, f);
    } else if a.Close? {
      CloseKeepsKnown(ttl, s, a.host, f);
    } else {
      OnlyEnterAndCloseChangeIds(ttl, s, a);
      var t := Apply(ttl, s, a);
      if HasId(s.flights, f) {
        var h :| h in s.flights && s.flights[h].id == f;
        assert h in t.flights && t.flights[h].id == f;
      }
    }
  }

  predicate Moves(a: Action, c: nat) {
    (a.Begin? || a.Lookup? || a.Enter? || a.Return?) && a.call == c
  }

  lemma {:induction false} CallerMoves(ttl: int, s: State, a: Action)
    requires a.Begin? || a.Lookup? || a.Enter? || a.Return?
    requires a.call in s.callers && CallerInv(s, a.call, s.callers[a.call])
    ensures a.call in Apply(ttl, s, a).callers
    ensures CallerInv(Apply(ttl, s, a), a.call, Apply(ttl, s, a).callers[a.call])
  {
  }

  lemma {:induction false} OthersLeaveCaller(ttl: int, s: State, a: Action, c: nat)
    requires c in s.callers && !Moves(a, c)
    ensures c in Apply(ttl, s, a).callers && Apply(ttl, s, a).callers[c] == s.callers[c]
  {
  }

  lemma {:induction false} WaitedFlightStays(ttl: int, s: State, a: Action, host: Host, flight: nat)
    requires IdsInv(s)
    requires (host in s.flights && s.flights[host].id == flight)
             || (flight in s.finished && s.finished[flight].host == host)
    ensures var t := Apply(ttl, s, a);
            (host in t.flights && t.flights[host].id == flight)
            || (flight in t.finished && t.finished[flight].host == host)
  {
  }

  lemma {:induction false} CallerKept(ttl: int, s: State, a: Action, c: nat)
    requires IdsInv(s) && c in s.callers && CallerInv(s, c, s.callers[c])
    ensures c in Apply(ttl, s, a).callers
    ensures CallerInv(Apply(ttl, s, a), c, Apply(ttl, s, a).callers[c])
  {
    if Moves(a, c) {
      CallerMoves(ttl, s, a);
    } else {
      LogGrows(ttl, s, a);
      OthersLeaveCaller(ttl, s, a, c);
      if s.callers[c].Waiting? {
        WaitedFlightStays(ttl, s, a, s.callers[c].host, s.callers[c].flight);
      }
    }
  }

  lemma {:induction false} ActionKeepsCallers(ttl: int, s: State, a: Action)
    requires IdsInv(s) && CallersInv(s)
    ensures CallersInv(Apply(ttl, s, a))
  {
    var t := Apply(ttl, s, a);
    forall c | c in t.callers ensures CallerInv(t, c, t.callers[c]) {
      if c in s.callers {
        CallerKept(ttl, s, a, c);
      }
    }
    forall c, h | Began(c, h) in t.log ensures c in t.callers {
      BeganIsKnown(ttl, s, a, c, h);
    }
  }

  lemma {:induction false} BeganIsKnown(ttl: int, s: State, a: Action, c: nat, h: Host)
    requires Began(c, h) in s.log ==> c in s.callers
    ensures Began(c, h) in Apply(ttl, s, a).log ==> c in Apply(ttl, s, a).callers
  {
    LogGrows(ttl, s, a);
  }

  /** An event that concerns neither the host's negotiation nor the flight. */
  ghost predicate Unrelated(e: Event, h: Host, f: nat) {
    && !((e.Started? || e.Stored?) && e.host == h)
    && !Settles(e, f) && e != Closed(h, f)
  }

  lemma FlightStays(log: seq<Event>, e: Event, h: Host, flight: Flight)
    requires FlightAt(log, h, flight) && Unrelated(e, h, flight.id)
    ensures FlightAt(log + [e], h, flight)
  {
    Reading(log, e);
    if flight.phase.Settled? {
      SettledStays(log, e, h, flight.id, flight.phase.verdict, flight.phase.source);
    }
  }

  predicate Advances(a: Action, h: Host) {
    (a.Recheck? || a.Probe? || a.Store? || a.Close?) && a.host == h
  }

  lemma {:induction false} OthersLeaveFlight(ttl: int, s: State, a: Action, h: Host)
    requires h in s.flights && !Advances(a, h)
    requires forall k :: k in s.flights && k != h ==> s.flights[k].id != s.flights[h].id
    ensures h in Apply(ttl, s, a).flights && Apply(ttl, s, a).flights[h] == s.flights[h]
    ensures LoggedBy(ttl, s, a).Some? ==> Unrelated(LoggedBy(ttl, s, a).value, h, s.flights[h].id)
  {
    match a {
      case Recheck(k) =>
        assert k in s.flights ==> s.flights[k].id != s.flights[h].id;
      case Store(k) =>
        assert k in s.flights ==> s.flights[k].id != s.flights[h].id;
      case Close(k) =>
        assert k in s.flights ==> s.flights[k].id != s.flights[h].id;
      case Tick(_) =>
      case Begin(_, _) =>
      case Lookup(_) =>
      case Enter(_) =>
      case Probe(_, _, _) =>
      case Return(_) =>
      case Invalidate(_) =>
    }
  }

  lemma {:induction false} FlightKept(ttl: int, s: State, a: Action, h: Host)
    requires CacheInv(s) && IdsInv(s) && h in s.flights && FlightAt(s.log, h, s.flights[h])
    requires h in Apply(ttl, s, a).flights
    ensures FlightAt(Apply(ttl, s, a).log, h, Apply(ttl, s, a).flights[h])
  {
    var e := LoggedBy(ttl, s, a);
    LogGrows(ttl, s, a);
    if Advances(a, h) {
      FlightAdvances(ttl, s, a);
    } else {
      OthersLeaveFlight(ttl, s, a, h);
      if e.Some? {
        FlightStays(s.log, e.value, h, s.flights[h]);
      }
    }
  }

  /** How the flight of `h` stands after an action. */
  ghost predicate FlightAfter(ttl: int, s: State, a: Action, h: Host) {
    var t := Apply(ttl, s, a);
    h in t.flights ==> FlightAt(t.log, h, t.flights[h])
  }

  lemma RecheckAdvances(ttl: int, s: State, h: Host)
    requires CacheAt(s.log, s.cache, h) && h in s.flights && FlightAt(s.log, h, s.flights[h])
    ensures FlightAfter(ttl, s, Recheck(h), h)
  {
    LogGrows(ttl, s, Recheck(h));
    if LoggedBy(ttl, s, Recheck(h)).Some? {
      Reading(s.log, LoggedBy(ttl, s, Recheck(h)).value);
    }
  }

  lemma StoreAdvances(ttl: int, s: State, h: Host)
    requires h in s.flights && FlightAt(s.log, h, s.flights[h])
    ensures FlightAfter(ttl, s, Store(h), h)
  {
    LogGrows(ttl, s, Store(h));
    if LoggedBy(ttl, s, Store(h)).Some? {
      Reading(s.log, LoggedBy(ttl, s, Store(h)).value);
    }
  }

  lemma ProbeAdvances(ttl: int, s: State, a: Action)
    requires (a.Probe? || a.Close?) && a.host in s.flights && FlightAt(s.log, a.host, s.flights[a.host])
    ensures FlightAfter(ttl, s, a, a.host)
  {
  }

  lemma {:induction false} FlightAdvances(ttl: int, s: State, a: Action)
    requires a.Recheck? || a.Probe? || a.Store? || a.Close?
    requires CacheInv(s)
    requires a.host in s.flights && FlightAt(s.log, a.host, s.flights[a.host])
    ensures FlightAfter(ttl, s, a, a.host)
  {
    match a {
      case Recheck(host) => RecheckAdvances(ttl, s, host);
      case Store(host) => StoreAdvances(ttl, s, host);
      case Probe(_, _, _) => ProbeAdvances(ttl, s, a);
      case Close(_) => ProbeAdvances(ttl, s, a);
    }
  }

  lemma {:induction false} FinishedKept(ttl: int, s: State, a: Action, f: nat)
    requires IdsInv(s) && f in s.finished && FinishedAt(s.log, f, s.finished[f])
    ensures f in Apply(ttl, s, a).finished && Apply(ttl, s, a).finished[f] == s.finished[f]
    ensures FinishedAt(Apply(ttl, s, a).log, f, s.finished[f])
  {
    var e := LoggedBy(ttl, s, a);
    LogGrows(ttl, s, a);
    FinishedStays(ttl, s, a, f);
    if e.Some? {
      FlightEvents(ttl, s, a);
      SettledStays(s.log, e.value, s.finished[f].host, f, s.finished[f].verdict, s.finished[f].source);
    }
  }

  lemma {:induction false} FinishedStays(ttl: int, s: State, a: Action, f: nat)
    requires IdsInv(s) && f in s.finished
    ensures f in Apply(ttl, s, a).finished && Apply(ttl, s, a).finished[f] == s.finished[f]
  {
    if !a.Enter? && !a.Close? {
      OnlyEnterAndCloseChangeIds(ttl, s, a);
    }
  }

  lemma IdleStays(log: seq<Event>, e: Event, f: nat)
    requires IdleAt(log, f) && !Settles(e, f) && !(e.Closed? && e.flight == f)
    ensures IdleAt(log + [e], f)
  {
    Reading(log, e);
  }

  /** Only an open flight settles, starts a negotiation or closes. */
  lemma {:induction false} FlightEvents(ttl: int, s: State, a: Action)
    requires LoggedBy(ttl, s, a).Some?
    ensures var e := LoggedBy(ttl, s, a).value;
            e.Started? || e.Stored? || e.Reused? || e.Closed? ==>
              e.host in s.flights && s.flights[e.host].id == e.flight
  {
    match a {
      case Begin(_, _) =>
      case Lookup(_) =>
      case Enter(_) =>
      case Recheck(_) =>
      case Store(_) =>
      case Close(_) =>
      case Return(_) =>
      case Invalidate(_) =>
    }
  }

  lemma {:induction false} IdleKept(ttl: int, s: State, a: Action, f: nat)
    requires IdsInv(s) && f >= s.nextFlight && IdleAt(s.log, f)
    ensures IdleAt(Apply(ttl, s, a).log, f)
  {
    var e := LoggedBy(ttl, s, a);
    LogGrows(ttl, s, a);
    if e.Some? {
      FlightEvents(ttl, s, a);
      IdleStays(s.log, e.value, f);
    }
  }

  lemma QuietStays(log: seq<Event>, e: Event, h: Host)
    requires !Busy(log, h) && !(e.Started? && e.host == h)
    ensures !Busy(log + [e], h)
  {
    Reading(log, e);
  }

  lemma {:induction false} OnlyCloseEnds(ttl: int, s: State, a: Action, h: Host)
    requires h in s.flights && h !in Apply(ttl, s, a).flights
    ensures a == Close(h) && s.flights[h].phase.Settled?
  {
    match a {
      case Close(_) =>
      case Tick(_) =>
      case Begin(_, _) =>
      case Lookup(_) =>
      case Enter(_) =>
      case Recheck(_) =>
      case Probe(_, _, _) =>
      case Store(_) =>
      case Return(_) =>
      case Invalidate(_) =>
    }
  }

  lemma {:induction false} ClosedHostIsQuiet(ttl: int, s: State, a: Action, h: Host)
    requires FlightsInv(s) && h !in Apply(ttl, s, a).flights
    ensures !Busy(Apply(ttl, s, a).log, h)
  {
    var e := LoggedBy(ttl, s, a);
    LogGrows(ttl, s, a);
    if h in s.flights {
      assert FlightAt(s.log, h, s.flights[h]);
      OnlyCloseEnds(ttl, s, a, h);
    }
    if e.Some? {
      FlightEvents(ttl, s, a);
      QuietStays(s.log, e.value, h);
    }
  }

  lemma {:induction false} ActionKeepsFlights(ttl: int, s: State, a: Action)
    requires CacheInv(s) && IdsInv(s) && FlightsInv(s)
    ensures FlightsInv(Apply(ttl, s, a))
  {
    var t := Apply(ttl, s, a);
    forall h | h in t.flights ensures FlightAt(t.log, h, t.flights[h]) {
      if h in s.flights {
        FlightKept(ttl, s, a, h);
      } else {
        FlightOpens(ttl, s, a, h);
      }
    }
    forall h | h !in t.flights ensures !Busy(t.log, h) {
      ClosedHostIsQuiet(ttl, s, a, h);
    }
    forall f | f in t.finished ensures FinishedAt(t.log, f, t.finished[f]) {
      if f in s.finished {
        FinishedKept(ttl, s, a, f);
      } else {
        FlightFinishes(ttl, s, a, f);
      }
    }
    forall f | f >= t.nextFlight ensures IdleAt(t.log, f) {
      IdleKept(ttl, s, a, f);
    }
  }

  lemma {:induction false} OnlyEnterOpens(ttl: int, s: State, a: Action, h: Host)
    requires h !in s.flights && h in Apply(ttl, s, a).flights
    ensures a.Enter? && Apply(ttl, s, a).flights[h] == Flight(s.nextFlight, Entered)
    ensures LoggedBy(ttl, s, a) == Some(Joined(a.call, h, s.nextFlight))
  {
    match a {
      case Enter(_) =>
      case Tick(_) =>
      case Begin(_, _) =>
      case Lookup(_) =>
      case Recheck(_) =>
      case Probe(_, _, _) =>
      case Store(_) =>
      case Close(_) =>
      case Return(_) =>
      case Invalidate(_) =>
    }
  }

  lemma {:induction false} FlightOpens(ttl: int, s: State, a: Action, h: Host)
    requires IdleAt(s.log, s.nextFlight) && h !in s.flights && !Busy(s.log, h)
    requires h in Apply(ttl, s, a).flights
    ensures FlightAt(Apply(ttl, s, a).log, h, Apply(ttl, s, a).flights[h])
  {
    OnlyEnterOpens(ttl, s, a, h);
    LogGrows(ttl, s, a);
    var e := LoggedBy(ttl, s, a).value;
    Reading(s.log, e);
    IdleStays(s.log, e, s.nextFlight);
  }

  lemma {:induction false} FlightFinishes(ttl: int, s: State, a: Action, f: nat)
    requires forall h :: h in s.flights ==> FlightAt(s.log, h, s.flights[h])
    requires f !in s.finished && f in Apply(ttl, s, a).finished
    ensures FinishedAt(Apply(ttl, s, a).log, f, Apply(ttl, s, a).finished[f])
  {
    assert a.Close? && f == s.flights[a.host].id;
    assert FlightAt(s.log, a.host, s.flights[a.host]);
    var Flight(id, Settled(verdict, source)) := s.flights[a.host];
    SettledStays(s.log, Closed(a.host, id), a.host, id, verdict, source);
  }

  lemma {:induction false} ActionKeepsInv(ttl: int, s: State, a: Action)
    requires Inv(ttl, s)
    ensures Inv(ttl, Apply(ttl, s, a))
  {
    ActionKeepsCache(ttl, s, a);
    ActionKeepsIds(ttl, s, a);
    ActionKeepsKnown(ttl, s, a);
    ActionKeepsCallers(ttl, s, a);
    ActionKeepsFlights(ttl, s, a);
    LogGrows(ttl, s, a);
    if LoggedBy(ttl, s, a).Some? {
      ActionIsSound(ttl, s, a);
      GoodLogGrows(ttl, s.log, LoggedBy(ttl, s, a).value);
    }
  }

  lemma {:induction false} RunKeepsInv(ttl: int, actions: seq<Action>)
    ensures Inv(ttl, Run(ttl, actions))
    decreases |actions|
  {
    if actions != [] {
      RunKeepsInv(ttl, actions[..|actions| - 1]);
      ActionKeepsInv(ttl, Run(ttl, actions[..|actions| - 1]), actions[|actions| - 1]);
    }
  }

  // ---------------------------------------------------------------------------------------------
  // What every run guarantees
  // ---------------------------------------------------------------------------------------------

  ghost predicate SilentBetween(log: seq<Event>, host: Host, i: int, j: int) {
    forall k :: i < k < j && 0 <= k < |log| ==>
      !(log[k].Stored? && log[k].host == host) && log[k] != Invalidated(host)
  }

  /** `Live` is the last store of the host with neither a store nor an invalidation after it. */
  lemma {:induction false} LiveMeans(log: seq<Event>, host: Host)
    ensures var r := Live(log, host);
            r.Some? ==>
              && r.value < |log| && log[r.value].Stored? && log[r.value].host == host
              && SilentBetween(log, host, r.value, |log|)
    ensures forall i :: 0 <= i < |log| && log[i].Stored? && log[i].host == host && SilentBetween(log, host, i, |log|)
                        ==> Live(log, host) == Some(i)
    decreases |log|
  {
    if log != [] {
      var init := log[..|log| - 1];
      LiveMeans(init, host);
      forall i | 0 <= i < |log| - 1 && log[i].Stored? && log[i].host == host && SilentBetween(log, host, i, |log|)
        ensures Live(log, host) == Some(i)
      {
        assert init[i] == log[i];
        assert SilentBetween(init, host, i, |init|);
        assert !(log[|log| - 1].Stored? && log[|log| - 1].host == host);
      }
    }
  }

  lemma {:induction false} BusyMeans(log: seq<Event>, host: Host, i: nat)
    requires i < |log| && log[i].Started? && log[i].host == host && !Busy(log, host)
    ensures exists k :: i < k < |log| && log[k].Stored? && log[k].host == host
    decreases |log|
  {
    var last := log[|log| - 1];
    if !(last.Stored? && last.host == host) {
      var init := log[..|log| - 1];
      BusyMeans(init, host, i);
      var k :| i < k < |init| && init[k].Stored? && init[k].host == host;
      assert log[k] == init[k];
    }
  }

  /**
   * Plain HTTP only on proof: whatever a caller is told was decided by a logged negotiation of that
   * very host, and if it was told plain HTTP, that negotiation saw HTTPS fail and HTTP answer, with a
   * scheme mismatch or, for a bare host, a connection failure.
   */
  lemma AnswersAreProven(ttl: int, actions: seq<Action>, log: seq<Event>, j: nat)
    requires log == Run(ttl, actions).log && j < |log| && log[j].Returned?
    ensures log[j].source < j && log[log[j].source].Stored? && log[log[j].source].host == log[j].host
    ensures log[j].verdict == VerdictOf(log[log[j].source])
    ensures log[j].verdict.plain <==>
              PlainProof(log[j].host, log[log[j].source].https, log[log[j].source].http)
    ensures log[j].verdict.failed <==> log[log[j].source].https.Failed? && !log[j].verdict.plain
  {
    RunKeepsInv(ttl, actions);
    var before := log[..j];
    assert Justified(ttl, before, log[j]);
    LiveMeans(before, log[j].host);
    var i := log[j].source;
    assert i < j && before[i] == log[i];
    DecideIff(log[i].host, log[i].https, log[i].http);
  }

  /** A failure is good for thirty seconds, a decision for the TTL, if that is positive, and else for ever. */
  ghost predicate StillGood(ttl: int, failed: bool, age: int) {
    if failed then age <= 30 * 1_000_000_000 else ttl > 0 ==> age <= ttl
  }

  /**
   * No stale answers: an answer read from the cache, by the caller or by the flight it waited for,
   * had not outlived its limit when it was read; any other answer was negotiated by that flight.
   */
  lemma AnswersAreFresh(ttl: int, actions: seq<Action>, log: seq<Event>, j: nat)
    requires log == Run(ttl, actions).log && j < |log| && log[j].Returned?
    ensures var i := log[j].source;
            && i < j && log[i].Stored?
            && match log[j].via
               case FromCache(readAt) => StillGood(ttl, VerdictOf(log[i]).failed, readAt - log[i].at)
               case FromFlight(flight) => log[i].flight == flight || ReusedInTime(ttl, log, flight, i, j)
  {
    RunKeepsInv(ttl, actions);
    AnswersAreProven(ttl, actions, log, j);
    match log[j].via {
      case FromCache(_) => ReadInTime(ttl, log, j);
      case FromFlight(_) => SharedInTime(ttl, log, j);
    }
  }

  /** The latest result for the host is the one stored at `i`, not invalidated and within its limit. */
  ghost predicate GoodResult(ttl: int, log: seq<Event>, host: Host, i: int, at: int) {
    && 0 <= i < |log| && log[i].Stored? && log[i].host == host && SilentBetween(log, host, i, |log|)
    && StillGood(ttl, VerdictOf(log[i]).failed, at - log[i].at)
  }

  /**
   * A call that looks into the cache, however long after the last action, is answered on the spot exactly
   * if there is such a result, and with that result.
   */
  lemma AnsweredFromCacheIff(ttl: int, actions: seq<Action>, s: State, elapsed: nat, call: nat)
    requires s == Run(ttl, actions) && call in s.callers && s.callers[call].Looking?
    ensures var host, at := s.callers[call].host, s.now + elapsed;
            var t := Apply(ttl, Apply(ttl, s, Tick(elapsed)), Lookup(call));
            && (t.log != s.log <==> exists i :: GoodResult(ttl, s.log, host, i, at))
            && forall i :: GoodResult(ttl, s.log, host, i, at) ==>
                 t.log == s.log + [Returned(call, host, VerdictOf(s.log[i]), i, FromCache(at))]
  {
    CacheOfRun(ttl, actions);
    LookedUp(ttl, s, elapsed, call);
  }

  lemma CacheOfRun(ttl: int, actions: seq<Action>)
    ensures var s := Run(ttl, actions); forall h :: CacheAt(s.log, s.cache, h)
  {
    RunKeepsInv(ttl, actions);
  }

  lemma LookedUp(ttl: int, s: State, elapsed: nat, call: nat)
    requires call in s.callers && s.callers[call].Looking? && CacheAt(s.log, s.cache, s.callers[call].host)
    ensures var host, at := s.callers[call].host, s.now + elapsed;
            var t := Apply(ttl, Apply(ttl, s, Tick(elapsed)), Lookup(call));
            && (t.log != s.log <==> exists i :: GoodResult(ttl, s.log, host, i, at))
            && forall i :: GoodResult(ttl, s.log, host, i, at) ==>
                 t.log == s.log + [Returned(call, host, VerdictOf(s.log[i]), i, FromCache(at))]
  {
    GoodIsCached(ttl, s.log, s.cache, s.callers[call].host, s.now + elapsed);
    TickAndLook(ttl, s, elapsed, call);
  }

  lemma GoodIsCached(ttl: int, log: seq<Event>, cache: map<Host, Entry>, host: Host, at: int)
    requires CacheAt(log, cache, host)
    ensures forall i :: GoodResult(ttl, log, host, i, at) ==> IsHit(ttl, log, cache, host, i, at)
    ensures forall i :: IsHit(ttl, log, cache, host, i, at) ==> GoodResult(ttl, log, host, i, at)
  {
    LiveMeans(log, host);
  }

  /** The cache has the result stored at `i` and would still return it. */
  ghost predicate IsHit(ttl: int, log: seq<Event>, cache: map<Host, Entry>, host: Host, i: int, at: int) {
    && host in cache && !Expired(ttl, cache[host].verdict, cache[host].at, at) && cache[host].source == i
    && i < |log| && log[i].Stored? && cache[host].verdict == VerdictOf(log[i])
  }

  lemma TickAndLook(ttl: int, s: State, elapsed: nat, call: nat)
    requires call in s.callers && s.callers[call].Looking? && CacheAt(s.log, s.cache, s.callers[call].host)
    ensures var host, at := s.callers[call].host, s.now + elapsed;
            var t := Apply(ttl, Apply(ttl, s, Tick(elapsed)), Lookup(call));
            && (t.log != s.log ==> exists i :: IsHit(ttl, s.log, s.cache, host, i, at))
            && forall i :: IsHit(ttl, s.log, s.cache, host, i, at) ==>
                 t.log == s.log + [Returned(call, host, VerdictOf(s.log[i]), i, FromCache(at))]
  {
    var host, at := s.callers[call].host, s.now + elapsed;
    if host in s.cache && !Expired(ttl, s.cache[host].verdict, s.cache[host].at, at) {
      assert IsHit(ttl, s.log, s.cache, host, s.cache[host].source, at);
    }
  }

  /** The flight's second lookup found the entry stored at `i` while it was good. */
  ghost predicate ReusedInTime(ttl: int, log: seq<Event>, flight: nat, i: nat, j: nat)
    requires i < j <= |log| && log[i].Stored?
  {
    exists r :: i < r < j && log[r].Reused? && log[r].flight == flight && log[r].source == i
                && StillGood(ttl, VerdictOf(log[i]).failed, log[r].readAt - log[i].at)
  }

  lemma ReadInTime(ttl: int, log: seq<Event>, j: nat)
    requires GoodLog(ttl, log) && j < |log| && log[j].Returned? && log[j].via.FromCache?
    ensures var i := log[j].source;
            i < j && log[i].Stored? && StillGood(ttl, VerdictOf(log[i]).failed, log[j].via.readAt - log[i].at)
  {
    assert Justified(ttl, log[..j], log[j]);
  }

  lemma SharedInTime(ttl: int, log: seq<Event>, j: nat)
    requires GoodLog(ttl, log) && j < |log| && log[j].Returned? && log[j].via.FromFlight?
    requires log[j].source < j && log[log[j].source].Stored?
    ensures var flight, i := log[j].via.flight, log[j].source;
            log[i].flight == flight || ReusedInTime(ttl, log, flight, i, j)
  {
    var before, flight := log[..j], log[j].via.flight;
    assert Justified(ttl, before, log[j]);
    SettledMeans(before, flight);
    var r := SettledAt(before, flight).value;
    assert log[r] == before[r];
    if log[r].Reused? {
      assert Justified(ttl, log[..r], log[r]);
      LiveMeans(log[..r], log[r].host);
    }
  }

  lemma {:induction false} SettledMeans(log: seq<Event>, f: nat)
    ensures SettledAt(log, f).Some? ==> SettledAt(log, f).value < |log| && Settles(log[SettledAt(log, f).value], f)
    ensures SettledAt(log, f).None? ==> forall i :: 0 <= i < |log| ==> !Settles(log[i], f)
    decreases |log|
  {
    if log != [] {
      SettledMeans(log[..|log| - 1], f);
    }
  }

  /** At most one negotiation of a host is open at a time. */
  lemma NegotiationsDoNotOverlap(ttl: int, actions: seq<Action>, log: seq<Event>, i: nat, j: nat)
    requires log == Run(ttl, actions).log
    requires i < j < |log| && log[i].Started? && log[j].Started? && log[i].host == log[j].host
    ensures exists k :: i < k < j && log[k].Stored? && log[k].host == log[i].host
  {
    RunKeepsInv(ttl, actions);
    assert Justified(ttl, log[..j], log[j]);
    BusyMeans(log[..j], log[j].host, i);
    var k :| i < k < j && log[..j][k].Stored? && log[..j][k].host == log[i].host;
    assert log[k] == log[..j][k];
  }

  /**
   * Spacing: unless an invalidation came between, the next negotiation of a host starts only after
   * the stored result has outlived its limit, which a decision under a non-positive TTL never does.
   */
  lemma NegotiationsAreSpaced(ttl: int, actions: seq<Action>, log: seq<Event>, i: nat, j: nat)
    requires log == Run(ttl, actions).log
    requires i < j < |log| && log[i].Stored? && log[j].Started? && log[i].host == log[j].host
    requires SilentBetween(log, log[i].host, i, j)
    ensures var limit := if VerdictOf(log[i]).failed then 30 * 1_000_000_000 else ttl;
            limit > 0 && log[j].at - log[i].at > limit
  {
    RunKeepsInv(ttl, actions);
    assert Justified(ttl, log[..j], log[j]);
    LiveMeans(log[..j], log[j].host);
    assert log[..j][i] == log[i];
    assert SilentBetween(log[..j], log[i].host, i, j);
  }

  /** With a TTL of zero, a decided host is not negotiated again until it is invalidated. */
  lemma {:induction false} DecidedOnceForAll(ttl: int, actions: seq<Action>, log: seq<Event>, i: nat, j: nat)
    requires ttl <= 0
    requires log == Run(ttl, actions).log
    requires i < j < |log| && log[i].Stored? && log[j].Started? && log[i].host == log[j].host
    requires !VerdictOf(log[i]).failed
    ensures exists k :: i < k < j && log[k] == Invalidated(log[i].host)
  {
    var host := log[i].host;
    RunKeepsInv(ttl, actions);
    if forall k :: i < k < j ==> log[k] != Invalidated(host) {
      var m := FirstStart(log, host, i, j);
      assert forall k :: i < k < m ==> !(log[k].Stored? && log[k].host == host) by {
        forall k | i < k < m && log[k].Stored? && log[k].host == host ensures false {
          assert Justified(ttl, log[..k], log[k]);
          IdleSince(log[..k], host, i);
        }
      }
      NegotiationsAreSpaced(ttl, actions, log, i, m);
    }
  }

  lemma FirstStart(log: seq<Event>, host: Host, i: nat, j: nat) returns (m: nat)
    requires i < j < |log| && log[j].Started? && log[j].host == host
    ensures i < m <= j && log[m].Started? && log[m].host == host
    ensures forall k :: i < k < m ==> !(log[k].Started? && log[k].host == host)
  {
    m := i + 1;
    while !(log[m].Started? && log[m].host == host)
      invariant i < m <= j
      invariant forall k :: i < k < m ==> !(log[k].Started? && log[k].host == host)
      decreases j - m
    {
      m := m + 1;
    }
  }

  lemma {:induction false} IdleSince(log: seq<Event>, host: Host, i: nat)
    requires i < |log| && log[i].Stored? && log[i].host == host
    requires forall k :: i < k < |log| ==> !(log[k].Started? && log[k].host == host)
    ensures !Busy(log, host)
    decreases |log|
  {
    if i < |log| - 1 {
      IdleSince(log[..|log| - 1], host, i);
    }
  }

  /** The flight's result was fixed before position `k`. */
  ghost predicate SettledBefore(log: seq<Event>, flight: nat, k: nat) {
    exists r :: 0 <= r < k && r < |log| && Settles(log[r], flight)
  }

  /**
   * After an invalidation: a call begun later is answered from a store older than the invalidation
   * exactly when it was answered by a flight whose result was already fixed at the invalidation. Such
   * a flight was still open when the call joined it, so it was open across the invalidation.
   */
  lemma AfterInvalidation(ttl: int, actions: seq<Action>, log: seq<Event>, k: nat, b: nat, j: nat)
    requires log == Run(ttl, actions).log
    requires k < b < j < |log| && log[j].Returned?
    requires log[k] == Invalidated(log[j].host) && log[b] == Began(log[j].call, log[j].host)
    ensures log[j].source < k <==> log[j].via.FromFlight? && SettledBefore(log, log[j].via.flight, k)
    ensures log[j].via.FromFlight? ==>
              forall c :: 0 <= c < b ==> log[c] != Closed(log[j].host, log[j].via.flight)
  {
    RunKeepsInv(ttl, actions);
    AnswersAreProven(ttl, actions, log, j);
    var before := log[..j];
    var host := log[j].host;
    assert Justified(ttl, before, log[j]);
    match log[j].via {
      case FromCache(_) =>
        LiveMeans(before, host);
        assert before[k] == Invalidated(host);
      case FromFlight(flight) =>
        JoinedAfter(ttl, log, b, j, flight);
        SettledMeans(before, flight);
        var r := SettledAt(before, flight).value;
        assert log[r] == before[r];
        SettledOnce(ttl, log, flight, r);
        assert Justified(ttl, log[..r], log[r]);
        if log[r].Reused? {
          LiveMeans(log[..r], host);
          if k < r {
            assert log[..r][k] == Invalidated(host);
          }
        }
    }
  }

  lemma SettledOnce(ttl: int, log: seq<Event>, f: nat, r: nat)
    requires GoodLog(ttl, log) && r < |log| && Settles(log[r], f)
    ensures forall q :: 0 <= q < |log| && Settles(log[q], f) ==> q == r
  {
    forall q | 0 <= q < |log| && Settles(log[q], f) ensures q == r {
      var hi := if q < r then r else q;
      assert q < hi ==> log[..hi][q] == log[q];
      assert r < hi ==> log[..hi][r] == log[r];
      SettledMeans(log[..hi], f);
      assert Justified(ttl, log[..hi], log[hi]);
    }
  }

  lemma JoinedAfter(ttl: int, log: seq<Event>, b: nat, j: nat, flight: nat)
    requires GoodLog(ttl, log) && b < j < |log|
    requires log[j].Returned? && log[j].via == FromFlight(flight)
    requires log[b] == Began(log[j].call, log[j].host)
    ensures forall c :: 0 <= c < b ==> log[c] != Closed(log[j].host, flight)
  {
    var call, host := log[j].call, log[j].host;
    assert Justified(ttl, log[..j], log[j]);
    var m :| 0 <= m < j && log[..j][m] == Joined(call, host, flight);
    assert Justified(ttl, log[..m], log[m]);
    var n :| 0 <= n < m && log[..m][n] == Began(call, host);
    forall c | 0 <= c < b ensures log[c] != Closed(host, flight) {
      assert log[..m][c] == log[c];
    }
  }

  lemma RunStep(ttl: int, actions: seq<Action>, a: Action)
    ensures Run(ttl, actions + [a]) == Apply(ttl, Run(ttl, actions), a)
  {
    assert (actions + [a])[..|actions|] == actions;
  }

  // ---------------------------------------------------------------------------------------------
  // When an invalidation makes later calls probe again
  // ---------------------------------------------------------------------------------------------

  /** Where the negotiation started whose result is stored at `i`. */
  ghost function StartOf(log: seq<Event>, i: nat): nat
    requires i < |log| && log[i].Stored?
  {
    var p := Opened(log[..i], log[i].host);
    if p.Some? then p.value else i
  }

  /** Every stored result belongs to the negotiation that the same flight started last. */
  lemma StartOfStore(ttl: int, log: seq<Event>, i: nat)
    requires GoodLog(ttl, log) && i < |log| && log[i].Stored?
    ensures var p := StartOf(log, i);
            && p < i && log[p].Started? && log[p].host == log[i].host && log[p].flight == log[i].flight
            && Opened(log[..i], log[i].host) == Some(p)
  {
    assert Justified(ttl, log[..i], log[i]);
  }

  /** A negotiation that is open now was open ever since it started. */
  lemma {:induction false} OpenedSince(log: seq<Event>, host: Host, k: nat)
    requires Opened(log, host).Some? && Opened(log, host).value < k <= |log|
    ensures Opened(log[..k], host) == Opened(log, host)
    decreases |log|
  {
    if k == |log| {
      assert log[..k] == log;
    } else {
      assert log[..|log| - 1][..k] == log[..k];
      OpenedSince(log[..|log| - 1], host, k);
    }
  }

  lemma {:induction false} OpenedInside(log: seq<Event>, host: Host)
    ensures Opened(log, host).Some? ==> Opened(log, host).value < |log|
    decreases |log|
  {
    if log != [] {
      OpenedInside(log[..|log| - 1], host);
    }
  }

  /**
   * Which negotiations behind answers given after an invalidation at `k` had started before it: those
   * stored before it, and the one, if any, that was under way at that moment.
   */
  lemma NegotiatedBeforeIff(ttl: int, actions: seq<Action>, log: seq<Event>, k: nat, j: nat)
    requires log == Run(ttl, actions).log
    requires k < j < |log| && log[j].Returned? && log[k] == Invalidated(log[j].host)
    ensures var i := log[j].source;
            && i < j && log[i].Stored? && log[i].host == log[j].host
            && var p := StartOf(log, i);
            && p < i && log[p].Started? && log[p].host == log[i].host && log[p].flight == log[i].flight
            && (p < k <==> i < k || Opened(log[..k], log[j].host) == Some(p))
  {
    RunKeepsInv(ttl, actions);
    AnswersAreProven(ttl, actions, log, j);
    StartOfStore(ttl, log, log[j].source);
    StartedBeforeIff(ttl, log, k, log[j].source);
  }

  lemma StartedBeforeIff(ttl: int, log: seq<Event>, k: nat, i: nat)
    requires GoodLog(ttl, log) && k < |log| && log[k].Invalidated? && i < |log| && log[i].Stored?
    ensures StartOf(log, i) < k <==> i < k || Opened(log[..k], log[i].host) == Some(StartOf(log, i))
  {
    var host := log[i].host;
    StartOfStore(ttl, log, i);
    OpenedInside(log[..k], host);
    if StartOf(log, i) < k < i {
      OpenedSince(log[..i], host, k);
      assert log[..i][..k] == log[..k];
    }
  }

  /** No negotiation of the host is under way, and no flight holds a result of one. */
  predicate NothingUnderWay(s: State, host: Host) {
    host !in s.flights || s.flights[host].phase.Entered?
  }

  /** The run `before`, an invalidation of the host, and then `rest`. */
  ghost function Resumed(ttl: int, before: seq<Action>, host: Host, rest: seq<Action>): State {
    Run(ttl, before + [Invalidate(host)] + rest)
  }

  lemma {:induction false} RunLogGrows(ttl: int, before: seq<Action>, rest: seq<Action>)
    ensures Run(ttl, before).log <= Run(ttl, before + rest).log
    decreases |rest|
  {
    if rest == [] {
      assert before + rest == before;
    } else {
      var n := |rest| - 1;
      RunLogGrows(ttl, before, rest[..n]);
      assert before + rest == (before + rest[..n]) + [rest[n]];
      RunStep(ttl, before + rest[..n], rest[n]);
      LogGrows(ttl, Run(ttl, before + rest[..n]), rest[n]);
    }
  }

  lemma ResumedLog(ttl: int, before: seq<Action>, host: Host, rest: seq<Action>)
    ensures Run(ttl, before).log + [Invalidated(host)] <= Resumed(ttl, before, host, rest).log
  {
    RunStep(ttl, before, Invalidate(host));
    RunLogGrows(ttl, before + [Invalidate(host)], rest);
  }

  /** The call was begun at `b`, after the invalidation, and answered at `j`. */
  ghost predicate AnsweredAfter(ttl: int, before: seq<Action>, host: Host, rest: seq<Action>, b: nat, j: nat) {
    var log := Resumed(ttl, before, host, rest).log;
    && |Run(ttl, before).log| < b < j < |log|
    && log[j].Returned? && log[j].host == host && log[b] == Began(log[j].call, host)
  }

  /** Where the negotiation behind an answer started. */
  ghost function AnswerStart(log: seq<Event>, j: nat): nat
    requires j < |log| && log[j].Returned? && log[j].source < |log| && log[log[j].source].Stored?
  {
    StartOf(log, log[j].source)
  }

  /** The answer comes from a negotiation of the host that started after the invalidation. */
  ghost predicate ProbedAfter(ttl: int, before: seq<Action>, host: Host, rest: seq<Action>, j: nat) {
    var log := Resumed(ttl, before, host, rest).log;
    && j < |log| && log[j].Returned? && log[j].source < |log| && log[log[j].source].Stored?
    && |Run(ttl, before).log| < AnswerStart(log, j)
  }

  /** A flight that was settled and is not closed is the host's open flight, and is settled. */
  lemma SettledUnclosed(ttl: int, s: State, host: Host, f: nat)
    requires IdsKnown(s) && FlightsInv(s) && SettledAt(s.log, f).Some? && Closed(host, f) !in s.log
    requires SettledAt(s.log, f).value < |s.log| && s.log[SettledAt(s.log, f).value].host == host
    ensures host in s.flights && s.flights[host].phase.Settled?
  {
    assert f >= s.nextFlight ==> IdleAt(s.log, f);
    assert KnownAt(s, f);
    assert f in s.finished ==> FinishedAt(s.log, f, s.finished[f]);
    if f !in s.finished {
      var h :| h in s.flights && s.flights[h].id == f;
      assert FlightAt(s.log, h, s.flights[h]);
    }
  }

  /** A negotiation that started before `k` and was stored after it was under way at `k`. */
  lemma ProbeWasUnderWay(ttl: int, s: State, log: seq<Event>, i: nat)
    requires FlightsInv(s) && GoodLog(ttl, log) && |s.log| <= i < |log| && log[..|s.log|] == s.log
    requires log[i].Stored? && StartOf(log, i) < |s.log|
    ensures !NothingUnderWay(s, log[i].host)
  {
    var host := log[i].host;
    StartOfStore(ttl, log, i);
    OpenedSince(log[..i], host, |s.log|);
    assert log[..i][..|s.log|] == s.log;
    assert host !in s.flights ==> !Busy(s.log, host);
    assert host in s.flights ==> FlightAt(s.log, host, s.flights[host]);
  }

  /** What was fixed before `k` was fixed in the log as it was then. */
  lemma SettledFirst(log: seq<Event>, before: seq<Event>, f: nat) returns (q: nat)
    requires before <= log && SettledBefore(log, f, |before|)
    ensures q < |before| && SettledAt(before, f) == Some(q) && log[q] == before[q] && Settles(log[q], f)
  {
    var r :| 0 <= r < |before| && Settles(log[r], f);
    assert before[r] == log[r];
    SettledMeans(before, f);
    q := SettledAt(before, f).value;
  }

  /** An answer after `k` from a negotiation that did not start after `k`: something was under way at `k`. */
  lemma EarlyStartMeans(ttl: int, s: State, log: seq<Event>, j: nat)
    requires IdsKnown(s) && FlightsInv(s) && GoodLog(ttl, log) && |s.log| < j < |log| && log[..|s.log|] == s.log
    requires log[j].Returned? && log[|s.log|].Invalidated?
    requires log[j].source < j && log[log[j].source].Stored? && log[log[j].source].host == log[j].host
    requires log[j].source < |s.log| ==>
               && log[j].via.FromFlight? && SettledBefore(log, log[j].via.flight, |s.log|)
               && Closed(log[j].host, log[j].via.flight) !in s.log
    requires StartOf(log, log[j].source) <= |s.log|
    ensures !NothingUnderWay(s, log[j].host)
  {
    var i := log[j].source;
    if i < |s.log| {
      var f := log[j].via.flight;
      var q := SettledFirst(log, s.log, f);
      SettledHere(ttl, log, j, f, q);
      SettledUnclosed(ttl, s, log[j].host, f);
    } else {
      StartOfStore(ttl, log, i);
      ProbeWasUnderWay(ttl, s, log, i);
    }
  }

  /** If nothing was under way at the invalidation, every later call is answered by a later negotiation. */
  lemma InvalidatedInTime(ttl: int, before: seq<Action>, host: Host, rest: seq<Action>, b: nat, j: nat)
    requires NothingUnderWay(Run(ttl, before), host) && AnsweredAfter(ttl, before, host, rest, b, j)
    ensures ProbedAfter(ttl, before, host, rest, j)
  {
    var actions := before + [Invalidate(host)] + rest;
    var s, log := Run(ttl, before), Run(ttl, actions).log;
    ResumedLog(ttl, before, host, rest);
    assert log[..|s.log|] == s.log;
    RunKeepsInv(ttl, actions);
    RunKeepsInv(ttl, before);
    AnswersAreProven(ttl, actions, log, j);
    AfterInvalidation(ttl, actions, log, |s.log|, b, j);
    if StartOf(log, log[j].source) <= |s.log| {
      EarlyStartMeans(ttl, s, log, j);
    }
  }

  lemma SettledHere(ttl: int, log: seq<Event>, j: nat, f: nat, r: nat)
    requires GoodLog(ttl, log) && r < j < |log| && Settles(log[r], f)
    requires log[j].Returned? && log[j].via == FromFlight(f)
    ensures log[r].host == log[j].host
  {
    var before := log[..j];
    assert Justified(ttl, before, log[j]);
    SettledMeans(before, f);
    var q := SettledAt(before, f).value;
    assert log[q] == before[q];
    SettledOnce(ttl, log, f, r);
  }

  ghost function Above(calls: set<nat>): (n: nat)
    ensures forall c :: c in calls ==> c < n
  {
    if calls == {} then 0 else
      var c :| c in calls;
      var n := Above(calls - {c});
      assert forall d :: d in calls ==> d == c || d in calls - {c};
      if n <= c then c + 1 else n
  }

  /** From a probed flight: the result is stored, and a new call reads it from the cache. */
  lemma StoredIsRead(ttl: int, a: seq<Action>, s: State, host: Host, call: nat) returns (a': seq<Action>, s': State)
    requires s == Run(ttl, a) && call !in s.callers && host in s.flights && s.flights[host].phase.Probed?
    ensures s' == Run(ttl, a') && a <= a'
    ensures var Flight(id, Probed(https, http)) := s.flights[host];
            s'.log == s.log + [Stored(host, id, s.now, https, http), Began(call, host),
                               Returned(call, host, Decide(host, https, http), |s.log|, FromCache(s.now))]
  {
    a', s' := Next(ttl, a, s, Store(host));
    a', s' := Next(ttl, a', s', Begin(call, host));
    a', s' := Next(ttl, a', s', Lookup(call));
  }

  /** A new call misses the emptied cache and joins the open flight. */
  lemma FlightIsJoined(ttl: int, a: seq<Action>, s: State, host: Host, call: nat) returns (a': seq<Action>, s': State)
    requires s == Run(ttl, a) && call !in s.callers && host !in s.cache && host in s.flights
    ensures s' == Run(ttl, a') && a <= a'
    ensures s'.flights == s.flights && s'.finished == s.finished
    ensures call in s'.callers && s'.callers[call] == Waiting(host, s.flights[host].id)
    ensures s'.log == s.log + [Began(call, host), Joined(call, host, s.flights[host].id)]
  {
    a', s' := Next(ttl, a, s, Begin(call, host));
    a', s' := Next(ttl, a', s', Lookup(call));
    a', s' := Next(ttl, a', s', Enter(call));
  }

  /** From a settled flight: a new call misses the emptied cache, joins the flight and receives its result. */
  lemma SettledIsShared(ttl: int, a: seq<Action>, s: State, host: Host, call: nat) returns (a': seq<Action>, s': State)
    requires s == Run(ttl, a) && call !in s.callers && host !in s.cache
    requires host in s.flights && s.flights[host].phase.Settled?
    ensures s' == Run(ttl, a') && a <= a'
    ensures var Flight(id, Settled(verdict, source)) := s.flights[host];
            s'.log == s.log + [Began(call, host), Joined(call, host, id), Closed(host, id),
                               Returned(call, host, verdict, source, FromFlight(id))]
  {
    a', s' := FlightIsJoined(ttl, a, s, host, call);
    a', s' := Next(ttl, a', s', Close(host));
    a', s' := Next(ttl, a', s', Return(call));
  }

  /** No negotiation of the host has started since position `k`. */
  ghost predicate NoStartSince(log: seq<Event>, host: Host, k: nat) {
    forall m :: k <= m < |log| ==> !(log[m].Started? && log[m].host == host)
  }

  /** From `before` on, an invalidation and then `rest` answer a new call without a new negotiation. */
  ghost predicate Skips(ttl: int, before: seq<Action>, host: Host, rest: seq<Action>, b: nat, j: nat) {
    && AnsweredAfter(ttl, before, host, rest, b, j) && !ProbedAfter(ttl, before, host, rest, j)
    && NoStartSince(Resumed(ttl, before, host, rest).log, host, |Run(ttl, before).log|)
  }

  /** An answer from a store at `i` whose negotiation started before the invalidation. */
  lemma OldAnswer(ttl: int, before: seq<Action>, host: Host, rest: seq<Action>, b: nat, j: nat)
    requires var s := Run(ttl, before); var log := Resumed(ttl, before, host, rest).log;
      && AnsweredAfter(ttl, before, host, rest, b, j) && NoStartSince(log, host, |s.log|)
      && log[j].source < |log| && log[log[j].source].Stored? && log[log[j].source].host == host
    ensures Skips(ttl, before, host, rest, b, j)
  {
    var actions := before + [Invalidate(host)] + rest;
    var log := Run(ttl, actions).log;
    RunKeepsInv(ttl, actions);
    StartOfStore(ttl, log, log[j].source);
  }

  lemma ProbedIsSkipped(ttl: int, before: seq<Action>, host: Host, probed: seq<Action>, call: nat)
    returns (rest: seq<Action>)
    requires var s := Run(ttl, before); var t := Resumed(ttl, before, host, probed);
      && t.log == s.log + [Invalidated(host)] && call !in t.callers
      && host in t.flights && t.flights[host].phase.Probed?
    ensures Skips(ttl, before, host, rest, |Run(ttl, before).log| + 2, |Run(ttl, before).log| + 3)
  {
    var k := |Run(ttl, before).log|;
    var start := before + [Invalidate(host)];
    var a, t := StoredIsRead(ttl, start + probed, Run(ttl, start + probed), host, call);
    rest := a[|start|..];
    assert a == start + rest;
    assert t.log[k] == Invalidated(host) && t.log[k + 1].Stored?;
    assert t.log[k + 2] == Began(call, host) && t.log[k + 3].Returned?;
    OldAnswer(ttl, before, host, rest, k + 2, k + 3);
  }

  lemma HeldResult(ttl: int, before: seq<Action>, host: Host)
    requires var s := Run(ttl, before); host in s.flights && s.flights[host].phase.Settled?
    ensures var s := Run(ttl, before); var i := s.flights[host].phase.source;
      i < |s.log| && s.log[i].Stored? && s.log[i].host == host
  {
    var s := Run(ttl, before);
    RunKeepsInv(ttl, before);
    assert FlightAt(s.log, host, s.flights[host]);
  }

  lemma SettledIsSkipped(ttl: int, before: seq<Action>, host: Host, call: nat) returns (rest: seq<Action>)
    requires var s := Run(ttl, before);
      call !in s.callers && host in s.flights && s.flights[host].phase.Settled?
    ensures Skips(ttl, before, host, rest, |Run(ttl, before).log| + 1, |Run(ttl, before).log| + 4)
  {
    var s := Run(ttl, before);
    var k := |s.log|;
    HeldResult(ttl, before, host);
    var start, u := Next(ttl, before, s, Invalidate(host));
    var a, t := SettledIsShared(ttl, start, u, host, call);
    rest := a[|start|..];
    assert a == start + rest;
    assert t.log[..k] == s.log;
    assert t.log[k] == Invalidated(host) && t.log[k + 1] == Began(call, host);
    assert t.log[k + 2].Joined? && t.log[k + 3].Closed?;
    OldAnswer(ttl, before, host, rest, k + 1, k + 4);
  }

  /** If something was under way at the invalidation, a later call may be answered without another probe. */
  lemma ProbeCanBeSkipped(ttl: int, before: seq<Action>, host: Host) returns (rest: seq<Action>, b: nat, j: nat)
    requires !NothingUnderWay(Run(ttl, before), host)
    ensures Skips(ttl, before, host, rest, b, j)
  {
    var s := Run(ttl, before);
    var k, call := |s.log|, Above(s.callers.Keys);
    assert call !in s.callers.Keys;
    var start, u := Next(ttl, before, s, Invalidate(host));
    match s.flights[host].phase {
      case Settled(_, _) =>
        rest := SettledIsSkipped(ttl, before, host, call);
        b, j := k + 1, k + 4;
      case Probed(_, _) =>
        assert start + [] == start;
        rest := ProbedIsSkipped(ttl, before, host, [], call);
        b, j := k + 2, k + 3;
      case Probing =>
        var a, t := Next(ttl, start, u, Probe(host, Responded, Responded));
        rest := ProbedIsSkipped(ttl, before, host, [Probe(host, Responded, Responded)], call);
        b, j := k + 2, k + 3;
    }
  }

  /**
   * An invalidation forces every later call to be answered by a new negotiation exactly when, at that
   * moment, no negotiation of the host was under way and no open flight held a result.
   */
  lemma InvalidationForcesProbeIff(ttl: int, before: seq<Action>, host: Host)
    ensures NothingUnderWay(Run(ttl, before), host) <==>
      forall rest, b, j :: AnsweredAfter(ttl, before, host, rest, b, j) ==> ProbedAfter(ttl, before, host, rest, j)
  {
    if NothingUnderWay(Run(ttl, before), host) {
      forall rest, b, j | AnsweredAfter(ttl, before, host, rest, b, j) ensures ProbedAfter(ttl, before, host, rest, j) {
        InvalidatedInTime(ttl, before, host, rest, b, j);
      }
    } else {
      var rest, b, j := ProbeCanBeSkipped(ttl, before, host);
      assert AnsweredAfter(ttl, before, host, rest, b, j);
    }
  }

  /**
   * An invalidation does not shield a later call from everything decided before it: here the first
   * flight has stored its result but is not yet closed when the host is invalidated, and a call begun
   * after that still joins the flight and receives the old result.
   */
  lemma InvalidationCanBeOutrun(ttl: int, host: Host) returns (actions: seq<Action>)
    ensures var log := Run(ttl, actions).log;
            && |log| == 9 && log[3].Stored? && log[4] == Invalidated(host) && log[5] == Began(1, host)
            && log[8] == Returned(1, host, Verdict(true, false), 3, FromFlight(0))
  {
    var s;
    actions, s := JoinedTooLate(ttl, host);
    actions, s := Next(ttl, actions, s, Close(host));
    actions, s := Next(ttl, actions, s, Return(1));
  }

  /**
   * Nor does it make a later call probe again: here the probes are done but their result is not stored
   * when the host is invalidated; it is stored afterwards, and a call begun after that reads it from the
   * cache. The only negotiation of the host started before the invalidation.
   */
  lemma StoreCanFollowInvalidation(ttl: int, host: Host) returns (actions: seq<Action>)
    ensures var log := Run(ttl, actions).log;
            && |log| == 7 && log[2] == Started(host, 0, 0) && log[3] == Invalidated(host) && log[4].Stored?
            && log[5] == Began(1, host) && log[6] == Returned(1, host, Verdict(true, false), 4, FromCache(0))
            && NoStartSince(log, host, 3)
  {
    var s;
    actions, s := ProbedThenInvalidated(ttl, host);
    actions, s := StoredIsRead(ttl, actions, s, host, 1);
  }

  lemma ProbedThenInvalidated(ttl: int, host: Host) returns (a: seq<Action>, s: State)
    ensures s == Run(ttl, a)
    ensures s.now == 0 && s.cache == map[] && s.callers == map[0 := Waiting(host, 0)]
    ensures s.flights == map[host := Flight(0, Probed(Failed([SchemeMismatch]), Responded))]
    ensures s.log == [Began(0, host), Joined(0, host, 0), Started(host, 0, 0), Invalidated(host)]
  {
    a, s := FlightProbed(ttl, host);
    a, s := Next(ttl, a, s, Invalidate(host));
  }

  lemma JoinedTooLate(ttl: int, host: Host) returns (a: seq<Action>, s: State)
    ensures s == Run(ttl, a)
    ensures 1 in s.callers && s.callers[1] == Waiting(host, 0)
    ensures s.flights == map[host := Flight(0, Settled(Verdict(true, false), 3))]
    ensures |s.log| == 7 && s.log[3].Stored? && s.log[4] == Invalidated(host) && s.log[5] == Began(1, host)
  {
    a, s := StoredThenInvalidated(ttl, host);
    a, s := Next(ttl, a, s, Begin(1, host));
    a, s := Next(ttl, a, s, Lookup(1));
    a, s := Next(ttl, a, s, Enter(1));
  }

  lemma FlightStarted(ttl: int, host: Host) returns (a: seq<Action>, s: State)
    ensures s == Run(ttl, a)
    ensures s.now == 0 && s.cache == map[] && s.finished == map[] && s.callers == map[0 := Waiting(host, 0)]
    ensures s.flights == map[host := Flight(0, Entered)]
    ensures s.log == [Began(0, host), Joined(0, host, 0)]
  {
    a := [];
    s := Run(ttl, a);
    a, s := Next(ttl, a, s, Begin(0, host));
    a, s := Next(ttl, a, s, Lookup(0));
    a, s := Next(ttl, a, s, Enter(0));
  }

  lemma FlightProbed(ttl: int, host: Host) returns (a: seq<Action>, s: State)
    ensures s == Run(ttl, a)
    ensures s.now == 0 && s.cache == map[] && s.finished == map[] && s.callers == map[0 := Waiting(host, 0)]
    ensures s.flights == map[host := Flight(0, Probed(Failed([SchemeMismatch]), Responded))]
    ensures s.log == [Began(0, host), Joined(0, host, 0), Started(host, 0, 0)]
  {
    a, s := FlightStarted(ttl, host);
    a, s := Next(ttl, a, s, Recheck(host));
    a, s := Next(ttl, a, s, Probe(host, Failed([SchemeMismatch]), Responded));
  }

  lemma StoredThenInvalidated(ttl: int, host: Host) returns (a: seq<Action>, s: State)
    ensures s == Run(ttl, a)
    ensures host !in s.cache && s.finished == map[] && s.callers == map[0 := Waiting(host, 0)]
    ensures s.flights == map[host := Flight(0, Settled(Verdict(true, false), 3))]
    ensures s.log == [Began(0, host), Joined(0, host, 0), Started(host, 0, 0),
                      Stored(host, 0, 0, Failed([SchemeMismatch]), Responded), Invalidated(host)]
  {
    a, s := FlightProbed(ttl, host);
    a, s := Next(ttl, a, s, Store(host));
    a, s := Next(ttl, a, s, Invalidate(host));
  }

  lemma Next(ttl: int, actions: seq<Action>, s: State, a: Action) returns (actions': seq<Action>, s': State)
    requires s == Run(ttl, actions)
    ensures actions' == actions + [a] && s' == Apply(ttl, s, a) && s' == Run(ttl, actions')
  {
    RunStep(ttl, actions, a);
    actions', s' := actions + [a], Apply(ttl, s, a);
  }

  // ---------------------------------------------------------------------------------------------
  // Progress
  // ---------------------------------------------------------------------------------------------

  function PhaseSteps(p: Phase): nat {
    match p
    case Entered => 5
    case Probing => 4
    case Probed(_, _) => 3
    case Settled(_, _) => 2
  }

  /** How many steps, of its own or of its host's flight, a call is from its answer. */
  function StepsToGo(s: State, call: nat): nat
    requires call in s.callers
  {
    match s.callers[call]
    case Looking(_) => 7
    case Missed(_) => 6
    case Waiting(host, flight) =>
      if flight in s.finished then 1 else if host in s.flights then PhaseSteps(s.flights[host].phase) else 8
    case Gone => 0
  }

  /** The step that brings a call nearer to its answer; the probes may come to anything. */
  function NextFor(s: State, call: nat, https: Negotiation.Probe, http: Negotiation.Probe): Action
    requires call in s.callers
  {
    match s.callers[call]
    case Looking(_) => Lookup(call)
    case Missed(_) => Enter(call)
    case Waiting(host, flight) =>
      if flight in s.finished || host !in s.flights then Return(call)
      else FlightStep(host, s.flights[host].phase, https, http)
    case Gone => Return(call)
  }

  function FlightStep(host: Host, p: Phase, https: Negotiation.Probe, http: Negotiation.Probe): Action {
    match p
    case Entered => Recheck(host)
    case Probing => Probe(host, https, http)
    case Probed(_, _) => Store(host)
    case Settled(_, _) => Close(host)
  }

  /** The call stands where the invariant wants it. */
  ghost predicate InPlace(s: State, call: nat) {
    call in s.callers && CallerInv(s, call, s.callers[call])
  }

  /** The step is the call's own or one of its host's flight. */
  predicate Concerns(a: Action, call: nat, host: Host) {
    || ((a.Lookup? || a.Enter? || a.Return?) && a.call == call)
    || ((a.Recheck? || a.Probe? || a.Store? || a.Close?) && a.host == host)
  }

  lemma NextIsNearer(ttl: int, s: State, call: nat, https: Negotiation.Probe, http: Negotiation.Probe)
    requires InPlace(s, call) && !s.callers[call].Gone?
    ensures var a := NextFor(s, call, https, http); var t := Apply(ttl, s, a); var host := s.callers[call].host;
            && Concerns(a, call, host) && call in t.callers && StepsToGo(t, call) < StepsToGo(s, call)
            && (if t.callers[call].Gone?
                then LoggedBy(ttl, s, a).Some? && var e := LoggedBy(ttl, s, a).value;
                     e.Returned? && e.call == call && e.host == host
                else t.callers[call].host == host)
  {
    var a := NextFor(s, call, https, http);
    if a.Recheck? || a.Probe? || a.Store? || a.Close? {
      FlightStepIsNearer(ttl, s, a);
    }
  }

  lemma {:induction false} FlightStepIsNearer(ttl: int, s: State, a: Action)
    requires a.Recheck? || a.Probe? || a.Store? || a.Close?
    requires a.host in s.flights
    requires match s.flights[a.host].phase {
        case Entered => a.Recheck?
        case Probing => a.Probe?
        case Probed(_, _) => a.Store?
        case Settled(_, _) => a.Close?
      }
    ensures var t := Apply(ttl, s, a);
            && t.callers == s.callers
            && (if a.host in t.flights
                then && t.finished == s.finished
                     && PhaseSteps(t.flights[a.host].phase) < PhaseSteps(s.flights[a.host].phase)
                else s.flights[a.host].id in t.finished)
  {
    match a {
      case Recheck(_) =>
      case Probe(_, _, _) =>
      case Store(_) =>
      case Close(_) =>
    }
  }

  /** What others do never takes a call further from its answer. */
  lemma NobodyHinders(ttl: int, s: State, a: Action, call: nat)
    requires IdsInv(s) && InPlace(s, call)
    ensures InPlace(Apply(ttl, s, a), call) && StepsToGo(Apply(ttl, s, a), call) <= StepsToGo(s, call)
  {
    CallerKept(ttl, s, a, call);
    if Moves(a, call) {
      OwnMove(ttl, s, a);
    } else {
      OthersLeaveCaller(ttl, s, a, call);
      if s.callers[call].Waiting? {
        var Waiting(host, flight) := s.callers[call];
        if flight in s.finished {
          FinishedStays(ttl, s, a, flight);
        } else if Advances(a, host) {
          FlightMoves(ttl, s, a);
        } else {
          OthersLeaveFlight(ttl, s, a, host);
        }
      }
    }
  }

  lemma {:induction false} OwnMove(ttl: int, s: State, a: Action)
    requires (a.Begin? || a.Lookup? || a.Enter? || a.Return?) && InPlace(s, a.call)
    ensures a.call in Apply(ttl, s, a).callers && StepsToGo(Apply(ttl, s, a), a.call) <= StepsToGo(s, a.call)
  {
    match a {
      case Begin(_, _) =>
      case Lookup(_) =>
      case Enter(_) =>
      case Return(_) =>
    }
  }

  lemma {:induction false} FlightMoves(ttl: int, s: State, a: Action)
    requires (a.Recheck? || a.Probe? || a.Store? || a.Close?) && a.host in s.flights
    ensures var t := Apply(ttl, s, a);
            if a.host in t.flights
            then t.flights[a.host].id == s.flights[a.host].id && t.finished == s.finished
                 && PhaseSteps(t.flights[a.host].phase) <= PhaseSteps(s.flights[a.host].phase)
            else s.flights[a.host].id in t.finished
  {
    match a {
      case Recheck(_) =>
      case Probe(_, _, _) =>
      case Store(_) =>
      case Close(_) =>
    }
  }

  lemma CallerInPlace(ttl: int, actions: seq<Action>, call: nat)
    requires call in Run(ttl, actions).callers
    ensures InPlace(Run(ttl, actions), call) && StepsToGo(Run(ttl, actions), call) <= 7
  {
    RunKeepsInv(ttl, actions);
  }

  /** The last thing that happened is that the call was answered. */
  ghost predicate JustAnswered(s: State, call: nat, host: Host) {
    s.log != [] && var e := s.log[|s.log| - 1]; e.Returned? && e.call == call && e.host == host
  }

  lemma OneStepNearer(
    ttl: int, actions: seq<Action>, s: State, call: nat, https: Negotiation.Probe, http: Negotiation.Probe)
    returns (a: Action, t: State)
    requires s == Run(ttl, actions) && call in s.callers && !s.callers[call].Gone?
    ensures t == Run(ttl, actions + [a]) && Concerns(a, call, s.callers[call].host)
    ensures call in t.callers && StepsToGo(t, call) < StepsToGo(s, call)
    ensures if t.callers[call].Gone? then JustAnswered(t, call, s.callers[call].host)
            else t.callers[call].host == s.callers[call].host
  {
    CallerInPlace(ttl, actions, call);
    a := NextFor(s, call, https, http);
    NextIsNearer(ttl, s, call, https, http);
    LogGrows(ttl, s, a);
    t := Apply(ttl, s, a);
    RunStep(ttl, actions, a);
  }

  lemma {:induction false} Brought(
    ttl: int, actions: seq<Action>, s: State, call: nat, https: Negotiation.Probe, http: Negotiation.Probe)
    returns (rest: seq<Action>, t: State)
    requires s == Run(ttl, actions) && call in s.callers && !s.callers[call].Gone?
    ensures t == Run(ttl, actions + rest) && |rest| <= StepsToGo(s, call)
    ensures (forall a :: a in rest ==> Concerns(a, call, s.callers[call].host))
    ensures JustAnswered(t, call, s.callers[call].host)
    decreases StepsToGo(s, call)
  {
    var a, u := OneStepNearer(ttl, actions, s, call, https, http);
    if u.callers[call].Gone? {
      rest, t := [a], u;
    } else {
      rest, t := Brought(ttl, actions + [a], u, call, https, http);
      assert actions + ([a] + rest) == (actions + [a]) + rest;
      rest := [a] + rest;
    }
  }

  /**
   * From every reachable state every call that has not been answered can be brought to its answer in at
   * most seven steps, all of them its own or its host's flight's, whatever the probes come to.
   */
  lemma CallCanReturn(ttl: int, before: seq<Action>, call: nat, https: Negotiation.Probe, http: Negotiation.Probe)
    returns (rest: seq<Action>)
    requires var s := Run(ttl, before); call in s.callers && !s.callers[call].Gone?
    ensures |rest| <= 7
    ensures var host := Run(ttl, before).callers[call].host;
            && (forall a :: a in rest ==> Concerns(a, call, host))
            && JustAnswered(Run(ttl, before + rest), call, host)
  {
    CallerInPlace(ttl, before, call);
    var t;
    rest, t := Brought(ttl, before, Run(ttl, before), call, https, http);
  }

  /** In every run, no step of anyone takes a call further from its answer. */
  lemma NobodyHindersInRun(ttl: int, before: seq<Action>, a: Action, call: nat)
    requires call in Run(ttl, before).callers
    ensures call in Run(ttl, before + [a]).callers
    ensures StepsToGo(Run(ttl, before + [a]), call) <= StepsToGo(Run(ttl, before), call)
  {
    RunKeepsInv(ttl, before);
    CallerInPlace(ttl, before, call);
    NobodyHinders(ttl, Run(ttl, before), a, call);
    RunStep(ttl, before, a);
  }
}
