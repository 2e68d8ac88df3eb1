/**
 The client session protocol: the shared refresh request with its debounce
 timer, `apiFetch` with its one retry, and the socket as one more caller. Each
 event is the code that runs between two awaits; events interleave freely, for
 any number of calls, sockets, replies and timers.
 */
module Session {
  import opened Options
  import opened AuthStores

  const REFRESH_DEBOUNCE_MS: nat := 500

  // ----- Replies

  /** What the body of a data reply parses to. */
  datatype Body =
    | NoJson
    | Envelope(success: bool, code: Option<string>)
    | Other(nestedCode: Option<string>, code: Option<string>, error: Option<string>)

  datatype Reply = Reply(status: nat, body: Body) {
    predicate Ok() {
      200 <= status < 300
    }
  }

  datatype Result = Result(success: bool, code: Option<string>)

  function FirstCode(codes: seq<Option<string>>, otherwise: string): string {
    if codes == [] then otherwise
    else if codes[0].Some? && codes[0].value != "" then codes[0].value
    else FirstCode(codes[1..], otherwise)
  }

  function StatusCode(status: nat): string {
    "HTTP_" + Digits(status)
  }

  function Digits(n: nat): string {
    (if n >= 10 then Digits(n / 10) else "") + ["0123456789"[n % 10]]
  }

  /** The envelope as it is, a bare success, or an error with the first code the body has. */
  function Classify(r: Reply): Result {
    match r.body
    case Envelope(success, code) => Result(success, code)
    case NoJson => if r.Ok() then Result(true, None) else Result(false, Some(StatusCode(r.status)))
    case Other(nested, code, error) =>
      if r.Ok() then Result(true, None)
      else Result(false, Some(FirstCode([nested, code, error], StatusCode(r.status))))
  }

  predicate IsAuthError(status: nat, code: Option<string>) {
    status == 401 || (code.Some? && code.value in {"TOKEN_EXPIRED", "TOKEN_INVALID", "TOKEN_REVOKED", "UNAUTHORIZED"})
  }

  /** String.prototype.includes. */
  predicate Includes(s: string, w: string) {
    (|w| <= |s| && s[..|w|] == w) || (s != "" && Includes(s[1..], w))
  }

  predicate IsAuthEndpoint(path: string) {
    || Includes(path, "/auth/refresh") || Includes(path, "/auth/login")
    || Includes(path, "/auth/register") || Includes(path, "/auth/logout")
  }

  /** The reply to a refresh request, or its failure on the way. */
  datatype RefreshReply = Answered(status: nat, accessToken: Option<Token>) | Unreachable {
    predicate Fresh() {
      Answered? && 200 <= status < 300 && Truthy(accessToken)
    }

    predicate Denied() {
      Answered? && !Fresh() && (status == 401 || status == 403)
    }

    function Value(): Option<Token> {
      if Fresh() then accessToken else None
    }
  }

  // ----- State

  datatype Settled = Settled(value: Option<Token>, at: nat)

  /** One refresh request: pending, then settled with a timer armed, then done when the timer has fired. */
  datatype Flight = Flight(startedAt: nat, outcome: Option<Settled>, timerFired: bool)

  datatype Phase = Requesting | Awaiting(flight: nat, failure: Result) | Done(result: Result)

  /** One `apiFetch` call with its retry; the counters are the requests and refreshes it asked for. */
  datatype Call = Call(path: string, token: Option<Token>, retry: bool, phase: Phase, requests: nat, refreshes: nat)

  /** A socket: its `_isRefreshing` flag with the flight it waits for, and the token it authenticates with. */
  datatype Socket = Socket(token: Option<Token>, refreshing: Option<nat>)

  /** `delivered` records each value handed to a caller and the flight it came from. */
  datatype State = State(
    now: nat,
    refreshPromise: Option<nat>,
    flights: seq<Flight>,
    calls: seq<Call>,
    sockets: seq<Socket>,
    auth: Auth,
    delivered: seq<(nat, Option<Token>)>)

  function Initial(auth: Auth): State {
    State(0, None, [], [], [], auth, [])
  }

  datatype Event =
    | Tick(ms: nat)
    | Fetch(path: string, token: Option<Option<Token>>)
    | DataReply(call: nat, reply: Reply)
    | DataUnreachable(call: nat)
    | RefreshSettles(flight: nat, outcome: RefreshReply, storageCalls: nat)
    | TimerFires(flight: nat)
    | CallResumes(call: nat, publicPage: bool, storageCalls: nat)
    | OpenSocket
    | SocketAuthError(socket: nat)
    | SocketResumes(socket: nat, storageCalls: nat)
    | UserAction(setter: Setter)

  predicate Enabled(s: State, e: Event) {
    match e
    case Tick(_) => true
    case Fetch(_, _) => true
    case DataReply(c, _) => c < |s.calls| && s.calls[c].phase.Requesting?
    case DataUnreachable(c) => c < |s.calls| && s.calls[c].phase.Requesting?
    case RefreshSettles(f, _, _) => f < |s.flights| && s.flights[f].outcome.None?
    case TimerFires(f) =>
      f < |s.flights| && s.flights[f].outcome.Some? && !s.flights[f].timerFired
      && s.now >= s.flights[f].outcome.value.at + REFRESH_DEBOUNCE_MS
    case CallResumes(c, _, _) =>
      c < |s.calls| && s.calls[c].phase.Awaiting? && s.calls[c].phase.flight < |s.flights|
      && s.flights[s.calls[c].phase.flight].outcome.Some?
    case OpenSocket => true
    case SocketAuthError(k) => k < |s.sockets|
    case SocketResumes(k, _) =>
      k < |s.sockets| && s.sockets[k].refreshing.Some? && s.sockets[k].refreshing.value < |s.flights|
      && s.flights[s.sockets[k].refreshing.value].outcome.Some?
    case UserAction(_) => true
  }

  // ----- Steps

  /** `refreshAccessToken`: the flight this caller joins, started now if there is none. */
  function Join(s: State): (State, nat) {
    if s.refreshPromise.Some? then (s, s.refreshPromise.value)
    else (s.(refreshPromise := Some(|s.flights|), flights := s.flights + [Flight(s.now, None, false)]), |s.flights|)
  }

  function AfterRefresh(a: Auth, reply: RefreshReply, storageCalls: nat): Auth {
    if reply.Fresh() then AfterSetToken(a, reply.accessToken.value, storageCalls)
    else if reply.Denied() then AfterClear(a, storageCalls)
    else a
  }

  predicate WantsRefresh(c: Call, status: nat, result: Result) {
    IsAuthError(status, result.code) && !IsAuthEndpoint(c.path) && !c.retry && Truthy(c.token)
  }

  function AfterReply(s: State, c: nat, reply: Reply): State
    requires c < |s.calls|
  {
    var call, result := s.calls[c], Classify(reply);
    if WantsRefresh(call, reply.status, result) then
      var (joined, f) := Join(s);
      joined.(calls := s.calls[c := call.(phase := Awaiting(f, result), refreshes := call.refreshes + 1)])
    else s.(calls := s.calls[c := call.(phase := Done(result))])
  }

  function AfterResume(s: State, c: nat, publicPage: bool, storageCalls: nat): State
    requires Enabled(s, CallResumes(c, publicPage, storageCalls))
  {
    var call := s.calls[c];
    var value := s.flights[call.phase.flight].outcome.value.value;
    var call' :=
      if Truthy(value) then call.(token := value, retry := true, phase := Requesting, requests := call.requests + 1)
      else call.(phase := Done(call.phase.failure));
    s.(calls := s.calls[c := call'],
       auth := if Truthy(value) || publicPage then s.auth else AfterClear(s.auth, storageCalls),
       delivered := s.delivered + [(call.phase.flight, value)])
  }

  function AfterSocketResume(s: State, k: nat, storageCalls: nat): State
    requires Enabled(s, SocketResumes(k, storageCalls))
  {
    var f := s.sockets[k].refreshing.value;
    var value := s.flights[f].outcome.value.value;
    s.(sockets := s.sockets[k := Socket(if Truthy(value) then value else s.sockets[k].token, None)],
       auth := if Truthy(value) then s.auth else AfterClear(s.auth, storageCalls),
       delivered := s.delivered + [(f, value)])
  }

  function Step(s: State, e: Event): State
    requires Enabled(s, e)
  {
    match e
    case Tick(ms) => s.(now := s.now + ms)
    case Fetch(path, token) =>
      s.(calls := s.calls + [Call(path, token.GetOr(s.auth.token), false, Requesting, 1, 0)])
    case DataReply(c, reply) => AfterReply(s, c, reply)
    case DataUnreachable(c) =>
      s.(calls := s.calls[c := s.calls[c].(phase := Done(Result(false, Some("NETWORK_ERROR"))))])
    case RefreshSettles(f, reply, n) =>
      s.(flights := s.flights[f := s.flights[f].(outcome := Some(Settled(reply.Value(), s.now)))],
         auth := AfterRefresh(s.auth, reply, n))
    case TimerFires(f) =>
      s.(refreshPromise := None, flights := s.flights[f := s.flights[f].(timerFired := true)])
    case CallResumes(c, publicPage, n) => AfterResume(s, c, publicPage, n)
    case OpenSocket => s.(sockets := s.sockets + [Socket(s.auth.token, None)])
    case SocketAuthError(k) =>
      if s.sockets[k].refreshing.Some? then s
      else
        var (joined, f) := Join(s);
        joined.(sockets := s.sockets[k := s.sockets[k].(refreshing := Some(f))])
    case SocketResumes(k, n) => AfterSocketResume(s, k, n)
    case UserAction(setter) => s.(auth := setter.Apply(s.auth))
  }

  /** The states of every interleaving, from a page load. */
  ghost predicate Runs(s: State, events: seq<Event>, t: State)
    decreases |events|
  {
    if events == [] then s == t
    else
      var before, e := events[..|events| - 1], events[|events| - 1];
      exists m: State :: Runs(s, before, m) && Enabled(m, e) && t == Step(m, e)
  }

  // ----- Invariant

  /** The promise variable points at the last flight until that flight's timer has fired. */
  ghost predicate FlightsInOrder(now: nat, refreshPromise: Option<nat>, flights: seq<Flight>) {
    && refreshPromise == (if flights != [] && !flights[|flights| - 1].timerFired then Some(|flights| - 1) else None)
    && (forall f :: 0 <= f < |flights| ==> FlightFits(now, flights[f]))
    && (forall f, g :: 0 <= f < g < |flights| ==> flights[f].timerFired && Follows(flights[f], flights[g]))
  }

  ghost predicate FlightFits(now: nat, f: Flight) {
    && f.startedAt <= now
    && (f.timerFired ==> f.outcome.Some? && f.outcome.value.at + REFRESH_DEBOUNCE_MS <= now)
    && (f.outcome.Some? ==> f.startedAt <= f.outcome.value.at <= now)
  }

  /** The next request starts no sooner than the debounce time after this one settled. */
  ghost predicate Follows(f: Flight, next: Flight) {
    f.outcome.Some? && f.outcome.value.at + REFRESH_DEBOUNCE_MS <= next.startedAt
  }

  ghost predicate CallFits(c: Call, flights: nat) {
    && c.requests == (if c.retry then 2 else 1)
    && (c.phase.Requesting? ==> c.refreshes == (if c.retry then 1 else 0))
    && (c.phase.Awaiting? ==> !c.retry && c.refreshes == 1 && c.phase.flight < flights)
    && (c.retry ==> Truthy(c.token))
    && c.refreshes <= 1
    && (c.refreshes > 0 ==> !IsAuthEndpoint(c.path))
  }

  ghost predicate CallsFit(calls: seq<Call>, flights: nat) {
    forall c :: 0 <= c < |calls| ==> CallFits(calls[c], flights)
  }

  ghost predicate SocketsFit(sockets: seq<Socket>, flights: nat) {
    forall k :: 0 <= k < |sockets| && sockets[k].refreshing.Some? ==> sockets[k].refreshing.value < flights
  }

  /** Everything handed out came from a settled flight and is that flight's value. */
  ghost predicate DeliveriesFit(delivered: seq<(nat, Option<Token>)>, flights: seq<Flight>) {
    forall d :: 0 <= d < |delivered| ==>
      && delivered[d].0 < |flights|
      && flights[delivered[d].0].outcome.Some?
      && flights[delivered[d].0].outcome.value.value == delivered[d].1
  }

  ghost predicate Consistent(s: State) {
    && FlightsInOrder(s.now, s.refreshPromise, s.flights)
    && CallsFit(s.calls, |s.flights|)
    && SocketsFit(s.sockets, |s.flights|)
    && DeliveriesFit(s.delivered, s.flights)
  }

  /** Flights are only added, and a settled flight keeps its value. */
  ghost predicate FlightsGrow(before: seq<Flight>, after: seq<Flight>) {
    |before| <= |after| && forall f :: 0 <= f < |before| && before[f].outcome.Some? ==> after[f].outcome == before[f].outcome
  }

  lemma StepGrowsFlights(s: State, e: Event)
    requires Enabled(s, e)
    ensures FlightsGrow(s.flights, Step(s, e).flights)
  {
  }

  lemma JoinKeepsFlights(s: State)
    requires FlightsInOrder(s.now, s.refreshPromise, s.flights)
    ensures var (t, f) := Join(s);
      FlightsInOrder(t.now, t.refreshPromise, t.flights) && f < |t.flights| && |s.flights| <= |t.flights|
  {
    var t := Join(s).0;
    if s.refreshPromise.None? {
      forall f, g | 0 <= f < g < |t.flights| ensures t.flights[f].timerFired && Follows(t.flights[f], t.flights[g]) {
        assert FlightFits(s.now, s.flights[f]);
      }
    }
  }

  lemma SettleKeepsFlights(now: nat, flights: seq<Flight>, f: nat, value: Option<Token>)
    requires f < |flights| && flights[f].outcome.None?
    requires FlightsInOrder(now, if flights[|flights| - 1].timerFired then None else Some(|flights| - 1), flights)
    ensures FlightsInOrder(now, Some(|flights| - 1), flights[f := flights[f].(outcome := Some(Settled(value, now)))])
  {
    assert FlightFits(now, flights[f]);
    assert f == |flights| - 1;
  }

  lemma TimerKeepsFlights(now: nat, flights: seq<Flight>, f: nat)
    requires f < |flights| && flights[f].outcome.Some? && !flights[f].timerFired
    requires now >= flights[f].outcome.value.at + REFRESH_DEBOUNCE_MS
    requires FlightsInOrder(now, if flights[|flights| - 1].timerFired then None else Some(|flights| - 1), flights)
    ensures f == |flights| - 1
    ensures FlightsInOrder(now, None, flights[f := flights[f].(timerFired := true)])
  {
    assert FlightFits(now, flights[f]);
  }

  lemma TickKeepsFlights(now: nat, later: nat, p: Option<nat>, flights: seq<Flight>)
    requires now <= later && FlightsInOrder(now, p, flights)
    ensures FlightsInOrder(later, p, flights)
  {
    assert forall f :: 0 <= f < |flights| ==> FlightFits(now, flights[f]);
  }

  lemma StepKeepsFlights(s: State, e: Event)
    requires FlightsInOrder(s.now, s.refreshPromise, s.flights) && Enabled(s, e)
    ensures var t := Step(s, e); FlightsInOrder(t.now, t.refreshPromise, t.flights)
  {
    match e
    case RefreshSettles(f, reply, n) =>
      SettleKeepsFlights(s.now, s.flights, f, reply.Value());
      assert FlightFits(s.now, s.flights[f]);
    case TimerFires(f) => TimerKeepsFlights(s.now, s.flights, f);
    case Tick(ms) => TickKeepsFlights(s.now, s.now + ms, s.refreshPromise, s.flights);
    case DataReply(_, _) => JoinKeepsFlights(s);
    case SocketAuthError(_) => JoinKeepsFlights(s);
    case _ =>
  }

  /** One call's own step; the other calls keep their place. */
  lemma ReplyKeepsCalls(s: State, c: nat, reply: Reply)
    requires FlightsInOrder(s.now, s.refreshPromise, s.flights) && CallsFit(s.calls, |s.flights|)
    requires Enabled(s, DataReply(c, reply))
    ensures CallsFit(AfterReply(s, c, reply).calls, |AfterReply(s, c, reply).flights|)
  {
    JoinKeepsFlights(s);
    assert CallFits(s.calls[c], |s.flights|);
  }

  lemma MoreFlights(calls: seq<Call>, n: nat, m: nat)
    requires CallsFit(calls, n) && n <= m
    ensures CallsFit(calls, m)
  {
    forall c | 0 <= c < |calls| ensures CallFits(calls[c], m) {
      assert CallFits(calls[c], n);
    }
  }

  lemma StepKeepsCalls(s: State, e: Event)
    requires FlightsInOrder(s.now, s.refreshPromise, s.flights) && CallsFit(s.calls, |s.flights|) && Enabled(s, e)
    ensures CallsFit(Step(s, e).calls, |Step(s, e).flights|)
  {
    match e
    case DataReply(c, reply) => ReplyKeepsCalls(s, c, reply);
    case SocketAuthError(k) =>
      JoinKeepsFlights(s);
      MoreFlights(s.calls, |s.flights|, |Join(s).0.flights|);
    case DataUnreachable(c) => assert CallFits(s.calls[c], |s.flights|);
    case CallResumes(c, _, _) => assert CallFits(s.calls[c], |s.flights|);
    case _ =>
  }

  lemma StepKeepsSockets(s: State, e: Event)
    requires FlightsInOrder(s.now, s.refreshPromise, s.flights) && SocketsFit(s.sockets, |s.flights|) && Enabled(s, e)
    ensures SocketsFit(Step(s, e).sockets, |Step(s, e).flights|)
  {
    match e
    case DataReply(c, reply) => JoinKeepsFlights(s);
    case SocketAuthError(k) => JoinKeepsFlights(s);
    case _ =>
  }

  lemma StepKeepsDeliveries(s: State, e: Event)
    requires DeliveriesFit(s.delivered, s.flights) && Enabled(s, e)
    ensures DeliveriesFit(Step(s, e).delivered, Step(s, e).flights)
  {
    StepGrowsFlights(s, e);
  }

  lemma StepKeepsConsistent(s: State, e: Event)
    requires Consistent(s) && Enabled(s, e)
    ensures Consistent(Step(s, e))
  {
    StepKeepsFlights(s, e);
    StepKeepsCalls(s, e);
    StepKeepsSockets(s, e);
    StepKeepsDeliveries(s, e);
  }

  lemma {:induction false} RunsKeepConsistent(a: Auth, events: seq<Event>, t: State)
    requires Runs(Initial(a), events, t)
    ensures Consistent(t)
    decreases |events|
  {
    if events != [] {
      var before, e := events[..|events| - 1], events[|events| - 1];
      var m: State :| Runs(Initial(a), before, m) && Enabled(m, e) && t == Step(m, e);
      RunsKeepConsistent(a, before, m);
      StepKeepsConsistent(m, e);
    }
  }

  // ----- What every run guarantees

  /** A flight that is still shared: its request is outstanding or its clear timer is pending. */
  predicate Live(f: Flight) {
    !f.timerFired
  }

  /**
   Single flight: in every reachable state at most one refresh is outstanding or
   cooling down; the promise variable names exactly that one; and every flight
   starts at least the debounce time after each earlier one settled.
   */
  lemma SingleFlight(a: Auth, events: seq<Event>, t: State)
    requires Runs(Initial(a), events, t)
    ensures forall f, g :: 0 <= f < |t.flights| && 0 <= g < |t.flights| && Live(t.flights[f]) && Live(t.flights[g]) ==> f == g
    ensures forall f :: 0 <= f < |t.flights| ==> (Live(t.flights[f]) <==> t.refreshPromise == Some(f))
    ensures t.refreshPromise.Some? ==> t.refreshPromise.value < |t.flights|
    ensures forall f, g :: 0 <= f < g < |t.flights| ==>
      t.flights[f].outcome.Some? && t.flights[f].outcome.value.at + 500 <= t.flights[g].startedAt
  {
    RunsKeepConsistent(a, events, t);
  }

  /** A timer only ever clears the promise of its own flight. */
  lemma TimerClearsItsOwnFlight(a: Auth, events: seq<Event>, t: State, f: nat)
    requires Runs(Initial(a), events, t) && Enabled(t, TimerFires(f))
    ensures t.refreshPromise == Some(f)
  {
    RunsKeepConsistent(a, events, t);
  }

  /** All callers that waited for one flight, calls and sockets alike, got the same value. */
  lemma OneValuePerFlight(a: Auth, events: seq<Event>, t: State, d: nat, e: nat)
    requires Runs(Initial(a), events, t)
    requires d < |t.delivered| && e < |t.delivered| && t.delivered[d].0 == t.delivered[e].0
    ensures t.delivered[d].1 == t.delivered[e].1
  {
    RunsKeepConsistent(a, events, t);
  }

  /** A call sends at most two data requests, asks for at most one refresh, and none for an auth endpoint. */
  lemma CallsAreBounded(a: Auth, events: seq<Event>, t: State, c: nat)
    requires Runs(Initial(a), events, t) && c < |t.calls|
    ensures t.calls[c].requests <= 2 && t.calls[c].refreshes <= 1
    ensures t.calls[c].requests == 2 ==> t.calls[c].retry && Truthy(t.calls[c].token)
    ensures IsAuthEndpoint(t.calls[c].path) ==> t.calls[c].refreshes == 0
  {
    RunsKeepConsistent(a, events, t);
    assert CallFits(t.calls[c], |t.flights|);
  }

  /** Steps left until the call is done. */
  function StepsLeft(c: Call): nat {
    match c.phase
    case Requesting => if c.retry then 1 else 3
    case Awaiting(_, _) => 2
    case Done(_) => 0
  }

  /** The call an event belongs to. */
  function CallOf(e: Event): Option<nat> {
    match e
    case DataReply(c, _) => Some(c)
    case DataUnreachable(c) => Some(c)
    case CallResumes(c, _, _) => Some(c)
    case _ => None
  }

  /** Every event of a call brings that call closer to its end, and touches no other call. */
  lemma CallsProgress(s: State, e: Event)
    requires Enabled(s, e)
    ensures var t := Step(s, e);
      && |s.calls| <= |t.calls|
      && forall c :: 0 <= c < |s.calls| ==>
           if CallOf(e) == Some(c) then StepsLeft(t.calls[c]) < StepsLeft(s.calls[c]) else t.calls[c] == s.calls[c]
  {
  }

  /** No call is ever stuck: it is done, or its own next event or the settling of its flight can happen. */
  lemma NoCallIsStuck(a: Auth, events: seq<Event>, t: State, c: nat, reply: Reply, outcome: RefreshReply)
    requires Runs(Initial(a), events, t) && c < |t.calls|
    ensures match t.calls[c].phase
      case Done(_) => true
      case Requesting => Enabled(t, DataReply(c, reply))
      case Awaiting(f, _) => Enabled(t, CallResumes(c, false, 2)) || Enabled(t, RefreshSettles(f, outcome, 2))
  {
    RunsKeepConsistent(a, events, t);
    assert CallFits(t.calls[c], |t.flights|);
  }

  /** Pages never store an empty token. */
  predicate GivesUsableTokens(e: Event) {
    e.UserAction? && e.setter.GivesToken() ==> e.setter.token != ""
  }

  /** The protocol itself never breaks the flag: it agrees with the token in every reachable state. */
  lemma {:induction false} FlagAlwaysAgrees(a: Auth, events: seq<Event>, t: State)
    requires Runs(Initial(a), events, t) && FlagAgrees(a)
    requires forall k :: 0 <= k < |events| ==> GivesUsableTokens(events[k])
    ensures FlagAgrees(t.auth)
    decreases |events|
  {
    if events != [] {
      var before, e := events[..|events| - 1], events[|events| - 1];
      var m: State :| Runs(Initial(a), before, m) && Enabled(m, e) && t == Step(m, e);
      FlagAlwaysAgrees(a, before, m);
      StepKeepsFlag(m, e);
    }
  }

  lemma StepKeepsFlag(s: State, e: Event)
    requires Enabled(s, e) && GivesUsableTokens(e) && FlagAgrees(s.auth)
    ensures FlagAgrees(Step(s, e).auth)
  {
  }

  /** Every storage call that the event makes succeeds. */
  predicate StorageWorks(e: Event) {
    match e
    case RefreshSettles(_, _, storageCalls) => storageCalls >= 2
    case CallResumes(_, _, storageCalls) => storageCalls >= 2
    case SocketResumes(_, storageCalls) => storageCalls >= 2
    case UserAction(setter) => setter.calls >= setter.StorageCalls()
    case _ => true
  }

  /** In runs whose storage works, storage mirrors memory in every reachable state, so a page load restores the session. */
  lemma {:induction false} StorageAlwaysMirrors(a: Auth, events: seq<Event>, t: State)
    requires Runs(Initial(a), events, t) && Mirrored(a)
    requires forall k :: 0 <= k < |events| ==> StorageWorks(events[k])
    ensures Mirrored(t.auth)
    ensures FlagAgrees(t.auth) ==> Loaded(t.auth.storedToken, t.auth.storedUser, true) == t.auth
    decreases |events|
  {
    if events != [] {
      var before, e := events[..|events| - 1], events[|events| - 1];
      var m: State :| Runs(Initial(a), before, m) && Enabled(m, e) && t == Step(m, e);
      StorageAlwaysMirrors(a, before, m);
      StepKeepsMirror(m, e);
    }
  }

  lemma StepKeepsMirror(s: State, e: Event)
    requires Enabled(s, e) && StorageWorks(e) && Mirrored(s.auth)
    ensures Mirrored(Step(s, e).auth)
  {
  }

  lemma ClientKeeps(s: State, e: Event)
    requires Enabled(s, e)
    ensures Consistent(s) ==> Consistent(Step(s, e))
  {
    if Consistent(s) {
      StepKeepsConsistent(s, e);
    }
  }

  // ----- The client, in the source's form

  class Client {
    var now: nat
    var refreshPromise: Option<nat>
    var flights: seq<Flight>
    var calls: seq<Call>
    var sockets: seq<Socket>
    ghost var delivered: seq<(nat, Option<Token>)>
    const store: AuthStore

    ghost function Snapshot(): State
      reads this, store
    {
      State(now, refreshPromise, flights, calls, sockets, store.State(), delivered)
    }

    constructor (store: AuthStore)
      ensures Snapshot() == Initial(store.State()) && this.store == store
      ensures Consistent(Snapshot())
    {
      now, refreshPromise, flights, calls, sockets, delivered := 0, None, [], [], [], [];
      this.store := store;
    }

    /** Returns the shared promise, starting a request when there is none. */
    method RefreshAccessToken() returns (flight: nat)
      modifies this
      ensures (Snapshot(), flight) == Join(old(Snapshot()))
    {
      if refreshPromise.Some? {
        return refreshPromise.value;
      }
      flight := |flights|;
      flights := flights + [Flight(now, None, false)];
      refreshPromise := Some(flight);
    }

    /** The request's own continuation, up to arming the timer. */
    method OnRefreshReply(flight: nat, reply: RefreshReply, storageCalls: nat)
      requires Enabled(Snapshot(), RefreshSettles(flight, reply, storageCalls))
      modifies this, store
      ensures Snapshot() == Step(old(Snapshot()), RefreshSettles(flight, reply, storageCalls))
      ensures Consistent(old(Snapshot())) ==> Consistent(Snapshot())
    {
      ghost var before := Snapshot();
      var value := None;
      if reply.Answered? {
        if 200 <= reply.status < 300 && Truthy(reply.accessToken) {
          store.SetToken(reply.accessToken.value, storageCalls);
          value := reply.accessToken;
        } else if reply.status == 401 || reply.status == 403 {
          store.ClearAuth(storageCalls);
        }
      }
      flights := flights[flight := flights[flight].(outcome := Some(Settled(value, now)))];
      ClientKeeps(before, RefreshSettles(flight, reply, storageCalls));
    }

    method OnTimer(flight: nat)
      requires Enabled(Snapshot(), TimerFires(flight))
      modifies this
      ensures Snapshot() == Step(old(Snapshot()), TimerFires(flight))
      ensures Consistent(old(Snapshot())) ==> Consistent(Snapshot())
    {
      ghost var before := Snapshot();
      refreshPromise := None;
      flights := flights[flight := flights[flight].(timerFired := true)];
      ClientKeeps(before, TimerFires(flight));
    }

    /** `apiFetch` up to its request; without a token option the stored token is used. */
    method ApiFetch(path: string, token: Option<Option<Token>>) returns (call: nat)
      modifies this
      ensures call == |old(calls)|
      ensures Snapshot() == Step(old(Snapshot()), Fetch(path, token))
      ensures Consistent(old(Snapshot())) ==> Consistent(Snapshot())
    {
      ghost var before := Snapshot();
      call := |calls|;
      var used := if token.Some? then token.value else store.token;
      calls := calls + [Call(path, used, false, Requesting, 1, 0)];
      ClientKeeps(before, Fetch(path, token));
    }

    method OnDataReply(c: nat, reply: Reply)
      requires Enabled(Snapshot(), DataReply(c, reply))
      modifies this
      ensures Snapshot() == Step(old(Snapshot()), DataReply(c, reply))
      ensures Consistent(old(Snapshot())) ==> Consistent(Snapshot())
    {
      ghost var before := Snapshot();
      var result := Classify(reply);
      var call := calls[c];
      if WantsRefresh(call, reply.status, result) {
        var flight := RefreshAccessToken();
        calls := calls[c := call.(phase := Awaiting(flight, result), refreshes := call.refreshes + 1)];
      } else {
        calls := calls[c := call.(phase := Done(result))];
      }
      assert Snapshot() == Step(before, DataReply(c, reply));
      ClientKeeps(before, DataReply(c, reply));
    }

    method OnDataUnreachable(c: nat)
      requires Enabled(Snapshot(), DataUnreachable(c))
      modifies this
      ensures Snapshot() == Step(old(Snapshot()), DataUnreachable(c))
      ensures Consistent(old(Snapshot())) ==> Consistent(Snapshot())
    {
      ghost var before := Snapshot();
      calls := calls[c := calls[c].(phase := Done(Result(false, Some("NETWORK_ERROR"))))];
      ClientKeeps(before, DataUnreachable(c));
    }

    /** The call's continuation after the refresh: one retry, or giving up with the first failure. */
    method OnCallRefreshed(c: nat, publicPage: bool, storageCalls: nat)
      requires Enabled(Snapshot(), CallResumes(c, publicPage, storageCalls))
      modifies this, store
      ensures Snapshot() == Step(old(Snapshot()), CallResumes(c, publicPage, storageCalls))
      ensures Consistent(old(Snapshot())) ==> Consistent(Snapshot())
    {
      ghost var before := Snapshot();
      var call := calls[c];
      var freshToken := flights[call.phase.flight].outcome.value.value;
      delivered := delivered + [(call.phase.flight, freshToken)];
      if Truthy(freshToken) {
        calls := calls[c := call.(token := freshToken, retry := true, phase := Requesting, requests := call.requests + 1)];
      } else {
        if !publicPage {
          store.ClearAuth(storageCalls);
        }
        calls := calls[c := call.(phase := Done(call.phase.failure))];
      }
      ClientKeeps(before, CallResumes(c, publicPage, storageCalls));
    }

    /** `handleAuthError` of a socket, up to its await. */
    method OnSocketAuthError(k: nat)
      requires Enabled(Snapshot(), SocketAuthError(k))
      modifies this
      ensures Snapshot() == Step(old(Snapshot()), SocketAuthError(k))
      ensures Consistent(old(Snapshot())) ==> Consistent(Snapshot())
    {
      ghost var before := Snapshot();
      ClientKeeps(before, SocketAuthError(k));
      if sockets[k].refreshing.Some? {
        return;
      }
      var flight := RefreshAccessToken();
      sockets := sockets[k := sockets[k].(refreshing := Some(flight))];
    }

    method OnSocketRefreshed(k: nat, storageCalls: nat)
      requires Enabled(Snapshot(), SocketResumes(k, storageCalls))
      modifies this, store
      ensures Snapshot() == Step(old(Snapshot()), SocketResumes(k, storageCalls))
      ensures Consistent(old(Snapshot())) ==> Consistent(Snapshot())
    {
      ghost var before := Snapshot();
      var flight := sockets[k].refreshing.value;
      var freshToken := flights[flight].outcome.value.value;
      delivered := delivered + [(flight, freshToken)];
      if Truthy(freshToken) {
        sockets := sockets[k := Socket(freshToken, None)];
      } else {
        store.ClearAuth(storageCalls);
        sockets := sockets[k := Socket(sockets[k].token, None)];
      }
      ClientKeeps(before, SocketResumes(k, storageCalls));
    }
  }
}
