/**
 When a call asks for a new token: the state of a call against the events it has seen. Every statement names the token
 the call was started with and the replies it got.
 */
module SessionHistory {
  import opened Options
  import opened AuthStores
  import opened Session
  import RetryQueue

  // ----- Replies and paths

  const AUTH_PATHS: set<string> := {"/auth/refresh", "/auth/login", "/auth/register", "/auth/logout"}

  const AUTH_CODES: set<string> := {"TOKEN_EXPIRED", "TOKEN_INVALID", "TOKEN_REVOKED", "UNAUTHORIZED"}

  predicate At(s: string, w: string, i: nat) {
    i + |w| <= |s| && s[i..i + |w|] == w
  }

  ghost predicate Holds(s: string, w: string) {
    exists i: nat :: At(s, w, i)
  }

  lemma {:induction false} IncludesIff(s: string, w: string)
    ensures Includes(s, w) <==> Holds(s, w)
  {
    assert At(s, w, 0) <==> |w| <= |s| && s[..|w|] == w;
    if s != "" && !At(s, w, 0) {
      IncludesIff(s[1..], w);
      AtTail(s, w);
    }
  }

  lemma AtTail(s: string, w: string)
    requires s != "" && !At(s, w, 0)
    ensures Holds(s, w) <==> Holds(s[1..], w)
  {
    if Holds(s, w) {
      var i: nat :| At(s, w, i);
      assert s[1..][i - 1..i - 1 + |w|] == s[i..i + |w|];
      assert At(s[1..], w, i - 1);
    }
    if Holds(s[1..], w) {
      var i: nat :| At(s[1..], w, i);
      assert s[1..][i..i + |w|] == s[i + 1..i + 1 + |w|];
      assert At(s, w, i + 1);
    }
  }

  ghost predicate OnAuthPath(path: string) {
    exists w :: w in AUTH_PATHS && Holds(path, w)
  }

  lemma AuthPathIff(path: string)
    ensures IsAuthEndpoint(path) <==> OnAuthPath(path)
  {
    forall w {
      IncludesIff(path, w);
    }
  }

  /** A 401, or one of the four codes. */
  predicate AuthFailure(r: Reply) {
    r.status == 401 || (Classify(r).code.Some? && Classify(r).code.value in AUTH_CODES)
  }

  predicate NonEmpty(code: Option<string>) {
    code.Some? && code.value != ""
  }

  lemma FirstOfThree(a: Option<string>, b: Option<string>, c: Option<string>, otherwise: string)
    ensures Some(FirstCode([a, b, c], otherwise)) ==
      if NonEmpty(a) then a else if NonEmpty(b) then b else if NonEmpty(c) then c else Some(otherwise)
  {
    assert [a, b, c][1..] == [b, c] && [b, c][1..] == [c] && [c][1..] == [];
    assert FirstCode([c], otherwise) == if NonEmpty(c) then c.value else otherwise;
    assert FirstCode([b, c], otherwise) == if NonEmpty(b) then b.value else FirstCode([c], otherwise);
  }

  /** The status in a code is its decimal number. */
  lemma {:induction false} DigitsAreDecimal(n: nat)
    ensures Digits(n) == RetryQueue.Decimal(n) && RetryQueue.Value(Digits(n)) == Some(n)
  {
    RetryQueue.ValueOfDecimal(n);
    if n >= 10 {
      DigitsAreDecimal(n / 10);
    }
    assert ["0123456789"[n % 10]] == [RetryQueue.Digit(n % 10)];
  }

  /** What a reply's body comes to: an envelope as it is, success by the status, or the first code that is not empty. */
  lemma ClassifyIs(r: Reply)
    ensures r.body.Envelope? ==> Classify(r) == Result(r.body.success, r.body.code)
    ensures !r.body.Envelope? && 200 <= r.status < 300 ==> Classify(r) == Result(true, None)
    ensures !r.body.Envelope? && !(200 <= r.status < 300) ==> !Classify(r).success && Classify(r).code.Some?
    ensures r.body.Other? && !(200 <= r.status < 300) ==>
      var code := Classify(r).code;
      if NonEmpty(r.body.nestedCode) then code == r.body.nestedCode
      else if NonEmpty(r.body.code) then code == r.body.code
      else if NonEmpty(r.body.error) then code == r.body.error
      else code == Some("HTTP_" + Digits(r.status))
    ensures r.body.NoJson? && !(200 <= r.status < 300) ==> Classify(r).code == Some("HTTP_" + Digits(r.status))
  {
    if r.body.Other? {
      FirstOfThree(r.body.nestedCode, r.body.code, r.body.error, StatusCode(r.status));
    }
  }

  // ----- What a call has seen

  function FirstReply(events: seq<Event>, c: nat): Option<Reply> {
    if events == [] then None
    else
      var earlier, e := FirstReply(events[..|events| - 1], c), events[|events| - 1];
      if earlier.None? && e.DataReply? && e.call == c then Some(e.reply) else earlier
  }

  function LastReply(events: seq<Event>, c: nat): Option<Reply> {
    if events == [] then None
    else
      var e := events[|events| - 1];
      if e.DataReply? && e.call == c then Some(e.reply) else LastReply(events[..|events| - 1], c)
  }

  /** The k-th event of the run, which happens in state m. */
  ghost predicate Happens(a: Auth, events: seq<Event>, k: nat, m: State, e: Event) {
    k < |events| && events[k] == e && Runs(Initial(a), events[..k], m)
  }

  ghost predicate StartsCall(m: State, e: Event, c: nat, path: string, token: Option<Token>) {
    |m.calls| == c && e.Fetch? && e.path == path && token == if e.token.Some? then e.token.value else m.auth.token
  }

  /** Call c was started for this path, with this token: the one given, or the stored one. */
  ghost predicate Started(a: Auth, events: seq<Event>, c: nat, path: string, token: Option<Token>) {
    exists k: nat, m: State, e: Event :: Happens(a, events, k, m, e) && StartsCall(m, e, c, path, token)
  }

  /** Call c goes on after its refresh, which gave it no token. */
  ghost predicate GetsNothing(m: State, e: Event, c: nat) {
    && e.CallResumes? && e.call == c && Enabled(m, e)
    && !Truthy(m.flights[m.calls[c].phase.flight].outcome.value.value)
  }

  ghost predicate GaveUp(a: Auth, events: seq<Event>, c: nat) {
    exists k: nat, m: State, e: Event :: Happens(a, events, k, m, e) && GetsNothing(m, e, c)
  }

  lemma HappensStill(a: Auth, before: seq<Event>, last: Event, k: nat, m: State, e: Event)
    requires Happens(a, before, k, m, e)
    ensures Happens(a, before + [last], k, m, e)
  {
    assert (before + [last])[..k] == before[..k];
  }

  lemma HappensNow(a: Auth, before: seq<Event>, m: State, last: Event)
    requires Runs(Initial(a), before, m)
    ensures Happens(a, before + [last], |before|, m, last)
  {
    assert (before + [last])[..|before|] == before;
  }

  lemma OneEventMore(events: seq<Event>, last: Event, c: nat)
    ensures FirstReply(events + [last], c) ==
      if FirstReply(events, c).None? && last.DataReply? && last.call == c then Some(last.reply) else FirstReply(events, c)
    ensures LastReply(events + [last], c) ==
      if last.DataReply? && last.call == c then Some(last.reply) else LastReply(events, c)
  {
    assert (events + [last])[..|events|] == events;
  }

  // ----- The call's state follows from them

  ghost predicate AsksFor(first: Option<Reply>, path: string, token: Option<Token>) {
    first.Some? && AuthFailure(first.value) && Truthy(token) && !OnAuthPath(path)
  }

  /** The call's counters and phase, told by its first and last reply and its token. */
  ghost predicate Fits(call: Call, first: Option<Reply>, last: Option<Reply>, token: Option<Token>, gaveUp: bool) {
    && (!call.retry ==> call.token == token)
    && call.refreshes == (if AsksFor(first, call.path, token) then 1 else 0)
    && (call.retry ==> call.refreshes == 1)
    && match call.phase
       case Requesting => if call.retry then last == first else first.None? && last.None?
       case Awaiting(_, failure) => call.refreshes == 1 && !call.retry && last == first && failure == Classify(first.value)
       case Done(result) =>
         && (result == Result(false, Some("NETWORK_ERROR")) || (last.Some? && result == Classify(last.value)))
         && (!call.retry ==> last == first && (call.refreshes == 1 ==> gaveUp))
  }

  ghost predicate Told(a: Auth, events: seq<Event>, call: Call, c: nat, token: Option<Token>) {
    && Started(a, events, c, call.path, token)
    && Fits(call, FirstReply(events, c), LastReply(events, c), token, GaveUp(a, events, c))
  }

  /** An event of another call. */
  lemma OthersStay(a: Auth, before: seq<Event>, last: Event, call: Call, c: nat, token: Option<Token>)
    requires Told(a, before, call, c, token) && CallOf(last) != Some(c)
    ensures Told(a, before + [last], call, c, token)
  {
    StartedStill(a, before, last, c, call.path, token);
    OneEventMore(before, last, c);
    if GaveUp(a, before, c) {
      GaveUpStill(a, before, last, c);
    }
  }

  lemma StartedStill(a: Auth, before: seq<Event>, last: Event, c: nat, path: string, token: Option<Token>)
    requires Started(a, before, c, path, token)
    ensures Started(a, before + [last], c, path, token)
  {
    var k: nat, m: State, e: Event :| Happens(a, before, k, m, e) && StartsCall(m, e, c, path, token);
    HappensStill(a, before, last, k, m, e);
  }

  lemma GaveUpStill(a: Auth, before: seq<Event>, last: Event, c: nat)
    requires GaveUp(a, before, c)
    ensures GaveUp(a, before + [last], c)
  {
    var k: nat, m: State, e: Event :| Happens(a, before, k, m, e) && GetsNothing(m, e, c);
    HappensStill(a, before, last, k, m, e);
  }

  lemma FitsMore(call: Call, first: Option<Reply>, last: Option<Reply>, token: Option<Token>, before: bool, after: bool)
    requires Fits(call, first, last, token, before) && (before ==> after)
    ensures Fits(call, first, last, token, after)
  {
  }

  lemma ReplyFits(call: Call, first: Option<Reply>, last: Option<Reply>, token: Option<Token>, gaveUp: bool, reply: Reply, f: nat)
    requires Fits(call, first, last, token, gaveUp) && call.phase.Requesting?
    ensures var result := Classify(reply);
      Fits(if WantsRefresh(call, reply.status, result) then call.(phase := Awaiting(f, result), refreshes := call.refreshes + 1)
           else call.(phase := Done(result)),
           if first.None? then Some(reply) else first, Some(reply), token, gaveUp)
  {
    AuthPathIff(call.path);
  }

  /** The call's own reply. */
  lemma OwnReply(a: Auth, before: seq<Event>, m: State, c: nat, reply: Reply, token: Option<Token>)
    requires Enabled(m, DataReply(c, reply)) && Told(a, before, m.calls[c], c, token)
    ensures Told(a, before + [DataReply(c, reply)], Step(m, DataReply(c, reply)).calls[c], c, token)
  {
    var call, e := m.calls[c], DataReply(c, reply);
    StartedStill(a, before, e, c, call.path, token);
    OneEventMore(before, e, c);
    ReplyFits(call, FirstReply(before, c), LastReply(before, c), token, GaveUp(a, before, c), reply, Join(m).1);
    if GaveUp(a, before, c) {
      GaveUpStill(a, before, e, c);
    }
    FitsMore(Step(m, e).calls[c], FirstReply(before + [e], c), LastReply(before + [e], c), token,
             GaveUp(a, before, c), GaveUp(a, before + [e], c));
  }

  /** The call's request fails, or its refresh is over. */
  lemma OwnOther(a: Auth, before: seq<Event>, m: State, c: nat, e: Event, token: Option<Token>)
    requires Runs(Initial(a), before, m) && Enabled(m, e) && CallOf(e) == Some(c) && !e.DataReply?
    requires Told(a, before, m.calls[c], c, token)
    ensures Told(a, before + [e], Step(m, e).calls[c], c, token)
  {
    StartedStill(a, before, e, c, m.calls[c].path, token);
    OneEventMore(before, e, c);
    if GaveUp(a, before, c) {
      GaveUpStill(a, before, e, c);
    }
    if GetsNothing(m, e, c) {
      HappensNow(a, before, m, e);
    }
  }

  lemma {:induction false} NoReplyYet(a: Auth, events: seq<Event>, t: State, c: nat)
    requires Runs(Initial(a), events, t) && c >= |t.calls|
    ensures FirstReply(events, c) == None && LastReply(events, c) == None
    decreases |events|
  {
    if events != [] {
      var before, e := events[..|events| - 1], events[|events| - 1];
      var m: State :| Runs(Initial(a), before, m) && Enabled(m, e) && t == Step(m, e);
      CallsProgress(m, e);
      NoReplyYet(a, before, m, c);
    }
  }

  lemma NewCall(a: Auth, before: seq<Event>, m: State, e: Event) returns (token: Option<Token>)
    requires Runs(Initial(a), before, m) && e.Fetch?
    ensures Told(a, before + [e], Step(m, e).calls[|m.calls|], |m.calls|, token)
  {
    token := if e.token.Some? then e.token.value else m.auth.token;
    HappensNow(a, before, m, e);
    NoReplyYet(a, before, m, |m.calls|);
    OneEventMore(before, e, |m.calls|);
    assert StartsCall(m, e, |m.calls|, e.path, token);
  }

  /** Every call of every run, by induction over the run. */
  lemma {:induction false} RunTells(a: Auth, events: seq<Event>, t: State, c: nat) returns (token: Option<Token>)
    requires Runs(Initial(a), events, t) && c < |t.calls|
    ensures Told(a, events, t.calls[c], c, token)
    decreases |events|
  {
    var before, e := events[..|events| - 1], events[|events| - 1];
    var m: State :| Runs(Initial(a), before, m) && Enabled(m, e) && t == Step(m, e);
    assert events == before + [e];
    CallsProgress(m, e);
    if c < |m.calls| {
      token := RunTells(a, before, m, c);
      if CallOf(e) != Some(c) {
        OthersStay(a, before, e, m.calls[c], c, token);
      } else if e.DataReply? {
        OwnReply(a, before, m, c, e.reply, token);
      } else {
        OwnOther(a, before, m, c, e, token);
      }
    } else {
      token := NewCall(a, before, m, e);
    }
  }

  // ----- What every run guarantees

  /**
   A call asks for a refresh exactly when its first reply is a 401 or one of the four codes, it was started with a token
   that is not empty, and its path holds none of the four auth paths.
   */
  lemma RefreshAskedIff(a: Auth, events: seq<Event>, t: State, c: nat) returns (token: Option<Token>)
    requires Runs(Initial(a), events, t) && c < |t.calls|
    ensures Started(a, events, c, t.calls[c].path, token)
    ensures t.calls[c].refreshes > 0 <==>
      && FirstReply(events, c).Some? && AuthFailure(FirstReply(events, c).value)
      && token.Some? && token.value != "" && !OnAuthPath(t.calls[c].path)
  {
    token := RunTells(a, events, t, c);
  }

  /**
   A call that ends after such a reply had no token to start with, or an auth path, or has used its retry, or its refresh
   gave it no token.
   */
  lemma EndedOnAuthFailure(a: Auth, events: seq<Event>, t: State, c: nat) returns (token: Option<Token>)
    requires Runs(Initial(a), events, t) && c < |t.calls| && t.calls[c].phase.Done?
    requires LastReply(events, c).Some? && AuthFailure(LastReply(events, c).value)
    ensures Started(a, events, c, t.calls[c].path, token)
    ensures token.None? || token.value == "" || OnAuthPath(t.calls[c].path) || t.calls[c].retry || GaveUp(a, events, c)
  {
    token := RunTells(a, events, t, c);
  }

  /** A call that waits got such a reply to its first request, and keeps what it says for the case that the refresh fails. */
  lemma WaitsOnAuthFailure(a: Auth, events: seq<Event>, t: State, c: nat)
    requires Runs(Initial(a), events, t) && c < |t.calls| && t.calls[c].phase.Awaiting?
    ensures FirstReply(events, c).Some? && AuthFailure(FirstReply(events, c).value)
    ensures LastReply(events, c) == FirstReply(events, c)
    ensures t.calls[c].phase.failure == Classify(FirstReply(events, c).value) && !t.calls[c].retry
  {
    var token := RunTells(a, events, t, c);
  }

  /** What a call ends with: its last reply's result, or that there was no connection. */
  lemma EndsWithLastReply(a: Auth, events: seq<Event>, t: State, c: nat)
    requires Runs(Initial(a), events, t) && c < |t.calls| && t.calls[c].phase.Done?
    ensures var result := t.calls[c].phase.result;
      || result == Result(false, Some("NETWORK_ERROR"))
      || (LastReply(events, c).Some? && result == Classify(LastReply(events, c).value))
  {
    var token := RunTells(a, events, t, c);
  }

  // ----- What the answers do to the session

  /** A refresh request's answer: a new token is kept and shared, a 401 or 403 empties the session, anything else keeps it. */
  lemma RefreshAnswerIs(s: State, f: nat, reply: RefreshReply, storageCalls: nat)
    requires Enabled(s, RefreshSettles(f, reply, storageCalls))
    ensures var t := Step(s, RefreshSettles(f, reply, storageCalls));
      var renewed := reply.Answered? && 200 <= reply.status < 300 && reply.accessToken.Some? && reply.accessToken.value != "";
      && t.flights[f].outcome == Some(Settled(if renewed then reply.accessToken else None, s.now))
      && t.auth.user == (if !renewed && reply.Answered? && reply.status in {401, 403} then None else s.auth.user)
      && t.auth.token == (if renewed then reply.accessToken
                          else if reply.Answered? && reply.status in {401, 403} then None else s.auth.token)
      && t.calls == s.calls && t.sockets == s.sockets
  {
  }

  /** The token a call retries with is one that a flight delivered. */
  ghost predicate FromFlights(s: State) {
    forall c :: 0 <= c < |s.calls| && s.calls[c].retry ==>
      exists d :: 0 <= d < |s.delivered| && s.delivered[d].1 == s.calls[c].token
  }

  lemma StepKeepsFromFlights(s: State, e: Event)
    requires Enabled(s, e) && FromFlights(s)
    ensures FromFlights(Step(s, e))
  {
    var t := Step(s, e);
    forall c | 0 <= c < |t.calls| && t.calls[c].retry
      ensures exists d :: 0 <= d < |t.delivered| && t.delivered[d].1 == t.calls[c].token
    {
      if c < |s.calls| && s.calls[c].retry && t.calls[c].token == s.calls[c].token {
        var d :| 0 <= d < |s.delivered| && s.delivered[d].1 == s.calls[c].token;
        assert t.delivered[d] == s.delivered[d];
      } else {
        assert t.delivered[|t.delivered| - 1].1 == t.calls[c].token;
      }
    }
  }

  /** A call's retry uses a token that a refresh gave in this very run. */
  lemma {:induction false} RetriesWithDelivered(a: Auth, events: seq<Event>, t: State)
    requires Runs(Initial(a), events, t)
    ensures FromFlights(t)
    decreases |events|
  {
    if events != [] {
      var before, e := events[..|events| - 1], events[|events| - 1];
      var m: State :| Runs(Initial(a), before, m) && Enabled(m, e) && t == Step(m, e);
      RetriesWithDelivered(a, before, m);
      StepKeepsFromFlights(m, e);
    }
  }

  /** A call or socket whose refresh gave nothing empties the session, a call only away from the public pages. */
  lemma NothingDelivered(s: State, e: Event)
    requires Enabled(s, e) && (e.CallResumes? || e.SocketResumes?)
    ensures var f := if e.CallResumes? then s.calls[e.call].phase.flight else s.sockets[e.socket].refreshing.value;
      var value := s.flights[f].outcome.value.value;
      var lost := (value.None? || value.value == "") && (e.CallResumes? ==> !e.publicPage);
      && Step(s, e).auth.token == (if lost then None else s.auth.token)
      && Step(s, e).auth.user == (if lost then None else s.auth.user)
      && Step(s, e).flights == s.flights
      && (e.SocketResumes? ==>
            Step(s, e).sockets[e.socket] ==
            Socket(if value.Some? && value.value != "" then value else s.sockets[e.socket].token, None))
  {
  }
}
