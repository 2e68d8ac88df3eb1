/**
 * The email-verification guard: a positive cache in Redis in front of the database flag.
 *
 * Checks take three separate steps (cache read, database lookup, cache write), so the runs interleave any number
 * of them with sign-ups, verifications, deletions and the passing of time.
 */
module EmailGuard {
  import opened Options
  import opened RedisStore

  type UserId = string
  /** The users that exist and their `isEmailVerified` flags. */
  type Users = map<UserId, bool>

  const PREFIX: string := "email_verified:"
  const TTL: Seconds := 300
  const READ_ONLY_METHODS: set<string> := {"GET", "HEAD", "OPTIONS"}

  function Key(u: UserId): string {
    PREFIX + u
  }

  /** The uncached answer. */
  predicate Verified(users: Users, u: UserId) {
    u in users && users[u]
  }

  predicate Cached(store: Store, u: UserId, now: int) {
    Fetch(store, Key(u), now) == Some("1")
  }

  // ---- One request ----

  datatype Claims = Claims(sub: UserId, isEmailVerified: bool)
  datatype Request = Request(skip: bool, user: Option<Claims>, verb: string)
  datatype Outcome = Allowed | EmailNotVerified | LookupFailed

  /** What the guard lets through without asking anyone: marked endpoints, no user, a verified claim, read-only requests. */
  predicate Exempt(r: Request) {
    r.skip || r.user.None? || r.user.value.sub == "" || r.user.value.isEmailVerified || r.verb in READ_ONLY_METHODS
  }

  /** The soft gate as documented, with the database as the only authority. */
  function Policy(r: Request, users: Users): Outcome {
    if Exempt(r) || Verified(users, r.user.value.sub) then Allowed else EmailNotVerified
  }

  /** The one request the gate turns away: it may write, and its user is known, claims nothing and is not verified. */
  lemma TurnsAwayIff(r: Request, users: Users)
    ensures Policy(r, users) == EmailNotVerified <==>
      && !r.skip && r.user.Some? && r.user.value.sub != "" && !r.user.value.isEmailVerified
      && r.verb != "GET" && r.verb != "HEAD" && r.verb != "OPTIONS"
      && (r.user.value.sub in users ==> !users[r.user.value.sub])
    ensures Policy(r, users) != LookupFailed
  {
  }

  /** Which of the two Redis calls and the database lookup fail during a check. */
  datatype Faults = Faults(get: bool, find: bool, put: bool)

  /** No live cache entry speaks for a user the database does not call verified. */
  ghost predicate Sound(store: Store, users: Users, now: int) {
    forall u :: Cached(store, u, now) ==> Verified(users, u)
  }

  method IsVerifiedInDb(redis: Redis, users: Users, u: UserId, now: int, faults: Faults) returns (verified: Option<bool>)
    modifies redis
    ensures !faults.get && Cached(old(redis.store), u, now) ==> verified == Some(true) && redis.store == old(redis.store)
    ensures faults.get || !Cached(old(redis.store), u, now) ==>
      && verified == (if faults.find then None else Some(Verified(users, u)))
      && redis.store == if verified == Some(true) && !faults.put then WithEx(old(redis.store), Key(u), "1", TTL, now)
                        else old(redis.store)
  {
    if !faults.get {
      var cached := redis.Get(PREFIX + u, now);
      if cached == Some("1") {
        return Some(true);
      }
    }
    if faults.find {
      return None;
    }
    if !(u in users && users[u]) {
      return Some(false);
    }
    if !faults.put {
      redis.SetEx(PREFIX + u, "1", TTL, now);
    }
    return Some(true);
  }

  /**
   The guard asks only about requests that are not exempt. With a sound cache it decides as the policy does, whatever
   Redis does, and only a failing lookup can fail it; otherwise it departs from the policy exactly when it answers from
   an entry for a user who is not verified.
   */
  method CanActivate(redis: Redis, users: Users, r: Request, now: int, faults: Faults) returns (o: Outcome)
    modifies redis
    ensures Exempt(r) ==> o == Allowed && redis.store == old(redis.store)
    ensures !Exempt(r) ==>
      var fromCache := !faults.get && Cached(old(redis.store), r.user.value.sub, now);
      && (o == LookupFailed <==> !fromCache && faults.find)
      && (o == Policy(r, users) <==> o != LookupFailed && (fromCache ==> Verified(users, r.user.value.sub)))
    ensures Sound(old(redis.store), users, now) ==>
      (o == Policy(r, users) || (o == LookupFailed && faults.find)) && Sound(redis.store, users, now)
  {
    if r.skip {
      return Allowed;
    }
    if r.user == None || r.user.value.sub == "" {
      return Allowed;
    }
    var user := r.user.value;
    if user.isEmailVerified {
      return Allowed;
    }
    if r.verb in READ_ONLY_METHODS {
      return Allowed;
    }
    var verified := IsVerifiedInDb(redis, users, user.sub, now, faults);
    if Sound(old(redis.store), users, now) {
      PutIsSound(old(redis.store), users, user.sub, now, now);
    }
    if verified == None {
      return LookupFailed;
    }
    if verified.value {
      return Allowed;
    }
    return EmailNotVerified;
  }

  lemma PutIsSound(store: Store, users: Users, u: UserId, at: int, now: int)
    requires Sound(store, users, now)
    ensures Verified(users, u) ==> Sound(WithEx(store, Key(u), "1", TTL, at), users, now)
  {
    forall v
      ensures Key(v) == Key(u) ==> v == u
    {
      PrefixedKeysDiffer(PREFIX, v, u);
    }
  }

  // ---- Interleaved checks ----

  datatype Phase = Missed | Found
  datatype Check = Check(user: UserId, phase: Phase)

  datatype State = State(store: Store, now: int, users: Users, checks: map<nat, Check>)

  datatype Event =
    | ReadCache(id: nat, user: UserId, fails: bool)
    | LookUp(id: nat, broken: bool)
    | WriteCache(id: nat, lost: bool)
    | SignUp(user: UserId)
    | Verify(user: UserId)
    | Delete(user: UserId)
    | Tick(ms: nat)

  predicate InPhase(s: State, id: nat, phase: Phase) {
    id in s.checks && s.checks[id].phase == phase
  }

  function Next(s: State, e: Event): State {
    match e
    case ReadCache(id, user, fails) =>
      if id in s.checks || (!fails && Cached(s.store, user, s.now)) then s
      else s.(checks := s.checks[id := Check(user, Missed)])
    case LookUp(id, broken) =>
      if !InPhase(s, id, Missed) then s
      else if broken || !Verified(s.users, s.checks[id].user) then s.(checks := s.checks - {id})
      else s.(checks := s.checks[id := Check(s.checks[id].user, Found)])
    case WriteCache(id, lost) =>
      if !InPhase(s, id, Found) then s
      else s.(checks := s.checks - {id},
              store := if lost then s.store else WithEx(s.store, Key(s.checks[id].user), "1", TTL, s.now))
    case SignUp(user) => if user in s.users then s else s.(users := s.users[user := false])
    case Verify(user) => if user in s.users then s.(users := s.users[user := true]) else s
    case Delete(user) => s.(users := s.users - {user})
    case Tick(ms) => s.(now := s.now + ms)
  }

  datatype Answer = Answer(about: UserId, verified: bool)

  /** The check that ends in this step, and what it returns. */
  function Answered(s: State, e: Event): Option<Answer> {
    match e
    case ReadCache(id, user, fails) =>
      if id !in s.checks && !fails && Cached(s.store, user, s.now) then Some(Answer(user, true)) else None
    case LookUp(id, broken) =>
      if InPhase(s, id, Missed) && !broken && !Verified(s.users, s.checks[id].user) then
        Some(Answer(s.checks[id].user, false))
      else None
    case WriteCache(id, lost) =>
      if InPhase(s, id, Found) then Some(Answer(s.checks[id].user, true)) else None
    case _ => None
  }

  predicate Right(s: State, e: Event) {
    Answered(s, e).None? || Answered(s, e).value.verified == Verified(s.users, Answered(s, e).value.about)
  }

  function Run(s: State, events: seq<Event>): State {
    if events == [] then s else Next(Run(s, events[..|events| - 1]), events[|events| - 1])
  }

  /** The cache, and every check about to write to it, vouch for the user only if the database does. */
  ghost predicate Honest(s: State, u: UserId) {
    && (Cached(s.store, u, s.now) ==> Verified(s.users, u))
    && forall id :: InPhase(s, id, Found) && s.checks[id].user == u ==> Verified(s.users, u)
  }

  /** Every step keeps it except the user's deletion. */
  lemma StepKeeps(s: State, e: Event, u: UserId)
    requires Honest(s, u) && e != Delete(u)
    ensures Honest(Next(s, e), u)
  {
    match e
    case WriteCache(id, lost) =>
      if InPhase(s, id, Found) {
        PrefixedKeysDiffer(PREFIX, u, s.checks[id].user);
      }
    case ReadCache(_, _, _) =>
    case LookUp(_, _) =>
    case SignUp(_) =>
    case Verify(_) =>
    case Delete(_) =>
    case Tick(_) =>
  }

  lemma {:induction false} RunKeeps(s: State, events: seq<Event>, u: UserId)
    requires Honest(s, u) && Delete(u) !in events
    ensures Honest(Run(s, events), u)
  {
    if events != [] {
      var init := events[..|events| - 1];
      RunKeeps(s, init, u);
      StepKeeps(Run(s, init), events[|events| - 1], u);
    }
  }

  /** A check about a user who was never deleted returns what the database says at the moment it returns. */
  lemma CacheNeverChangesTheAnswer(events: seq<Event>, e: Event)
    requires Answered(Run(START, events), e).Some?
    requires Delete(Answered(Run(START, events), e).value.about) !in events
    ensures Right(Run(START, events), e)
  {
    RunKeeps(START, events, Answered(Run(START, events), e).value.about);
  }

  lemma Removed(checks: map<nat, Check>, id: nat, c: Check)
    requires id !in checks
    ensures checks[id := c] - {id} == checks
  {
  }

  lemma MissedThenLooked(s: State, id: nat, u: UserId, broken: bool)
    requires id !in s.checks
    ensures var missed := s.(checks := s.checks[id := Check(u, Missed)]);
      && Next(missed, LookUp(id, broken)) ==
         (if broken || !Verified(s.users, u) then s else s.(checks := s.checks[id := Check(u, Found)]))
      && Answered(missed, LookUp(id, broken)) == (if !broken && !Verified(s.users, u) then Some(Answer(u, false)) else None)
  {
    Removed(s.checks, id, Check(u, Missed));
    assert s.checks[id := Check(u, Missed)][id := Check(u, Found)] == s.checks[id := Check(u, Found)];
  }

  lemma FoundThenWritten(s: State, id: nat, u: UserId, lost: bool)
    requires id !in s.checks
    ensures var found := s.(checks := s.checks[id := Check(u, Found)]);
      && Next(found, WriteCache(id, lost)) == s.(store := if lost then s.store else WithEx(s.store, Key(u), "1", TTL, s.now))
      && Answered(found, WriteCache(id, lost)) == Some(Answer(u, true))
  {
    Removed(s.checks, id, Check(u, Found));
  }

  /** A check that nothing interrupts: what it leaves in the cache and what it returns, step by step. */
  lemma UninterruptedCheck(s: State, id: nat, u: UserId, faults: Faults)
    requires id !in s.checks
    ensures var read := Next(s, ReadCache(id, u, faults.get));
      var looked := Next(read, LookUp(id, faults.find));
      var hit := !faults.get && Cached(s.store, u, s.now);
      var found := !hit && !faults.find && Verified(s.users, u);
      && Next(looked, WriteCache(id, faults.put)) ==
         s.(store := if found && !faults.put then WithEx(s.store, Key(u), "1", TTL, s.now) else s.store)
      && Answered(s, ReadCache(id, u, faults.get)) == (if hit then Some(Answer(u, true)) else None)
      && Answered(read, LookUp(id, faults.find)) ==
         (if !hit && !faults.find && !Verified(s.users, u) then Some(Answer(u, false)) else None)
      && Answered(looked, WriteCache(id, faults.put)) == (if found then Some(Answer(u, true)) else None)
  {
    MissedThenLooked(s, id, u, faults.find);
    FoundThenWritten(s, id, u, faults.put);
  }

  // ---- With deletions ----

  const START: State := State(map[], 0, map[], map[])

  /** A user signs up, is verified, is checked, and is deleted. */
  function Departure(u: UserId): seq<Event> {
    [SignUp(u), Verify(u), ReadCache(0, u, false), LookUp(0, false), WriteCache(0, false), Delete(u)]
  }

  lemma OneMore(es: seq<Event>, e: Event, longer: seq<Event>, s: State, t: State)
    requires Run(START, es) == s && Next(s, e) == t && longer == es + [e]
    ensures Run(START, longer) == t
  {
    assert longer[..|es|] == es;
  }

  /** The next check after the deletion still answers yes. */
  lemma DeletionLeavesTheAnswerStale(u: UserId)
    ensures !Right(Run(START, Departure(u)), ReadCache(1, u, false))
  {
    var es := Departure(u);
    var cached := WithEx(map[], Key(u), "1", TTL, 0);
    var one := map[u := true];
    OneMore([], es[0], es[..1], START, State(map[], 0, map[u := false], map[]));
    OneMore(es[..1], es[1], es[..2], State(map[], 0, map[u := false], map[]), State(map[], 0, one, map[]));
    OneMore(es[..2], es[2], es[..3], State(map[], 0, one, map[]), State(map[], 0, one, map[0 := Check(u, Missed)]));
    OneMore(es[..3], es[3], es[..4], State(map[], 0, one, map[0 := Check(u, Missed)]), State(map[], 0, one, map[0 := Check(u, Found)]));
    OneMore(es[..4], es[4], es[..5], State(map[], 0, one, map[0 := Check(u, Found)]), State(cached, 0, one, map[]));
    OneMore(es[..5], es[5], es, State(cached, 0, one, map[]), State(cached, 0, map[], map[]));
  }

  // ---- Exactly when an answer is stale ----

  /** The i-th event cached the answer of a check about u that had found the flag. */
  predicate WroteAt(events: seq<Event>, i: nat, u: UserId)
    requires i < |events|
  {
    var s := Run(START, events[..i]);
    events[i].WriteCache? && !events[i].lost && InPhase(s, events[i].id, Found) && s.checks[events[i].id].user == u
  }

  function TimeAt(events: seq<Event>, i: nat): int
    requires i <= |events|
  {
    Run(START, events[..i]).now
  }

  /** Some check about u that had found the flag wrote the cache less than five minutes before `now`. */
  ghost predicate RecentWrite(events: seq<Event>, u: UserId, now: int) {
    exists i: nat :: i < |events| && WroteAt(events, i, u) && now < TimeAt(events, i) + 300000
  }

  /** The entry is the latest write's, if there was one. */
  ghost predicate Latest(events: seq<Event>, u: UserId, i: nat) {
    && i < |events| && WroteAt(events, i, u)
    && forall j: nat :: j < |events| && WroteAt(events, j, u) ==> TimeAt(events, j) <= TimeAt(events, i)
  }

  ghost predicate EntryFits(events: seq<Event>, u: UserId, store: Store) {
    if Key(u) in store then exists i: nat :: Latest(events, u, i) && store[Key(u)] == Slot("1", TimeAt(events, i) + 300000)
    else forall j: nat :: j < |events| ==> !WroteAt(events, j, u)
  }

  lemma EarlierIsSame(events: seq<Event>, i: nat, u: UserId)
    requires i < |events| - 1
    ensures WroteAt(events, i, u) == WroteAt(events[..|events| - 1], i, u)
    ensures TimeAt(events, i) == TimeAt(events[..|events| - 1], i)
  {
    assert events[..|events| - 1][..i] == events[..i];
  }

  lemma {:induction false} TimeAdvances(events: seq<Event>, i: nat)
    requires i <= |events|
    ensures TimeAt(events, i) <= Run(START, events).now
  {
    if i == |events| {
      assert events[..i] == events;
    } else {
      TimeAdvances(events[..|events| - 1], i);
      assert events[..|events| - 1][..i] == events[..i];
    }
  }

  lemma EntryOf(s: State, e: Event, u: UserId)
    ensures var wrote := e.WriteCache? && !e.lost && InPhase(s, e.id, Found) && s.checks[e.id].user == u;
      && (wrote ==> Key(u) in Next(s, e).store && Next(s, e).store[Key(u)] == Slot("1", s.now + 300000))
      && (!wrote ==> (Key(u) in Next(s, e).store <==> Key(u) in s.store))
      && (!wrote && Key(u) in s.store ==> Next(s, e).store[Key(u)] == s.store[Key(u)])
  {
    if e.WriteCache? && InPhase(s, e.id, Found) {
      PrefixedKeysDiffer(PREFIX, u, s.checks[e.id].user);
    }
  }

  lemma {:induction false} EntryIsLatestWrite(events: seq<Event>, u: UserId)
    ensures EntryFits(events, u, Run(START, events).store)
  {
    if events != [] {
      var n := |events| - 1;
      var init := events[..n];
      EntryIsLatestWrite(init, u);
      EntryOf(Run(START, init), events[n], u);
      forall i: nat | i < n
        ensures WroteAt(events, i, u) == WroteAt(init, i, u) && TimeAt(events, i) == TimeAt(init, i) <= TimeAt(events, n)
      {
        EarlierIsSame(events, i, u);
        TimeAdvances(init, i);
      }
      EntryStep(events, u, Run(START, init).store, Run(START, events).store);
    }
  }

  lemma EntryStep(events: seq<Event>, u: UserId, before: Store, after: Store)
    requires events != []
    requires var n := |events| - 1;
      && EntryFits(events[..n], u, before)
      && forall i: nat :: i < n ==>
           WroteAt(events, i, u) == WroteAt(events[..n], i, u) && TimeAt(events, i) == TimeAt(events[..n], i) <= TimeAt(events, n)
    requires WroteAt(events, |events| - 1, u) ==>
      Key(u) in after && after[Key(u)] == Slot("1", TimeAt(events, |events| - 1) + 300000)
    requires !WroteAt(events, |events| - 1, u) ==>
      (Key(u) in after <==> Key(u) in before) && (Key(u) in before ==> after[Key(u)] == before[Key(u)])
    ensures EntryFits(events, u, after)
  {
    var n := |events| - 1;
    if WroteAt(events, n, u) {
      assert Latest(events, u, n);
    } else if Key(u) in before {
      var i: nat :| Latest(events[..n], u, i) && before[Key(u)] == Slot("1", TimeAt(events[..n], i) + 300000);
      assert Latest(events, u, i);
    }
  }

  /** After any run a user is cached exactly when a check that had found the flag wrote so in the last five minutes. */
  lemma CachedIff(events: seq<Event>, u: UserId)
    ensures var s := Run(START, events);
      Cached(s.store, u, s.now) <==> RecentWrite(events, u, s.now)
  {
    EntryIsLatestWrite(events, u);
  }

  /**
   After any run, a check is wrong exactly when the user is not verified at that
   moment and it either reads an entry written in the last five minutes or is about
   to return what its own earlier lookup found.
   */
  lemma WrongIff(events: seq<Event>, e: Event)
    ensures var s := Run(START, events);
      !Right(s, e) <==>
        || (e.ReadCache? && e.id !in s.checks && !e.fails && !Verified(s.users, e.user) && RecentWrite(events, e.user, s.now))
        || (e.WriteCache? && InPhase(s, e.id, Found) && !Verified(s.users, s.checks[e.id].user))
  {
    if e.ReadCache? {
      CachedIff(events, e.user);
    }
  }

  /** Whatever is under way, only a write of the last five minutes lets the cache vouch for a user. */
  lemma StaleAtMostFiveMinutes(events: seq<Event>, u: UserId, e: Event)
    ensures e.ReadCache? && Answered(Run(START, events), e) == Some(Answer(u, true)) ==>
      exists i: nat :: i < |events| && WroteAt(events, i, u) && Run(START, events).now < TimeAt(events, i) + 300000
  {
    CachedIff(events, u);
  }
}
