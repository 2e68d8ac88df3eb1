/** The session store: token, user and flag in memory, token and user mirrored in localStorage. */
module AuthStores {
  import opened Options

  type Token = string
  type User = string

  /** Memory and storage. `storedUser` is the user whose JSON is stored. */
  datatype Auth = Auth(
    token: Option<Token>, user: Option<User>, isAuthenticated: bool,
    storedToken: Option<Token>, storedUser: Option<User>)

  /** JavaScript truthiness of a token. */
  predicate Truthy(t: Option<Token>) {
    t.Some? && t.value != ""
  }

  /**
   Setters try their storage calls in order and give up at the first that throws:
   `calls` is how many succeed.
   */
  function AfterSetAuth(a: Auth, token: Token, user: User, calls: nat): Auth {
    Auth(Some(token), Some(user), true,
         if calls >= 1 then Some(token) else a.storedToken,
         if calls >= 2 then Some(user) else a.storedUser)
  }

  function AfterSetToken(a: Auth, token: Token, calls: nat): Auth {
    Auth(Some(token), a.user, true, if calls >= 1 then Some(token) else a.storedToken, a.storedUser)
  }

  function AfterSetUser(a: Auth, user: User, calls: nat): Auth {
    Auth(a.token, Some(user), a.isAuthenticated, a.storedToken, if calls >= 1 then Some(user) else a.storedUser)
  }

  function AfterClear(a: Auth, calls: nat): Auth {
    Auth(None, None, false,
         if calls >= 1 then None else a.storedToken,
         if calls >= 2 then None else a.storedUser)
  }

  /** `loadInitialState`: what a page load makes of the storage; unreadable JSON empties both. */
  function Loaded(storedToken: Option<Token>, storedUser: Option<User>, readable: bool): Auth {
    var token := if readable then storedToken else None;
    Auth(token, if readable then storedUser else None, Truthy(token), storedToken, storedUser)
  }

  class AuthStore {
    var token: Option<Token>
    var user: Option<User>
    var isAuthenticated: bool
    var storedToken: Option<Token>
    var storedUser: Option<User>

    function State(): Auth
      reads this
    {
      Auth(token, user, isAuthenticated, storedToken, storedUser)
    }

    constructor (storedToken: Option<Token>, storedUser: Option<User>, readable: bool)
      ensures State() == Loaded(storedToken, storedUser, readable)
    {
      this.storedToken, this.storedUser := storedToken, storedUser;
      token := if readable then storedToken else None;
      user := if readable then storedUser else None;
      isAuthenticated := readable && storedToken.Some? && storedToken.value != "";
    }

    method SetAuth(token: Token, user: User, calls: nat)
      modifies this
      ensures State() == AfterSetAuth(old(State()), token, user, calls)
      ensures FlagAgrees(State()) <==> token != ""
      ensures calls >= 2 ==> Mirrored(State())
    {
      if calls >= 1 {
        storedToken := Some(token);
        if calls >= 2 {
          storedUser := Some(user);
        }
      }
      this.token, this.user, isAuthenticated := Some(token), Some(user), true;
    }

    method SetToken(token: Token, calls: nat)
      modifies this
      ensures State() == AfterSetToken(old(State()), token, calls)
      ensures FlagAgrees(State()) <==> token != ""
      ensures calls >= 1 && Mirrored(old(State())) ==> Mirrored(State())
    {
      if calls >= 1 {
        storedToken := Some(token);
      }
      this.token, isAuthenticated := Some(token), true;
    }

    method SetUser(user: User, calls: nat)
      modifies this
      ensures State() == AfterSetUser(old(State()), user, calls)
      ensures FlagAgrees(State()) <==> FlagAgrees(old(State()))
      ensures calls >= 1 && Mirrored(old(State())) ==> Mirrored(State())
    {
      if calls >= 1 {
        storedUser := Some(user);
      }
      this.user := Some(user);
    }

    method ClearAuth(calls: nat)
      modifies this
      ensures State() == AfterClear(old(State()), calls)
      ensures FlagAgrees(State())
      ensures calls >= 2 ==> Mirrored(State())
    {
      if calls >= 1 {
        storedToken := None;
        if calls >= 2 {
          storedUser := None;
        }
      }
      token, user, isAuthenticated := None, None, false;
    }
  }

  // ----- Runs of the store

  datatype Setter =
    | SetAuth(token: Token, user: User, calls: nat)
    | SetToken(token: Token, calls: nat)
    | SetUser(user: User, calls: nat)
    | ClearAuth(calls: nat)
  {
    function Apply(a: Auth): Auth {
      match this
      case SetAuth(t, u, n) => AfterSetAuth(a, t, u, n)
      case SetToken(t, n) => AfterSetToken(a, t, n)
      case SetUser(u, n) => AfterSetUser(a, u, n)
      case ClearAuth(n) => AfterClear(a, n)
    }

    predicate GivesToken() {
      SetAuth? || SetToken?
    }

    /** Number of storage calls the setter makes. */
    function StorageCalls(): nat {
      if SetAuth? || ClearAuth? then 2 else 1
    }
  }

  function Run(a: Auth, setters: seq<Setter>): Auth
    decreases |setters|
  {
    if setters == [] then a else Run(setters[0].Apply(a), setters[1..])
  }

  ghost predicate FlagAgrees(a: Auth) {
    a.isAuthenticated <==> Truthy(a.token)
  }

  ghost predicate Mirrored(a: Auth) {
    a.storedToken == a.token && a.storedUser == a.user
  }

  /** The last setter that gives or clears a token; the last one that writes storage. */
  function LastTokenSetter(setters: seq<Setter>): Option<Setter> {
    if setters == [] then None
    else
      var s := setters[|setters| - 1];
      if s.SetUser? then LastTokenSetter(setters[..|setters| - 1]) else Some(s)
  }

  /** The last setter that gives or clears a user. */
  function LastUserSetter(setters: seq<Setter>): Option<Setter> {
    if setters == [] then None
    else
      var s := setters[|setters| - 1];
      if s.SetToken? then LastUserSetter(setters[..|setters| - 1]) else Some(s)
  }

  /** Memory holds the last token and the last user given or cleared; setting one leaves the other alone. */
  lemma {:induction false} MemoryIsLast(a: Auth, setters: seq<Setter>)
    ensures match LastTokenSetter(setters)
      case None => Run(a, setters).token == a.token
      case Some(SetAuth(t, _, _)) => Run(a, setters).token == Some(t)
      case Some(SetToken(t, _)) => Run(a, setters).token == Some(t)
      case Some(ClearAuth(_)) => Run(a, setters).token == None
      case Some(SetUser(_, _)) => false
    ensures match LastUserSetter(setters)
      case None => Run(a, setters).user == a.user
      case Some(SetAuth(_, u, _)) => Run(a, setters).user == Some(u)
      case Some(SetUser(u, _)) => Run(a, setters).user == Some(u)
      case Some(ClearAuth(_)) => Run(a, setters).user == None
      case Some(SetToken(_, _)) => false
    decreases |setters|
  {
    if setters != [] {
      var before, s := setters[..|setters| - 1], setters[|setters| - 1];
      assert setters == before + [s];
      RunAppend(a, before, s);
      MemoryIsLast(a, before);
    }
  }

  lemma {:induction false} RunAppend(a: Auth, setters: seq<Setter>, s: Setter)
    ensures Run(a, setters + [s]) == s.Apply(Run(a, setters))
    decreases |setters|
  {
    if setters == [] {
      assert Run(s.Apply(a), []) == s.Apply(a);
    } else {
      assert (setters + [s])[1..] == setters[1..] + [s];
      RunAppend(setters[0].Apply(a), setters[1..], s);
    }
  }

  /**
   From any page load and after any setters, the flag tells whether a usable
   token is held exactly unless the last token given was the empty string.
   */
  lemma {:induction false} FlagAgreesIff(storedToken: Option<Token>, storedUser: Option<User>, readable: bool, setters: seq<Setter>)
    ensures FlagAgrees(Run(Loaded(storedToken, storedUser, readable), setters)) <==>
            !(LastTokenSetter(setters).Some? && LastTokenSetter(setters).value.GivesToken()
              && LastTokenSetter(setters).value.token == "")
    decreases |setters|
  {
    if setters != [] {
      var before, s := setters[..|setters| - 1], setters[|setters| - 1];
      assert setters == before + [s];
      RunAppend(Loaded(storedToken, storedUser, readable), before, s);
      FlagAgreesIff(storedToken, storedUser, readable, before);
    }
  }

  /** The one case: setting an empty token raises the flag over a token that authenticates nothing. */
  lemma EmptyTokenRaisesTheFlag(storedToken: Option<Token>, storedUser: Option<User>, user: User)
    ensures var a := Run(Loaded(storedToken, storedUser, true), [SetAuth("", user, 2)]);
      a.isAuthenticated && !Truthy(a.token) && !FlagAgrees(a)
  {
    var setters := [SetAuth("", user, 2)];
    assert LastTokenSetter(setters) == Some(setters[0]);
    FlagAgreesIff(storedToken, storedUser, true, setters);
    assert setters[1..] == [];
    assert Run(Loaded(storedToken, storedUser, true), setters) == setters[0].Apply(Loaded(storedToken, storedUser, true));
  }

  /** If every storage call succeeds, storage mirrors memory, and a page load restores a session whose flag agrees. */
  lemma {:induction false} StorageMirrors(a: Auth, setters: seq<Setter>)
    requires Mirrored(a) && forall k :: 0 <= k < |setters| ==> setters[k].calls >= setters[k].StorageCalls()
    ensures var b := Run(a, setters);
      Mirrored(b) && (FlagAgrees(b) ==> Loaded(b.storedToken, b.storedUser, true) == b)
    decreases |setters|
  {
    if setters != [] {
      StorageMirrors(setters[0].Apply(a), setters[1..]);
    }
  }

  /** One setter on a mirrored store: the mirror breaks exactly when a failed call had something to write. */
  lemma MirrorBreaksIff(a: Auth, s: Setter)
    requires Mirrored(a)
    ensures Mirrored(s.Apply(a)) <==>
      match s
      case SetAuth(t, u, n) => (n >= 1 || a.token == Some(t)) && (n >= 2 || a.user == Some(u))
      case SetToken(t, n) => n >= 1 || a.token == Some(t)
      case SetUser(u, n) => n >= 1 || a.user == Some(u)
      case ClearAuth(n) => (n >= 1 || a.token == None) && (n >= 2 || a.user == None)
  {
  }
}
