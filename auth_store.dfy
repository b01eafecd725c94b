/**
 * The client's authentication store: three fields, `user`, `token` and
 * `isAuthenticated`, replaced by the actions `setAuth`, `logout` and
 * `updateUser`.  The store's `set` merges the returned fields into the
 * state, so `updateUser` touches `user` alone.  Persisting the store to
 * local storage is not modelled.
 */
module AuthStore {
  import opened Wrappers
  import opened JsValues

  /** A user record, as the properties it holds. */
  type UserRecord = map<string, Json>

  /** The three fields of the store. */
  datatype AuthState = AuthState(user: Option<UserRecord>, token: Option<string>, isAuthenticated: bool)

  /** The store's actions, with their arguments. */
  datatype Action =
    | SetAuth(newUser: UserRecord, newToken: string)
    | Logout
    | UpdateUser(userData: UserRecord)

  /** The state the store starts in: signed out. */
  const Initial: AuthState := AuthState(None, None, false)

  /** `{ ...user, ...userData }`: the supplied properties override, the rest are kept. */
  function Merge(user: UserRecord, userData: UserRecord): (r: UserRecord)
    ensures r.Keys == user.Keys + userData.Keys
    ensures forall k :: k in userData ==> r[k] == userData[k]
    ensures forall k :: k in user && k !in userData ==> r[k] == user[k]
  {
    user + userData
  }

  /** The state after one action. */
  function Step(s: AuthState, a: Action): AuthState
  {
    match a
    case SetAuth(u, t) => AuthState(Some(u), Some(t), true)
    case Logout => AuthState(None, None, false)
    case UpdateUser(d) => s.(user := if s.user.Some? then Some(Merge(s.user.value, d)) else None)
  }

  /** The state after a sequence of actions, in order. */
  function Run(s: AuthState, actions: seq<Action>): AuthState
  {
    if actions == [] then s else Step(Run(s, actions[..|actions| - 1]), actions[|actions| - 1])
  }

  /** Running two sequences of actions one after the other is running their concatenation. */
  lemma {:induction false} RunAppend(s: AuthState, xs: seq<Action>, ys: seq<Action>)
    ensures Run(s, xs + ys) == Run(Run(s, xs), ys)
    decreases |ys|
  {
    if ys == [] {
      assert xs + ys == xs;
    } else {
      var init := ys[..|ys| - 1];
      assert (xs + ys)[..|xs + ys| - 1] == xs + init;
      assert (xs + ys)[|xs + ys| - 1] == ys[|ys| - 1];
      RunAppend(s, xs, init);
    }
  }

  /** The state after a run ending with `logout` is the initial state, whatever came before. */
  lemma LastLogoutWins(s: AuthState, actions: seq<Action>)
    ensures Run(s, actions + [Logout]) == Initial
  {
    assert (actions + [Logout])[..|actions|] == actions;
  }

  /** Signed in exactly when there is a user, and a token exactly when there is a user. */
  predicate Consistent(s: AuthState)
  {
    (s.isAuthenticated <==> s.user.Some?) && (s.token.Some? <==> s.user.Some?)
  }

  /** Every action keeps the state consistent. */
  lemma StepKeepsConsistent(s: AuthState, a: Action)
    requires Consistent(s)
    ensures Consistent(Step(s, a))
  {
  }

  /** From the initial state, every sequence of actions leaves the state consistent. */
  lemma {:induction false} RunKeepsConsistent(actions: seq<Action>)
    ensures Consistent(Run(Initial, actions))
    decreases |actions|
  {
    if actions != [] {
      RunKeepsConsistent(actions[..|actions| - 1]);
      StepKeepsConsistent(Run(Initial, actions[..|actions| - 1]), actions[|actions| - 1]);
    }
  }

  /** `logout` resets all three fields, whatever the state before. */
  lemma LogoutResets(s: AuthState)
    ensures Step(s, Logout) == Initial
  {
  }

  /** `setAuth` records the user and the token and signs in, whatever the state before. */
  lemma SetAuthSignsIn(s: AuthState, u: UserRecord, t: string)
    ensures Step(s, SetAuth(u, t)).user == Some(u)
    ensures Step(s, SetAuth(u, t)).token == Some(t)
    ensures Step(s, SetAuth(u, t)).isAuthenticated
  {
  }

  /**
   * `updateUser` leaves `token` and `isAuthenticated` alone, leaves a missing
   * user missing, and on a present user overrides exactly the supplied
   * properties.
   */
  lemma UpdateUserTouchesOnlyUser(s: AuthState, d: UserRecord)
    ensures Step(s, UpdateUser(d)).token == s.token
    ensures Step(s, UpdateUser(d)).isAuthenticated == s.isAuthenticated
    ensures s.user.None? ==> Step(s, UpdateUser(d)).user.None?
    ensures s.user.Some? ==> Step(s, UpdateUser(d)).user.Some?
    ensures s.user.Some? ==> forall k :: k in d ==> Step(s, UpdateUser(d)).user.value[k] == d[k]
    ensures s.user.Some? ==> forall k :: k in s.user.value && k !in d ==>
      Step(s, UpdateUser(d)).user.value[k] == s.user.value[k]
  {
  }

  /** Applying the same update twice is applying it once. */
  lemma UpdateUserIdempotent(s: AuthState, d: UserRecord)
    ensures Step(Step(s, UpdateUser(d)), UpdateUser(d)) == Step(s, UpdateUser(d))
  {
    if s.user.Some? {
      var u := s.user.value;
      assert Merge(Merge(u, d), d) == Merge(u, d);
    }
  }

  /** After `logout`, an update cannot bring a user back. */
  lemma NoUserAfterLogout(s: AuthState, d: UserRecord)
    ensures Step(Step(s, Logout), UpdateUser(d)) == Initial
  {
  }

  /** The store object, with its three fields. */
  class Store {
    var user: Option<UserRecord>
    var token: Option<string>
    var isAuthenticated: bool

    /** The three fields as a value. */
    function State(): AuthState
      reads this
    {
      AuthState(user, token, isAuthenticated)
    }

    /** A new store is signed out. */
    constructor()
      ensures State() == Initial
    {
      user := None;
      token := None;
      isAuthenticated := false;
    }

    /** `setAuth(user, token)`. */
    method SetAuthAction(u: UserRecord, t: string)
      modifies this
      ensures State() == Step(old(State()), SetAuth(u, t))
      ensures user == Some(u) && token == Some(t) && isAuthenticated
    {
      user, token, isAuthenticated := Some(u), Some(t), true;
    }

    /** `logout()`. */
    method LogoutAction()
      modifies this
      ensures State() == Step(old(State()), Logout)
      ensures State() == Initial
    {
      user, token, isAuthenticated := None, None, false;
    }

    /** `updateUser(userData)`: only `user` is written. */
    method UpdateUserAction(d: UserRecord)
      modifies this`user
      ensures State() == Step(old(State()), UpdateUser(d))
      ensures token == old(token) && isAuthenticated == old(isAuthenticated)
    {
      if user.Some? {
        user := Some(Merge(user.value, d));
      } else {
        user := None;
      }
    }
  }
}
