/** src/app/auth/store/auth.reducers.ts: the authentication slice of the
    store, its initial value and the `login` transition of `authReducer`. */
module AuthReducer {
  import opened Wrappers

  /** A user as the login form submits it. */
  datatype User = User(email: string, password: string)

  /** `AuthState`: `user` may be `null`. */
  datatype AuthState = AuthState(isLoggedIn: bool, user: Option<User>, isTokenExpired: bool)

  /** The type string of the `login` action creator. */
  const LoginType: string := "[Auth] Login"

  /** The actions the reducer can receive: `login` carries a whole state as
      its `request`; `Unhandled` stands for an action of any other type,
      which is passed through. */
  datatype Action = Login(request: AuthState) | Unhandled(actionType: string)

  /** `initialState` */
  const InitialState: AuthState := AuthState(false, Some(User("", "")), false)

  /** The `login` case: `{ ...state, isLoggedIn, user, isTokenExpired }` from the request. */
  function OnLogin(state: AuthState, request: AuthState): AuthState
  {
    state.(isLoggedIn := request.isLoggedIn, user := request.user, isTokenExpired := request.isTokenExpired)
  }

  /** `authReducer` as `createReducer` builds it: an absent state starts from
      `initialState`; an action without a case leaves the state as it is. */
  function Reduce(state: Option<AuthState>, action: Action): AuthState
  {
    var current := match state case Some(s) => s case None => InitialState;
    match action
    case Login(request) => OnLogin(current, request)
    case Unhandled(_) => current
  }

  /** The initial state: logged out, an empty user, token not expired. */
  lemma InitialStateValues()
    ensures !InitialState.isLoggedIn && !InitialState.isTokenExpired
    ensures InitialState.user == Some(User("", ""))
    ensures Reduce(None, Unhandled("@ngrx/store/init")) == InitialState
  {
  }

  /** `login` sets the three fields to exactly the request's values, so the
      new state is the request itself, whatever the state before. */
  lemma LoginSetsRequest(state: Option<AuthState>, request: AuthState)
    ensures Reduce(state, Login(request)).isLoggedIn == request.isLoggedIn
    ensures Reduce(state, Login(request)).user == request.user
    ensures Reduce(state, Login(request)).isTokenExpired == request.isTokenExpired
    ensures Reduce(state, Login(request)) == request
  {
  }

  /** The state after `login` does not depend on the state before it. */
  lemma LoginForgetsPriorState(s1: Option<AuthState>, s2: Option<AuthState>, request: AuthState)
    ensures Reduce(s1, Login(request)) == Reduce(s2, Login(request))
  {
  }

  /** Dispatching the same `login` twice is dispatching it once. */
  lemma LoginIdempotent(state: Option<AuthState>, request: AuthState)
    ensures Reduce(Some(Reduce(state, Login(request))), Login(request)) == Reduce(state, Login(request))
  {
  }

  /** Other actions leave the state unchanged. */
  lemma UnhandledKeepsState(state: AuthState, actionType: string)
    requires actionType != LoginType
    ensures Reduce(Some(state), Unhandled(actionType)) == state
  {
  }
}
