/*
 * The credential store and session gate of the price-lookup web app.
 *
 * The app keeps three pieces of per-session state: whether the session is
 * logged in, the name of the current user (or none), and a table from user
 * name to password digest, seeded with one administrator account. Three
 * operations change that state (login, logout, add user), and the page
 * script decides which of them a click can reach.
 *
 * The password digest (SHA-256 in hexadecimal) is modelled as an arbitrary
 * total function `hash` from strings to strings: nothing is assumed about it,
 * not even that it is injective, because the app only ever compares digests
 * for equality.
 *
 * The module has two layers:
 *  - a value model (GateState and the step functions), on which the
 *    properties of single transitions and of whole click sequences are proved;
 *  - the class SessionState, whose methods update the three fields in place,
 *    as the page script does, and are proved to follow the value model.
 */
module SessionGate {

  datatype Option<T> = None | Some(value: T)

  /** A password digest function; SHA-256 in the app, left arbitrary here. */
  type Hasher = string -> string

  /** The name of the seeded administrator account, and its initial password. */
  const AdminName: string := "admin"
  const AdminPassword: string := "password"

  /** A snapshot of the session: logged_in, current_user and users. */
  datatype GateState = GateState(loggedIn: bool, currentUser: Option<string>, users: map<string, string>)

  /** The outcome of login or add_user: the boolean it returns and the new state. */
  datatype Transition = Transition(ok: bool, next: GateState)

  /** The session flag agrees with the current user, who is a registered user. */
  predicate Consistent(s: GateState)
  {
    && (s.loggedIn <==> s.currentUser.Some?)
    && (s.currentUser.Some? ==> s.currentUser.value in s.users)
  }

  /** Every entry of `before` is still in `after`, with the same digest. */
  ghost predicate Extends(before: map<string, string>, after: map<string, string>)
  {
    forall name :: name in before ==> name in after && after[name] == before[name]
  }

  /** The administrator account is present with the digest of its initial password. */
  predicate AdminIntact(s: GateState, hash: Hasher)
  {
    AdminName in s.users && s.users[AdminName] == hash(AdminPassword)
  }

  /** The state a new session starts in. */
  function Initial(hash: Hasher): (s: GateState)
    ensures Consistent(s) && AdminIntact(s, hash)
    ensures !s.loggedIn && s.currentUser == None
    ensures s.users.Keys == {AdminName}
  {
    GateState(false, None, map[AdminName := hash(AdminPassword)])
  }

  /** login(username, password). */
  function LoginStep(s: GateState, username: string, password: string, hash: Hasher): (t: Transition)
    ensures t.ok <==> username in s.users && s.users[username] == hash(password)
    ensures t.ok ==> t.next.loggedIn && t.next.currentUser == Some(username)
    ensures !t.ok ==> t.next == s
    ensures t.next.users == s.users
    ensures Consistent(s) ==> Consistent(t.next)
  {
    if username in s.users && s.users[username] == hash(password) then
      Transition(true, s.(loggedIn := true, currentUser := Some(username)))
    else
      Transition(false, s)
  }

  /** logout(). */
  function LogoutStep(s: GateState): (r: GateState)
    ensures !r.loggedIn && r.currentUser == None
    ensures r.users == s.users
    ensures Consistent(r)
  {
    s.(loggedIn := false, currentUser := None)
  }

  /** add_user(username, password). */
  function AddUserStep(s: GateState, username: string, password: string, hash: Hasher): (t: Transition)
    ensures t.ok <==> username !in s.users
    ensures t.next.loggedIn == s.loggedIn && t.next.currentUser == s.currentUser
    ensures t.next.users.Keys == s.users.Keys + {username}
    ensures t.next.users[username] == if t.ok then hash(password) else s.users[username]
    ensures Extends(s.users, t.next.users)
    ensures Consistent(s) ==> Consistent(t.next)
  {
    if username !in s.users then
      Transition(true, s.(users := s.users[username := hash(password)]))
    else
      Transition(false, s)
  }

  /** The buttons of the page. */
  datatype Click =
    | LoginButton(username: string, password: string)
    | LogoutButton
    | AddUserButton(newUsername: string, newPassword: string)

  /** The page offers the login form only to a session that is not logged in. */
  predicate LoginOffered(s: GateState)
  {
    !s.loggedIn
  }

  /** The page offers the logout button only to a session that is logged in. */
  predicate LogoutOffered(s: GateState)
  {
    s.loggedIn
  }

  /** The page offers the administrator panel only to the logged-in administrator. */
  predicate AdminPanelOffered(s: GateState)
  {
    s.loggedIn && s.currentUser == Some(AdminName)
  }

  /**
   * One click, as the page script handles it: a button the page does not show
   * for the current state cannot be clicked, so such a click changes nothing.
   */
  function UiStep(s: GateState, click: Click, hash: Hasher): (r: GateState)
    ensures Consistent(s) ==> Consistent(r)
    ensures Extends(s.users, r.users)
    ensures AdminIntact(s, hash) ==> AdminIntact(r, hash)
    ensures r.users != s.users ==> click.AddUserButton? && AdminPanelOffered(s)
    ensures r.loggedIn && !s.loggedIn ==> click.LoginButton? && r.currentUser == Some(click.username)
  {
    match click
    case LoginButton(username, password) =>
      if LoginOffered(s) then LoginStep(s, username, password, hash).next else s
    case LogoutButton =>
      if LogoutOffered(s) then LogoutStep(s) else s
    case AddUserButton(username, password) =>
      if AdminPanelOffered(s) then AddUserStep(s, username, password, hash).next else s
  }

  /** The state after a session starts and the clicks are handled in order. */
  function Run(hash: Hasher, clicks: seq<Click>): (s: GateState)
    ensures Consistent(s)
    ensures AdminIntact(s, hash)
    decreases |clicks|
  {
    if clicks == [] then Initial(hash)
    else UiStep(Run(hash, clicks[..|clicks| - 1]), clicks[|clicks| - 1], hash)
  }

  /** The user table only grows: an entry, once present, stays with the same digest. */
  lemma {:induction false} UsersOnlyGrow(hash: Hasher, clicks: seq<Click>, i: nat, j: nat)
    requires i <= j <= |clicks|
    ensures Extends(Run(hash, clicks[..i]).users, Run(hash, clicks[..j]).users)
    decreases j
  {
    if i < j {
      UsersOnlyGrow(hash, clicks, i, j - 1);
      assert clicks[..j][..j - 1] == clicks[..j - 1];
      assert clicks[..j][j - 1] == clicks[j - 1];
    }
  }

  /**
   * Every user other than the administrator was added by an add-user click
   * naming that user, pressed while the administrator was logged in and the
   * name was not yet registered.
   */
  lemma {:induction false} NewUsersNeedAdmin(hash: Hasher, clicks: seq<Click>, name: string)
    requires name in Run(hash, clicks).users && name != AdminName
    ensures exists i :: 0 <= i < |clicks| && clicks[i].AddUserButton? && clicks[i].newUsername == name
                        && AdminPanelOffered(Run(hash, clicks[..i])) && name !in Run(hash, clicks[..i]).users
    decreases |clicks|
  {
    var n := |clicks|;
    if n > 0 {
      var before := clicks[..n - 1];
      if name in Run(hash, before).users {
        NewUsersNeedAdmin(hash, before, name);
        var i :| 0 <= i < |before| && before[i].AddUserButton? && before[i].newUsername == name
                 && AdminPanelOffered(Run(hash, before[..i])) && name !in Run(hash, before[..i]).users;
        assert before[..i] == clicks[..i];
        assert clicks[i] == before[i];
      } else {
        assert Run(hash, before).users != Run(hash, clicks).users;
        assert clicks[..n - 1] == before;
      }
    }
  }

  /** A second add_user for the same name fails and changes nothing. */
  lemma AddUserTwiceFails(s: GateState, username: string, password: string, again: string, hash: Hasher)
    ensures AddUserStep(AddUserStep(s, username, password, hash).next, username, again, hash)
            == Transition(false, AddUserStep(s, username, password, hash).next)
  {
  }

  /** Logging out twice gives the same state as logging out once. */
  lemma LogoutIdempotent(s: GateState)
    ensures LogoutStep(LogoutStep(s)) == LogoutStep(s)
  {
  }

  /**
   * Login sees the password only through its digest: two passwords with the
   * same digest are accepted or rejected together.
   */
  lemma LoginSeesOnlyDigest(s: GateState, username: string, p: string, q: string, hash: Hasher)
    requires hash(p) == hash(q)
    ensures LoginStep(s, username, p, hash) == LoginStep(s, username, q, hash)
  {
  }

  /** st.session_state, restricted to the three fields of the gate. */
  class SessionState {
    var loggedIn: bool
    var currentUser: Option<string>
    var users: map<string, string>
    const hash: Hasher

    function Snapshot(): GateState
      reads this
    {
      GateState(loggedIn, currentUser, users)
    }

    /** The object invariant: the session is consistent and the admin entry is intact. */
    predicate Valid()
      reads this
    {
      Consistent(Snapshot()) && AdminIntact(Snapshot(), hash)
    }

    /** The initialisation the script performs on a fresh session. */
    constructor (hash: Hasher)
      ensures Valid() && this.hash == hash
      ensures !loggedIn && currentUser == None
      ensures users == map[AdminName := hash(AdminPassword)]
      ensures Snapshot() == Initial(hash)
    {
      this.hash := hash;
      loggedIn := false;
      users := map[AdminName := hash(AdminPassword)];
      currentUser := None;
    }

    method Login(username: string, password: string) returns (ok: bool)
      requires Valid()
      modifies this
      ensures Valid()
      ensures ok <==> username in old(users) && old(users)[username] == hash(password)
      ensures ok ==> loggedIn && currentUser == Some(username)
      ensures !ok ==> loggedIn == old(loggedIn) && currentUser == old(currentUser)
      ensures users == old(users)
      ensures Transition(ok, Snapshot()) == LoginStep(old(Snapshot()), username, password, hash)
    {
      if username in users && users[username] == hash(password) {
        loggedIn := true;
        currentUser := Some(username);
        return true;
      }
      return false;
    }

    method Logout()
      modifies this
      ensures Consistent(Snapshot())
      ensures old(Valid()) ==> Valid()
      ensures !loggedIn && currentUser == None
      ensures users == old(users)
      ensures Snapshot() == LogoutStep(old(Snapshot()))
    {
      loggedIn := false;
      currentUser := None;
    }

    method AddUser(username: string, password: string) returns (ok: bool)
      requires Valid()
      modifies this
      ensures Valid()
      ensures ok <==> username !in old(users)
      ensures users == if ok then old(users)[username := hash(password)] else old(users)
      ensures loggedIn == old(loggedIn) && currentUser == old(currentUser)
      ensures Transition(ok, Snapshot()) == AddUserStep(old(Snapshot()), username, password, hash)
    {
      if username !in users {
        users := users[username := hash(password)];
        return true;
      }
      return false;
    }

    /** One run of the page script in response to a click. */
    method HandleClick(click: Click)
      requires Valid()
      modifies this
      ensures Valid()
      ensures Snapshot() == UiStep(old(Snapshot()), click, hash)
    {
      match click {
        case LoginButton(username, password) =>
          if !loggedIn {
            var _ := Login(username, password);
          }
        case LogoutButton =>
          if loggedIn {
            Logout();
          }
        case AddUserButton(username, password) =>
          if loggedIn && currentUser == Some(AdminName) {
            var _ := AddUser(username, password);
          }
      }
    }
  }

  /**
   * A session as the page serves it: the state is seeded once, then every
   * click is one run of the script.
   */
  method ServeSession(hash: Hasher, clicks: seq<Click>) returns (session: SessionState)
    ensures fresh(session) && session.Valid() && session.hash == hash
    ensures session.Snapshot() == Run(hash, clicks)
  {
    session := new SessionState(hash);
    var i := 0;
    while i < |clicks|
      invariant 0 <= i <= |clicks|
      invariant fresh(session) && session.Valid() && session.hash == hash
      invariant session.Snapshot() == Run(hash, clicks[..i])
    {
      session.HandleClick(clicks[i]);
      assert clicks[..i + 1][..i] == clicks[..i];
      i := i + 1;
    }
    assert clicks[..i] == clicks;
  }

  /** A client session: what callers can conclude from the contracts alone. */
  method AdminSession(hash: Hasher, name: string, password: string)
    requires name != AdminName
  {
    var session := new SessionState(hash);
    var ok := session.Login(AdminName, AdminPassword);
    assert ok && session.currentUser == Some(AdminName);
    ok := session.AddUser(name, password);
    assert ok && session.users[name] == hash(password);
    ok := session.AddUser(name, "other");
    assert !ok && session.users[name] == hash(password);
    session.Logout();
    session.Logout();
    assert !session.loggedIn && session.currentUser == None && name in session.users;
    ok := session.Login(name, password);
    assert ok && session.currentUser == Some(name);
  }
}
