# Session gate of the Guatemalan price-lookup app

This project models the credential store and session gate of the Streamlit
page `app.py`. The page keeps three values in its session state:

- `logged_in`, a flag;
- `current_user`, a user name or none;
- `users`, a table from user name to password digest, seeded with the account
  `admin` whose digest is that of `"password"`.

`login` sets the flag and the current user when the name is in the table and
the stored digest equals the digest of the given password. `logout` clears
both. `add_user` inserts a new name with its digest and refuses a name that is
already there. The page script decides which of these a click can reach: the
login form appears only when the session is not logged in, the logout button
only when it is, and the "add user" panel only when the current user is
`admin`.

The model, in `session_gate.dfy` (module `SessionGate`), has two layers:

- a value model: `GateState` is a snapshot of the three fields; `LoginStep`,
  `LogoutStep` and `AddUserStep` are the three operations; `UiStep` is one
  click handled as the page script handles it; `Run` is a fresh session
  followed by a sequence of clicks. The properties of single steps are the
  `ensures` clauses of these functions; the properties of whole sessions are
  lemmas proved by induction over the clicks.
- the class `SessionState`, with the three fields updated in place by the
  methods `Login`, `Logout`, `AddUser` and `HandleClick` (`modifies this`).
  Each method states its new fields outright and is proved to agree with the
  matching step of the value model, so every property of a single step holds
  of the object too. The object invariant `Valid` holds that the session is
  consistent and that the `admin` entry is intact. `ServeSession` seeds an
  object and feeds it a sequence of clicks through `HandleClick`, and is
  proved to end in `Run` of those clicks, so the properties of whole sessions
  (`Run`, `UsersOnlyGrow`, `NewUsersNeedAdmin`) hold of an object served
  that way. They say nothing about an object whose `Login` or `AddUser` is
  called directly, bypassing the page's gating. `AdminSession` is a client
  that exercises the object through its contracts alone.

`hash_password` (SHA-256, hex-encoded) is modelled as an arbitrary total
function `hash: string -> string`: a `const` of the class and a parameter of
the value model. Nothing is assumed about it, not even injectivity; the app
only compares digests for equality, and `LoginSeesOnlyDigest` records that
two passwords with the same digest are indistinguishable to `login`.

The comment on `add_user` (app.py:32) calls it admin only, but `add_user`
itself does no check; the restriction comes only from the page showing the
panel to `admin` alone (app.py:95). The model follows the code: `AddUserStep` and
`SessionState.AddUser` accept any caller, and the restriction lives in
`UiStep` and `HandleClick`.

## Model

| member | source | states |
|---|---|---|
| SessionGate.Initial | app.py:8-13 | a new session is logged out with no current user, and the table holds exactly `admin` with the digest of `"password"`; the state is consistent |
| SessionGate.LoginStep | app.py:20-25 | login succeeds iff the name is a key of the table and its stored digest equals the password's digest; on success the session is logged in as that name, on failure nothing changes; the table never changes; consistency is preserved |
| SessionGate.LogoutStep | app.py:28-30 | from any state, logout leaves the session logged out with no current user and the table untouched; the result is always consistent |
| SessionGate.AddUserStep | app.py:33-37 | add_user succeeds iff the name is new; the table's keys gain exactly that name; the name maps to the new digest on success and keeps its old digest otherwise; every earlier entry is kept; the session fields do not change |
| SessionGate.UiStep | app.py:80-104 | one click never removes or rewrites a table entry, keeps consistency and the admin entry, changes the table only through the add-user button pressed by the logged-in `admin`, and logs a session in only through the login button, as the name typed there |
| SessionGate.Run | app.py:8-104 | every state reachable from a fresh session is consistent (logged in exactly when there is a current user, who is a key of the table) and still holds `admin` with the digest of `"password"` |
| SessionGate.UsersOnlyGrow | app.py:33-37 | along any sequence of clicks, every entry of the table at an earlier point is present with the same digest at every later point |
| SessionGate.NewUsersNeedAdmin | app.py:95-104 | every name in the table other than `admin` was added by an earlier add-user click naming it, pressed while `admin` was logged in and the name was not yet registered |
| SessionGate.AddUserTwiceFails | app.py:34-37 | a second add_user of the same name fails and leaves the state as the first one left it, so an existing digest is never overwritten |
| SessionGate.LogoutIdempotent | app.py:28-30 | logging out twice gives the same state as logging out once |
| SessionGate.LoginSeesOnlyDigest | app.py:16-21 | login gives the same outcome for two passwords with the same digest |
| SessionGate.SessionState.constructor | app.py:8-13 | the object starts logged out, with no current user and the seeded admin table, i.e. in the initial state, and satisfies the object invariant |
| SessionGate.SessionState.Login | app.py:20-25 | returns true iff the name is present with a matching digest; on success sets the flag and the current user, on failure keeps both; never touches the table; agrees with LoginStep |
| SessionGate.SessionState.Logout | app.py:28-30 | from any state, clears the flag and the current user, keeps the table and the object invariant; agrees with LogoutStep |
| SessionGate.SessionState.AddUser | app.py:33-37 | returns true iff the name is new, inserts its digest exactly then, otherwise keeps the table; the session fields do not change; agrees with AddUserStep |
| SessionGate.SessionState.HandleClick | app.py:80-104 | handles a click only when the page shows its button (login when logged out, logout when logged in, add user for `admin`); agrees with UiStep |
| SessionGate.ServeSession | app.py:8-104 | a session seeded once and then driven click by click through the page script ends valid and in exactly the state `Run` gives for those clicks |

## Left out

- The web search call (`search_serper`) and the completion call (`process_with_together`): outbound HTTP with secret API keys and third-party JSON; nothing in them is state the gate depends on.
- The prompt template and the embedding of the search results as indented JSON: string assembly fed to an external model.
- The date shown on the page and used in the query: it reads the wall clock and formats it by locale.
- SHA-256 itself: the digest is the arbitrary function `hash`; its bits and the UTF-8 encoding of the password before hashing are not modelled.
- The success and error messages the page shows after a login or an add-user click: rendering only; their choice follows the boolean the operations return.
- Streamlit's rerun model: the `if ... not in st.session_state` guards make the seeding happen once per session; the model starts a session with the constructor (or `Initial`) exactly once and treats each click as one run of the script.
- The generation parameters (temperature, top_p) of the completion call: floating point sent to an external service.
