/**
 * The session state machine `AuthService` of src/lib/auth.ts.
 *
 * One explicitly constructed service holds the session state, the list of subscribed
 * listeners and the persisted snapshot under the localStorage key `tama_auditor_user`.
 * Every asynchronous operation is one atomic method: no interleaving at `await` points
 * is modelled. Calling a listener is recorded in `delivered` (which listener, which
 * state value), and `rounds` counts the calls of `notifyListeners`.
 */
module Auth {
  import opened Wrappers
  import opened AuthTypes
  import opened RecordStore

  /** A subscribed listener, compared by identity as the source compares functions. */
  type ListenerId = nat

  /** The content of localStorage under `tama_auditor_user`, after `JSON.parse`. */
  datatype Snapshot = Absent | Corrupt | Saved(user: User)

  /** One listener call: which listener, and the state it was given. */
  datatype Delivery = Delivery(listener: ListenerId, state: AuthState)

  const SnapshotKey: string := "tama_auditor_user"

  /** The state `setAuthenticatedUser` installs. */
  function Authenticated(u: User): (s: AuthState)
    ensures Coherent(s) && s.user == Some(u) && !s.isLoading
  {
    AuthState(Some(u), true, false)
  }

  /** The state `logout` installs. */
  const LoggedOut: AuthState := AuthState(None, false, false)

  /** The calls one run of `notifyListeners` makes: every listener, in list order, with state `s`. */
  function Round(ls: seq<ListenerId>, s: AuthState): (r: seq<Delivery>)
    ensures |r| == |ls|
    ensures forall i :: 0 <= i < |ls| ==> r[i] == Delivery(ls[i], s)
  {
    if ls == [] then [] else [Delivery(ls[0], s)] + Round(ls[1..], s)
  }

  /** Notifying one more listener appends one more call. */
  lemma RoundSnoc(ls: seq<ListenerId>, l: ListenerId, s: AuthState)
    ensures Round(ls + [l], s) == Round(ls, s) + [Delivery(l, s)]
  {
    assert |Round(ls + [l], s)| == |Round(ls, s) + [Delivery(l, s)]|;
  }

  /** The listener list after the unsubscribe closure of `l` runs: `filter(x => x !== l)`. */
  function Without(ls: seq<ListenerId>, l: ListenerId): (r: seq<ListenerId>)
    ensures l !in r
    ensures forall x :: x != l ==> multiset(r)[x] == multiset(ls)[x]
  {
    if ls == [] then []
    else
      assert ls == [ls[0]] + ls[1..];
      if ls[0] == l then Without(ls[1..], l)
      else [ls[0]] + Without(ls[1..], l)
  }

  /** Filtering keeps the order of the remaining listeners: it distributes over concatenation. */
  lemma {:induction false} WithoutAppend(a: seq<ListenerId>, b: seq<ListenerId>, l: ListenerId)
    ensures Without(a + b, l) == Without(a, l) + Without(b, l)
  {
    if a == [] {
      assert a + b == b;
    } else {
      assert (a + b)[1..] == a[1..] + b;
      WithoutAppend(a[1..], b, l);
    }
  }

  /** Unsubscribing a listener that is not subscribed changes nothing; so unsubscribing twice is unsubscribing once. */
  lemma {:induction false} WithoutAbsent(ls: seq<ListenerId>, l: ListenerId)
    requires l !in ls
    ensures Without(ls, l) == ls
  {
    if ls != [] {
      assert ls == [ls[0]] + ls[1..];
      WithoutAbsent(ls[1..], l);
    }
  }

  /** The number a string of decimal digits denotes, most significant digit first. */
  function DigitsValue(s: string): nat
    requires forall i :: 0 <= i < |s| ==> '0' <= s[i] <= '9'
  {
    if s == [] then 0
    else DigitsValue(s[..|s| - 1]) * 10 + (s[|s| - 1] as int - '0' as int)
  }

  /**
   * `Date.now()` as it appears in a template string: its decimal digits, which read back
   * as the same number.
   */
  function Decimal(n: nat): (s: string)
    ensures |s| >= 1
    ensures forall i :: 0 <= i < |s| ==> '0' <= s[i] <= '9'
    ensures DigitsValue(s) == n
  {
    var d := ('0' as int + n % 10) as char;
    if n < 10 then [d]
    else
      var prefix := Decimal(n / 10);
      assert (prefix + [d])[..|prefix|] == prefix;
      prefix + [d]
  }

  /** Different timestamps are rendered as different digit strings. */
  lemma DecimalInjective(a: nat, b: nat)
    ensures Decimal(a) == Decimal(b) ==> a == b
  {
    if Decimal(a) == Decimal(b) {
      assert DigitsValue(Decimal(a)) == a && DigitsValue(Decimal(b)) == b;
    }
  }

  /**
   * The id `register` builds: `user_<Date.now()>_<suffix>`, where the suffix is the
   * base-36 text drawn from `Math.random()`; both are supplied by the caller.
   */
  function NewUserId(stamp: nat, suffix: string): (id: string)
    ensures |id| > 6 + |suffix| && id[..5] == "user_" && id[|id| - |suffix|..] == suffix
  {
    "user_" + Decimal(stamp) + "_" + suffix
  }

  /** The record `register` creates: always an auditor, never logged in yet. */
  function NewUser(data: Registration, id: string, now: Timestamp): (u: User)
    ensures u.role == Auditor && u.lastLogin.None? && u.createdAt == now
    ensures u.id == id && u.username == data.username && u.name == data.name && u.email == data.email
  {
    User(id, data.username, Auditor, data.name, data.email, now, None)
  }

  /** What one `login` decides: its reply, and the user it authenticates (and stores) on success. */
  datatype LoginEffect = LoginEffect(reply: Reply, session: Option<User>)

  /**
   * The decision `login` makes from the store's contents and which store calls throw.
   * Any store call that throws ends in the `catch` branch, i.e. `ConnectionError`.
   */
  function LoginSpec(users: map<string, User>, settings: map<string, string>, failing: set<StoreCall>,
                     creds: LoginCredentials, now: Timestamp): (e: LoginEffect)
    ensures e.reply.Success? <==> e.session.Some?
    ensures e.session.Some? ==> creds.username in users && e.session.value.id == users[creds.username].id
  {
    if creds.username == TechnicianUsername then
      if StoreCall.GetSetting in failing then LoginEffect(Failure(ConnectionError), None)
      else if Lookup(settings, TechnicianPasswordKey) != Some(creds.password) then
        LoginEffect(Failure(TechnicianPasswordIncorrect), None)
      else if StoreCall.GetUserByUsername in failing then LoginEffect(Failure(ConnectionError), None)
      else if TechnicianUsername !in users then LoginEffect(Failure(TechnicianPasswordIncorrect), None)
      else LoginEffect(Success, Some(users[TechnicianUsername]))
    else
      if StoreCall.GetUserByUsername in failing then LoginEffect(Failure(ConnectionError), None)
      else if creds.username !in users then LoginEffect(Failure(UserNotFound), None)
      else
        var u := users[creds.username];
        if StoreCall.GetSetting in failing then LoginEffect(Failure(ConnectionError), None)
        else if Lookup(settings, PasswordKey(u.id)) != Some(creds.password) then
          LoginEffect(Failure(PasswordIncorrect), None)
        else if StoreCall.UpdateUser in failing then LoginEffect(Failure(ConnectionError), None)
        else LoginEffect(Success, Some(u.(lastLogin := Some(now))))
  }

  /** What one `register` does: its reply, and the record it created (even when a later call threw). */
  datatype RegisterEffect = RegisterEffect(reply: Reply, created: Option<User>)

  function RegisterSpec(users: map<string, User>, failing: set<StoreCall>, data: Registration,
                        id: string, now: Timestamp): (e: RegisterEffect)
    ensures e.reply.Success? ==> e.created.Some?
    ensures e.created.Some? ==> data.username !in users && e.created.value.role == Auditor
  {
    if StoreCall.GetUserByUsername in failing then RegisterEffect(Failure(AccountCreationFailed), None)
    else if data.username in users then RegisterEffect(Failure(UsernameTaken), None)
    else if StoreCall.CreateUser in failing then RegisterEffect(Failure(AccountCreationFailed), None)
    else if StoreCall.SetSetting in failing then RegisterEffect(Failure(AccountCreationFailed), Some(NewUser(data, id, now)))
    else RegisterEffect(Success, Some(NewUser(data, id, now)))
  }

  class AuthService {
    const db: Store
    var authState: AuthState
    var listeners: seq<ListenerId>
    var snapshot: Snapshot
    var delivered: seq<Delivery>
    var rounds: nat

    /**
     * The service invariant: the session is authenticated exactly when it has a user,
     * a session user is the one persisted in the snapshot, and the store is well keyed.
     */
    ghost predicate Valid()
      reads this, db
    {
      Coherent(authState) &&
      (authState.user.Some? ==> snapshot == Saved(authState.user.value)) &&
      db.Valid()
    }

    /** Construction starts loading and runs `initializeAuth`, before anyone can subscribe. */
    constructor (db: Store, stored: Snapshot)
      requires db.Valid()
      ensures Valid() && this.db == db
      ensures authState == (if stored.Saved? then Authenticated(stored.user) else LoggedOut)
      ensures snapshot == stored && listeners == [] && delivered == [] && rounds == 1
    {
      this.db := db;
      authState := AuthState(None, false, true);
      listeners := [];
      snapshot := stored;
      delivered := [];
      rounds := 0;
      new;
      InitializeAuth();
    }

    /**
     * Restores the session from the snapshot; an absent or unparseable snapshot only ends
     * loading. Either way listeners are notified exactly once.
     */
    method InitializeAuth()
      requires Valid()
      modifies this`authState, this`delivered, this`rounds
      ensures Valid()
      ensures authState == (if snapshot.Saved? then Authenticated(snapshot.user)
                            else old(authState).(isLoading := false))
      ensures delivered == old(delivered) + Round(listeners, authState)
      ensures rounds == old(rounds) + 1
    {
      match snapshot {
        case Saved(u) =>
          authState := Authenticated(u);
        case Absent =>
          authState := authState.(isLoading := false);
        case Corrupt =>
          authState := authState.(isLoading := false);
      }
      NotifyListeners();
    }

    /** Appends a listener; it is called from then on, after those subscribed before it. */
    method Subscribe(l: ListenerId)
      modifies this`listeners
      ensures listeners == old(listeners) + [l]
    {
      listeners := listeners + [l];
    }

    /** The closure `subscribe` returns: removes every occurrence of `l`, keeping the rest in order. */
    method Unsubscribe(l: ListenerId)
      modifies this`listeners
      ensures listeners == Without(old(listeners), l)
    {
      listeners := Without(listeners, l);
    }

    /** Calls every listener, in list order, with the current state. */
    method NotifyListeners()
      modifies this`delivered, this`rounds
      ensures delivered == old(delivered) + Round(listeners, authState)
      ensures rounds == old(rounds) + 1
    {
      var i := 0;
      while i < |listeners|
        invariant 0 <= i <= |listeners|
        invariant delivered == old(delivered) + Round(listeners[..i], authState)
        invariant rounds == old(rounds)
      {
        assert listeners[..i + 1] == listeners[..i] + [listeners[i]];
        RoundSnoc(listeners[..i], listeners[i], authState);
        delivered := delivered + [Delivery(listeners[i], authState)];
        i := i + 1;
      }
      assert listeners[..i] == listeners;
      rounds := rounds + 1;
    }

    function GetAuthState(): (s: AuthState)
      reads this, db
      requires Valid()
      ensures Coherent(s)
    {
      authState
    }

    function GetCurrentUser(): (u: Option<User>)
      reads this, db
      requires Valid()
      ensures u.Some? <==> authState.isAuthenticated
    {
      authState.user
    }

    function IsAuthenticated(): (b: bool)
      reads this, db
      requires Valid()
      ensures b <==> authState.user.Some?
    {
      authState.isAuthenticated
    }

    /** A technician session is an authenticated one whose user has the technician role. */
    function IsTechnician(): (b: bool)
      reads this, db
      requires Valid()
      ensures b <==> IsAuthenticated() && GetCurrentUser().value.role == Technician
    {
      authState.user.Some? && authState.user.value.role == Technician
    }

    /**
     * Checks the credentials against the store. Loading is announced first; on success the
     * session user is set, persisted and announced; in every case loading ends and the
     * final state is announced once more (the `finally` block).
     */
    method Login(creds: LoginCredentials, now: Timestamp) returns (reply: Reply)
      requires Valid()
      modifies this`authState, this`snapshot, this`delivered, this`rounds, db`users
      ensures Valid()
      ensures var e := LoginSpec(old(db.users), old(db.settings), db.failing, creds, now);
        && reply == e.reply
        && db.users == (if e.session.Some? then old(db.users)[creds.username := e.session.value] else old(db.users))
        && authState == (if e.session.Some? then Authenticated(e.session.value) else old(authState).(isLoading := false))
        && snapshot == (if e.session.Some? then Saved(e.session.value) else old(snapshot))
        && delivered == old(delivered) + Round(listeners, old(authState).(isLoading := true))
                        + (if e.session.Some? then Round(listeners, authState) else [])
                        + Round(listeners, authState)
        && rounds == old(rounds) + (if e.session.Some? then 3 else 2)
    {
      authState := authState.(isLoading := true);
      NotifyListeners();
      if creds.username == TechnicianUsername {
        reply := TechnicianLogin(creds);
      } else {
        reply := StandardLogin(creds, now);
      }
      authState := authState.(isLoading := false);
      NotifyListeners();
    }

    /**
     * The technician path of `login`: the global technician password, then the `technician`
     * record. This path reads no clock, so any time gives the same `LoginSpec` outcome; 0 is used.
     */
    method TechnicianLogin(creds: LoginCredentials) returns (reply: Reply)
      requires Valid() && creds.username == TechnicianUsername
      modifies this`authState, this`snapshot, this`delivered, this`rounds
      ensures Valid()
      ensures var e := LoginSpec(db.users, db.settings, db.failing, creds, 0);
        && reply == e.reply
        && authState == (if e.session.Some? then Authenticated(e.session.value) else old(authState))
        && snapshot == (if e.session.Some? then Saved(e.session.value) else old(snapshot))
        && delivered == old(delivered) + (if e.session.Some? then Round(listeners, authState) else [])
        && rounds == old(rounds) + (if e.session.Some? then 1 else 0)
    {
      var master := db.GetSetting(TechnicianPasswordKey);
      if master.Threw? {
        reply := Failure(ConnectionError);
      } else if master.value != Some(creds.password) {
        reply := Failure(TechnicianPasswordIncorrect);
      } else {
        var tech := db.GetUserByUsername(TechnicianUsername);
        if tech.Threw? {
          reply := Failure(ConnectionError);
        } else if tech.value.None? {
          reply := Failure(TechnicianPasswordIncorrect);
        } else {
          SetAuthenticatedUser(tech.value.value);
          reply := Success;
        }
      }
    }

    /** The standard path of `login`: the user's record, its password setting, then `lastLogin`. */
    method StandardLogin(creds: LoginCredentials, now: Timestamp) returns (reply: Reply)
      requires Valid() && creds.username != TechnicianUsername
      modifies this`authState, this`snapshot, this`delivered, this`rounds, db`users
      ensures Valid()
      ensures var e := LoginSpec(old(db.users), db.settings, db.failing, creds, now);
        && reply == e.reply
        && db.users == (if e.session.Some? then old(db.users)[creds.username := e.session.value] else old(db.users))
        && authState == (if e.session.Some? then Authenticated(e.session.value) else old(authState))
        && snapshot == (if e.session.Some? then Saved(e.session.value) else old(snapshot))
        && delivered == old(delivered) + (if e.session.Some? then Round(listeners, authState) else [])
        && rounds == old(rounds) + (if e.session.Some? then 1 else 0)
    {
      var found := db.GetUserByUsername(creds.username);
      if found.Threw? {
        reply := Failure(ConnectionError);
      } else if found.value.None? {
        reply := Failure(UserNotFound);
      } else {
        var user := found.value.value;
        var stored := db.GetSetting(PasswordKey(user.id));
        if stored.Threw? {
          reply := Failure(ConnectionError);
        } else if stored.value != Some(creds.password) {
          reply := Failure(PasswordIncorrect);
        } else {
          user := user.(lastLogin := Some(now));
          var updated := db.UpdateUser(user);
          if !updated {
            reply := Failure(ConnectionError);
          } else {
            SetAuthenticatedUser(user);
            reply := Success;
          }
        }
      }
    }

    /**
     * Creates an auditor account and its password setting; never touches the session.
     * `stamp`, `suffix` and `now` stand for `Date.now()`, `Math.random()` and `new Date()`.
     */
    method Register(data: Registration, stamp: nat, suffix: string, now: Timestamp) returns (reply: Reply)
      requires Valid()
      modifies db`users, db`settings
      ensures Valid()
      ensures var id := NewUserId(stamp, suffix);
        var e := RegisterSpec(old(db.users), db.failing, data, id, now);
        && reply == e.reply
        && db.users == (if e.created.Some? then old(db.users)[data.username := e.created.value] else old(db.users))
        && db.settings == (if e.reply.Success? then old(db.settings)[PasswordKey(id) := data.password] else old(db.settings))
    {
      var existing := db.GetUserByUsername(data.username);
      if existing.Threw? {
        reply := Failure(AccountCreationFailed);
        return;
      }
      if existing.value.Some? {
        reply := Failure(UsernameTaken);
        return;
      }
      var id := NewUserId(stamp, suffix);
      var created := db.CreateUser(NewUser(data, id, now));
      if !created {
        reply := Failure(AccountCreationFailed);
        return;
      }
      var saved := db.SetSetting(PasswordKey(id), data.password);
      reply := if saved then Success else Failure(AccountCreationFailed);
    }

    /** Makes `u` the session user, persists it and notifies. */
    method SetAuthenticatedUser(u: User)
      requires db.Valid()
      modifies this`authState, this`snapshot, this`delivered, this`rounds
      ensures Valid()
      ensures authState == Authenticated(u) && snapshot == Saved(u)
      ensures delivered == old(delivered) + Round(listeners, authState)
      ensures rounds == old(rounds) + 1
    {
      authState := Authenticated(u);
      snapshot := Saved(u);
      NotifyListeners();
    }

    /** Ends the session unconditionally, erases the snapshot and notifies once. */
    method Logout()
      requires db.Valid()
      modifies this`authState, this`snapshot, this`delivered, this`rounds
      ensures Valid()
      ensures authState == LoggedOut && snapshot == Absent
      ensures delivered == old(delivered) + Round(listeners, LoggedOut)
      ensures rounds == old(rounds) + 1
    {
      authState := LoggedOut;
      snapshot := Absent;
      NotifyListeners();
    }
  }
}
