/**
 * What `login`, `register`, `logout` and construction promise, stated over the
 * specification functions of module Auth and over the service's methods.
 */
module AuthProperties {
  import opened Wrappers
  import opened AuthTypes
  import opened RecordStore
  import opened Auth

  /**
   * Username `technician` takes the technician path only: it succeeds exactly when the
   * password equals setting `technician_password` and a `technician` record exists, and
   * otherwise answers with the technician-password error unless a store call threw.
   */
  lemma TechnicianLoginIff(users: map<string, User>, settings: map<string, string>, failing: set<StoreCall>,
                        creds: LoginCredentials, now: Timestamp)
    requires creds.username == TechnicianUsername
    ensures var e := LoginSpec(users, settings, failing, creds, now);
      && (e.reply.Success? <==>
            StoreCall.GetSetting !in failing && StoreCall.GetUserByUsername !in failing &&
            Lookup(settings, TechnicianPasswordKey) == Some(creds.password) && TechnicianUsername in users)
      && (e.session.Some? ==> e.session.value == users[TechnicianUsername])
      && (e.reply.Failure? && StoreCall.GetSetting !in failing && StoreCall.GetUserByUsername !in failing ==>
            e.reply.error == TechnicianPasswordIncorrect)
  {
  }

  /** Even a matching technician password fails when no `technician` record exists. */
  lemma TechnicianRecordMissing(users: map<string, User>, settings: map<string, string>, failing: set<StoreCall>,
                                creds: LoginCredentials, now: Timestamp)
    requires creds.username == TechnicianUsername && TechnicianUsername !in users
    requires Lookup(settings, TechnicianPasswordKey) == Some(creds.password)
    requires StoreCall.GetUserByUsername !in failing && StoreCall.GetSetting !in failing
    ensures LoginSpec(users, settings, failing, creds, now) == LoginEffect(Failure(TechnicianPasswordIncorrect), None)
  {
  }

  /**
   * The technician path never reads a `user_password_*` setting: settings that agree on
   * `technician_password` give the same outcome.
   */
  lemma TechnicianIgnoresUserPasswords(users: map<string, User>, s1: map<string, string>, s2: map<string, string>,
                                       failing: set<StoreCall>, creds: LoginCredentials, now: Timestamp)
    requires creds.username == TechnicianUsername
    requires Lookup(s1, TechnicianPasswordKey) == Lookup(s2, TechnicianPasswordKey)
    ensures LoginSpec(users, s1, failing, creds, now) == LoginSpec(users, s2, failing, creds, now)
  {
  }

  /**
   * A standard login succeeds exactly when the user exists and setting
   * `user_password_<id>` equals the password (and no store call throws); the session user
   * is then the stored record with `lastLogin` set to the supplied time.
   */
  lemma StandardLoginIff(users: map<string, User>, settings: map<string, string>, failing: set<StoreCall>,
                      creds: LoginCredentials, now: Timestamp)
    requires creds.username != TechnicianUsername
    ensures var e := LoginSpec(users, settings, failing, creds, now);
      && (e.reply.Success? <==>
            StoreCall.GetUserByUsername !in failing && StoreCall.GetSetting !in failing &&
            StoreCall.UpdateUser !in failing && creds.username in users &&
            Lookup(settings, PasswordKey(users[creds.username].id)) == Some(creds.password))
      && (e.session.Some? ==> e.session.value == users[creds.username].(lastLogin := Some(now)))
  {
  }

  /**
   * The errors of a standard login when the store does not throw: an unknown username, and a
   * password that differs from the stored one (a missing stored password never matches).
   */
  lemma StandardLoginErrors(users: map<string, User>, settings: map<string, string>,
                            creds: LoginCredentials, now: Timestamp)
    requires creds.username != TechnicianUsername
    ensures creds.username !in users ==>
      LoginSpec(users, settings, {}, creds, now).reply == Failure(UserNotFound)
    ensures creds.username in users && PasswordKey(users[creds.username].id) !in settings ==>
      LoginSpec(users, settings, {}, creds, now).reply == Failure(PasswordIncorrect)
    ensures creds.username in users && Lookup(settings, PasswordKey(users[creds.username].id)) != Some(creds.password) ==>
      LoginSpec(users, settings, {}, creds, now).reply == Failure(PasswordIncorrect)
  {
  }

  /**
   * Every store call that throws once `login` reaches it is reported as the connection
   * error, never as a session; and the connection error arises only from a throwing call.
   */
  lemma LoginStoreFailure(users: map<string, User>, settings: map<string, string>, failing: set<StoreCall>,
                          creds: LoginCredentials, now: Timestamp)
    ensures var e := LoginSpec(users, settings, failing, creds, now);
      (StoreCall.GetSetting in failing || StoreCall.GetUserByUsername in failing) ==> e.reply.Failure? && e.session.None?
    // the technician path: `getSetting('technician_password')`, then `getUserByUsername('technician')`
    ensures var e := LoginSpec(users, settings, failing, creds, now);
      creds.username == TechnicianUsername && StoreCall.GetSetting in failing ==>
        e.reply == Failure(ConnectionError)
    ensures var e := LoginSpec(users, settings, failing, creds, now);
      (creds.username == TechnicianUsername && StoreCall.GetSetting !in failing
       && Lookup(settings, TechnicianPasswordKey) == Some(creds.password)
       && StoreCall.GetUserByUsername in failing) ==>
        e.reply == Failure(ConnectionError)
    // the standard path: `getUserByUsername`, then `getSetting`, then `updateUser`
    ensures var e := LoginSpec(users, settings, failing, creds, now);
      creds.username != TechnicianUsername && StoreCall.GetUserByUsername in failing ==>
        e.reply == Failure(ConnectionError)
    ensures var e := LoginSpec(users, settings, failing, creds, now);
      (creds.username != TechnicianUsername && StoreCall.GetUserByUsername !in failing
       && creds.username in users && StoreCall.GetSetting in failing) ==>
        e.reply == Failure(ConnectionError)
    ensures var e := LoginSpec(users, settings, failing, creds, now);
      (creds.username != TechnicianUsername && StoreCall.GetUserByUsername !in failing
       && creds.username in users && StoreCall.GetSetting !in failing
       && Lookup(settings, PasswordKey(users[creds.username].id)) == Some(creds.password)
       && StoreCall.UpdateUser in failing) ==>
        e.reply == Failure(ConnectionError)
    ensures var e := LoginSpec(users, settings, failing, creds, now);
      e.reply == Failure(ConnectionError) ==>
        StoreCall.GetSetting in failing || StoreCall.GetUserByUsername in failing || StoreCall.UpdateUser in failing
  {
  }

  /** A taken username is refused with the duplicate error, and nothing is created. */
  lemma RegisterTaken(users: map<string, User>, failing: set<StoreCall>, data: Registration, id: string, now: Timestamp)
    requires data.username in users && StoreCall.GetUserByUsername !in failing
    ensures RegisterSpec(users, failing, data, id, now) == RegisterEffect(Failure(UsernameTaken), None)
  {
  }

  /**
   * A successful registration adds exactly one user, an auditor under the requested
   * username with the new id, and leaves every other user as it was.
   */
  lemma {:induction false} RegisterAddsOneAuditor(users: map<string, User>, failing: set<StoreCall>, data: Registration,
                                                  id: string, now: Timestamp)
    requires RegisterSpec(users, failing, data, id, now).reply.Success?
    ensures var u := RegisterSpec(users, failing, data, id, now).created.value;
      var after := users[data.username := u];
      && u.role == Auditor && u.id == id && u.username == data.username && u.lastLogin.None?
      && after.Keys == users.Keys + {data.username} && |after| == |users| + 1
      && (forall k :: k in users ==> after[k] == users[k])
  {
    var u := RegisterSpec(users, failing, data, id, now).created.value;
    assert data.username !in users;
    assert users[data.username := u].Keys == users.Keys + {data.username};
  }

  /**
   * When storing the password throws after the record was created, `register` reports
   * failure yet the account exists, with no password setting: the username is taken from
   * then on and no standard login for it can succeed.
   */
  lemma RegisterPasswordLost(users: map<string, User>, settings: map<string, string>, failing: set<StoreCall>,
                             data: Registration, id: string, now: Timestamp, creds: LoginCredentials, later: Timestamp)
    requires StoreCall.GetUserByUsername !in failing && StoreCall.CreateUser !in failing && StoreCall.SetSetting in failing
    requires data.username !in users && data.username != TechnicianUsername
    requires PasswordKey(id) !in settings
    requires creds.username == data.username
    ensures var e := RegisterSpec(users, failing, data, id, now);
      && e == RegisterEffect(Failure(AccountCreationFailed), Some(NewUser(data, id, now)))
      && LoginSpec(users[data.username := e.created.value], settings, {}, creds, later).reply == Failure(PasswordIncorrect)
      && RegisterSpec(users[data.username := e.created.value], {}, data, id, now).reply == Failure(UsernameTaken)
  {
  }

  /**
   * Registering a username other than `technician` and then logging in with the same
   * username and password succeeds and authenticates the new account.
   */
  lemma RegisterThenLogin(users: map<string, User>, settings: map<string, string>, data: Registration,
                          id: string, now: Timestamp, later: Timestamp)
    requires data.username !in users && data.username != TechnicianUsername
    ensures var e := RegisterSpec(users, {}, data, id, now);
      var login := LoginSpec(users[data.username := e.created.value], settings[PasswordKey(id) := data.password], {},
                             LoginCredentials(data.username, data.password), later);
      && e.reply == Success
      && login.reply == Success
      && login.session == Some(NewUser(data, id, now).(lastLogin := Some(later)))
  {
  }

  /**
   * The username `technician` can be registered while no record holds it, but the account
   * is then reached through the technician path: its own password is refused unless it
   * equals `technician_password`, and the master password logs in as this new auditor.
   */
  lemma RegisterTechnicianName(users: map<string, User>, settings: map<string, string>, data: Registration,
                               id: string, now: Timestamp, later: Timestamp, master: string)
    requires data.username == TechnicianUsername && TechnicianUsername !in users
    requires Lookup(settings, TechnicianPasswordKey) == Some(master)
    ensures var e := RegisterSpec(users, {}, data, id, now);
      && e.reply == Success
      && e.created == Some(NewUser(data, id, now)) && e.created.value.role == Auditor
    ensures var after := settings[PasswordKey(id) := data.password];
      var users' := users[data.username := NewUser(data, id, now)];
      data.password != master ==>
        LoginSpec(users', after, {}, LoginCredentials(data.username, data.password), later).reply
          == Failure(TechnicianPasswordIncorrect)
    ensures var after := settings[PasswordKey(id) := data.password];
      var users' := users[data.username := NewUser(data, id, now)];
      LoginSpec(users', after, {}, LoginCredentials(TechnicianUsername, master), later)
        == LoginEffect(Success, Some(NewUser(data, id, now)))
  {
    PasswordKeyNotTechnician(id);
  }

  /** Registration never overwrites the technician password. */
  lemma RegisterKeepsTechnicianPassword(settings: map<string, string>, stamp: nat, suffix: string, password: string)
    ensures Lookup(settings[PasswordKey(NewUserId(stamp, suffix)) := password], TechnicianPasswordKey)
         == Lookup(settings, TechnicianPasswordKey)
  {
    PasswordKeyNotTechnician(NewUserId(stamp, suffix));
  }

  /** Logging out twice leaves the same state as logging out once, and each call notifies once. */
  method LogoutTwice(svc: AuthService)
    requires svc.Valid()
    modifies svc`authState, svc`snapshot, svc`delivered, svc`rounds
    ensures svc.Valid()
    ensures svc.authState == LoggedOut && svc.snapshot == Absent
    ensures svc.rounds == old(svc.rounds) + 2
  {
    svc.Logout();
    var once, snapOnce := svc.authState, svc.snapshot;
    svc.Logout();
    assert svc.authState == once && svc.snapshot == snapOnce;
  }

  /** After logout, a service constructed on the same storage starts with no user. */
  method RestartAfterLogout(svc: AuthService) returns (restarted: AuthService)
    requires svc.Valid()
    modifies svc`authState, svc`snapshot, svc`delivered, svc`rounds
    ensures restarted.Valid() && restarted.authState == LoggedOut && !restarted.IsAuthenticated()
  {
    svc.Logout();
    restarted := new AuthService(svc.db, svc.snapshot);
  }
}
