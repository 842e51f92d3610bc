/**
 * The contract of the record store that `AuthService` uses (`db` from `@/lib/db`).
 * Its implementation is not part of this model; only the calls `AuthService` makes are
 * modelled, over a map of users keyed by username and a map of string settings.
 * The field `failing` is an oracle: a call whose kind is in it throws instead of
 * completing, which is how the `catch` branches of `login` and `register` are reached.
 */
module RecordStore {
  import opened Wrappers
  import opened AuthTypes

  datatype StoreCall = GetUserByUsername | GetSetting | CreateUser | UpdateUser | SetSetting

  /** What an awaited store call does: resolve with a value or throw. */
  datatype Outcome<+T> = Done(value: T) | Threw

  const TechnicianUsername: string := "technician"
  const TechnicianPasswordKey: string := "technician_password"

  /** The settings key of a user's password: `user_password_<id>`. */
  function PasswordKey(id: string): (k: string)
    ensures |k| == |"user_password_"| + |id| && k[|"user_password_"|..] == id
  {
    "user_password_" + id
  }

  /** No per-user password key is the technician's key, whatever the id. */
  lemma PasswordKeyNotTechnician(id: string)
    ensures PasswordKey(id) != TechnicianPasswordKey
  {
    assert PasswordKey(id)[0] == 'u';
    assert TechnicianPasswordKey[0] == 't';
  }

  /** Different ids give different password keys. */
  lemma PasswordKeyInjective(a: string, b: string)
    ensures PasswordKey(a) == PasswordKey(b) ==> a == b
  {
    if PasswordKey(a) == PasswordKey(b) {
      assert a == PasswordKey(a)[|"user_password_"|..];
    }
  }

  /** Every user is stored under its own username. */
  ghost predicate WellKeyed(users: map<string, User>) {
    forall k :: k in users ==> users[k].username == k
  }

  class Store {
    var users: map<string, User>
    var settings: map<string, string>
    var failing: set<StoreCall>

    ghost predicate Valid()
      reads this
    {
      WellKeyed(users)
    }

    constructor (users: map<string, User>, settings: map<string, string>, failing: set<StoreCall>)
      requires WellKeyed(users)
      ensures Valid()
      ensures this.users == users && this.settings == settings && this.failing == failing
    {
      this.users := users;
      this.settings := settings;
      this.failing := failing;
    }

    /** The user with exactly this (case-sensitive) username, or none. */
    method GetUserByUsername(name: string) returns (r: Outcome<Option<User>>)
      requires Valid()
      ensures r.Threw? <==> StoreCall.GetUserByUsername in failing
      ensures r.Done? ==> (r.value.Some? <==> name in users)
      ensures r.Done? && r.value.Some? ==> r.value.value == users[name] && r.value.value.username == name
    {
      if StoreCall.GetUserByUsername in failing {
        r := Threw;
      } else {
        r := Done(Lookup(users, name));
      }
    }

    /** The setting stored under `key`, or none. */
    method GetSetting(key: string) returns (r: Outcome<Option<string>>)
      ensures r.Threw? <==> StoreCall.GetSetting in failing
      ensures r.Done? ==> (r.value.Some? <==> key in settings)
      ensures r.Done? && r.value.Some? ==> r.value.value == settings[key]
    {
      if StoreCall.GetSetting in failing {
        r := Threw;
      } else {
        r := Done(Lookup(settings, key));
      }
    }

    /** Stores a new user under its username. */
    method CreateUser(u: User) returns (ok: bool)
      requires Valid()
      modifies this`users
      ensures Valid()
      ensures ok <==> StoreCall.CreateUser !in failing
      ensures users == if ok then old(users)[u.username := u] else old(users)
    {
      ok := StoreCall.CreateUser !in failing;
      if ok {
        users := users[u.username := u];
      }
    }

    /** Replaces the stored record of `u.username` by `u`. */
    method UpdateUser(u: User) returns (ok: bool)
      requires Valid()
      modifies this`users
      ensures Valid()
      ensures ok <==> StoreCall.UpdateUser !in failing
      ensures users == if ok then old(users)[u.username := u] else old(users)
    {
      ok := StoreCall.UpdateUser !in failing;
      if ok {
        users := users[u.username := u];
      }
    }

    method SetSetting(key: string, value: string) returns (ok: bool)
      modifies this`settings
      ensures ok <==> StoreCall.SetSetting !in failing
      ensures settings == if ok then old(settings)[key := value] else old(settings)
    {
      ok := StoreCall.SetSetting !in failing;
      if ok {
        settings := settings[key := value];
      }
    }
  }
}
