# Tama Auditor: session manager and service-worker cache, modelled in Dafny

This project models the two stateful components of the Tama Auditor client, an
offline-first application for field inspectors, and proves what they promise.

- **`AuthService`** (src/lib/auth.ts) is the session state machine. It holds one session
  state `{user, isAuthenticated, isLoading}`, a list of subscribed listeners and a
  persisted snapshot of the session user under the localStorage key `tama_auditor_user`.
  It checks credentials against a record store of users and settings. `technician_password`
  is the global technician secret and `user_password_<id>` is each user's password.
- **The service worker** (public/sw.js) handles the cache. Install pre-caches a fixed
  manifest under the generation `tama-auditor-v1`. Fetch is served cache-first, searching
  every cache, with a network fallback. Activate deletes every other generation. Sync
  reacts to one tag, and push shows a notification with a fallback body.

Files:

- `wrappers.dfy`: `Option` and map lookup.
- `auth_types.dfy`: `User`, `LoginCredentials`, `AuthState`, the error cases and their messages.
- `record_store.dfy`: the record store as a class over two maps. A `failing` oracle says
  which kinds of store call throw.
- `auth_service.dfy`: the `AuthService` class. It also holds `LoginSpec` and
  `RegisterSpec`, the pure functions that say what `login` and `register` decide.
- `auth_properties.dfy`: lemmas about login and registration, and two client methods for
  logout.
- `caches.dfy`: the Cache API as the worker uses it. Cache storage is an ordered list of
  named caches, and `caches.match` searches them in order, as in the W3C Service Workers
  specification.
- `service_worker.dfy`: the event handlers and their lemmas.

How the model is built:

- Each asynchronous operation is one atomic method.
- `Date.now()`, `Math.random()` and `new Date()` become parameters.
- A store call throws exactly when its kind is in the store's `failing` set. Each kind of
  call happens at most once per `login` or `register`, so this reaches every `catch` branch.
- `AuthService.Valid()` is the invariant every operation keeps: `isAuthenticated == (user != null)`,
  a session user is the user in the persisted snapshot, and the store is keyed by username.
  It holds for every snapshot the service itself writes (a user record, written at
  src/lib/auth.ts:142). A hand-edited snapshot can break it in the source; see "## Left out".
- Every listener call is recorded in `delivered`, as the listener and the state value it
  received. `rounds` counts the runs of `notifyListeners`.

Behaviours of the code that one might not expect, which the model keeps as written:

- One might expect fetch to consult only the current generation's cache. The code calls
  `caches.match`, which searches every cache in storage. So an older generation that has
  not been deleted yet shadows a fresh install (`ServiceWorker.StaleGenerationShadows`).
- One might expect every registered user to have a password setting. The code writes the
  password after creating the user, so a throwing `setSetting` leaves an account with no
  password and reports failure (`AuthProperties.RegisterPasswordLost`).
- One might expect `login` to notify once at the end besides the leading announcement. The
  code notifies three times on success: the leading call, `setAuthenticatedUser`, and
  `finally`. It notifies twice on failure.
- One might expect the fallback push body only when the payload is absent. The code's `||`
  also uses it for an empty text.
- One might expect a registered account to log in with its own password. While no record
  is called `technician`, `register` accepts that username and creates an auditor, but
  `login` sends the name `technician` down the technician path. The account's own password
  is then refused unless it equals `technician_password`, and the master password logs in
  as this self-registered auditor (`AuthProperties.RegisterTechnicianName`).

## Model

| member | source | states |
|---|---|---|
| AuthTypes.Message | src/lib/auth.ts:77-131 | each error case carries its fixed non-empty French message, from which the error can be read back |
| AuthTypes.MessagesDistinct | src/lib/auth.ts:77-131 | the six error messages `login` and `register` return are pairwise different, so each names one error case |
| RecordStore.PasswordKeyNotTechnician | src/lib/auth.ts:69-85 | no `user_password_<id>` key equals `technician_password`, whatever the id |
| RecordStore.PasswordKey | src/lib/auth.ts:85 | the key `user_password_<id>` that login reads and register writes (auth.ts:126) ends with exactly the user's id |
| RecordStore.PasswordKeyInjective | src/lib/auth.ts:126 | different user ids give different password keys |
| RecordStore.Store.GetUserByUsername | src/lib/auth.ts:80 | returns the record stored under exactly that username, or none, and throws only when the oracle says so |
| RecordStore.Store.GetSetting | src/lib/auth.ts:85 | returns the setting under the key, or none (a missing key), and throws only when the oracle says so |
| RecordStore.Store.CreateUser | src/lib/auth.ts:125 | adds the user under its username, or throws and changes nothing; keys stay usernames |
| RecordStore.Store.UpdateUser | src/lib/auth.ts:91 | replaces the record under the user's username, or throws and changes nothing |
| RecordStore.Store.SetSetting | src/lib/auth.ts:126 | writes the one setting, or throws and changes nothing |
| Auth.Authenticated | src/lib/auth.ts:135-140 | the state `setAuthenticatedUser` installs is coherent, holds that user and is not loading |
| Auth.Round | src/lib/auth.ts:55-57 | one notification calls every listener once, in list order, each with the same state |
| Auth.Without | src/lib/auth.ts:50-52 | the unsubscribe closure removes every occurrence of the listener and keeps every other listener's count |
| Auth.WithoutAppend | src/lib/auth.ts:51 | filtering distributes over concatenation, so the remaining listeners keep their order |
| Auth.WithoutAbsent | src/lib/auth.ts:51 | unsubscribing a listener that is not subscribed changes nothing, so a second unsubscribe is a no-op |
| Auth.Decimal | src/lib/auth.ts:117 | the timestamp in a new id is a non-empty string of decimal digits that reads back as that timestamp |
| Auth.DecimalInjective | src/lib/auth.ts:117 | ids built at different milliseconds carry different digit strings |
| Auth.NewUser | src/lib/auth.ts:116-123 | the account register creates is an auditor with the generated id, the requested username, name and email, created at `now` and never logged in |
| Auth.NewUserId | src/lib/auth.ts:117 | a new id starts with `user_` and ends with the random suffix |
| Auth.LoginSpec | src/lib/auth.ts:63-101 | login succeeds exactly when it yields a session user, and that user carries the id of the stored record of the submitted username |
| Auth.RegisterSpec | src/lib/auth.ts:104-133 | registration succeeds only by creating a record, and it creates one only for a free username and only with role auditor |
| Auth.AuthService.constructor | src/lib/auth.ts:9-25 | a new service starts loading and runs initialization before any listener exists: a saved snapshot gives `{user, true, false}`, otherwise `{null, false, false}` |
| Auth.AuthService.InitializeAuth | src/lib/auth.ts:27-46 | a valid snapshot restores `{user, true, false}`; an absent or corrupt one only clears `isLoading`; exactly one notification either way; the invariant is kept |
| Auth.AuthService.Subscribe | src/lib/auth.ts:48-49 | the listener is appended to the end of the list |
| Auth.AuthService.Unsubscribe | src/lib/auth.ts:50-52 | the list becomes the old list without that listener |
| Auth.AuthService.NotifyListeners | src/lib/auth.ts:55-57 | the log grows by exactly one call per listener, in list order, with the current state; nothing else changes |
| Auth.AuthService.GetAuthState | src/lib/auth.ts:59-61 | the state handed out always satisfies `isAuthenticated == (user != null)` |
| Auth.AuthService.GetCurrentUser | src/lib/auth.ts:157-159 | there is a current user exactly when the session is authenticated |
| Auth.AuthService.IsAuthenticated | src/lib/auth.ts:161-163 | the flag is true exactly when there is a session user |
| Auth.AuthService.IsTechnician | src/lib/auth.ts:165-167 | true exactly when the session is authenticated with a user whose role is technician |
| Auth.AuthService.Login | src/lib/auth.ts:63-101 | reply, store, state, snapshot and listener log are those `LoginSpec` decides. Success notifies three times and authenticates, persisting the user. Failure notifies twice and leaves user, flag and snapshot as before, with `isLoading` false |
| Auth.AuthService.TechnicianLogin | src/lib/auth.ts:68-78 | the technician path authenticates the stored `technician` record unchanged, or changes nothing |
| Auth.AuthService.StandardLogin | src/lib/auth.ts:80-93 | the standard path stores and authenticates the record with `lastLogin` set, or changes nothing |
| Auth.AuthService.Register | src/lib/auth.ts:104-133 | store changes are those `RegisterSpec` decides; the password is written only on success; the session, snapshot, listeners and log are not touched |
| Auth.AuthService.SetAuthenticatedUser | src/lib/auth.ts:135-144 | the state becomes `{user, true, false}`, the snapshot holds the user, one notification |
| Auth.AuthService.Logout | src/lib/auth.ts:146-155 | the state becomes `{null, false, false}`, the snapshot is removed, exactly one notification, whatever the state before |
| AuthProperties.TechnicianLoginIff | src/lib/auth.ts:68-78 | username `technician` succeeds iff the password equals `technician_password` and a `technician` record exists; the session user is that record untouched; without store faults every failure is the technician-password error |
| AuthProperties.TechnicianRecordMissing | src/lib/auth.ts:70-77 | a matching technician password with no `technician` record fails with the technician-password error and no session |
| AuthProperties.TechnicianIgnoresUserPasswords | src/lib/auth.ts:68-78 | the technician path's outcome depends on no setting but `technician_password`, so it never reads `user_password_*` |
| AuthProperties.StandardLoginIff | src/lib/auth.ts:80-93 | a standard login succeeds iff the user exists and `user_password_<id>` equals the password (no store fault); the session user is the record with `lastLogin` = the supplied time |
| AuthProperties.StandardLoginErrors | src/lib/auth.ts:80-88 | unknown username gives the user-not-found error; a missing or different stored password gives the wrong-password error |
| AuthProperties.LoginStoreFailure | src/lib/auth.ts:68-97 | each store call that throws once login reaches it (`getSetting` and `getUserByUsername` on the technician path; `getUserByUsername`, `getSetting` and `updateUser` on the standard path) yields the connection error and no session; the connection error arises only from a throwing call |
| AuthProperties.RegisterTaken | src/lib/auth.ts:111-114 | a taken username gives the duplicate error and creates nothing |
| AuthProperties.RegisterAddsOneAuditor | src/lib/auth.ts:116-127 | success adds exactly one user, an auditor with the new id under the requested username, and keeps every other user |
| AuthProperties.RegisterPasswordLost | src/lib/auth.ts:125-131 | if writing the password throws, registration reports failure yet the account exists; its username is taken and no login for it succeeds |
| AuthProperties.RegisterThenLogin | src/lib/auth.ts:116-126 | for any username other than `technician`, after a successful registration, logging in with the same username and password succeeds and authenticates the new account |
| AuthProperties.RegisterTechnicianName | src/lib/auth.ts:68-126 | with no `technician` record, registering `technician` succeeds and creates an auditor; logging in with its own password then fails with the technician-password error unless it equals `technician_password`, and the master password authenticates this auditor |
| AuthProperties.RegisterKeepsTechnicianPassword | src/lib/auth.ts:126 | registration never changes `technician_password` |
| AuthProperties.LogoutTwice | src/lib/auth.ts:146-155 | logging out twice gives the same state and snapshot as once, with one notification per call |
| AuthProperties.RestartAfterLogout | src/lib/auth.ts:27-46 | after logout, a service started on the same storage has no user and is not authenticated |
| Caches.Names | public/sw.js:41 | `caches.keys()` lists every cache's name, in storage order |
| Caches.Opened | public/sw.js:16 | after `caches.open(name)` a cache with that name exists |
| Caches.OpenedEntries | public/sw.js:16 | opening creates at most an empty cache under that name and changes no other cache |
| Caches.Batch | public/sw.js:19 | `addAll` writes exactly the manifest URLs, each with the network's response |
| Caches.Stored | public/sw.js:19 | a put keeps the list of cache names |
| Caches.StoredEntries | public/sw.js:19 | a put adds the batch to the named cache and leaves every other cache as it was |
| Caches.Drop | public/sw.js:46 | deleting caches never adds one |
| Caches.DropEntries | public/sw.js:46 | deleting removes exactly the named caches and keeps the contents of every other one |
| Caches.DropDrop | public/sw.js:43-47 | deleting caches one after another is deleting them all at once |
| Caches.FirstHit | public/sw.js:27 | the search finds a response iff some cache holds the URL, and returns the entry of the first such cache in order |
| Caches.MatchAll | public/sw.js:27 | `caches.match` finds a response iff the request is a GET and some cache holds its URL; it returns the first cache's entry |
| Caches.FirstHitAppend | public/sw.js:27 | a cache created later is consulted only when no earlier cache holds the URL |
| Caches.CacheStorage.Keys | public/sw.js:41 | returns the cache names in storage order |
| Caches.CacheStorage.Open | public/sw.js:16 | reuses an existing cache or appends an empty one; names stay distinct |
| Caches.AddAllSucceeds | public/sw.js:19 | `addAll` fulfils only when every URL is fetched with an ok status other than 206, and then writes one entry per requested URL |
| Caches.DistinctCount | public/sw.js:19 | a URL list with no repeats names as many URLs as it has elements |
| Caches.CacheStorage.AddAll | public/sw.js:19 | all-or-nothing: it succeeds iff no URL repeats and every fetch answers with an ok status other than 206; on failure storage is unchanged |
| Caches.CacheStorage.Delete | public/sw.js:46 | reports whether the cache existed and removes it, keeping the others in order |
| ServiceWorker.ManifestDistinct | public/sw.js:2-11 | `urlsToCache` has no repeated URL, so install fails only when some fetch fails |
| ServiceWorker.Install | public/sw.js:14-22 | succeeds iff every manifest URL can be fetched (no repeats); success writes them all into the generation; failure leaves only what `open` created |
| ServiceWorker.OnInstall | public/sw.js:1-22 | the install listener opens `tama-auditor-v1` and succeeds exactly when all eight manifest URLs are fetched with an acceptable status, storing them there |
| ServiceWorker.HandleFetch | public/sw.js:25-36 | a GET held by any cache is answered with the first cache's entry; otherwise the network's answer |
| ServiceWorker.Victims | public/sw.js:43-44 | the names activate deletes are exactly those listed other than the current generation |
| ServiceWorker.Stale | public/sw.js:41-48 | the stale caches are every cache name in storage except the current generation |
| ServiceWorker.Activate | public/sw.js:39-52 | storage becomes the old storage with every non-current cache deleted |
| ServiceWorker.OnActivate | public/sw.js:39-52 | the activate listener deletes every cache but `tama-auditor-v1`, so no other name remains |
| ServiceWorker.DeleteUnlessCurrent | public/sw.js:43-47 | one step of activate deletes the cache unless it is the current generation |
| ServiceWorker.OnSync | public/sw.js:55-64 | only the tag `sync-audit-data` runs the audit sync, and the handler changes no cache |
| ServiceWorker.PushNotification | public/sw.js:67-81 | the body is the payload text when it is present and non-empty, `Nouvelle notification` otherwise; title `Tama Auditor`, icon and badge `/icon-192.png` |
| ServiceWorker.InstallFillsGeneration | public/sw.js:16-20 | after a successful install the generation has an entry for every manifest URL, with the fetched response |
| ServiceWorker.InstallKeepsOthers | public/sw.js:16-20 | install, successful or not, changes no cache but its own generation |
| ServiceWorker.FailedInstallAddsNothing | public/sw.js:16-19 | a failed install adds no entry; at most an empty generation cache appears |
| ServiceWorker.CacheHitIgnoresNetwork | public/sw.js:27-32 | on a cache hit fetch answers the same whatever the network does |
| ServiceWorker.InstalledServedOffline | public/sw.js:27-33 | after a successful install, every manifest URL is answered from cache even with no network at all |
| ServiceWorker.StaleGenerationShadows | public/sw.js:27-33 | an older generation still present answers before a freshly installed one; after activate the new entry is served |
| ServiceWorker.OnlyGenerationLeft | public/sw.js:39-51 | after activate no cache name but the current generation remains |
| ServiceWorker.ActivateKeepsCurrent | public/sw.js:39-51 | activate leaves the current generation's contents unchanged |
| ServiceWorker.ActivateIdempotent | public/sw.js:39-51 | a second activate finds nothing to delete and changes nothing |
| ServiceWorker.ActivateLeavesOne | public/sw.js:39-51 | with a current generation present, activate leaves exactly that one cache with its entries |
| ServiceWorker.ServedAfterCutover | public/sw.js:14-51 | after install and activate, each manifest URL is answered from the new generation with the response the install fetched |
| ServiceWorker.Cutover | public/sw.js:14-51 | activate runs only after a successful install; the cut-over succeeds iff `addAll` does; on success only the new generation is left and it serves the whole manifest without the network; on failure the old generations stay, beside the cache `open` created |

## Left out

- The `useAuth` React hook (src/lib/auth.ts:172-187) and the React imports are UI glue.
- The `getInstance` singleton (src/lib/auth.ts:16-21, 170) is left out. The model uses one explicitly constructed `AuthService`.
- `console.log` and `console.error` calls only log, so they are left out.
- The implementation of `@/lib/db` is not part of this model, only the calls made to it.
  `updateUser` is modelled as a put keyed by username, and it is only called on a record
  just read from the store.
- JSON serialisation of the snapshot is abstracted as `Absent | Corrupt | Saved(user)`.
  - An empty stored string is falsy in the source and counts as `Absent`.
  - A `getItem` that throws is handled by the same `catch`, so it counts as `Corrupt`.
  - Stored JSON that parses to something other than a user record is not represented. In the source,
    `initializeAuth` (src/lib/auth.ts:30-36) installs `{user: <parsed value>, isAuthenticated: true,
    isLoading: false}` for any non-empty text that parses; the text `null` gives `{null, true, false}`,
    which breaks `isAuthenticated == (user != null)`. The service never writes such a text itself
    (src/lib/auth.ts:142 stores a user record), so `Valid()` is proved only for snapshots it writes.
- localStorage `setItem` and `removeItem` are assumed not to throw (quota, storage disabled).
- Listeners have no effect on the service: in the model a listener is only an id. In the source
  `forEach` (src/lib/auth.ts:56) reads `this.authState` anew for each listener, so a listener that calls
  `login` or `logout` mid-round changes the state later listeners receive, while `Auth.Round` gives every
  listener of one round the same state. Re-entrant calls from listeners are not modelled.
- Listeners are assumed to return normally. In the source a
  throwing listener cuts the `forEach` round short (src/lib/auth.ts:56), and the effect depends on where:
  - in `login`'s leading notification (auth.ts:66) the `catch` returns the connection error;
  - inside `setAuthenticatedUser` (auth.ts:143) the same `catch` runs after the session is already
    authenticated and persisted, so `login` reports failure while `{user, true, false}` and the snapshot stay;
  - in the `finally` notification (auth.ts:100) `login` rejects instead of returning its result;
  - in `logout` (auth.ts:154) the call rejects after the state has been cleared.
  So `AuthProperties.LoginStoreFailure`'s converse (the connection error comes only from a throwing store
  call) holds for the model, not for a source whose listeners throw.
- Listeners receive `this.authState`, a reference to a mutable object. The model records the state's value at each call, so aliasing is not modelled.
  In the source, on a failed login the object passed by the leading notification is the one `finally` later
  mutates; on success `setAuthenticatedUser` replaces it (auth.ts:136), so the leading notification's object
  keeps `isLoading` true and `finally` mutates the new one (auth.ts:99).
- Overlapping asynchronous calls and interleaving at `await` points are not modelled. Each operation is atomic.
- Dates are integer milliseconds. The base-36 text drawn from `Math.random()` is passed in as the id suffix.
- `event.waitUntil`, `event.respondWith`, `showNotification` and real Cache and network I/O are host plumbing.
  The push notification's `vibrate` and `data` fields are left out too.
- The `notificationclick` handler (public/sw.js:85-90) only closes the notification and opens a window, so it is left out.
- Request matching is by method and URL only. Query-string, `Vary` and opaque-response rules are not modelled.
- A failing `caches.open` and storage quotas are not modelled.
- src/types/audit.ts only declares interfaces, and its numeric fields are floats.
- `TechnicianAccess` (src/types/auth.ts:22-26) is declared but never used.
- Auth.AuthService.GetAuthState: returns the state value. The source returns the live object, which later operations mutate.
- ServiceWorker.OnSync: `syncAuditData` only logs, so the model states only which tag starts it.
  Retry on failure belongs to the host.
