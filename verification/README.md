# Session store of the dashboard client, in Dafny

This project models `useAuthStore`, the Pinia store in `src/stores/auth.ts`
that decides whether the dashboard's user is "logged in". The store keeps two
in-memory values, `isLoggedIn` and `user`, and mirrors them into one
`localStorage` slot under the key `tuaran-kols-auth`. It offers three
transitions and one query:

- `initAuth` restores the session from the slot. It also runs once when the store is created.
- `login(username, password)` succeeds exactly when both strings are non-empty.
- `logout` clears the session and removes the slot.
- `isAuthenticated` is a computed, read-only view of `isLoggedIn`.

The model is functional. A `Store` value holds the session and the storage,
and each transition is a pure function from one `Store` to the next.

- `wrappers.dfy` defines `Option`.
- `json.dfy` defines JSON values as `JSON.parse` produces them. It also gives JavaScript truthiness (`x || d`, `a && b`) and property access. Reading a field of `null` throws; a missing field is `undefined`.
- `storage.dfy` defines `localStorage` as a map from keys to stored strings. Each string is represented by what `JSON.parse` makes of it: the empty string, a string that fails to parse, or a parsed document.
- `auth_store.dfy` holds the store itself and the lemmas about single transitions.
- `auth_trace.dfy` covers sequences of calls as the UI issues them, and the invariants that hold along every sequence.

The main results are these:

- Login round-trip. After a successful `login`, reloading the page restores exactly the session `login` set.
- Synced invariant. From a freshly created store, whatever the storage held at start, every sequence of `initAuth`/`login`/`logout`/`isAuthenticated` calls ends in a state that a page reload reproduces (`RunKeepsSynced`).
- Consistency invariant. "`user` is present iff logged in" holds along every sequence of those four calls, provided the slot starts empty or holds a record `login` wrote (`RunKeepsConsistent`).
- `initAuth` does not enforce consistency. It adopts a record's fields as they are, so a hand-written record can give a logged-in session without a user, or a logged-out session that keeps one (`InitAuthAdoptsInconsistentRecords`).

The repository's route table (`src/router/index.ts:3-31`) is static configuration. It has no `beforeEach` guard and no route carries an authorization flag. So no navigation guard exists in the code, and none is modelled.

## Model

| member | source | states |
|---|---|---|
| AuthStore.Adopt | src/stores/auth.ts:14-16 | Reading a parsed record fails exactly for the document `null`. Otherwise `isLoggedIn` is the truthiness of the record's `isLoggedIn`. `user` is present iff the record's `user` is truthy, and then it is that value verbatim, so an adopted user is never falsy |
| AuthStore.InitAuth | src/stores/auth.ts:10-21 | Storage is only read. A missing slot, an empty string, an unparsable string or the document `null` leave the whole store unchanged. Any other document replaces the session with what the record describes |
| AuthStore.Create | src/stores/auth.ts:6-7 | A new store starts logged out and runs `initAuth` once. It ends logged out unless the slot holds a readable record, in which case it holds that record's session |
| AuthStore.Login | src/stores/auth.ts:24-45 | Resolves true iff both username and password are non-empty. On success the session is exactly `{isLoggedIn: true, user: {username}}`, a user with no `email`. The slot is overwritten with `{isLoggedIn: true, user: {username}}` and every other key is untouched. On failure store and storage are unchanged |
| AuthStore.Logout | src/stores/auth.ts:48-52 | Ends with `isLoggedIn` false, no user and the slot absent, whatever the prior state. Every other key is untouched |
| AuthStore.AdoptSavedRecord | src/stores/auth.ts:34-37 | The record `login` writes reads back as the logged-in session `login` sets |
| AuthStore.LoginThenReload | src/stores/auth.ts:34-37 | After a successful `login`, a store created on the resulting storage equals the post-login session. It is authenticated and its username is the one that logged in |
| AuthStore.LogoutThenReload | src/stores/auth.ts:51 | After `logout`, a store created on the resulting storage is logged out with no user |
| AuthStore.LogoutIdempotent | src/stores/auth.ts:48-51 | Two `logout` calls give the same store as one |
| AuthStore.FailedLoginChangesNothing | src/stores/auth.ts:40-42 | An empty username or password makes `login` resolve false. It leaves the store, and so `isAuthenticated`, as they were |
| AuthStore.InitAuthIdempotent | src/stores/auth.ts:10-21 | Running `initAuth` twice on the same storage gives the same store as running it once |
| AuthStore.InitAuthForgetsPriorSession | src/stores/auth.ts:15-16 | When the slot holds a readable record, the restored session does not depend on the session before the call |
| AuthStore.MutatorsEstablishConsistent | src/stores/auth.ts:30-31 | `logout` always yields a consistent session ("user present iff logged in"). `login` preserves consistency, since on success it sets both fields together |
| AuthStore.InitAuthPreservesConsistent | src/stores/auth.ts:14-16 | On a slot that is empty or holds a record `login` wrote, `initAuth` keeps a consistent session consistent |
| AuthStore.InitAuthOnNonObjectRecord | src/stores/auth.ts:15-16 | A record that parses to a number, string, boolean or array has neither field, so the session falls back to logged out |
| AuthStore.InitAuthAdoptsInconsistentRecords | src/stores/auth.ts:15-16 | `{isLoggedIn: true}` is adopted as logged in without a user. `{user: ...}` is adopted as logged out while keeping the user. Both break consistency |
| AuthTrace.Step | src/stores/auth.ts:55 | The `isAuthenticated` query answers `isLoggedIn` and leaves the store unchanged. `login` answers whether both strings were non-empty. No call touches a storage key other than the store's own |
| AuthTrace.Run | src/stores/auth.ts:10-52 | After any sequence of calls, every storage key other than `tuaran-kols-auth` holds what it held before |
| AuthTrace.StepKeepsSynced | src/stores/auth.ts:10-52 | If the session equals what a reload would restore, it still does after any one call |
| AuthTrace.RunKeepsSynced | src/stores/auth.ts:10-52 | Starting from a synced store, every sequence of calls ends in a store whose session a page reload reproduces |
| AuthTrace.CreateIsSynced | src/stores/auth.ts:58 | A freshly created store is synced with its storage, whatever the storage holds |
| AuthTrace.InitIsNoOpWhenSynced | src/stores/auth.ts:10-21 | Calling `initAuth` again on a synced store changes nothing |
| AuthTrace.StepKeepsConsistent | src/stores/auth.ts:29-51 | Every call keeps the slot holding nothing or a `login` record, and keeps the session consistent |
| AuthTrace.RunKeepsConsistent | src/stores/auth.ts:29-51 | Consistency holds after every sequence of calls from a consistent session and a well-formed slot |
| AuthTrace.QueryAfterMutation | src/stores/auth.ts:55 | After any history, a query right after a successful sign-in answers true. A query right after a sign-out answers false |
| AuthTrace.ReplyAt | src/stores/auth.ts:55 | The reply to the k-th call is that call's reply on the store the first k calls produced |
| AuthTrace.RunAppend | src/stores/auth.ts:10-52 | Running two call sequences in turn is the same as running their concatenation |
| AuthTrace.SignInScenario | src/stores/auth.ts:24-55 | Start with nothing stored. The query answers false, `login("bob", "pw")` resolves true and the query then answers true. A reload then restores user `bob` |

## Left out

- The navigation guard: `src/router/index.ts` is a static route table with lazily imported views. It has no guard and no per-route auth requirement, so there is nothing to model.
- `localStorage` and `JSON.parse`/`JSON.stringify` are browser calls. Storage is a map from keys to abstract stored strings, each classified by what `JSON.parse` makes of it. The record `login` writes is stored as the document that parsing its serialisation gives back.
- A `setItem` that throws (for example when the storage quota is full) is not modelled. Such a throw would happen inside the timer callback and leave the promise unresolved.
- A `getItem` or `removeItem` that throws (for example when storage access is denied) is not modelled. `getItem` at `src/stores/auth.ts:11` sits outside the `try`, so its throw would escape `initAuth` and, through the call at line 58, the store's creation. `removeItem` at line 51 runs after both refs are cleared, so its throw would leave a logged-out session beside a still-present slot, which breaks the Synced invariant.
- Direct writes to the exposed `isLoggedIn` and `user` refs (returned as writable state at `src/stores/auth.ts:61-62`) and writes to the slot by other code or another tab are not modelled. Calls are only the four operations, and either kind of outside write can break both the Synced and the consistency invariants.
- The 500 ms `setTimeout` and the promise in `login`: `login` is one atomic step whose first result is the value the promise resolves to. Overlapping `login` calls are not modelled.
- Pinia's `defineStore` and Vue's `ref`/`computed` reactivity are framework machinery. The store is one value passed explicitly, and `isAuthenticated` is a function of it.
- The `console.error` logging in `initAuth` is output only.
- Truthiness of a stored `isLoggedIn` is abstracted: the session keeps a boolean, even though JavaScript would keep the truthy value itself.
- Json.Get: property access gives only an object's own fields. The `length` and index properties of strings and arrays are not modelled, because the store never reads them.
- Json numbers are reals. JSON has no NaN, so truthiness only has to test for zero.
