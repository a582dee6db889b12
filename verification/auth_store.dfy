/** The session store `useAuthStore` of `src/stores/auth.ts`: an in-memory
    session (`isLoggedIn`, `user`) mirrored into one `localStorage` slot, with
    three transitions (`initAuth`, `login`, `logout`) and one query
    (`isAuthenticated`). Every transition is a pure function from the store's
    world (session plus storage) to the next one. */
module AuthStore {
  import opened Wrappers
  import opened Json
  import opened Storage

  /** The one storage key the store reads, writes and removes. */
  const AuthKey: string := "tuaran-kols-auth"

  /** The in-memory session. `user` is `null` or whatever value was adopted:
      `login` builds `{ username }`, `initAuth` takes the stored value as is. */
  datatype Session = Session(isLoggedIn: bool, user: Option<Json>)

  /** Everything a transition reads or writes: the session and the storage. */
  datatype Store = Store(session: Session, storage: Storage)

  /** The value both refs start from, and the one `logout` returns to. */
  const LoggedOut: Session := Session(false, None)

  /** The user object `login` builds: `{ username }`, with no `email`. */
  function UserObject(username: string): Json {
    JObject(map["username" := JString(username)])
  }

  /** The record `login` serialises into the slot. */
  function SavedRecord(username: string): Json {
    JObject(map["isLoggedIn" := JBool(true), "user" := UserObject(username)])
  }

  /** `user.username`, when the session has a user whose `username` is a string. */
  function UserName(s: Session): Option<string> {
    match s.user
    case None => None
    case Some(u) =>
      match Get(u, "username")
      case Defined(JString(name)) => Some(name)
      case _ => None
  }

  /** "User present iff logged in": what `login` and `logout` keep, and what
      `initAuth` does not check of the records it adopts. */
  predicate Consistent(s: Session) {
    s.user.Some? <==> s.isLoggedIn
  }

  /** The session a parsed record describes: `isLoggedIn` is the record's
      `isLoggedIn || false` and `user` its `user || null`. None when reading
      the fields throws, which happens exactly for the document `null`. */
  function Adopt(doc: Json): (r: Option<Session>)
    ensures r.None? <==> doc.JNull?
    ensures r.Some? ==> (r.value.isLoggedIn <==> TruthyAccess(Get(doc, "isLoggedIn")))
    ensures r.Some? ==> (r.value.user.Some? <==> TruthyAccess(Get(doc, "user")))
    ensures r.Some? && r.value.user.Some? ==>
              Get(doc, "user") == Defined(r.value.user.value) && Truthy(r.value.user.value)
  {
    var loggedIn := Get(doc, "isLoggedIn");
    if loggedIn.TypeError? then None
    else
      var user := Get(doc, "user");
      Some(Session(TruthyAccess(loggedIn), if TruthyAccess(user) then Some(user.value) else None))
  }

  /** The session the slot holds, if `initAuth` can read one from it: not when
      the slot is missing, holds the empty string, does not parse, or parses
      to `null`. */
  function Saved(storage: Storage): Option<Session> {
    match GetItem(storage, AuthKey)
    case None => None
    case Some(EmptyText) => None
    case Some(Unparsable) => None
    case Some(Document(doc)) => Adopt(doc)
  }

  /** `initAuth`: restore the session from the slot. A missing or empty slot is
      skipped; a parse failure (and the TypeError of reading a field of
      `null`) is caught and logged. In those cases nothing changes; otherwise
      both fields are replaced from the record. Storage is only read. */
  function InitAuth(st: Store): (r: Store)
    ensures r.storage == st.storage
    ensures AuthKey !in st.storage ==> r == st
    ensures AuthKey in st.storage && st.storage[AuthKey] in {EmptyText, Unparsable, Document(JNull)} ==> r == st
    ensures AuthKey in st.storage && st.storage[AuthKey].Document? && !st.storage[AuthKey].value.JNull? ==>
              Adopt(st.storage[AuthKey].value) == Some(r.session)
    ensures r.session.user.Some? && r.session.user != st.session.user ==> Truthy(r.session.user.value)
  {
    match Saved(st.storage)
    case None => st
    case Some(s) => st.(session := s)
  }

  /** The store as first used in a page: both refs at their initial values,
      then `initAuth` run once on whatever the storage holds. */
  function Create(storage: Storage): (r: Store)
    ensures r.storage == storage
    ensures Saved(storage).None? ==> r.session == LoggedOut
    ensures Saved(storage).Some? ==> r.session == Saved(storage).value
  {
    InitAuth(Store(LoggedOut, storage))
  }

  /** `login` after its delay has elapsed: succeeds exactly when both strings
      are non-empty (truthy). On success the session becomes logged in as
      `{ username }` and the slot is overwritten with the matching record; on
      failure nothing changes. The resolved boolean is the first component. */
  function Login(st: Store, username: string, password: string): (r: (bool, Store))
    ensures r.0 <==> |username| > 0 && |password| > 0
    ensures r.0 ==> r.1.session.isLoggedIn && UserName(r.1.session) == Some(username)
    ensures r.0 ==> r.1.session == Session(true, Some(UserObject(username)))
    ensures r.0 ==> r.1.session.user.Some? && r.1.session.user.value.JObject?
                    && "email" !in r.1.session.user.value.fields
    ensures r.0 ==> GetItem(r.1.storage, AuthKey) == Some(Document(SavedRecord(username)))
    ensures r.0 ==> SameExcept(st.storage, r.1.storage, AuthKey)
    ensures !r.0 ==> r.1 == st
  {
    if Truthy(JString(username)) && Truthy(JString(password)) then
      var session := Session(true, Some(UserObject(username)));
      (true, Store(session, SetItem(st.storage, AuthKey, Document(SavedRecord(username)))))
    else
      (false, st)
  }

  /** `logout`: clear both fields and remove the slot, whatever the state. */
  function Logout(st: Store): (r: Store)
    ensures !r.session.isLoggedIn && r.session.user.None?
    ensures GetItem(r.storage, AuthKey) == None
    ensures SameExcept(st.storage, r.storage, AuthKey)
  {
    Store(LoggedOut, RemoveItem(st.storage, AuthKey))
  }

  /** `isAuthenticated`: the computed view of `isLoggedIn`. */
  function IsAuthenticated(st: Store): bool {
    st.session.isLoggedIn
  }

  /** The record `login` writes is the session `login` sets, read back. */
  lemma AdoptSavedRecord(username: string)
    ensures Adopt(SavedRecord(username)) == Some(Session(true, Some(UserObject(username))))
  {
    var doc := SavedRecord(username);
    assert Get(doc, "isLoggedIn") == Defined(JBool(true));
    assert Get(doc, "user") == Defined(UserObject(username));
  }

  /** Round trip: after a successful `login`, a fresh store created on the same
      storage (a page reload) is logged in as the same user, and in fact holds
      exactly the session `login` set. */
  lemma LoginThenReload(st: Store, username: string, password: string)
    requires |username| > 0 && |password| > 0
    ensures var after := Login(st, username, password).1;
            && Create(after.storage).session == after.session
            && IsAuthenticated(Create(after.storage))
            && UserName(Create(after.storage).session) == Some(username)
  {
    AdoptSavedRecord(username);
  }

  /** After `logout`, a reload finds no record and starts logged out. */
  lemma LogoutThenReload(st: Store)
    ensures Create(Logout(st).storage).session == LoggedOut
    ensures !IsAuthenticated(Create(Logout(st).storage))
  {
  }

  /** `logout` is idempotent: a second call changes nothing. */
  lemma LogoutIdempotent(st: Store)
    ensures Logout(Logout(st)) == Logout(st)
  {
  }

  /** A failed `login` is invisible: no state change and no change to what a
      reload would restore. */
  lemma FailedLoginChangesNothing(st: Store, username: string, password: string)
    requires |username| == 0 || |password| == 0
    ensures !Login(st, username, password).0
    ensures Login(st, username, password).1 == st
    ensures IsAuthenticated(Login(st, username, password).1) == IsAuthenticated(st)
  {
  }

  /** `initAuth` is idempotent: running it again on the same storage changes
      nothing. */
  lemma InitAuthIdempotent(st: Store)
    ensures InitAuth(InitAuth(st)) == InitAuth(st)
  {
  }

  /** When the slot holds a readable record, `initAuth` replaces the session
      wholesale: the result does not depend on the session it started from. */
  lemma InitAuthForgetsPriorSession(s1: Session, s2: Session, storage: Storage)
    requires Saved(storage).Some?
    ensures InitAuth(Store(s1, storage)) == InitAuth(Store(s2, storage))
  {
  }

  /** `login` and `logout` each leave a consistent session, whatever they start from. */
  lemma MutatorsEstablishConsistent(st: Store, username: string, password: string)
    ensures Consistent(Logout(st).session)
    ensures Consistent(st.session) ==> Consistent(Login(st, username, password).1.session)
  {
  }

  /** The slot holds nothing, or a record `login` wrote. */
  ghost predicate RecordWellFormed(storage: Storage) {
    AuthKey in storage ==>
      exists username: string :: |username| > 0 && storage[AuthKey] == Document(SavedRecord(username))
  }

  /** On a record `login` wrote, `initAuth` keeps the session consistent. */
  lemma InitAuthPreservesConsistent(st: Store)
    requires RecordWellFormed(st.storage)
    requires Consistent(st.session)
    ensures Consistent(InitAuth(st).session)
  {
    if AuthKey in st.storage {
      var username: string :| |username| > 0 && st.storage[AuthKey] == Document(SavedRecord(username));
      AdoptSavedRecord(username);
    }
  }

  /** A record that parses to something other than an object or `null` (a
      number, string, boolean or array) has neither field, so `initAuth`
      falls back to both defaults and the session ends logged out. */
  lemma InitAuthOnNonObjectRecord(st: Store)
    requires AuthKey in st.storage && st.storage[AuthKey].Document?
    requires !st.storage[AuthKey].value.JNull? && !st.storage[AuthKey].value.JObject?
    ensures InitAuth(st).session == LoggedOut
  {
  }

  /** `initAuth` does not enforce consistency on records it did not write: a
      record with a truthy `isLoggedIn` and no `user` is adopted as a logged-in
      session without a user, and one with a user but no `isLoggedIn` as a
      logged-out session that keeps its user. */
  lemma InitAuthAdoptsInconsistentRecords(name: string)
    ensures var noUser := JObject(map["isLoggedIn" := JBool(true)]);
            var st := Create(map[AuthKey := Document(noUser)]);
            st.session.isLoggedIn && st.session.user.None? && !Consistent(st.session)
    ensures var staleUser := JObject(map["user" := UserObject(name)]);
            var st := Create(map[AuthKey := Document(staleUser)]);
            !st.session.isLoggedIn && st.session.user == Some(UserObject(name)) && !Consistent(st.session)
  {
    var noUser := JObject(map["isLoggedIn" := JBool(true)]);
    assert Get(noUser, "isLoggedIn") == Defined(JBool(true));
    assert Get(noUser, "user") == Undefined;
    var staleUser := JObject(map["user" := UserObject(name)]);
    assert Get(staleUser, "isLoggedIn") == Undefined;
    assert Get(staleUser, "user") == Defined(UserObject(name));
  }
}
