/** Sequences of calls into the session store, as the UI issues them one at a
    time, and the invariants that hold along every such sequence. */
module AuthTrace {
  import opened Wrappers
  import opened Json
  import opened Storage
  import opened AuthStore

  /** One call into the store. */
  datatype Call =
    | Init
    | SignIn(username: string, password: string)
    | SignOut
    | Query

  /** What a call gives back: `login` resolves and `isAuthenticated` answers a
      boolean, the other two return nothing. */
  datatype Reply = Done | Answer(value: bool)

  /** One call, with its reply. The query is read-only and reports `isLoggedIn`. */
  function Step(st: Store, c: Call): (r: (Store, Reply))
    ensures c.Query? ==> r.0 == st && r.1 == Answer(st.session.isLoggedIn)
    ensures c.SignIn? ==> r.1 == Answer(|c.username| > 0 && |c.password| > 0)
    ensures c.Init? || c.SignOut? ==> r.1 == Done
    ensures SameExcept(st.storage, r.0.storage, AuthKey)
  {
    match c
    case Init => (InitAuth(st), Done)
    case SignIn(u, p) =>
      var (ok, next) := Login(st, u, p);
      (next, Answer(ok))
    case SignOut => (Logout(st), Done)
    case Query => (st, Answer(IsAuthenticated(st)))
  }

  /** The store after a whole sequence of calls. No call touches any storage
      key but the store's own. */
  function Run(st: Store, calls: seq<Call>): (r: Store)
    ensures SameExcept(st.storage, r.storage, AuthKey)
    decreases |calls|
  {
    if |calls| == 0 then st else Run(Step(st, calls[0]).0, calls[1..])
  }

  /** The replies of a sequence of calls, one per call. */
  function Replies(st: Store, calls: seq<Call>): (r: seq<Reply>)
    ensures |r| == |calls|
    decreases |calls|
  {
    if |calls| == 0 then [] else [Step(st, calls[0]).1] + Replies(Step(st, calls[0]).0, calls[1..])
  }

  /** The in-memory session is what a page reload would restore from storage. */
  predicate Synced(st: Store) {
    st.session == Create(st.storage).session
  }

  /** Each call keeps the session in step with storage. */
  lemma StepKeepsSynced(st: Store, c: Call)
    requires Synced(st)
    ensures Synced(Step(st, c).0)
  {
    match c
    case Init =>
    case SignIn(u, p) =>
      if |u| > 0 && |p| > 0 {
        LoginThenReload(st, u, p);
      }
    case SignOut =>
      LogoutThenReload(st);
    case Query =>
  }

  /** Persistence: from a freshly created store, whatever the storage held at
      start, every sequence of calls ends in a state a reload reproduces. */
  lemma {:induction false} RunKeepsSynced(st: Store, calls: seq<Call>)
    requires Synced(st)
    ensures Synced(Run(st, calls))
    decreases |calls|
  {
    if |calls| > 0 {
      StepKeepsSynced(st, calls[0]);
      RunKeepsSynced(Step(st, calls[0]).0, calls[1..]);
    }
  }

  /** A freshly created store is in step with its storage. */
  lemma CreateIsSynced(storage: Storage)
    ensures Synced(Create(storage))
  {
  }

  /** In a synced store, `initAuth` changes nothing. */
  lemma InitIsNoOpWhenSynced(st: Store)
    requires Synced(st)
    ensures Step(st, Init).0 == st
  {
  }

  /** Each call keeps the slot well formed and the session consistent. */
  lemma StepKeepsConsistent(st: Store, c: Call)
    requires RecordWellFormed(st.storage) && Consistent(st.session)
    ensures RecordWellFormed(Step(st, c).0.storage) && Consistent(Step(st, c).0.session)
  {
    match c
    case Init =>
      InitAuthPreservesConsistent(st);
    case SignIn(u, p) =>
      var next := Step(st, c).0;
      if |u| > 0 && |p| > 0 {
        assert next.storage[AuthKey] == Document(SavedRecord(u));
      }
    case SignOut =>
    case Query =>
  }

  /** "User present iff logged in" holds along every sequence of calls that
      starts from a consistent session and a slot holding nothing or a record
      `login` wrote. */
  lemma {:induction false} RunKeepsConsistent(st: Store, calls: seq<Call>)
    requires RecordWellFormed(st.storage) && Consistent(st.session)
    ensures RecordWellFormed(Run(st, calls).storage) && Consistent(Run(st, calls).session)
    decreases |calls|
  {
    if |calls| > 0 {
      StepKeepsConsistent(st, calls[0]);
      RunKeepsConsistent(Step(st, calls[0]).0, calls[1..]);
    }
  }

  /** The query reports the latest mutation: logged in right after a
      successful sign-in, logged out right after a sign-out. */
  lemma QueryAfterMutation(st: Store, calls: seq<Call>, c: Call)
    requires c.SignOut? || (c.SignIn? && |c.username| > 0 && |c.password| > 0)
    ensures Replies(st, calls + [c, Query])[|calls| + 1] == Answer(c.SignIn?)
  {
    ReplyAt(st, calls + [c, Query], |calls| + 1);
    RunAppend(st, calls, [c]);
    assert (calls + [c, Query])[..|calls| + 1] == calls + [c];
  }

  /** The reply to the k-th call is the reply of that call on the store the
      first k calls produced. */
  lemma {:induction false} ReplyAt(st: Store, calls: seq<Call>, k: nat)
    requires k < |calls|
    ensures Replies(st, calls)[k] == Step(Run(st, calls[..k]), calls[k]).1
    decreases k
  {
    if k > 0 {
      var next := Step(st, calls[0]).0;
      ReplyAt(next, calls[1..], k - 1);
      assert calls[1..][..k - 1] == calls[..k][1..];
      assert calls[1..][k - 1] == calls[k];
    }
  }

  /** Running two sequences one after the other is running their concatenation. */
  lemma {:induction false} RunAppend(st: Store, a: seq<Call>, b: seq<Call>)
    ensures Run(st, a + b) == Run(Run(st, a), b)
    decreases |a|
  {
    if |a| > 0 {
      assert (a + b)[0] == a[0];
      assert (a + b)[1..] == a[1..] + b;
      RunAppend(Step(st, a[0]).0, a[1..], b);
    } else {
      assert a + b == b;
    }
  }

  /** The sign-in scenario: on a page with nothing stored, the query first
      answers false; `login("bob", "pw")` resolves true; the query then answers
      true, and a reload restores user `bob`. */
  lemma SignInScenario()
    ensures var calls := [Query, SignIn("bob", "pw"), Query];
            var start := Create(map[]);
            && Replies(start, calls) == [Answer(false), Answer(true), Answer(true)]
            && UserName(Create(Run(start, calls).storage).session) == Some("bob")
  {
    var start := Create(map[]);
    var calls := [Query, SignIn("bob", "pw"), Query];
    var afterLogin := Login(start, "bob", "pw").1;
    LoginThenReload(start, "bob", "pw");
    assert Run(start, calls) == afterLogin;
  }
}
