/** The client's session context: whether someone is logged in, who, and
    whether the stored session has been read yet; the user is mirrored in
    `sessionStorage` so a reload restores it. */
module SessionContext {

  import opened Js

  /** The context's state; `U` is the user object the server returned. */
  datatype State<U> = State(isLoggedIn: bool, loading: bool, user: Option<U>)

  /** `sessionStorage.getItem("user")` after parsing: `None` when nothing is
      stored. The JSON text is abstracted to the value it encodes. */
  type Stored<U> = Option<U>

  /** Before the stored session is read: logged out, no user, loading. */
  function Initial<U>(): (s: State<U>)
    ensures !s.isLoggedIn && s.loading && s.user.None?
  {
    State(false, true, None)
  }

  /** The mount effect: a stored user is restored as logged in; loading ends
      either way. */
  function Restore<U>(s: State<U>, stored: Stored<U>): (r: State<U>)
    ensures !r.loading
    ensures stored.Some? ==> r.isLoggedIn && r.user == stored
    ensures stored.None? ==> r.isLoggedIn == s.isLoggedIn && r.user == s.user
  {
    match stored
    case Some(u) => State(true, false, Some(u))
    case None => s.(loading := false)
  }

  /** `login(userData)`: logged in as that user, and the user is stored. */
  function Login<U>(s: State<U>, stored: Stored<U>, u: U): (r: (State<U>, Stored<U>))
    ensures r.0.isLoggedIn && r.0.user == Some(u) && r.0.loading == s.loading
    ensures r.1 == Some(u)
  {
    (State(true, s.loading, Some(u)), Some(u))
  }

  /** `logout()`: logged out, no user, nothing stored. */
  function Logout<U>(s: State<U>, stored: Stored<U>): (r: (State<U>, Stored<U>))
    ensures !r.0.isLoggedIn && r.0.user.None? && r.0.loading == s.loading
    ensures r.1.None?
  {
    (State(false, s.loading, None), None)
  }

  /** Logged in exactly when there is a user: every transition keeps the two
      in step. */
  predicate Consistent<U>(s: State<U>) {
    s.isLoggedIn <==> s.user.Some?
  }

  lemma TransitionsKeepConsistent<U>(s: State<U>, stored: Stored<U>, u: U)
    requires Consistent(s)
    ensures Consistent(Initial<U>())
    ensures Consistent(Restore(s, stored))
    ensures Consistent(Login(s, stored, u).0)
    ensures Consistent(Logout(s, stored).0)
  {
  }

  /** A page reload after logging in comes back logged in as the same user. */
  lemma ReloadAfterLogin<U>(s: State<U>, stored: Stored<U>, u: U)
    ensures var (_, kept) := Login(s, stored, u);
            Restore(Initial<U>(), kept) == State(true, false, Some(u))
  {
  }

  /** A reload after logging out comes back logged out, and logging out
      after logging in leaves nothing of the user behind. */
  lemma LogoutForgetsUser<U>(s: State<U>, stored: Stored<U>, u: U)
    ensures var (s1, st1) := Login(s, stored, u);
            var (s2, st2) := Logout(s1, st1);
            s2 == State(false, s.loading, None) && st2.None?
            && Restore(Initial<U>(), st2) == State(false, false, None)
  {
  }
}
