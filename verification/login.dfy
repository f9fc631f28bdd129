/** The credential check of the login page, against the user list kept in
    browser storage. */
module Login {
  import opened Seqs
  import opened Records

  /** The message shown after a failed attempt. */
  const BadCredentials: string := "Username atau password salah."

  /** The outcome of one attempt: the error text left on the form, and the
      account handed to the application when the attempt succeeds. */
  datatype Attempt = Attempt(error: string, loggedIn: Option<User>)

  /** Whether a stored account matches the typed name and password exactly:
      no trimming and no case folding. */
  predicate Matches(u: User, username: string, password: string)
  {
    u.username == username && u.password == Some(password)
  }

  /** The stored list, or the empty list when nothing is stored. */
  function StoredUsers(stored: Option<seq<User>>): seq<User>
  {
    if stored.Some? then stored.value else []
  }

  /** `i` is the first position of an account matching both fields. */
  predicate FirstMatch(users: seq<User>, i: int, username: string, password: string)
  {
    0 <= i < |users| && Matches(users[i], username, password)
    && forall j :: 0 <= j < i ==> !Matches(users[j], username, password)
  }

  /** One login attempt.  The previous error is always cleared first, so
      it plays no part in the outcome; the first stored account matching
      both fields logs in, and without a match the error is set and nobody
      logs in. */
  function HandleSubmit(stored: Option<seq<User>>, username: string, password: string): (r: Attempt)
    ensures r.loggedIn.Some? <==> exists i :: 0 <= i < |StoredUsers(stored)| && Matches(StoredUsers(stored)[i], username, password)
    ensures forall i :: FirstMatch(StoredUsers(stored), i, username, password) ==> r.loggedIn == Some(StoredUsers(stored)[i])
    ensures r.loggedIn.Some? ==> r.error == ""
    ensures r.loggedIn.None? ==> r.error == BadCredentials
  {
    var users := StoredUsers(stored);
    match FindIndex(users, (u: User) => Matches(u, username, password))
    case Some(i) =>
      assert forall j :: FirstMatch(users, j, username, password) ==> !(j < i) && !(i < j);
      Attempt("", Some(users[i]))
    case None => Attempt(BadCredentials, None)
  }

  /** A logged-in account carries exactly the typed name and password, and
      with nothing stored every attempt fails. */
  lemma LoginIsExact(stored: Option<seq<User>>, username: string, password: string)
    ensures var r := HandleSubmit(stored, username, password);
            && (r.loggedIn.Some? ==> r.loggedIn.value.username == username && r.loggedIn.value.password == Some(password)
                                     && r.loggedIn.value in StoredUsers(stored))
            && (stored.None? ==> r.loggedIn.None? && r.error == BadCredentials)
  {
    var users := StoredUsers(stored);
    var r := HandleSubmit(stored, username, password);
    if r.loggedIn.Some? {
      var i :| 0 <= i < |users| && Matches(users[i], username, password);
      var f := FindIndex(users, (u: User) => Matches(u, username, password));
      assert f.Some?;
      assert users[f.value] in users;
    }
  }
}
