/**
 * The sign-in dialog of src/components/AuthModal.tsx: a case-insensitive login search
 * that never looks at the password, a registration check chain in which the first
 * failure wins, and the form state the handlers step.
 */
module Auth {
  import opened Wrappers
  import opened Text
  import opened Seqs

  datatype Role = User | Admin

  /** `ForumUser`. */
  datatype ForumUser = ForumUser(id: int, username: string, role: Role, registeredAt: string)

  datatype Tab = LoginTab | RegisterTab

  /** A callback the dialog fires: `onRegister`, `onAuth` or `onClose`. */
  datatype Effect = Registered(user: ForumUser) | Authenticated(user: ForumUser) | Closed

  const FillAllFields := "Заполните все поля"
  const UserNotFound := "Пользователь не найден"
  const PasswordsDiffer := "Пароли не совпадают"
  const NameTooShort := "Минимум 3 символа в нике"
  const PasswordTooShort := "Минимум 4 символа в пароле"
  const NameTaken := "Этот ник уже занят"

  /** The `find` callback: the stored name, lowercased, equals the trimmed input, lowercased. */
  function NameMatches(name: string): ForumUser -> bool
  {
    (u: ForumUser) => Lower(u.username) == Lower(Trim(name))
  }

  /** Some registered user has the name `name` up to case and surrounding whitespace. */
  predicate Taken(users: seq<ForumUser>, name: string)
  {
    exists i :: 0 <= i < |users| && NameMatches(name)(users[i])
  }

  /** `users[i]` is the first registered user whose name matches `name`. */
  predicate FirstMatch(users: seq<ForumUser>, name: string, i: int)
  {
    0 <= i < |users| && NameMatches(name)(users[i]) && forall k :: 0 <= k < i ==> !NameMatches(name)(users[k])
  }

  /** What `handleLogin` does with the given fields: the user it authenticates, or the error it shows. */
  function LoginResult(users: seq<ForumUser>, username: string, password: string): (r: Result<ForumUser, string>)
    ensures r == Err(FillAllFields) <==> AllSpace(username) || AllSpace(password)
    ensures r == Err(UserNotFound) <==> !AllSpace(username) && !AllSpace(password) && !Taken(users, username)
    ensures r.Err? ==> r.error == FillAllFields || r.error == UserNotFound
    ensures r.Ok? ==> exists i :: FirstMatch(users, username, i) && users[i] == r.value
  {
    TrimEmptyIff(username);
    TrimEmptyIff(password);
    if Trim(username) == [] || Trim(password) == [] then Err(FillAllFields)
    else match FindIndex(users, NameMatches(username))
      case None => Err(UserNotFound)
      case Some(i) =>
        assert FirstMatch(users, username, i);
        Ok(users[i])
  }

  /** The password plays no part in a login beyond being non-blank. */
  lemma LoginIgnoresPassword(users: seq<ForumUser>, username: string, p1: string, p2: string)
    requires !AllSpace(p1) && !AllSpace(p2)
    ensures LoginResult(users, username, p1) == LoginResult(users, username, p2)
  {
    TrimEmptyIff(p1);
    TrimEmptyIff(p2);
  }

  /** Two names that differ only in case and surrounding whitespace log in as the same user. */
  lemma LoginCaseInsensitive(users: seq<ForumUser>, u1: string, u2: string, password: string)
    requires Lower(Trim(u1)) == Lower(Trim(u2))
    ensures LoginResult(users, u1, password) == LoginResult(users, u2, password)
  {
    TrimEmptyIff(u1);
    TrimEmptyIff(u2);
    assert |Trim(u1)| == |Lower(Trim(u1))|;
    assert |Trim(u2)| == |Lower(Trim(u2))|;
    assert NameMatches(u1) == NameMatches(u2);
  }

  /** The record `handleRegister` builds: the trimmed name, role "user", the given id and date. */
  function NewUser(username: string, id: int, date: string): (u: ForumUser)
    ensures u.id == id && u.role == User && u.registeredAt == date
  {
    ForumUser(id, Trim(username), User, date)
  }

  /** A new user's name is already trimmed, and it is empty exactly when the input was blank. */
  lemma NewUserNameTrimmed(username: string, id: int, date: string)
    ensures var name := NewUser(username, id, date).username;
      Trim(name) == name && (name == [] <==> AllSpace(username))
  {
    TrimIdempotent(username);
    TrimEmptyIff(username);
  }

  /**
   * What `handleRegister` does with the given fields: the new user, or the error of the first
   * check that fails. `id` and `date` stand for `Date.now()` and today's date.
   */
  function RegisterResult(users: seq<ForumUser>, username: string, password: string, confirm: string, id: int, date: string): (r: Result<ForumUser, string>)
    ensures var blank := AllSpace(username) || AllSpace(password) || AllSpace(confirm);
      && (r == Err(FillAllFields) <==> blank)
      && (r == Err(PasswordsDiffer) <==> !blank && password != confirm)
      && (r == Err(NameTooShort) <==> !blank && password == confirm && JsLength(Trim(username)) < 3)
      && (r == Err(PasswordTooShort) <==> !blank && password == confirm && JsLength(Trim(username)) >= 3 && JsLength(password) < 4)
      && (r == Err(NameTaken) <==> !blank && password == confirm && JsLength(Trim(username)) >= 3 && JsLength(password) >= 4 && Taken(users, username))
      && (r.Ok? <==> !blank && password == confirm && JsLength(Trim(username)) >= 3 && JsLength(password) >= 4 && !Taken(users, username))
    ensures r.Ok? ==> r.value == NewUser(username, id, date)
  {
    TrimEmptyIff(username);
    TrimEmptyIff(password);
    TrimEmptyIff(confirm);
    if Trim(username) == [] || Trim(password) == [] || Trim(confirm) == [] then Err(FillAllFields)
    else if password != confirm then Err(PasswordsDiffer)
    else if JsLength(Trim(username)) < 3 then Err(NameTooShort)
    else if JsLength(password) < 4 then Err(PasswordTooShort)
    else if FindIndex(users, NameMatches(username)).Some? then Err(NameTaken)
    else Ok(NewUser(username, id, date))
  }

  /** No two registered users share a name up to case. */
  predicate NamesUnique(users: seq<ForumUser>)
  {
    forall i, k :: 0 <= i < k < |users| ==> Lower(users[i].username) != Lower(users[k].username)
  }

  /** Appending a freshly registered user keeps the names unique up to case. */
  lemma RegisterKeepsNamesUnique(users: seq<ForumUser>, username: string, password: string, confirm: string, id: int, date: string)
    requires NamesUnique(users)
    requires RegisterResult(users, username, password, confirm, id, date).Ok?
    ensures NamesUnique(users + [RegisterResult(users, username, password, confirm, id, date).value])
  {
    assert !Taken(users, username);
    var u := NewUser(username, id, date);
    assert u.username == Trim(username);
    var all := users + [u];
    forall i, k | 0 <= i < k < |all| ensures Lower(all[i].username) != Lower(all[k].username) {
      assert all[i] == users[i];
      if k == |users| {
        assert !NameMatches(username)(users[i]);
      } else {
        assert all[k] == users[k];
      }
    }
  }

  /** A login that matches nobody in `users` but matches `u` finds `u` once it is appended. */
  lemma LoginFindsAppended(users: seq<ForumUser>, u: ForumUser, username: string, password: string)
    requires !AllSpace(username) && !AllSpace(password)
    requires !Taken(users, username) && NameMatches(username)(u)
    ensures LoginResult(users + [u], username, password) == Ok(u)
  {
    var all := users + [u];
    assert NameMatches(username)(all[|users|]);
    var r := LoginResult(all, username, password);
    assert r.Ok?;
    forall k | 0 <= k < |users| ensures !NameMatches(username)(all[k]) {
      assert all[k] == users[k];
    }
  }

  /** A user just registered can log in with the name they registered under. */
  lemma RegisterThenLogin(users: seq<ForumUser>, username: string, password: string, confirm: string, id: int, date: string)
    requires RegisterResult(users, username, password, confirm, id, date).Ok?
    ensures LoginResult(users + [NewUser(username, id, date)], username, password) == Ok(NewUser(username, id, date))
  {
    assert !AllSpace(username) && !AllSpace(password) && !Taken(users, username);
    TrimIdempotent(username);
    LoginFindsAppended(users, NewUser(username, id, date), username, password);
  }

  /** The dialog's form state. */
  class AuthForm {
    var tab: Tab
    var username: string
    var password: string
    var confirmPassword: string
    var error: string

    constructor ()
      ensures tab == LoginTab && username == [] && password == [] && confirmPassword == [] && error == []
    {
      tab := LoginTab;
      username := [];
      password := [];
      confirmPassword := [];
      error := [];
    }

    /** `reset`: clear the three inputs and the error. */
    method Reset()
      modifies this
      ensures username == [] && password == [] && confirmPassword == [] && error == []
      ensures tab == old(tab)
    {
      username := [];
      password := [];
      confirmPassword := [];
      error := [];
    }

    /** A tab button: switch tab and clear the error. */
    method SelectTab(t: Tab)
      modifies this
      ensures tab == t && error == []
      ensures username == old(username) && password == old(password) && confirmPassword == old(confirmPassword)
    {
      tab := t;
      error := [];
    }

    /** The name input's `onChange`, which also clears the error. */
    method SetUsername(v: string)
      modifies this
      ensures username == v && error == []
      ensures tab == old(tab) && password == old(password) && confirmPassword == old(confirmPassword)
    {
      username := v;
      error := [];
    }

    /** The password input's `onChange`, which also clears the error. */
    method SetPassword(v: string)
      modifies this
      ensures password == v && error == []
      ensures tab == old(tab) && username == old(username) && confirmPassword == old(confirmPassword)
    {
      password := v;
      error := [];
    }

    /** The confirmation input's `onChange`, which also clears the error. */
    method SetConfirm(v: string)
      modifies this
      ensures confirmPassword == v && error == []
      ensures tab == old(tab) && username == old(username) && password == old(password)
    {
      confirmPassword := v;
      error := [];
    }

    /**
     * `handleLogin`: on success authenticate the found user, clear the form and close it;
     * on failure show the error and leave the inputs as they were.
     */
    method Login(users: seq<ForumUser>) returns (effects: seq<Effect>)
      modifies this
      ensures match LoginResult(users, old(username), old(password))
        case Ok(u) => effects == [Authenticated(u), Closed] && username == [] && password == [] && confirmPassword == [] && error == []
        case Err(e) => (effects == [] && error == e &&
          username == old(username) && password == old(password) && confirmPassword == old(confirmPassword))
      ensures tab == old(tab)
    {
      if Trim(username) == [] || Trim(password) == [] {
        error := FillAllFields;
        return [];
      }
      var found := FindIndex(users, NameMatches(username));
      if found.None? {
        error := UserNotFound;
        return [];
      }
      effects := [Authenticated(users[found.value]), Closed];
      Reset();
    }

    /**
     * `handleRegister`: on success hand the new user to `onRegister` and then `onAuth`, clear
     * the form and close it; on failure show the first failing check's error and leave the
     * inputs as they were.
     */
    method Register(users: seq<ForumUser>, id: int, date: string) returns (effects: seq<Effect>)
      modifies this
      ensures match RegisterResult(users, old(username), old(password), old(confirmPassword), id, date)
        case Ok(u) => effects == [Registered(u), Authenticated(u), Closed] &&
          username == [] && password == [] && confirmPassword == [] && error == []
        case Err(e) => (effects == [] && error == e &&
          username == old(username) && password == old(password) && confirmPassword == old(confirmPassword))
      ensures tab == old(tab)
    {
      if Trim(username) == [] || Trim(password) == [] || Trim(confirmPassword) == [] {
        error := FillAllFields;
        return [];
      }
      if password != confirmPassword {
        error := PasswordsDiffer;
        return [];
      }
      if JsLength(Trim(username)) < 3 {
        error := NameTooShort;
        return [];
      }
      if JsLength(password) < 4 {
        error := PasswordTooShort;
        return [];
      }
      var existing := FindIndex(users, NameMatches(username));
      if existing.Some? {
        error := NameTaken;
        return [];
      }
      var u := ForumUser(id, Trim(username), User, date);
      effects := [Registered(u), Authenticated(u), Closed];
      Reset();
    }

    /**
     * The submit button and the Enter key: `handleLogin` on the login tab, `handleRegister`
     * on the other, with the effects, the inputs and the error each of them leaves.
     */
    method Submit(users: seq<ForumUser>, id: int, date: string) returns (effects: seq<Effect>)
      modifies this
      ensures old(tab) == LoginTab ==> match LoginResult(users, old(username), old(password))
        case Ok(u) => effects == [Authenticated(u), Closed] && username == [] && password == [] && confirmPassword == [] && error == []
        case Err(e) => (effects == [] && error == e &&
          username == old(username) && password == old(password) && confirmPassword == old(confirmPassword))
      ensures old(tab) == RegisterTab ==> match RegisterResult(users, old(username), old(password), old(confirmPassword), id, date)
        case Ok(u) => effects == [Registered(u), Authenticated(u), Closed] &&
          username == [] && password == [] && confirmPassword == [] && error == []
        case Err(e) => (effects == [] && error == e &&
          username == old(username) && password == old(password) && confirmPassword == old(confirmPassword))
      ensures tab == old(tab)
    {
      if tab == LoginTab {
        effects := Login(users);
      } else {
        effects := Register(users, id, date);
      }
    }
  }
}
