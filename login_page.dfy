/** The login page: the clean-up it runs on mount and the login handler, which
    checks the entered pair against the stored credentials or, when none are stored,
    against the default pair `admin`/`admin`. */
module LoginPage {
  import opened Wrappers
  import opened BrowserStorage

  const DefaultUsername: string := "admin"
  const DefaultPassword: string := "admin"

  /** The messages `handleLogin` can set; the empty string is "no error". */
  const ErrorInvalid: string := "无效的用户名或密码。"
  const ErrorMalformed: string := "存储的凭据格式不正确。请尝试使用默认凭据重新登录。"
  const ErrorUnreadable: string := "凭据读取错误，请重试。"
  const ErrorFirstUse: string := "无效的用户名或密码。如首次使用，请用 'admin'/'admin' 登录。"

  /** Stored credentials the login handler accepts as well-formed: a string username
      and a non-empty string password. */
  predicate WellFormed(v: CredJson) {
    v.Object? && v.username.Str? && v.password.Str? && v.password.s != ""
  }

  /** The stored credentials are present and parse to a well-formed object. */
  predicate HasWellFormed(s: StoreState) {
    s.userCredentials.Some? && s.userCredentials.value.Parsed? && WellFormed(s.userCredentials.value.value)
  }

  /** The mount effect: unparsable credentials are removed together with the session
      flag, and an active session flag without credentials is removed. */
  function MountCleanup(s: StoreState): (r: StoreState)
    ensures r.domains == s.domains
    ensures r.userCredentials != Some(Unparsable)
    ensures r.userCredentials == if s.userCredentials == Some(Unparsable) then None else s.userCredentials
    ensures r.sessionActive == Some("true") ==> Truthy(r.userCredentials)
    ensures r.sessionActive.Some? ==> r.sessionActive == s.sessionActive
    ensures r.sessionActive ==
      if s.userCredentials == Some(Unparsable) || (s.sessionActive == Some("true") && !Truthy(s.userCredentials))
      then None else s.sessionActive
    ensures Truthy(r.userCredentials) ==> r.sessionActive == s.sessionActive
  {
    var afterParse :=
      if s.userCredentials == Some(Unparsable) then s.(userCredentials := None, sessionActive := None)
      else s;
    if afterParse.sessionActive == Some("true") && !Truthy(afterParse.userCredentials) then
      afterParse.(sessionActive := None)
    else afterParse
  }

  /** Running the clean-up twice leaves what running it once left. */
  lemma MountCleanupIdempotent(s: StoreState)
    ensures MountCleanup(MountCleanup(s)) == MountCleanup(s)
  {
  }

  datatype LoginResult = LoginResult(store: StoreState, error: string, navigated: bool)

  /** `handleLogin` for the entered `username`/`password`. */
  function Login(s: StoreState, username: string, password: string): (r: LoginResult)
    ensures r.navigated <==> r.error == ""
    ensures r.store.domains == s.domains
    // first use: only the default pair gets in, and it is then stored
    ensures !Truthy(s.userCredentials) ==>
      (r.navigated <==> username == DefaultUsername && password == DefaultPassword)
    ensures !Truthy(s.userCredentials) && r.navigated ==>
      r.store == s.(userCredentials := Some(Parsed(CredentialsJson(Str(DefaultUsername), DefaultPassword))),
                    sessionActive := Some("true"))
    ensures !Truthy(s.userCredentials) && !r.navigated ==> r.store == s && r.error == ErrorFirstUse
    // well-formed stored credentials: exactly the stored pair gets in
    ensures HasWellFormed(s) ==>
      (r.navigated <==> username == s.userCredentials.value.value.username.s &&
                        password == s.userCredentials.value.value.password.s)
    ensures HasWellFormed(s) && r.navigated ==> r.store == s.(sessionActive := Some("true"))
    ensures HasWellFormed(s) && !r.navigated ==> r.store == s && r.error == ErrorInvalid
    // stored credentials that cannot be used are removed with the session flag
    ensures Truthy(s.userCredentials) && !HasWellFormed(s) ==>
      !r.navigated && r.store == s.(userCredentials := None, sessionActive := None)
    ensures s.userCredentials == Some(Unparsable) ==> r.error == ErrorUnreadable
    // the default pair is never written over credentials that are there
    ensures Truthy(s.userCredentials) ==> r.store.userCredentials == s.userCredentials || r.store.userCredentials == None
  {
    if Truthy(s.userCredentials) then
      var stored := s.userCredentials.value;
      if stored.Parsed? then
        var creds := stored.value;
        if WellFormed(creds) then
          if username == creds.username.s && password == creds.password.s then
            LoginResult(s.(sessionActive := Some("true")), "", true)
          else LoginResult(s, ErrorInvalid, false)
        else LoginResult(s.(userCredentials := None, sessionActive := None), ErrorMalformed, false)
      else LoginResult(s.(userCredentials := None, sessionActive := None), ErrorUnreadable, false)
    else if username == DefaultUsername && password == DefaultPassword then
      LoginResult(s.(userCredentials := Some(Parsed(CredentialsJson(Str(DefaultUsername), DefaultPassword))),
                     sessionActive := Some("true")), "", true)
    else LoginResult(s, ErrorFirstUse, false)
  }

  /** After a password change has stored `username`/`newPassword`, that pair logs in,
      and the old password (if different) does not. */
  lemma LoginAfterPasswordChange(s: StoreState, username: string, oldPassword: string, newPassword: string)
    requires newPassword != ""
    ensures var t := s.(userCredentials := Some(Parsed(CredentialsJson(Str(username), newPassword))));
      Login(t, username, newPassword).navigated &&
      (oldPassword != newPassword ==> !Login(t, username, oldPassword).navigated)
  {
  }

  /** Once credentials are stored in a well-formed state, the default pair only logs in
      when it is the stored pair. */
  lemma DefaultPairNoLongerWorks(s: StoreState)
    requires HasWellFormed(s)
    requires s.userCredentials.value.value.password.s != DefaultPassword
    ensures !Login(s, DefaultUsername, DefaultPassword).navigated
  {
  }

  class LoginPage {
    var username: string
    var password: string
    var error: string

    constructor ()
      ensures username == "" && password == "" && error == ""
    {
      username, password, error := "", "", "";
    }

    method OnMount(ls: LocalStorage)
      modifies this`username, this`password, ls
      ensures ls.State() == MountCleanup(old(ls.State()))
      ensures username == "" && password == ""
    {
      if ls.userCredentials == Some(Unparsable) {
        ls.userCredentials := None;
        ls.sessionActive := None;
      }
      if ls.sessionActive == Some("true") && !Truthy(ls.userCredentials) {
        ls.sessionActive := None;
      }
      username := "";
      password := "";
    }

    /** Returns whether the handler navigates to the home page. */
    method HandleLogin(ls: LocalStorage) returns (navigated: bool)
      modifies this`error, ls
      ensures ls.State() == Login(old(ls.State()), username, password).store
      ensures error == Login(old(ls.State()), username, password).error
      ensures navigated == Login(old(ls.State()), username, password).navigated
    {
      error := "";
      navigated := false;
      if Truthy(ls.userCredentials) {
        var stored := ls.userCredentials.value;
        if stored.Parsed? && WellFormed(stored.value) {
          if username == stored.value.username.s && password == stored.value.password.s {
            ls.sessionActive := Some("true");
            navigated := true;
          } else {
            error := ErrorInvalid;
          }
        } else if stored.Parsed? {
          error := ErrorMalformed;
          ls.userCredentials := None;
          ls.sessionActive := None;
        } else {
          error := ErrorUnreadable;
          ls.userCredentials := None;
          ls.sessionActive := None;
        }
      } else if username == DefaultUsername && password == DefaultPassword {
        ls.userCredentials := Some(Parsed(CredentialsJson(Str(DefaultUsername), DefaultPassword)));
        ls.sessionActive := Some("true");
        navigated := true;
      } else {
        error := ErrorFirstUse;
      }
    }
  }
}
