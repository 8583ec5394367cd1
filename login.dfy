/** The login page (pages/login.py): a credential check that sets the session's user. */
module Login {
  import opened Streamlit
  import opened UserStore
  import opened UserManagement

  const LoginOk := "登录成功！"
  const LoginFailed := "用户名或密码无效。"

  /** `username in registered_users and registered_users[username] == hash_password(password)` */
  predicate CredentialsMatch(users: map<string, string>, username: string, password: string,
                             sha256: string -> string)
  {
    username in users && users[username] == HashPassword(sha256, password)
  }

  /**
   * One run of the login form. The user table is only read; the session's user changes only
   * on a pressed button with matching credentials, and a failed attempt keeps whoever was
   * logged in before.
   */
  method LoginPage(session: SessionState, table: UserTable, pressed: bool,
                   username: string, password: string, sha256: string -> string)
    returns (messages: seq<Message>)
    modifies session`loggedIn
    ensures session.loggedIn ==
              if pressed && CredentialsMatch(table.users, username, password, sha256)
              then Name(username)
              else Initialised(old(session.loggedIn))
    ensures messages ==
              if !pressed then []
              else if CredentialsMatch(table.users, username, password, sha256) then [Success(LoginOk)]
              else [Error(LoginFailed)]
  {
    session.InitLoggedIn();
    messages := [];
    if pressed {
      var hashed := HashPassword(sha256, password);
      if username in table.users && table.users[username] == hashed {
        session.loggedIn := Name(username);
        messages := [Success(LoginOk)];
      } else {
        messages := [Error(LoginFailed)];
      }
    }
  }
}
