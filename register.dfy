/** The registration page (pages/register.py): an ordered guard chain, then an insert. */
module Register {
  import opened Streamlit
  import opened UserStore
  import opened UserManagement
  import opened Login

  const InvalidUsernameText := "用户名无效，请使用3-20个字母、数字或下划线。"
  const InvalidPasswordText := "密码无效，密码至少为8个字符。"
  const UsernameTakenText := "该用户名已被占用，请选择其他用户名。"

  /** Which branch of the guard chain a pressed button takes. */
  datatype Outcome = InvalidUsername | InvalidPassword | UsernameTaken | Registered

  /** The checks in the order the page runs them; the first that fails decides. */
  function CheckRegistration(users: map<string, string>, username: string, password: string): Outcome {
    if !ValidateUsername(username) then InvalidUsername
    else if !ValidatePassword(password) then InvalidPassword
    else if username in users then UsernameTaken
    else Registered
  }

  function OutcomeMessage(o: Outcome, username: string): Message {
    match o
    case InvalidUsername => Error(InvalidUsernameText)
    case InvalidPassword => Error(InvalidPasswordText)
    case UsernameTaken => Error(UsernameTakenText)
    case Registered => Success("用户 " + username + " 注册成功！")
  }

  /** The user map after a pressed button: the new pair is added only when every check passed. */
  function Registration(users: map<string, string>, username: string, password: string,
                        sha256: string -> string): map<string, string>
  {
    if CheckRegistration(users, username, password) == Registered
    then users[username := HashPassword(sha256, password)]
    else users
  }

  /**
   * One run of the registration form. On an error nothing is stored; on success the dict and
   * the database gain the same pair, so a dict that mirrored the database still does.
   */
  method RegisterPage(session: SessionState, table: UserTable, pressed: bool,
                      username: string, password: string, sha256: string -> string)
    returns (messages: seq<Message>)
    modifies session`loggedIn, table
    ensures session.loggedIn == Initialised(old(session.loggedIn))
    ensures messages ==
              if pressed then [OutcomeMessage(CheckRegistration(old(table.users), username, password), username)]
              else []
    ensures table.users ==
              if pressed then Registration(old(table.users), username, password, sha256) else old(table.users)
    ensures table.db ==
              if pressed && CheckRegistration(old(table.users), username, password) == Registered
              then old(table.db)[username := HashPassword(sha256, password)]
              else old(table.db)
    ensures old(table.InSync()) ==> table.InSync()
  {
    session.InitLoggedIn();
    messages := [];
    if pressed {
      if !ValidateUsername(username) {
        messages := [Error(InvalidUsernameText)];
      } else if !ValidatePassword(password) {
        messages := [Error(InvalidPasswordText)];
      } else if username in table.users {
        messages := [Error(UsernameTakenText)];
      } else {
        var hashed := HashPassword(sha256, password);
        table.SaveUser(username, hashed);
        messages := [Success("用户 " + username + " 注册成功！")];
        table.users := table.users[username := hashed];
      }
    }
  }

  /** Only the first failing check is reported: a later check is reached only when the earlier ones pass. */
  lemma GuardOrder(users: map<string, string>, username: string, password: string)
    ensures CheckRegistration(users, username, password) == InvalidPassword ==> ValidateUsername(username)
    ensures CheckRegistration(users, username, password) == UsernameTaken ==>
              ValidateUsername(username) && ValidatePassword(password) && username in users
    ensures CheckRegistration(users, username, password) == Registered <==>
              ValidateUsername(username) && ValidatePassword(password) && username !in users
  {
  }

  /** Registration never overwrites an entry and adds at most the new name. */
  lemma RegistrationKeepsExisting(users: map<string, string>, username: string, password: string,
                                  sha256: string -> string)
    ensures forall k :: k in users ==> k in Registration(users, username, password, sha256)
                                       && Registration(users, username, password, sha256)[k] == users[k]
    ensures Registration(users, username, password, sha256).Keys <= users.Keys + {username}
  {
  }

  /** A name that registration adds passes the name rule, and its new owner can then log in. */
  lemma RegisterThenLogin(users: map<string, string>, username: string, password: string,
                          sha256: string -> string)
    requires username !in users
    ensures var after := Registration(users, username, password, sha256);
            username in after ==> ValidateUsername(username) && ValidatePassword(password)
                                  && CredentialsMatch(after, username, password, sha256)
  {
  }
}
