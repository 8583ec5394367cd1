/**
 * The account page (pages/manage_users.py): change the current user's password, or delete
 * the account. The delete branch calls `save_user(registered_users)`, one argument short of
 * `save_user(username, hashed_password)`, so it raises a TypeError right after the dict entry
 * is gone: the database keeps the row and the session keeps the user.
 */
module ManageUsers {
  import opened Wrappers
  import opened Python
  import opened Streamlit
  import opened UserStore
  import opened UserManagement
  import opened Login

  const PasswordChangedText := "密码修改成功！"
  const EmptyPasswordText := "新密码不能为空。"
  const AccountDeletedText := "账户删除成功！"
  const CurrentUserLabel := "当前用户: "

  /** The dict after the change-password branch: a non-empty password is stored, inserting the key if absent. */
  function ChangedUsers(users: map<string, string>, user: string, newPassword: string,
                        sha256: string -> string): map<string, string>
  {
    if newPassword != "" then users[user := HashPassword(sha256, newPassword)] else users
  }

  /**
   * One run of the form as written. Both buttons are inputs; the change branch runs first. The
   * session is not in the frame: as written, neither branch ever changes it.
   */
  method ManageUsersPage(session: SessionState, table: UserTable, newPassword: string,
                         changePressed: bool, deletePressed: bool, sha256: string -> string)
    returns (messages: seq<Message>, raised: Option<Exception>)
    requires session.loggedIn.Name?
    modifies table
    ensures var u := session.loggedIn.name;
            var users1 := if changePressed then ChangedUsers(old(table.users), u, newPassword, sha256) else old(table.users);
            var db1 := if changePressed then ChangedUsers(old(table.db), u, newPassword, sha256) else old(table.db);
            && messages == [WriteText(CurrentUserLabel + u)]
                            + (if !changePressed then []
                               else if newPassword != "" then [Success(PasswordChangedText)]
                               else [Error(EmptyPasswordText)])
            && table.db == db1
            && (!deletePressed ==> raised == None && table.users == users1)
            && (deletePressed && u !in users1 ==> raised == Some(KeyError) && table.users == users1)
            && (deletePressed && u in users1 ==> raised == Some(TypeError) && table.users == users1 - {u})
    ensures old(table.InSync()) && !deletePressed ==> table.InSync()
    ensures old(table.InSync()) && deletePressed && raised == Some(TypeError) ==> !table.InSync()
  {
    var u := session.loggedIn.name;
    messages := [WriteText(CurrentUserLabel + u)];
    raised := None;
    if changePressed {
      if newPassword != "" {
        var hashed := HashPassword(sha256, newPassword);
        table.users := table.users[u := hashed];
        table.SaveUser(u, hashed);
        messages := messages + [Success(PasswordChangedText)];
      } else {
        messages := messages + [Error(EmptyPasswordText)];
      }
    }
    if deletePressed {
      if u !in table.users {
        raised := Some(KeyError);
        return;
      }
      table.users := table.users - {u};
      // save_user(registered_users): the call itself fails, before the reset of the session
      raised := Some(TypeError);
      assert u in old(table.users) || (changePressed && newPassword != "");
    }
  }

  /**
   * The delete branch as evidently intended: the row leaves both the dict and the database,
   * the session is logged out and the success message is shown.
   */
  method DeleteAccount(session: SessionState, table: UserTable)
    returns (messages: seq<Message>, raised: Option<Exception>)
    requires session.loggedIn.Name?
    modifies session`loggedIn, table
    ensures var u := old(session.loggedIn.name);
            if u !in old(table.users) then
              raised == Some(KeyError) && messages == [] && session.loggedIn == old(session.loggedIn)
              && table.users == old(table.users) && table.db == old(table.db)
            else
              raised == None && messages == [Success(AccountDeletedText)] && session.loggedIn == NoneValue
              && table.users == old(table.users) - {u} && table.db == old(table.db) - {u}
    ensures old(table.InSync()) ==> table.InSync()
  {
    var u := session.loggedIn.name;
    if u !in table.users {
      return [], Some(KeyError);
    }
    table.users := table.users - {u};
    table.db := table.db - {u};
    session.loggedIn := NoneValue;
    messages, raised := [Success(AccountDeletedText)], None;
  }

  /** A concrete run of the delete button as written: registered user "alice" is logged in. */
  method DeleteAsWrittenExample() returns (inSync: bool, raised: Option<Exception>, user: UserSlot, rowKept: bool)
    ensures !inSync && raised == Some(TypeError) && user == Name("alice") && rowKept
  {
    var table := new UserTable.Load(map["alice" := "h"]);
    var session := new SessionState();
    session.loggedIn := Name("alice");
    var messages;
    messages, raised := ManageUsersPage(session, table, "", false, true, s => s);
    inSync, user, rowKept := table.InSync(), session.loggedIn, "alice" in table.db;
  }

  /** The same account deleted by the corrected branch: logged out, and dict and database agree. */
  method DeleteCorrectedExample() returns (inSync: bool, raised: Option<Exception>, user: UserSlot, rowKept: bool)
    ensures inSync && raised == None && user == NoneValue && !rowKept
  {
    var table := new UserTable.Load(map["alice" := "h"]);
    var session := new SessionState();
    session.loggedIn := Name("alice");
    var messages;
    messages, raised := DeleteAccount(session, table);
    inSync, user, rowKept := table.InSync(), session.loggedIn, "alice" in table.db;
  }

  /** After a password change the user logs in with the new password; other users are untouched. */
  lemma ChangeThenLogin(users: map<string, string>, user: string, newPassword: string,
                        other: string, password: string, sha256: string -> string)
    requires newPassword != ""
    ensures CredentialsMatch(ChangedUsers(users, user, newPassword, sha256), user, newPassword, sha256)
    ensures other != user ==>
              (CredentialsMatch(ChangedUsers(users, user, newPassword, sha256), other, password, sha256)
               <==> CredentialsMatch(users, other, password, sha256))
  {
  }
}
