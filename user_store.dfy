/**
 * The registered users: the in-memory dict `registered_users` that the start-up script loads
 * once from the SQLite table and hands to every page, and the table itself. `save_user` is an
 * `INSERT OR REPLACE` (data/database.py), so on the table it is a map update.
 */
module UserStore {
  class UserTable {
    /** `registered_users`: user name to hexadecimal password hash. */
    var users: map<string, string>
    /** The `users` table of the database. */
    var db: map<string, string>

    /** `registered_users = load_users('data/users.db')`: both views start equal. */
    constructor Load(rows: map<string, string>)
      ensures users == rows && db == rows
      ensures InSync()
    {
      users := rows;
      db := rows;
    }

    /** The dict mirrors the table. */
    predicate InSync()
      reads this
    {
      users == db
    }

    /** `save_user(username, hashed_password)`: insert or replace one row. */
    method SaveUser(username: string, hashed: string)
      modifies this`db
      ensures db == old(db)[username := hashed]
    {
      db := db[username := hashed];
    }
  }
}
