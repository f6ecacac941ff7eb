/** The login gate: a fixed table of demo users checked by plain equality.
    Nothing here is a security mechanism. */
module Session {

  /** The demo credential table, username to password. */
  const ValidUsers: map<string, string> := map[
    "admin" := "password123",
    "testuser" := "test123",
    "demo" := "demo"
  ]

  /** The one message shown for every failed attempt, whichever field was wrong. */
  const InvalidCredentials := "Invalid username or password"

  /** `validUsers[username] === password`: a username that is not a key of the
      table looks up `undefined` (or an inherited property, which is not a
      string), and that is never strictly equal to a password string. So
      exactly the three demo pairs authenticate. */
  predicate Authenticates(username: string, password: string)
    ensures Authenticates(username, password) <==>
      (username, password) in {("admin", "password123"), ("testuser", "test123"), ("demo", "demo")}
  {
    assert ValidUsers.Keys == {"admin", "testuser", "demo"};
    username in ValidUsers && ValidUsers[username] == password
  }
}
