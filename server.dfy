/** The authentication server: the users table, the activity log kept both in the
    `activity_logs` table and in the log file, and the login, check-auth, logout and
    activity-log endpoints. Password checking and hashing are parameters. */
module Server {
  import opened JsValues

  /** A row of the users table. */
  datatype User = User(id: nat, username: string, passwordHash: string, role: string, memberId: Option<int>)

  /** The user object a successful login returns: it has no password field. */
  datatype PublicUser = PublicUser(id: nat, username: string, role: string, memberId: Option<int>)

  function Public(u: User): (p: PublicUser)
    ensures p.id == u.id && p.username == u.username && p.role == u.role && p.memberId == u.memberId
  {
    PublicUser(u.id, u.username, u.role, u.memberId)
  }

  /** A row of `activity_logs`, or a line of the log file, without its timestamp. */
  datatype LogEntry = LogEntry(username: string, activity: string)

  /** The HTTP status and JSON body of a reply. */
  datatype Response = Response(status: nat, success: bool, message: string, user: Option<PublicUser>)

  const MissingFields: string := "Username and password are required"
  const InvalidCredentials: string := "Invalid username or password"
  const UserNotFound: string := "Failed login attempt - user not found"
  const InvalidPassword: string := "Failed login attempt - invalid password"

  function LoggedIn(role: string): string
  {
    "Logged in successfully (Role: " + role + ")"
  }

  /** A login's reply and the activity it logs, if any. */
  datatype LoginOutcome = LoginOutcome(response: Response, logged: Option<string>)

  /** The login endpoint as a decision over the users table. `matches(password, hash)`
      stands for bcrypt's comparison, which throws (a 500 reply) on a password that is not
      text. The lookup compares the username as text. */
  function LoginOutcomeOf(users: map<string, User>, username: Value, password: Value,
                          matches: (string, string) -> bool): LoginOutcome
  {
    if !Truthy(username) || !Truthy(password) then
      LoginOutcome(Response(400, false, MissingFields, None), None)
    else
      var name := ToStr(username);
      if name !in users then
        LoginOutcome(Response(401, false, InvalidCredentials, None), Some(UserNotFound))
      else if !password.Str? then
        LoginOutcome(Response(500, false, "Server error", None), None)
      else if !matches(password.s, users[name].passwordHash) then
        LoginOutcome(Response(401, false, InvalidCredentials, None), Some(InvalidPassword))
      else
        var u := users[name];
        LoginOutcome(Response(200, true, "Login successful", Some(Public(u))), Some(LoggedIn(u.role)))
  }

  /** What a login answers and logs:
      - missing fields give 400 and log nothing;
      - an unknown user and a wrong password give the same 401 message, so the reply does not
        tell which, while the log records the reason;
      - success exactly for a known user whose text password matches, returning that user
        without its hash and logging its role;
      - every request that passes the field check and reaches bcrypt, or stops before it for
        an unknown user, logs exactly one entry. */
  lemma LoginMeaning(users: map<string, User>, username: Value, password: Value,
                     matches: (string, string) -> bool)
    ensures var o := LoginOutcomeOf(users, username, password, matches);
            (o.response.status == 400 <==> !Truthy(username) || !Truthy(password))
            && (o.response.status == 400 ==> o.logged.None? && o.response.message == MissingFields)
            && (o.response.status == 401 ==> o.response.message == InvalidCredentials && !o.response.success)
            && (o.response.success <==> Truthy(username) && Truthy(password) && ToStr(username) in users
                                        && password.Str? && matches(password.s, users[ToStr(username)].passwordHash))
            && (o.response.success ==> o.response.status == 200
                                       && o.response.user == Some(Public(users[ToStr(username)]))
                                       && o.logged == Some(LoggedIn(users[ToStr(username)].role)))
            && (!o.response.success ==> o.response.user.None?)
            && (Truthy(username) && Truthy(password) && ToStr(username) !in users ==>
                  o.response.status == 401 && o.logged == Some(UserNotFound))
            && (Truthy(username) && Truthy(password) && ToStr(username) in users && password.Str?
                ==> o.logged.Some?)
  {
  }

  /** `ORDER BY activity_date DESC LIMIT n`: the last `n` entries, newest first. */
  function Newest(log: seq<LogEntry>, n: nat): (r: seq<LogEntry>)
    ensures |r| == if |log| < n then |log| else n
    ensures forall i :: 0 <= i < |r| ==> r[i] == log[|log| - 1 - i]
  {
    if n == 0 || log == [] then []
    else [log[|log| - 1]] + Newest(log[..|log| - 1], n - 1)
  }

  const LogLimit: nat := 50

  /** The server's state. Usernames are unique (the table's key here); ids are handed out
      in increasing order and never reused. */
  class Database {
    var users: map<string, User>
    var nextId: nat
    /** Rows of `activity_logs`, oldest first. */
    var activityLog: seq<LogEntry>
    /** Lines of `logs/activities.log`, oldest first. */
    var fileLog: seq<LogEntry>

    ghost predicate Valid()
      reads this
    {
      (forall name :: name in users ==> users[name].username == name && users[name].id < nextId)
      && (forall a, b :: a in users && b in users && a != b ==> users[a].id != users[b].id)
    }

    constructor()
      ensures Valid()
      ensures users == map[] && nextId == 1 && activityLog == [] && fileLog == []
    {
      users := map[];
      nextId := 1;
      activityLog := [];
      fileLog := [];
    }

    /** `logActivity`: the file always gets the line; the table rejects a null username
        (its column is NOT NULL), so a missing username is only in the file. */
    method LogActivity(username: Value, activity: string)
      modifies this
      ensures fileLog == old(fileLog) + [LogEntry(ToStr(username), activity)]
      ensures activityLog == old(activityLog) + (if IsNullish(username) then [] else [LogEntry(ToStr(username), activity)])
      ensures users == old(users) && nextId == old(nextId)
    {
      fileLog := fileLog + [LogEntry(ToStr(username), activity)];
      if !IsNullish(username) {
        activityLog := activityLog + [LogEntry(ToStr(username), activity)];
      }
    }

    /** `INSERT INTO users`: refused when the username is taken (UNIQUE). */
    method InsertUser(username: string, passwordHash: string, role: string, memberId: Option<int>) returns (inserted: bool)
      requires Valid()
      modifies this
      ensures Valid()
      ensures inserted <==> username !in old(users)
      ensures users == if inserted then old(users)[username := User(old(nextId), username, passwordHash, role, memberId)]
                       else old(users)
      ensures nextId == if inserted then old(nextId) + 1 else old(nextId)
      ensures activityLog == old(activityLog) && fileLog == old(fileLog)
    {
      if username in users {
        return false;
      }
      users := users[username := User(nextId, username, passwordHash, role, memberId)];
      nextId := nextId + 1;
      return true;
    }

    /** `POST /api/login` */
    method Login(username: Value, password: Value, matches: (string, string) -> bool) returns (response: Response)
      modifies this
      ensures response == LoginOutcomeOf(old(users), username, password, matches).response
      ensures var logged := LoginOutcomeOf(old(users), username, password, matches).logged;
              activityLog == old(activityLog) + (if logged.Some? then [LogEntry(ToStr(username), logged.value)] else [])
              && fileLog == old(fileLog) + (if logged.Some? then [LogEntry(ToStr(username), logged.value)] else [])
      ensures users == old(users) && nextId == old(nextId)
    {
      if !Truthy(username) || !Truthy(password) {
        return Response(400, false, MissingFields, None);
      }
      var name := ToStr(username);
      if name !in users {
        LogActivity(username, UserNotFound);
        return Response(401, false, InvalidCredentials, None);
      }
      var user := users[name];
      if !password.Str? {
        return Response(500, false, "Server error", None);
      }
      if !matches(password.s, user.passwordHash) {
        LogActivity(username, InvalidPassword);
        return Response(401, false, InvalidCredentials, None);
      }
      LogActivity(username, LoggedIn(user.role));
      response := Response(200, true, "Login successful", Some(Public(user)));
    }

    /** `POST /api/check-auth`: authenticated exactly when a username is given and known. */
    method CheckAuth(username: Value) returns (authenticated: bool, name: Option<string>)
      ensures authenticated <==> Truthy(username) && ToStr(username) in users
      ensures authenticated ==> name == Some(users[ToStr(username)].username)
      ensures !authenticated ==> name.None?
    {
      if Truthy(username) && ToStr(username) in users {
        return true, Some(users[ToStr(username)].username);
      }
      return false, None;
    }

    /** `POST /api/logout`: succeeds for anyone, known or not, and logs the logout. */
    method Logout(username: Value) returns (response: Response)
      modifies this
      ensures response == Response(200, true, "Logged out successfully", None)
      ensures fileLog == old(fileLog) + [LogEntry(ToStr(username), "Logged out")]
      ensures activityLog == old(activityLog) + (if IsNullish(username) then [] else [LogEntry(ToStr(username), "Logged out")])
      ensures users == old(users) && nextId == old(nextId)
    {
      LogActivity(username, "Logged out");
      response := Response(200, true, "Logged out successfully", None);
    }

    /** `GET /api/activity-logs`: at most 50 entries, the newest first. */
    method ActivityLogs() returns (logs: seq<LogEntry>)
      ensures |logs| <= LogLimit && |logs| <= |activityLog|
      ensures |activityLog| >= LogLimit ==> |logs| == LogLimit
      ensures |activityLog| < LogLimit ==> |logs| == |activityLog|
      ensures logs == Newest(activityLog, LogLimit)
      ensures forall i :: 0 <= i < |logs| ==> logs[i] == activityLog[|activityLog| - 1 - i]
    {
      logs := Newest(activityLog, LogLimit);
    }
  }
}
