/** The login page: pick a member or administrator login, submit the credentials to the
    server, check that the account has the role of the chosen login, then store the session
    and move on to the role's start page. */
module LoginPage {
  import opened JsValues
  import opened Server
  import opened AuthContext
  import App

  /** How the login request fared on the way: answered by the server, sent without an
      answer, or never sent. */
  datatype Transport = Delivered | NoReply | NotSent

  /** What reached the page. */
  datatype Reply = Answered(response: Response) | Unanswered | Unsent

  const ConnectionError: string := "Could not connect to server. Make sure backend is running on port 5000."
  const GenericError: string := "An error occurred. Please try again."

  /** What the page does with a reply. */
  datatype Reaction = ShowError(message: string) | SignIn(user: PublicUser, target: string)

  /** The role the chosen login requires. */
  function ExpectedRole(loginRole: Option<string>): string
  {
    if loginRole == Some("admin") then "admin" else "user"
  }

  /** `${loginRole}`: the chosen login's name, "null" before one is chosen. */
  function LoginRoleText(loginRole: Option<string>): string
  {
    if loginRole.Some? then loginRole.value else "null"
  }

  /** `message || 'Login failed'` */
  function MessageOr(message: string): string
  {
    if message != "" then message else "Login failed"
  }

  /** The reaction to a reply: a status outside 2xx rejects the request, so the server's
      message is shown; a success whose account has another role is refused on the page;
      reading the role of a missing user throws, giving the generic message. */
  function ReactionTo(reply: Reply, loginRole: Option<string>): (r: Reaction)
    ensures r.SignIn? ==> reply.Answered? && reply.response.success && reply.response.user == Some(r.user)
                          && r.user.role == ExpectedRole(loginRole)
                          && r.target == (if r.user.role == "admin" then "/" else "/profile")
  {
    match reply
    case Unsent => ShowError(GenericError)
    case Unanswered => ShowError(ConnectionError)
    case Answered(response) =>
      if !(200 <= response.status < 300) || !response.success then ShowError(MessageOr(response.message))
      else if response.user.None? then ShowError(GenericError)
      else if response.user.value.role != ExpectedRole(loginRole) then
        ShowError("Invalid credentials for " + LoginRoleText(loginRole) + " login")
      else SignIn(response.user.value, if response.user.value.role == "admin" then "/" else "/profile")
  }

  class LoginForm {
    var loginRole: Option<string>
    var username: string
    var password: string
    var error: string
    var loading: bool
    /** Where the page has navigated, if anywhere. */
    var navigation: Option<string>

    constructor()
      ensures loginRole.None? && username == "" && password == "" && error == "" && !loading && navigation.None?
    {
      loginRole := None;
      username := "";
      password := "";
      error := "";
      loading := false;
      navigation := None;
    }

    /** The role buttons: "member" or "admin". */
    method SelectRole(role: string)
      modifies this
      ensures loginRole == Some(role)
      ensures username == old(username) && password == old(password) && error == old(error)
      ensures loading == old(loading) && navigation == old(navigation)
    {
      loginRole := Some(role);
    }

    /** `handleBackToRoleSelect` */
    method HandleBack()
      modifies this
      ensures loginRole.None? && username == "" && password == "" && error == ""
      ensures loading == old(loading) && navigation == old(navigation)
    {
      loginRole := None;
      username := "";
      password := "";
      error := "";
    }

    /** `handleSubmit`: the trimmed username and the password as typed go to the server;
        on a sign-in the page stores the session, hands the user to the session, clears both
        fields and navigates; otherwise it shows the error and changes nothing else. */
    method HandleSubmit(server: Database, session: AuthSession, transport: Transport,
                        matches: (string, string) -> bool, stringify: PublicUser -> string)
      modifies this, server, session
      ensures var reaction := ReactionTo(ReplyOf(old(server.users), old(username), old(password), transport, matches),
                                         old(loginRole));
              (reaction.ShowError? ==>
                 error == reaction.message && username == old(username) && password == old(password)
                 && navigation == old(navigation)
                 && session.user == old(session.user) && session.isAuthenticated == old(session.isAuthenticated)
                 && session.storage == old(session.storage))
              && (reaction.SignIn? ==>
                 error == "" && username == "" && password == "" && navigation == Some(reaction.target)
                 && session.Valid() && session.user == Some(reaction.user) && session.isAuthenticated
                 && session.storage == SignedIn(old(session.storage), reaction.user, stringify))
      ensures !loading && loginRole == old(loginRole) && session.loading == old(session.loading)
      ensures var logged := if transport == Delivered
                            then LoginOutcomeOf(old(server.users), Str(Trim(old(username))), Str(old(password)), matches).logged
                            else None;
              var added := if logged.Some? then [LogEntry(Trim(old(username)), logged.value)] else [];
              server.activityLog == old(server.activityLog) + added && server.fileLog == old(server.fileLog) + added
      ensures server.users == old(server.users) && server.nextId == old(server.nextId)
    {
      error := "";
      loading := true;
      var reply: Reply;
      if transport == Delivered {
        var response := server.Login(Str(Trim(username)), Str(password), matches);
        reply := Answered(response);
      } else if transport == NoReply {
        reply := Unanswered;
      } else {
        reply := Unsent;
      }
      var reaction := ReactionTo(reply, loginRole);
      Settle(reaction, session, stringify);
      loading := false;
    }

    /** The end of `handleSubmit`: show the error, or store the session, hand the user to the
        session, clear both fields and navigate. */
    method Settle(reaction: Reaction, session: AuthSession, stringify: PublicUser -> string)
      modifies this, session
      ensures reaction.ShowError? ==>
                error == reaction.message && username == old(username) && password == old(password)
                && navigation == old(navigation)
                && session.user == old(session.user) && session.isAuthenticated == old(session.isAuthenticated)
                && session.storage == old(session.storage)
      ensures reaction.SignIn? ==>
                error == old(error) && username == "" && password == "" && navigation == Some(reaction.target)
                && session.Valid() && session.user == Some(reaction.user) && session.isAuthenticated
                && session.storage == SignedIn(old(session.storage), reaction.user, stringify)
      ensures loading == old(loading) && loginRole == old(loginRole) && session.loading == old(session.loading)
    {
      if reaction.ShowError? {
        error := reaction.message;
      } else {
        var u := reaction.user;
        session.storage := session.storage[UserKey := stringify(u)];
        session.storage := session.storage[UsernameKey := u.username];
        ghost var stored := session.storage;
        session.Login(u, stringify);
        assert session.storage == SignedIn(old(session.storage), u, stringify) by {
          assert stored == SignedIn(old(session.storage), u, stringify);
          assert SignedIn(stored, u, stringify) == stored;
        }
        username := "";
        password := "";
        navigation := Some(reaction.target);
      }
    }
  }

  /** What reaches the page for the typed credentials: the server's answer to the trimmed
      username and the password as typed, or no answer at all. */
  function ReplyOf(users: map<string, User>, username: string, password: string, transport: Transport,
                   matches: (string, string) -> bool): (reply: Reply)
    ensures reply.Answered? <==> transport == Delivered
    ensures reply.Answered? ==> reply.response == LoginOutcomeOf(users, Str(Trim(username)), Str(password), matches).response
  {
    if transport == Delivered then
      Answered(LoginOutcomeOf(users, Str(Trim(username)), Str(password), matches).response)
    else if transport == NoReply then Unanswered
    else Unsent
  }

  // ---------------------------------------------------------------------------
  // Properties

  /** A rejected request shows the server's message: an unknown user and a wrong password read
      the same; a connection failure and a request never sent have their own messages. */
  lemma ErrorMessages(loginRole: Option<string>)
    ensures ReactionTo(Answered(Response(401, false, InvalidCredentials, None)), loginRole)
            == ShowError(InvalidCredentials)
    ensures ReactionTo(Answered(Response(400, false, MissingFields, None)), loginRole)
            == ShowError(MissingFields)
    ensures ReactionTo(Answered(Response(500, false, "", None)), loginRole) == ShowError("Login failed")
    ensures ReactionTo(Unanswered, loginRole) == ShowError(ConnectionError)
    ensures ReactionTo(Unsent, loginRole) == ShowError(GenericError)
  {
  }

  /** A known account with its password gets the success reply carrying the account. */
  lemma SuccessReply(users: map<string, User>, name: string, password: string,
                     matches: (string, string) -> bool)
    requires name != "" && password != "" && name in users && matches(password, users[name].passwordHash)
    ensures LoginOutcomeOf(users, Str(name), Str(password), matches)
            == LoginOutcome(Response(200, true, "Login successful", Some(Public(users[name]))),
                            Some(LoggedIn(users[name].role)))
  {
    assert Truthy(Str(name)) && Truthy(Str(password));
    assert ToStr(Str(name)) == name;
  }

  /** With a known account and its password, the login screen of the account's own role signs
      in and lands on a page the account may see; the other screen refuses with a message naming
      the chosen login, although the server has already logged a successful login. */
  lemma RoleCheck(users: map<string, User>, name: string, password: string,
                  matches: (string, string) -> bool)
    requires name != "" && password != "" && name in users && matches(password, users[name].passwordHash)
    requires users[name].role == "user"
    ensures var reply := Answered(LoginOutcomeOf(users, Str(name), Str(password), matches).response);
            var u := Public(users[name]);
            ReactionTo(reply, Some("member")) == SignIn(u, "/profile")
            && ReactionTo(reply, Some("admin")) == ShowError("Invalid credentials for admin login")
            && LoginOutcomeOf(users, Str(name), Str(password), matches).logged == Some(LoggedIn("user"))
            && App.ScreenAt("/profile", SessionState(Some(u), true, map[]), false) == App.Shows(App.Profile)
  {
    SuccessReply(users, name, password, matches);
    App.RootRouteMeaning(SessionState(Some(Public(users[name])), true, map[]));
    assert "user" != "admin" by { assert "user"[0] != "admin"[0]; }
  }

  /** An administrator through the administrator screen lands on the dashboard. */
  lemma AdminSignIn(users: map<string, User>, password: string, matches: (string, string) -> bool)
    requires password != "" && "admin" in users && matches(password, users["admin"].passwordHash)
    requires users["admin"].role == "admin"
    ensures var reply := Answered(LoginOutcomeOf(users, Str("admin"), Str(password), matches).response);
            var u := Public(users["admin"]);
            ReactionTo(reply, Some("admin")) == SignIn(u, "/")
            && ReactionTo(reply, Some("member")) == ShowError("Invalid credentials for member login")
            && App.ScreenAt("/", SessionState(Some(u), true, map[]), false) == App.Shows(App.Dashboard)
  {
    SuccessReply(users, "admin", password, matches);
    App.RootRouteMeaning(SessionState(Some(Public(users["admin"])), true, map[]));
    assert "user" != "admin" by { assert "user"[0] != "admin"[0]; }
  }
}
