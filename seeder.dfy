/** The seeding script: read the membership file with its own comma splitter, then, only
    when the users table is empty, create an account per member and finally the
    administrator. Hashing is a parameter. */
module Seeder {
  import opened JsValues
  import opened Seqs
  import opened NaiveCsv
  import opened Server

  /** The body of `headers.forEach`: one record from the cells of a line. */
  method BuildRecord(headers: seq<string>, values: seq<string>) returns (member: Record)
    ensures member == RecordOf(headers, values)
  {
    member := map[];
    var j := 0;
    while j < |headers|
      invariant 0 <= j <= |headers|
      invariant member == RecordOf(headers[..j], values)
    {
      assert headers[..j + 1][..j] == headers[..j];
      var cell := if j < |values| then Trim(values[j]) else "";
      member := member[Trim(headers[j]) := cell];
      j := j + 1;
    }
    assert headers[..|headers|] == headers;
  }

  /** `parseCSV(content)`: line 0 is the header line; every later non-blank line is a member. */
  method ParseCsv(content: string) returns (members: seq<Record>)
    ensures members == CsvRecords(content)
  {
    var lines := Split(content, '\n');
    var headers := Split(lines[0], ',');
    members := [];
    var i := 1;
    while i < |lines|
      invariant 1 <= i <= |lines|
      invariant members == RecordsOf(headers, lines[1..i])
    {
      assert lines[1..i + 1][..i - 1] == lines[1..i];
      if !IsBlank(lines[i]) {
        var values := Split(lines[i], ',');
        var member := BuildRecord(headers, values);
        members := members + [member];
      }
      i := i + 1;
    }
    assert lines[1..i] == lines[1..];
  }

  /** `parseInt(member.id)`; a record without an id column reads `undefined`. None is NaN. */
  function MemberIdOf(member: Record): Option<int>
  {
    ParseInt(if "id" in member then member["id"] else "undefined")
  }

  /** `${memberId}` */
  function IdText(id: Option<int>): string
  {
    if id.Some? then IntToString(id.value) else "NaN"
  }

  function UsernameFor(id: Option<int>): string
  {
    "user_" + IdText(id)
  }

  function PasswordFor(id: Option<int>): string
  {
    "pass_" + IdText(id)
  }

  const AdminName: string := "admin"
  const AdminPassword: string := "admin456"

  /** The users table and the count of accounts created. */
  datatype SeedState = SeedState(users: map<string, User>, nextId: nat, created: nat)

  /** One member's insert: a taken username is skipped (the UNIQUE failure is ignored). */
  function InsertMember(st: SeedState, member: Record, hash: string -> string): SeedState
  {
    var id := MemberIdOf(member);
    var name := UsernameFor(id);
    if name in st.users then st
    else SeedState(st.users[name := User(st.nextId, name, hash(PasswordFor(id)), "user", id)],
                   st.nextId + 1, st.created + 1)
  }

  function InsertMembers(st: SeedState, members: seq<Record>, hash: string -> string): SeedState
  {
    if members == [] then st
    else InsertMember(InsertMembers(st, members[..|members| - 1], hash), members[|members| - 1], hash)
  }

  /** The administrator's insert, after the last member's; never with no members. */
  function InsertAdmin(st: SeedState, hash: string -> string): SeedState
  {
    if AdminName in st.users then st
    else SeedState(st.users[AdminName := User(st.nextId, AdminName, hash(AdminPassword), "admin", None)],
                   st.nextId + 1, st.created)
  }

  /** The whole script: nothing when the table already has users. */
  function Seeded(st: SeedState, members: seq<Record>, hash: string -> string): SeedState
  {
    if st.users != map[] then st
    else
      var afterMembers := InsertMembers(st, members, hash);
      if members == [] then afterMembers else InsertAdmin(afterMembers, hash)
  }

  /** Seeding the database. Each member's insert is attempted in order; a UNIQUE failure
      counts neither as created nor as an error, and no other failure can occur here. */
  method Seed(db: Database, members: seq<Record>, hash: string -> string) returns (created: nat, errors: nat)
    requires db.Valid()
    modifies db
    ensures db.Valid()
    ensures SeedState(db.users, db.nextId, created) == Seeded(SeedState(old(db.users), old(db.nextId), 0), members, hash)
    ensures errors == 0
    ensures db.activityLog == old(db.activityLog) && db.fileLog == old(db.fileLog)
  {
    created, errors := 0, 0;
    if db.users != map[] {
      return;
    }
    ghost var start := SeedState(db.users, db.nextId, 0);
    var i := 0;
    while i < |members|
      invariant 0 <= i <= |members|
      invariant db.Valid()
      invariant SeedState(db.users, db.nextId, created) == InsertMembers(start, members[..i], hash)
      invariant db.activityLog == old(db.activityLog) && db.fileLog == old(db.fileLog)
    {
      InsertMembersStep(start, members, i, hash);
      created := SeedMember(db, members[i], hash, created);
      i := i + 1;
    }
    assert members[..|members|] == members;
    if |members| > 0 {
      var _ := db.InsertUser(AdminName, hash(AdminPassword), "admin", None);
    }
  }

  /** One turn of the seeding loop: insert the member's account, counting it when the
      insert succeeds. */
  method SeedMember(db: Database, member: Record, hash: string -> string, created: nat) returns (created': nat)
    requires db.Valid()
    modifies db
    ensures db.Valid()
    ensures SeedState(db.users, db.nextId, created')
            == InsertMember(SeedState(old(db.users), old(db.nextId), created), member, hash)
    ensures db.activityLog == old(db.activityLog) && db.fileLog == old(db.fileLog)
  {
    var memberId := MemberIdOf(member);
    var inserted := db.InsertUser(UsernameFor(memberId), hash(PasswordFor(memberId)), "user", memberId);
    created' := if inserted then created + 1 else created;
  }

  lemma InsertMembersStep(st: SeedState, members: seq<Record>, i: nat, hash: string -> string)
    requires i < |members|
    ensures InsertMembers(st, members[..i + 1], hash) == InsertMember(InsertMembers(st, members[..i], hash), members[i], hash)
  {
    assert members[..i + 1][..i] == members[..i];
  }

  // ---------------------------------------------------------------------------
  // Properties

  /** Every member account has a `user_` name, the `user` role, the hash of its `pass_`
      password and the id it was named after; the created count is the number of accounts
      added. Existing accounts are untouched. */
  predicate MemberAccount(u: User, hash: string -> string)
  {
    u.role == "user" && u.username == UsernameFor(u.memberId)
    && u.passwordHash == hash(PasswordFor(u.memberId))
  }

  lemma {:induction false} InsertMembersMeaning(st: SeedState, members: seq<Record>, hash: string -> string)
    ensures var r := InsertMembers(st, members, hash);
            (forall name :: name in st.users ==> name in r.users && r.users[name] == st.users[name])
            && (forall name :: name in r.users && name !in st.users ==>
                  MemberAccount(r.users[name], hash) && r.users[name].username == name)
            && (forall i :: 0 <= i < |members| ==> UsernameFor(MemberIdOf(members[i])) in r.users)
            && |r.users| == |st.users| + r.created - st.created
            && r.nextId == st.nextId + r.created - st.created
  {
    if members != [] {
      var init := members[..|members| - 1];
      InsertMembersMeaning(st, init, hash);
      var mid := InsertMembers(st, init, hash);
      InsertMemberMeaning(mid, members[|members| - 1], hash);
      forall i | 0 <= i < |members|
        ensures UsernameFor(MemberIdOf(members[i])) in InsertMembers(st, members, hash).users
      {
        if i < |members| - 1 {
          assert members[i] == init[i];
        }
      }
    }
  }

  /** One insert keeps every account, adds at most the member's own account under its name,
      and counts and numbers what it adds. */
  lemma InsertMemberMeaning(st: SeedState, m: Record, hash: string -> string)
    ensures var r := InsertMember(st, m, hash);
            (forall name :: name in st.users ==> name in r.users && r.users[name] == st.users[name])
            && (forall name :: name in r.users && name !in st.users ==>
                  MemberAccount(r.users[name], hash) && r.users[name].username == name)
            && UsernameFor(MemberIdOf(m)) in r.users
            && |r.users| == |st.users| + r.created - st.created
            && r.nextId == st.nextId + r.created - st.created
  {
    var name := UsernameFor(MemberIdOf(m));
    if name !in st.users {
      assert |st.users[name := User(st.nextId, name, hash(PasswordFor(MemberIdOf(m))), "user", MemberIdOf(m))]|
             == |st.users| + 1;
    }
  }

  /** A member name never collides with the administrator's. */
  lemma AdminIsNoMember(id: Option<int>)
    ensures UsernameFor(id) != AdminName
  {
    assert UsernameFor(id)[0] == 'u';
  }

  /** Seeding an empty table: every member has an account with its own name and password
      hash; the administrator exists exactly when there was at least one member; nothing else
      is stored. */
  lemma SeededMeaning(nextId: nat, members: seq<Record>, hash: string -> string)
    ensures var r := Seeded(SeedState(map[], nextId, 0), members, hash);
            (forall i :: 0 <= i < |members| ==> UsernameFor(MemberIdOf(members[i])) in r.users)
            && (AdminName in r.users <==> members != [])
            && (members != [] ==> r.users[AdminName].role == "admin" && r.users[AdminName].memberId.None?
                                  && r.users[AdminName].passwordHash == hash(AdminPassword))
            && (forall name :: name in r.users && name != AdminName ==>
                  MemberAccount(r.users[name], hash) && r.users[name].username == name)
            && r.created <= |members|
  {
    var st := SeedState(map[], nextId, 0);
    InsertMembersMeaning(st, members, hash);
    var mid := InsertMembers(st, members, hash);
    CreatedBound(st, members, hash);
    if AdminName in mid.users {
      AdminIsNoMember(mid.users[AdminName].memberId);
    }
  }

  /** No more accounts are created than there are members. */
  lemma {:induction false} CreatedBound(st: SeedState, members: seq<Record>, hash: string -> string)
    ensures InsertMembers(st, members, hash).created <= st.created + |members|
    ensures InsertMembers(st, members, hash).created >= st.created
  {
    if members != [] {
      CreatedBound(st, members[..|members| - 1], hash);
    }
  }

  /** Running the script a second time changes nothing: the first run leaves the table
      non-empty whenever it inserted anything. */
  lemma SeedIdempotent(st: SeedState, members: seq<Record>, hash: string -> string)
    ensures var once := Seeded(st, members, hash);
            var twice := Seeded(SeedState(once.users, once.nextId, 0), members, hash);
            twice.users == once.users && twice.nextId == once.nextId && twice.created == 0
  {
    if st.users == map[] && members != [] {
      var r := Seeded(st, members, hash);
      assert AdminName in r.users;
    } else if st.users == map[] {
      assert Seeded(st, members, hash) == st;
    }
  }

  /** A seeded member signs in with `user_<id>` and `pass_<id>`, given that bcrypt accepts a
      password against its own hash. */
  lemma SeededMemberCanLogIn(nextId: nat, members: seq<Record>, hash: string -> string,
                             matches: (string, string) -> bool, i: nat)
    requires forall p :: matches(p, hash(p))
    requires i < |members|
    ensures var r := Seeded(SeedState(map[], nextId, 0), members, hash);
            var name := UsernameFor(MemberIdOf(members[i]));
            name in r.users
            && LoginOutcomeOf(r.users, Str(name), Str(PasswordFor(r.users[name].memberId)), matches).response.success
  {
    SeededMeaning(nextId, members, hash);
    var r := Seeded(SeedState(map[], nextId, 0), members, hash);
    var name := UsernameFor(MemberIdOf(members[i]));
    AdminIsNoMember(MemberIdOf(members[i]));
    assert MemberAccount(r.users[name], hash);
    assert name != "";
  }
}
