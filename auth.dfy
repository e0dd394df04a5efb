/**
 * The user table and credential lookup: `verifyCredentials`,
 * `loadUsersDatabase`'s fallback decision and the eight default users.
 */
module Auth {
  import opened Json
  import opened Store

  /** What a successful login returns: every user property except the password. */
  datatype Profile = Profile(
    id: Option<Value>,
    username: Option<Value>,
    service: Option<Value>,
    fullName: Option<Value>,
    permissions: Option<Value>)

  /**
   * The outcome of `verifyCredentials`: a profile, `null`, or a TypeError
   * thrown by `Array.find` reading a property of a `null` table entry.
   */
  datatype Verdict = Match(profile: Profile) | NoMatch | TypeError

  /** The `Array.find` predicate: exact username and password, `isActive === true`. */
  predicate Matches(u: Value, username: Option<Value>, password: Option<Value>) {
    && StrictEquals(Field(u, "username"), username)
    && StrictEquals(Field(u, "password"), password)
    && StrictEquals(Field(u, "isActive"), Some(Bool(true)))
  }

  /** `find` looks at `u` and moves on to the next entry without throwing. */
  predicate PassesOver(u: Value, username: Option<Value>, password: Option<Value>) {
    u != Null && !Matches(u, username, password)
  }

  /** The projection returned on success. */
  function Project(u: Value): Profile {
    Profile(
      Field(u, "id"),
      Field(u, "username"),
      Field(u, "service"),
      Or(Field(u, "fullName"), Field(u, "username")),
      Or(Field(u, "permissions"), Some(Arr([]))))
  }

  /** `verifyCredentials(username, password)` over the table `users`. */
  function Verify(users: seq<Value>, username: Option<Value>, password: Option<Value>): (r: Verdict)
    ensures users == [] ==> r == NoMatch
    ensures r.NoMatch? <==> forall i :: 0 <= i < |users| ==> PassesOver(users[i], username, password)
    ensures r.Match? ==> exists i :: 0 <= i < |users| && Matches(users[i], username, password)
                              && r.profile == Project(users[i])
                              && forall j :: 0 <= j < i ==> PassesOver(users[j], username, password)
    ensures r.TypeError? ==> exists i :: 0 <= i < |users| && users[i] == Null
                              && forall j :: 0 <= j < i ==> PassesOver(users[j], username, password)
  {
    if users == [] then NoMatch
    else if users[0] == Null then TypeError
    else if Matches(users[0], username, password) then Match(Project(users[0]))
    else
      var r := Verify(users[1..], username, password);
      assert forall j :: 1 <= j < |users| ==> users[j] == users[1..][j - 1];
      r
  }

  /**
   * Whatever the table, the verdict is decided by the first entry that `find`
   * does not pass over: entries after it never matter.
   */
  lemma {:induction false} VerifyDecidedByFirstStop(users: seq<Value>, more: seq<Value>, username: Option<Value>, password: Option<Value>)
    requires !Verify(users, username, password).NoMatch?
    ensures Verify(users + more, username, password) == Verify(users, username, password)
  {
    if users[0] != Null && !Matches(users[0], username, password) {
      assert (users + more)[1..] == users[1..] + more;
      VerifyDecidedByFirstStop(users[1..], more, username, password);
    }
  }

  /**
   * A successful login carries the requested username; `fullName` is the
   * user's own when truthy and otherwise the username; `permissions` is the
   * user's own when truthy and otherwise the empty list, so never absent.
   */
  lemma LoginProfile(users: seq<Value>, username: Option<Value>, password: Option<Value>)
    requires Verify(users, username, password).Match?
    ensures var p := Verify(users, username, password).profile;
      && p.username == username
      && (Truthy(p.fullName) || p.fullName == username)
      && p.permissions.Some? && Truthy(p.permissions)
  {
  }

  /** The password never reaches the profile: changing it alone changes nothing. */
  lemma ProjectHidesPassword(fields: map<string, Value>, password: Value)
    ensures Project(Obj(fields["password" := password])) == Project(Obj(fields))
  {
  }

  /** Only an entry whose `isActive` is exactly `true` can log in. */
  lemma InactiveNeverLogsIn(users: seq<Value>, username: Option<Value>, password: Option<Value>)
    requires forall i :: 0 <= i < |users| ==> Field(users[i], "isActive") != Some(Bool(true))
    ensures !Verify(users, username, password).Match?
  {
  }

  /** The password every default user is created with. */
  const DefaultPassword := "12345678"

  /** One default account, before it is written out as a JSON object. */
  datatype Account = Account(id: real, username: string, service: string, fullName: string, permissions: seq<string>)

  /** The accounts `FORCE_INITIALIZE_USERS` creates, in file order. */
  const DefaultAccounts: seq<Account> := [
    Account(1.0, "admin", "Administration", "Administrateur Principal", ["all"]),
    Account(2.0, "Caisse", "Caisse", "Caissier Principal", ["caisse", "view", "create_patient"]),
    Account(3.0, "Labo", "Laboratoire", "Technicien Laboratoire", ["labo", "view", "update_status"]),
    Account(4.0, "Consultation", "Consultation", "Médecin Consultant", ["consultation", "view"]),
    Account(5.0, "Radiologie", "Radiologie", "Technicien Radiologie", ["radiologie", "view"]),
    Account(6.0, "Pharmacie", "Pharmacie", "Pharmacien", ["pharmacie", "view"]),
    Account(7.0, "Chirurgie", "Chirurgie", "Chirurgien", ["chirurgie", "view"]),
    Account(8.0, "Echographie", "Echographie", "Technicien Échographie", ["echographie", "view"])
  ]

  function Strings(ss: seq<string>): seq<Value> {
    seq(|ss|, i requires 0 <= i < |ss| => Str(ss[i]))
  }

  /** An account as the user object stored in the users file. */
  function UserObject(a: Account): (u: Value)
    ensures Field(u, "username") == Some(Str(a.username))
    ensures Field(u, "password") == Some(Str(DefaultPassword))
    ensures Field(u, "isActive") == Some(Bool(true))
  {
    Obj(map[
      "id" := Num(a.id),
      "username" := Str(a.username),
      "password" := Str(DefaultPassword),
      "service" := Str(a.service),
      "fullName" := Str(a.fullName),
      "isActive" := Bool(true),
      "permissions" := Arr(Strings(a.permissions))])
  }

  /** A list of accounts as the users file stores it. */
  function Table(accounts: seq<Account>): (r: seq<Value>)
    ensures |r| == |accounts| && forall i :: 0 <= i < |accounts| ==> r[i] == UserObject(accounts[i])
  {
    seq(|accounts|, i requires 0 <= i < |accounts| => UserObject(accounts[i]))
  }

  /** The table that `FORCE_INITIALIZE_USERS` writes and returns. */
  function DefaultUsers(): (r: seq<Value>)
    ensures |r| == 8
  {
    Table(DefaultAccounts)
  }

  /** The users file holds a table `loadUsersDatabase` keeps: a non-empty array. */
  predicate IsUserTable(file: Stored) {
    file.Parsed? && file.value.Arr? && |file.value.items| > 0
  }

  /**
   * The table `loadUsersDatabase` settles on: the file's own array when it is
   * a non-empty array, and the default users on every other path (missing or
   * unreadable file, blank content, a parse error, a non-array or empty array).
   */
  function LoadedUsers(file: Stored): (r: seq<Value>)
    ensures |r| > 0
    ensures IsUserTable(file) ==> r == file.value.items
    ensures !IsUserTable(file) ==> r == DefaultUsers()
  {
    if IsUserTable(file) then file.value.items else DefaultUsers()
  }

  /** No two default accounts share a username. */
  lemma DefaultUsernamesDistinct(i: nat, j: nat)
    requires i < j < |DefaultAccounts|
    ensures DefaultAccounts[i].username != DefaultAccounts[j].username
  {
  }

  /**
   * In a table of accounts, an account whose username no earlier account
   * shares logs in with that username and the default password.
   */
  lemma {:induction false} AccountLogsIn(accounts: seq<Account>, k: nat)
    requires k < |accounts|
    requires forall j :: 0 <= j < k ==> accounts[j].username != accounts[k].username
    ensures Verify(Table(accounts), Some(Str(accounts[k].username)), Some(Str(DefaultPassword)))
         == Match(Project(UserObject(accounts[k])))
  {
    var name, pw := Some(Str(accounts[k].username)), Some(Str(DefaultPassword));
    var users := Table(accounts);
    if k > 0 {
      assert PassesOver(users[0], name, pw);
      assert users[1..] == Table(accounts[1..]);
      AccountLogsIn(accounts[1..], k - 1);
    }
  }

  /** Every default user logs in with their own username and the default password. */
  lemma DefaultUsersLogIn(k: nat)
    requires k < |DefaultAccounts|
    ensures Verify(DefaultUsers(), Some(Str(DefaultAccounts[k].username)), Some(Str(DefaultPassword)))
         == Match(Project(DefaultUsers()[k]))
  {
    forall j | 0 <= j < k
      ensures DefaultAccounts[j].username != DefaultAccounts[k].username
    {
      DefaultUsernamesDistinct(j, k);
    }
    AccountLogsIn(DefaultAccounts, k);
  }

  /**
   * No password other than the default string opens any default account: a
   * missing password, a number or any other string gives `null`.
   */
  lemma DefaultUsersRejectOtherPasswords(username: Option<Value>, password: Option<Value>)
    requires password != Some(Str(DefaultPassword))
    ensures Verify(DefaultUsers(), username, password) == NoMatch
  {
    var users := DefaultUsers();
    forall i | 0 <= i < |users|
      ensures PassesOver(users[i], username, password)
    {
      assert Field(users[i], "password") == Some(Str(DefaultPassword));
    }
  }
}
