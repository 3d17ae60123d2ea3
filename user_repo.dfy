/**
 * jsonFileRepository.ts of authentication: users kept in a JSON file as records with a numeric
 * role code and an `email` key. Each operation reads the file, changes the parsed array and
 * writes it back; the field `users` holds the parsed array. The repository is a singleton.
 */
module UserRepo {
  import opened Wrappers
  import opened Lists
  import opened Roles

  /** One element of the JSON array; an `email` key the writer left undefined is None. */
  datatype UserRecord = UserRecord(id: string, role: int, tenantId: string, email: Option<string>)

  /** user.ts: a role that no code matched and a field never set are None. */
  datatype User = User(id: string, role: Option<Role>, name: Option<string>, tenantId: string, mail: Option<string>)

  function RecordKey(r: UserRecord): string { r.id }

  /** What `getUser` builds from a record: the role looked up by code, the mail from `email`, no name. */
  function FromRecord(rec: UserRecord): (u: User)
    ensures u.id == rec.id && u.tenantId == rec.tenantId && u.mail == rec.email && u.name.None?
    ensures u.role.Some? <==> rec.role in RoleCodes
    ensures u.role.Some? ==> Code(u.role.value) == rec.role
  {
    User(rec.id, GetRoleById(rec.role), None, rec.tenantId, rec.email)
  }

  /** The user `getUser` answers with: built from the first record with the id, or undefined. */
  function Lookup(users: seq<UserRecord>, userId: string): (u: Option<User>)
    ensures u.Some? <==> exists r :: r in users && r.id == userId
    ensures u.Some? ==> exists i :: 0 <= i < |users| && users[i].id == userId && u.value == FromRecord(users[i])
  {
    var i := FindIndex(users, RecordKey, userId);
    if i == -1 then None
    else
      assert RecordKey(users[i]) == userId;
      Some(FromRecord(users[i]))
  }

  /**
   * The record `createUser` pushes: the role code, and `email` taken from the user's mail. Without
   * a role, `valueOf` throws and the user cannot be recorded.
   */
  function NewRecord(user: User): (r: Option<UserRecord>)
    ensures r.Some? <==> user.role.Some?
    ensures r.Some? ==> r.value.id == user.id && r.value.tenantId == user.tenantId && r.value.email == user.mail
    ensures r.Some? ==> GetRoleById(r.value.role) == user.role
  {
    match user.role
    case None => None
    case Some(role) =>
      RoleRoundTrip(role);
      Some(UserRecord(user.id, Code(role), user.tenantId, user.mail))
  }

  /** The record as written: `user.email` names no field of a user, so the key is left undefined. */
  function NewRecordAsWritten(user: User): (r: Option<UserRecord>)
    ensures r.Some? <==> user.role.Some?
    ensures r.Some? ==> r.value.id == user.id && r.value.tenantId == user.tenantId && r.value.email.None?
  {
    match user.role
    case None => None
    case Some(role) => Some(UserRecord(user.id, Code(role), user.tenantId, None))
  }

  class JsonFileRepository {
    var users: seq<UserRecord>

    /** Private in the source; only `getInstance` makes one, over the file's current content. */
    constructor (content: seq<UserRecord>)
      ensures users == content
    {
      users := content;
    }

    method GetUser(userId: string) returns (u: Option<User>)
      ensures u == Lookup(users, userId)
    {
      var index := FindIndex(users, RecordKey, userId);
      if index != -1 {
        return Some(FromRecord(users[index]));
      }
      return None;
    }

    /**
     * Gives the first record with the user's id the role's code and changes nothing else; an
     * unknown user is the error "User not found" and nothing is written.
     */
    method SetUserRole(user: User, role: Role) returns (r: Result<(), string>)
      modifies this
      ensures var i := FindIndex(old(users), RecordKey, user.id);
        && (i >= 0 ==> r.Success? && users == old(users)[i := old(users)[i].(role := Code(role))])
        && (i == -1 ==> r == Failure("User not found") && users == old(users))
    {
      var index := FindIndex(users, RecordKey, user.id);
      if index != -1 {
        users := users[index := users[index].(role := Code(role))];
        return Success(());
      }
      return Failure("User not found");
    }

    /** `splice(index, 1)`: removes the first record with the user's id, or fails with "User not found". */
    method DeleteUser(user: User) returns (r: Result<(), string>)
      modifies this
      ensures var i := FindIndex(old(users), RecordKey, user.id);
        && (i >= 0 ==> r.Success? && users == old(users)[..i] + old(users)[i + 1..])
        && (i == -1 ==> r == Failure("User not found") && users == old(users))
    {
      var index := FindIndex(users, RecordKey, user.id);
      if index != -1 {
        users := users[..index] + users[index + 1..];
        return Success(());
      }
      return Failure("User not found");
    }

    /**
     * Appends the user's record with no check for an existing id; a user without a role makes
     * the push throw, which is reported as "Error creating user" with nothing written.
     */
    method CreateUser(user: User) returns (r: Result<(), string>)
      modifies this
      ensures NewRecord(user).None? ==> r == Failure("Error creating user") && users == old(users)
      ensures NewRecord(user).Some? ==> r.Success? && users == old(users) + [NewRecord(user).value]
    {
      var rec := NewRecord(user);
      if rec.None? {
        return Failure("Error creating user");
      }
      users := users + [rec.value];
      return Success(());
    }

    /** `createUser` as written, pushing a record without the user's mail. */
    method CreateUserAsWritten(user: User) returns (r: Result<(), string>)
      modifies this
      ensures NewRecordAsWritten(user).None? ==> r == Failure("Error creating user") && users == old(users)
      ensures NewRecordAsWritten(user).Some? ==> r.Success? && users == old(users) + [NewRecordAsWritten(user).value]
    {
      var rec := NewRecordAsWritten(user);
      if rec.None? {
        return Failure("Error creating user");
      }
      users := users + [rec.value];
      return Success(());
    }
  }

  /** Holds the static `instance` field of the repository class. */
  class Singleton {
    var instance: Option<JsonFileRepository>

    constructor ()
      ensures instance.None?
    {
      instance := None;
    }

    /** `getInstance`: makes the repository on the first call and returns that same one ever after. */
    method GetInstance(content: seq<UserRecord>) returns (repo: JsonFileRepository)
      modifies this
      ensures old(instance).Some? ==> repo == old(instance).value
      ensures old(instance).None? ==> fresh(repo) && repo.users == content
      ensures instance == Some(repo)
    {
      if instance.None? {
        var created := new JsonFileRepository(content);
        instance := Some(created);
      }
      repo := instance.value;
    }
  }

  /** A record appended for a new id is the one a lookup of that id finds. */
  lemma FindAfterAppend(users: seq<UserRecord>, rec: UserRecord)
    requires FindIndex(users, RecordKey, rec.id) == -1
    ensures FindIndex(users + [rec], RecordKey, rec.id) == |users|
  {
    assert RecordKey((users + [rec])[|users|]) == rec.id;
    assert forall j :: 0 <= j < |users| ==> (users + [rec])[j] == users[j];
  }

  /**
   * Creating a user whose id is new and then reading it back gives the same id, role, tenant and
   * mail; the name is not stored.
   */
  lemma CreateThenGet(users: seq<UserRecord>, user: User)
    requires user.role.Some? && FindIndex(users, RecordKey, user.id) == -1
    ensures Lookup(users + [NewRecord(user).value], user.id) == Some(user.(name := None))
  {
    FindAfterAppend(users, NewRecord(user).value);
  }

  /** With the record as written, the mail of a created user is lost on the way back. */
  lemma AsWrittenLosesMail(users: seq<UserRecord>, user: User)
    requires user.role.Some? && user.mail.Some? && FindIndex(users, RecordKey, user.id) == -1
    ensures Lookup(users + [NewRecordAsWritten(user).value], user.id).value.mail.None?
    ensures Lookup(users + [NewRecordAsWritten(user).value], user.id) != Some(user.(name := None))
  {
    FindAfterAppend(users, NewRecordAsWritten(user).value);
  }

  /** Creating a user whose id is already recorded changes nothing a lookup sees: the first record wins. */
  lemma CreateDuplicateIsShadowed(users: seq<UserRecord>, rec: UserRecord)
    requires FindIndex(users, RecordKey, rec.id) >= 0
    ensures Lookup(users + [rec], rec.id) == Lookup(users, rec.id)
  {
    var i := FindIndex(users, RecordKey, rec.id);
    assert forall j :: 0 <= j <= i ==> (users + [rec])[j] == users[j];
    assert FindIndex(users + [rec], RecordKey, rec.id) == i;
  }

  /** A search that stops at `i` in one list stops there in any list with the same keys up to `i`. */
  lemma SameKeysSameIndex(a: seq<UserRecord>, b: seq<UserRecord>, userId: string, i: int)
    requires 0 <= i < |a| && i < |b| && FindIndex(a, RecordKey, userId) == i
    requires forall j :: 0 <= j <= i ==> a[j].id == b[j].id
    ensures FindIndex(b, RecordKey, userId) == i
  {
    assert RecordKey(b[i]) == userId;
  }

  /** After setting a role, reading the user back gives that role and the record's other fields. */
  lemma SetThenGet(users: seq<UserRecord>, userId: string, role: Role)
    requires FindIndex(users, RecordKey, userId) >= 0
    ensures var i := FindIndex(users, RecordKey, userId);
      var after := users[i := users[i].(role := Code(role))];
      Lookup(after, userId) == Some(FromRecord(users[i]).(role := Some(role)))
  {
    var i := FindIndex(users, RecordKey, userId);
    var after := users[i := users[i].(role := Code(role))];
    SameKeysSameIndex(users, after, userId, i);
    RoleRoundTrip(role);
    assert FromRecord(after[i]) == FromRecord(users[i]).(role := Some(role));
  }

  /**
   * Deleting removes exactly one record with the id: the others, later duplicates included, remain
   * in order, and a later duplicate becomes the one a lookup finds.
   */
  lemma DeleteRemovesOne(users: seq<UserRecord>, userId: string)
    requires FindIndex(users, RecordKey, userId) >= 0
    ensures var i := FindIndex(users, RecordKey, userId);
      var after := users[..i] + users[i + 1..];
      && |after| == |users| - 1
      && multiset(after) + multiset{users[i]} == multiset(users)
      && (FindIndex(users[i + 1..], RecordKey, userId) >= 0 ==>
            FindIndex(after, RecordKey, userId) == i + FindIndex(users[i + 1..], RecordKey, userId))
      && (FindIndex(users[i + 1..], RecordKey, userId) == -1 ==> Lookup(after, userId).None?)
  {
    var i := FindIndex(users, RecordKey, userId);
    var p, q := users[..i], users[i + 1..];
    assert users == p + [users[i]] + q;
    FindIndexAfterMisses(p, q, userId);
  }

  /** Past a prefix without the id, the search finds what it finds in the rest, shifted by the prefix. */
  lemma FindIndexAfterMisses(p: seq<UserRecord>, q: seq<UserRecord>, userId: string)
    requires forall j :: 0 <= j < |p| ==> p[j].id != userId
    ensures var k := FindIndex(q, RecordKey, userId);
      FindIndex(p + q, RecordKey, userId) == if k >= 0 then |p| + k else -1
  {
    var k := FindIndex(q, RecordKey, userId);
    assert forall j :: 0 <= j < |q| ==> (p + q)[|p| + j] == q[j];
    if k >= 0 {
      assert RecordKey((p + q)[|p| + k]) == userId;
    } else {
      assert forall j :: 0 <= j < |p + q| ==> RecordKey((p + q)[j]) != userId by {
        forall j | 0 <= j < |p + q| ensures RecordKey((p + q)[j]) != userId {
          if j >= |p| { assert (p + q)[j] == q[j - |p|]; }
        }
      }
    }
  }
}
