/**
 * The storage layer of server/storage.ts as three in-memory tables. `Store` holds the rows the
 * database holds (roles as stored, files with their `status`) and the next value of each serial
 * id; its methods are the storage operations, and what they return is the mapped view the rest
 * of the server sees: roles lower-cased and files without `status`.
 */
module Storage {
  import opened Wrappers
  import opened Text
  import opened Lists
  import opened Schema

  /** A file as the storage layer hands it out: every column of the row except `status`. */
  datatype FileRecord = FileRecord(
    id: int,
    filename: string,
    originalName: string,
    fileType: string,
    fileSize: int,
    filePath: string,
    uploadedBy: Option<int>,
    department: Option<string>,
    category: Option<string>,
    description: Option<string>,
    isDeleted: bool,
    createdAt: Option<int>)

  /** Why the database refuses a write. */
  datatype StoreError = UniqueViolation | ForeignKeyViolation

  /** The fields `updateUser` may change; `None` leaves a column as it is. */
  datatype UserPatch = UserPatch(
    username: Option<string>,
    email: Option<string>,
    password: Option<string>,
    role: Option<string>,
    department: Option<Option<string>>,
    firstName: Option<string>,
    lastName: Option<string>,
    lastLogin: Option<int>)

  /** The fields `updateFile` may change; `None` leaves a column as it is. */
  datatype FilePatch = FilePatch(
    filename: Option<string>,
    originalName: Option<string>,
    fileType: Option<string>,
    fileSize: Option<int>,
    filePath: Option<string>,
    uploadedBy: Option<Option<int>>,
    department: Option<Option<string>>,
    category: Option<Option<string>>,
    description: Option<Option<string>>,
    status: Option<string>)

  // ---------------------------------------------------------------- mapping rows out

  /** `mapPrismaUserToUser`: the row with its role lower-cased. */
  function ReadUser(row: UserRow): UserRow {
    row.(role := Lower(row.role))
  }

  /** `mapPrismaFileToFile`: the row without its `status` column. */
  function ReadFile(row: FileRow): FileRecord {
    FileRecord(row.id, row.filename, row.originalName, row.fileType, row.fileSize, row.filePath,
               row.uploadedBy, row.department, row.category, row.description, row.isDeleted,
               row.createdAt)
  }

  /** Puts a `status` back on a file record. */
  function WithStatus(f: FileRecord, status: string): FileRow {
    FileRow(f.id, f.filename, f.originalName, f.fileType, f.fileSize, f.filePath, f.uploadedBy,
            f.department, f.category, f.description, status, f.createdAt, f.isDeleted)
  }

  function ReadUserOption(o: Option<UserRow>): Option<UserRow> {
    if o.Some? then Some(ReadUser(o.value)) else None
  }

  function ReadFileOption(o: Option<FileRow>): Option<FileRecord> {
    if o.Some? then Some(ReadFile(o.value)) else None
  }

  /** Mapping a file out loses its `status` and nothing else. */
  lemma ReadFileDropsOnlyStatus(row: FileRow)
    ensures WithStatus(ReadFile(row), row.status) == row
    ensures forall s :: ReadFile(WithStatus(ReadFile(row), s)) == ReadFile(row)
  {
  }

  /** Reading a user back changes nothing but the case of its role. */
  lemma ReadUserKeepsAllButRole(row: UserRow)
    ensures ReadUser(row).role == Lower(row.role)
    ensures ReadUser(row).(role := row.role) == row
    ensures ReadUser(ReadUser(row)) == ReadUser(row)
  {
    LowerIdempotent(row.role);
  }

  // ---------------------------------------------------------------- roles

  /** `insertUser.role?.toUpperCase() || 'USER'`: the role `createUser` stores. */
  function StoredRole(role: Option<string>): string {
    if role.Some? && Upper(role.value) != "" then Upper(role.value) else "USER"
  }

  /**
   * `createUser` stores a non-empty upper-case role, `'USER'` when none or an empty one is
   * given, and a created user reads back with the lower-cased requested role.
   */
  lemma StoredRoleSpec(role: Option<string>)
    ensures StoredRole(role) != "" && Upper(StoredRole(role)) == StoredRole(role)
    ensures (role.None? || role.value == "") ==> StoredRole(role) == "USER"
    ensures role.Some? && role.value != "" ==> StoredRole(role) == Upper(role.value)
    ensures Lower(StoredRole(role)) == if role.Some? && role.value != "" then Lower(role.value) else "user"
  {
    if role.Some? {
      UpperIdempotent(role.value);
      CaseRoundTrips(role.value);
      assert |Upper(role.value)| == |role.value|;
    }
    assert Lower("USER") == "user";
    assert Upper("USER") == "USER";
  }

  // ---------------------------------------------------------------- selections

  function UserIdIs(id: int): UserRow -> bool { (u: UserRow) => u.id == id }
  function UserIdIsNot(id: int): UserRow -> bool { (u: UserRow) => u.id != id }
  function UsernameIs(name: string): UserRow -> bool { (u: UserRow) => u.username == name }
  function EmailIs(email: string): UserRow -> bool { (u: UserRow) => u.email == email }
  function UserInDepartment(d: string): UserRow -> bool { (u: UserRow) => u.department == Some(d) }
  function DepartmentIdIs(id: int): DepartmentRow -> bool { (d: DepartmentRow) => d.id == id }
  function DepartmentNameIs(name: string): DepartmentRow -> bool { (d: DepartmentRow) => d.name == name }
  function FileIdIs(id: int): FileRow -> bool { (f: FileRow) => f.id == id }

  predicate IsLive(f: FileRow) {
    !f.isDeleted
  }

  /** The `where` of `getFilesByUser`. */
  function LiveUploadedBy(uid: int): FileRow -> bool {
    (f: FileRow) => !f.isDeleted && f.uploadedBy == Some(uid)
  }

  /** The `where` of `getFilesByDepartment`. */
  function LiveInDepartment(d: string): FileRow -> bool {
    (f: FileRow) => !f.isDeleted && f.department == Some(d)
  }

  /** `originalName` or `description` contains the query, ignoring case. */
  predicate MatchesQuery(f: FileRow, q: string) {
    ContainsIgnoreCase(f.originalName, q)
    || (f.description.Some? && ContainsIgnoreCase(f.description.value, q))
  }

  /** The `where` of `searchFiles`. */
  function LiveMatching(q: string): FileRow -> bool {
    (f: FileRow) => !f.isDeleted && MatchesQuery(f, q)
  }

  predicate HasUser(rows: seq<UserRow>, id: int) {
    exists i | 0 <= i < |rows| :: rows[i].id == id
  }

  predicate HasFile(rows: seq<FileRow>, id: int) {
    exists i | 0 <= i < |rows| :: rows[i].id == id
  }

  /** Some other user already holds the username or email. */
  predicate UserKeyTaken(rows: seq<UserRow>, username: string, email: string) {
    exists i | 0 <= i < |rows| :: rows[i].username == username || rows[i].email == email
  }

  predicate DepartmentNameTaken(rows: seq<DepartmentRow>, name: string) {
    exists i | 0 <= i < |rows| :: rows[i].name == name
  }

  /** Reference check of `files.uploaded_by`: it names an existing user or nobody. */
  predicate UploaderExists(rows: seq<UserRow>, uploadedBy: Option<int>) {
    uploadedBy.None? || HasUser(rows, uploadedBy.value)
  }

  // ---------------------------------------------------------------- updates on tables

  function PatchUser(row: UserRow, p: UserPatch): UserRow {
    row.(username := p.username.GetOr(row.username),
         email := p.email.GetOr(row.email),
         password := p.password.GetOr(row.password),
         role := p.role.GetOr(row.role),
         department := p.department.GetOr(row.department),
         firstName := p.firstName.GetOr(row.firstName),
         lastName := p.lastName.GetOr(row.lastName),
         lastLogin := if p.lastLogin.Some? then p.lastLogin else row.lastLogin)
  }

  function PatchFile(row: FileRow, p: FilePatch): FileRow {
    row.(filename := p.filename.GetOr(row.filename),
         originalName := p.originalName.GetOr(row.originalName),
         fileType := p.fileType.GetOr(row.fileType),
         fileSize := p.fileSize.GetOr(row.fileSize),
         filePath := p.filePath.GetOr(row.filePath),
         uploadedBy := p.uploadedBy.GetOr(row.uploadedBy),
         department := p.department.GetOr(row.department),
         category := p.category.GetOr(row.category),
         description := p.description.GetOr(row.description),
         status := p.status.GetOr(row.status))
  }

  /** The patched username or email would clash with another user's. */
  predicate PatchClashes(rows: seq<UserRow>, id: int, p: UserPatch) {
    exists i | 0 <= i < |rows| ::
      rows[i].id != id && (p.username == Some(rows[i].username) || p.email == Some(rows[i].email))
  }

  function PatchUsers(rows: seq<UserRow>, id: int, p: UserPatch): seq<UserRow> {
    seq(|rows|, i requires 0 <= i < |rows| => if rows[i].id == id then PatchUser(rows[i], p) else rows[i])
  }

  function PatchFiles(rows: seq<FileRow>, id: int, p: FilePatch): seq<FileRow> {
    seq(|rows|, i requires 0 <= i < |rows| => if rows[i].id == id then PatchFile(rows[i], p) else rows[i])
  }

  /** `deleteFile`'s update: the row with the id gets `isDeleted` set, every row stays. */
  function SoftDelete(rows: seq<FileRow>, id: int): seq<FileRow> {
    seq(|rows|, i requires 0 <= i < |rows| => if rows[i].id == id then rows[i].(isDeleted := true) else rows[i])
  }

  // ---------------------------------------------------------------- properties of the tables

  /**
   * A soft delete keeps every row in place; it changes only `isDeleted` of the row with the
   * id, after which that row is still found by id, now marked deleted.
   */
  lemma SoftDeleteSpec(rows: seq<FileRow>, id: int, k: int)
    requires UniqueFiles(rows) && 0 <= k < |rows| && rows[k].id == id
    ensures |SoftDelete(rows, id)| == |rows| && UniqueFiles(SoftDelete(rows, id))
    ensures forall i :: 0 <= i < |rows| && i != k ==> SoftDelete(rows, id)[i] == rows[i]
    ensures SoftDelete(rows, id)[k] == rows[k].(isDeleted := true)
    ensures Find(SoftDelete(rows, id), FileIdIs(id)) == Some(rows[k].(isDeleted := true))
  {
    var after := SoftDelete(rows, id);
    FindUnique(after, FileIdIs(id), k);
  }

  /**
   * A patch that gives no other user its username or email keeps ids, usernames and emails
   * unique, and leaves every row's id where it was.
   */
  lemma PatchKeepsUnique(rows: seq<UserRow>, id: int, p: UserPatch)
    requires UniqueUsers(rows) && !PatchClashes(rows, id, p)
    ensures UniqueUsers(PatchUsers(rows, id, p))
    ensures forall i :: 0 <= i < |rows| ==> PatchUsers(rows, id, p)[i].id == rows[i].id
  {
    var after := PatchUsers(rows, id, p);
    forall i, j | 0 <= i < j < |after| ensures DistinctUsers(after[i], after[j]) {
      assert DistinctUsers(rows[i], rows[j]);
    }
  }

  /** A soft-deleted file drops out of the listing of live files; the other live files remain. */
  lemma {:induction false} SoftDeleteHidesFromListing(rows: seq<FileRow>, id: int)
    ensures Filter(SoftDelete(rows, id), IsLive) == Filter(rows, (f: FileRow) => IsLive(f) && f.id != id)
  {
    if rows != [] {
      SoftDeleteHidesFromListing(rows[1..], id);
      assert SoftDelete(rows, id)[1..] == SoftDelete(rows[1..], id);
    }
  }

  /** Deleting or updating an id that no row has changes no row. */
  lemma MissingIdChangesNothing(users: seq<UserRow>, files: seq<FileRow>, id: int, up: UserPatch, fp: FilePatch)
    ensures !HasUser(users, id) ==> PatchUsers(users, id, up) == users
    ensures !HasUser(users, id) ==> Filter(users, UserIdIsNot(id)) == users
    ensures !HasFile(files, id) ==> PatchFiles(files, id, fp) == files && SoftDelete(files, id) == files
  {
    if !HasUser(users, id) {
      FilterKeepsAll(users, UserIdIsNot(id));
    }
  }

  /**
   * Every listing keeps exactly the live rows its `where` selects. The queries set no
   * `orderBy`, so the database may return them in any order; the model fixes table order.
   */
  lemma {:induction false} ListingsSpec(rows: seq<FileRow>, uid: int, d: string, q: string)
    ensures forall f :: f in Filter(rows, IsLive) <==> f in rows && !f.isDeleted
    ensures forall f :: f in Filter(rows, LiveUploadedBy(uid)) <==>
      f in rows && !f.isDeleted && f.uploadedBy == Some(uid)
    ensures forall f :: f in Filter(rows, LiveInDepartment(d)) <==>
      f in rows && !f.isDeleted && f.department == Some(d)
    ensures forall f :: f in Filter(rows, LiveMatching(q)) <==>
      f in rows && !f.isDeleted && MatchesQuery(f, q)
    ensures IsSubsequence(Filter(rows, LiveUploadedBy(uid)), rows)
    ensures IsSubsequence(Filter(rows, LiveInDepartment(d)), rows)
    ensures IsSubsequence(Filter(rows, LiveMatching(q)), rows)
  {
    FilterSpec(rows, IsLive);
    FilterSpec(rows, LiveUploadedBy(uid));
    FilterSpec(rows, LiveInDepartment(d));
    FilterSpec(rows, LiveMatching(q));
  }

  /** The empty query matches every live file; letter case in the query never matters. */
  lemma SearchQuerySpec(rows: seq<FileRow>, q: string)
    ensures Filter(rows, LiveMatching("")) == Filter(rows, IsLive)
    ensures Filter(rows, LiveMatching(Upper(q))) == Filter(rows, LiveMatching(q))
    ensures Filter(rows, LiveMatching(Lower(q))) == Filter(rows, LiveMatching(q))
  {
    forall i | 0 <= i < |rows| ensures LiveMatching("")(rows[i]) == IsLive(rows[i]) {
      assert Lower("") == "";
      ContainsEmpty(Lower(rows[i].originalName));
    }
    FilterCongruent(rows, LiveMatching(""), IsLive);
    CaseRoundTrips(q);
    LowerIdempotent(q);
    FilterCongruent(rows, LiveMatching(Upper(q)), LiveMatching(q));
    FilterCongruent(rows, LiveMatching(Lower(q)), LiveMatching(q));
  }

  /** The live-file listing of a store with no deleted file is the whole table. */
  lemma NothingDeletedListsAll(rows: seq<FileRow>)
    requires forall i :: 0 <= i < |rows| ==> !rows[i].isDeleted
    ensures Filter(rows, IsLive) == rows
  {
    FilterKeepsAll(rows, IsLive);
  }

  // ---------------------------------------------------------------- the store

  class Store {
    var users: seq<UserRow>
    var departments: seq<DepartmentRow>
    var files: seq<FileRow>
    var nextUserId: int
    var nextDepartmentId: int
    var nextFileId: int

    /** Unique columns are unique and each serial is ahead of every id it has handed out. */
    ghost predicate Valid()
      reads this
    {
      UniqueUsers(users) && UniqueDepartments(departments) && UniqueFiles(files)
      && (forall i :: 0 <= i < |users| ==> users[i].id < nextUserId)
      && (forall i :: 0 <= i < |departments| ==> departments[i].id < nextDepartmentId)
      && (forall i :: 0 <= i < |files| ==> files[i].id < nextFileId)
    }

    constructor ()
      ensures Valid()
      ensures users == [] && departments == [] && files == []
      ensures nextUserId == 1 && nextDepartmentId == 1 && nextFileId == 1
    {
      users, departments, files := [], [], [];
      nextUserId, nextDepartmentId, nextFileId := 1, 1, 1;
    }

    // ------------------------------------------------------------ users

    /** `getUser`: the user with the id, read back, or nothing. */
    method GetUser(id: int) returns (r: Option<UserRow>)
      requires Valid()
      ensures r.Some? <==> HasUser(users, id)
      ensures forall i :: 0 <= i < |users| && users[i].id == id ==> r == Some(ReadUser(users[i]))
    {
      FindSpec(users, UserIdIs(id));
      forall i | 0 <= i < |users| && users[i].id == id ensures Find(users, UserIdIs(id)) == Some(users[i]) {
        FindUnique(users, UserIdIs(id), i);
      }
      r := ReadUserOption(Find(users, UserIdIs(id)));
    }

    /** `getUserByUsername`: the user with the username, read back, or nothing. */
    method GetUserByUsername(username: string) returns (r: Option<UserRow>)
      requires Valid()
      ensures r.Some? <==> exists i :: 0 <= i < |users| && users[i].username == username
      ensures forall i :: 0 <= i < |users| && users[i].username == username ==> r == Some(ReadUser(users[i]))
    {
      FindSpec(users, UsernameIs(username));
      forall i | 0 <= i < |users| && users[i].username == username
        ensures Find(users, UsernameIs(username)) == Some(users[i])
      {
        FindUnique(users, UsernameIs(username), i);
      }
      r := ReadUserOption(Find(users, UsernameIs(username)));
    }

    /** `getUserByEmail`: the user with the email, read back, or nothing. */
    method GetUserByEmail(email: string) returns (r: Option<UserRow>)
      requires Valid()
      ensures r.Some? <==> exists i :: 0 <= i < |users| && users[i].email == email
      ensures forall i :: 0 <= i < |users| && users[i].email == email ==> r == Some(ReadUser(users[i]))
    {
      FindSpec(users, EmailIs(email));
      forall i | 0 <= i < |users| && users[i].email == email ensures Find(users, EmailIs(email)) == Some(users[i]) {
        FindUnique(users, EmailIs(email), i);
      }
      r := ReadUserOption(Find(users, EmailIs(email)));
    }

    /**
     * `createUser`: a new row with the role stored upper-case, or a unique-key refusal that
     * leaves the table as it was.
     */
    method CreateUser(ins: InsertUser, now: int) returns (r: Result<UserRow, StoreError>)
      requires Valid()
      modifies this
      ensures Valid()
      ensures departments == old(departments) && files == old(files)
      ensures nextDepartmentId == old(nextDepartmentId) && nextFileId == old(nextFileId)
      ensures UserKeyTaken(old(users), ins.username, ins.email) ==>
        r == Err(UniqueViolation) && users == old(users) && nextUserId == old(nextUserId)
      ensures !UserKeyTaken(old(users), ins.username, ins.email) ==>
        var row := NewUserRow(ins.(role := Some(StoredRole(ins.role))), old(nextUserId), now);
        users == old(users) + [row] && nextUserId == old(nextUserId) + 1 && r == Ok(ReadUser(row))
    {
      if UserKeyTaken(users, ins.username, ins.email) {
        return Err(UniqueViolation);
      }
      var row := NewUserRow(ins.(role := Some(StoredRole(ins.role))), nextUserId, now);
      users := users + [row];
      nextUserId := nextUserId + 1;
      r := Ok(ReadUser(row));
    }

    /**
     * `updateUser`: nothing when no user has the id or the new username or email is another
     * user's; otherwise that user's row patched, read back.
     */
    method UpdateUser(id: int, p: UserPatch) returns (r: Option<UserRow>)
      requires Valid()
      modifies this
      ensures Valid()
      ensures departments == old(departments) && files == old(files)
      ensures nextUserId == old(nextUserId) && nextDepartmentId == old(nextDepartmentId)
      ensures nextFileId == old(nextFileId)
      ensures r.None? <==> !HasUser(old(users), id) || PatchClashes(old(users), id, p)
      ensures r.None? ==> users == old(users)
      ensures r.Some? ==> users == PatchUsers(old(users), id, p)
      ensures r.Some? ==> forall i :: 0 <= i < |old(users)| && old(users)[i].id == id ==>
        r == Some(ReadUser(PatchUser(old(users)[i], p)))
    {
      if !HasUser(users, id) || PatchClashes(users, id, p) {
        return None;
      }
      var k :| 0 <= k < |users| && users[k].id == id;
      var after := PatchUsers(users, id, p);
      PatchKeepsUnique(users, id, p);
      r := Some(ReadUser(PatchUser(users[k], p)));
      users := after;
    }

    /** `deleteUser`: false when no user has the id; otherwise that row is gone. */
    method DeleteUser(id: int) returns (ok: bool)
      requires Valid()
      modifies this
      ensures Valid()
      ensures departments == old(departments) && files == old(files)
      ensures nextUserId == old(nextUserId) && nextDepartmentId == old(nextDepartmentId)
      ensures nextFileId == old(nextFileId)
      ensures ok <==> HasUser(old(users), id)
      ensures users == Filter(old(users), UserIdIsNot(id))
      ensures !ok ==> users == old(users)
      ensures forall u :: u in users <==> u in old(users) && u.id != id
    {
      ok := HasUser(users, id);
      var after := Filter(users, UserIdIsNot(id));
      FilterSpec(users, UserIdIsNot(id));
      SubsequencePairwise(after, users, DistinctUsers);
      forall i | 0 <= i < |after| ensures after[i].id < nextUserId {
        assert after[i] in users;
      }
      MissingIdChangesNothing(users, files, id, UserPatch(None, None, None, None, None, None, None, None),
        FilePatch(None, None, None, None, None, None, None, None, None, None));
      users := after;
    }

    /** `getAllUsers`: every user, read back, in table order (the model's choice: no `orderBy`). */
    method GetAllUsers() returns (r: seq<UserRow>)
      ensures |r| == |users|
      ensures forall i :: 0 <= i < |r| ==> r[i] == ReadUser(users[i]) && r[i].role == Lower(r[i].role)
    {
      forall i | 0 <= i < |users| ensures Lower(Lower(users[i].role)) == Lower(users[i].role) {
        LowerIdempotent(users[i].role);
      }
      r := Map(users, ReadUser);
    }

    /** `getUsersByDepartment`: the users of the department, read back, in table order (the model's choice: no `orderBy`). */
    method GetUsersByDepartment(d: string) returns (r: seq<UserRow>)
      ensures r == Map(Filter(users, UserInDepartment(d)), ReadUser)
      ensures forall u :: u in r <==> exists v :: v in users && v.department == Some(d) && u == ReadUser(v)
    {
      var sel := Filter(users, UserInDepartment(d));
      FilterSpec(users, UserInDepartment(d));
      r := Map(sel, ReadUser);
      forall u | u in r ensures exists v :: v in users && v.department == Some(d) && u == ReadUser(v) {
        var i :| 0 <= i < |r| && r[i] == u;
        assert sel[i] in sel;
      }
      forall u | exists v :: v in users && v.department == Some(d) && u == ReadUser(v) ensures u in r {
        var v :| v in users && v.department == Some(d) && u == ReadUser(v);
        assert v in sel;
        var i :| 0 <= i < |sel| && sel[i] == v;
        assert r[i] == u;
      }
    }

    // ------------------------------------------------------------ departments

    /** `getDepartment`: the department with the id, or nothing. */
    method GetDepartment(id: int) returns (r: Option<DepartmentRow>)
      requires Valid()
      ensures r.Some? <==> exists i :: 0 <= i < |departments| && departments[i].id == id
      ensures forall i :: 0 <= i < |departments| && departments[i].id == id ==> r == Some(departments[i])
    {
      FindSpec(departments, DepartmentIdIs(id));
      forall i | 0 <= i < |departments| && departments[i].id == id
        ensures Find(departments, DepartmentIdIs(id)) == Some(departments[i])
      {
        FindUnique(departments, DepartmentIdIs(id), i);
      }
      r := Find(departments, DepartmentIdIs(id));
    }

    /** `getDepartmentByName`: the department with the name, or nothing. */
    method GetDepartmentByName(name: string) returns (r: Option<DepartmentRow>)
      requires Valid()
      ensures r.Some? <==> DepartmentNameTaken(departments, name)
      ensures forall i :: 0 <= i < |departments| && departments[i].name == name ==> r == Some(departments[i])
    {
      FindSpec(departments, DepartmentNameIs(name));
      forall i | 0 <= i < |departments| && departments[i].name == name
        ensures Find(departments, DepartmentNameIs(name)) == Some(departments[i])
      {
        FindUnique(departments, DepartmentNameIs(name), i);
      }
      r := Find(departments, DepartmentNameIs(name));
    }

    /** `createDepartment`: a new row, or a unique-name refusal that changes nothing. */
    method CreateDepartment(ins: InsertDepartment, now: int) returns (r: Result<DepartmentRow, StoreError>)
      requires Valid()
      modifies this
      ensures Valid()
      ensures users == old(users) && files == old(files)
      ensures nextUserId == old(nextUserId) && nextFileId == old(nextFileId)
      ensures DepartmentNameTaken(old(departments), ins.name) ==>
        r == Err(UniqueViolation) && departments == old(departments) && nextDepartmentId == old(nextDepartmentId)
      ensures !DepartmentNameTaken(old(departments), ins.name) ==>
        var row := NewDepartmentRow(ins, old(nextDepartmentId), now);
        departments == old(departments) + [row] && nextDepartmentId == old(nextDepartmentId) + 1
        && r == Ok(row)
    {
      if DepartmentNameTaken(departments, ins.name) {
        return Err(UniqueViolation);
      }
      var row := NewDepartmentRow(ins, nextDepartmentId, now);
      departments := departments + [row];
      nextDepartmentId := nextDepartmentId + 1;
      r := Ok(row);
    }

    /** `getAllDepartments`: the whole table, in table order (the model's choice: no `orderBy`). */
    method GetAllDepartments() returns (r: seq<DepartmentRow>)
      ensures r == departments
    {
      r := departments;
    }

    // ------------------------------------------------------------ files

    /** `getFile`: the file with the id, whether or not it is deleted. */
    method GetFile(id: int) returns (r: Option<FileRecord>)
      requires Valid()
      ensures r.Some? <==> HasFile(files, id)
      ensures forall i :: 0 <= i < |files| && files[i].id == id ==> r == Some(ReadFile(files[i]))
    {
      FindSpec(files, FileIdIs(id));
      forall i | 0 <= i < |files| && files[i].id == id ensures Find(files, FileIdIs(id)) == Some(files[i]) {
        FindUnique(files, FileIdIs(id), i);
      }
      r := ReadFileOption(Find(files, FileIdIs(id)));
    }

    /**
     * `createFile`: a new row with the schema defaults, or a refusal when `uploadedBy` names
     * no user.
     */
    method CreateFile(ins: InsertFile, now: int) returns (r: Result<FileRecord, StoreError>)
      requires Valid()
      modifies this
      ensures Valid()
      ensures users == old(users) && departments == old(departments)
      ensures nextUserId == old(nextUserId) && nextDepartmentId == old(nextDepartmentId)
      ensures !UploaderExists(old(users), ins.uploadedBy) ==>
        r == Err(ForeignKeyViolation) && files == old(files) && nextFileId == old(nextFileId)
      ensures UploaderExists(old(users), ins.uploadedBy) ==>
        var row := NewFileRow(ins, old(nextFileId), now);
        files == old(files) + [row] && nextFileId == old(nextFileId) + 1 && r == Ok(ReadFile(row))
    {
      if !UploaderExists(users, ins.uploadedBy) {
        return Err(ForeignKeyViolation);
      }
      var row := NewFileRow(ins, nextFileId, now);
      files := files + [row];
      nextFileId := nextFileId + 1;
      r := Ok(ReadFile(row));
    }

    /**
     * `updateFile`: nothing when no file has the id or the new `uploadedBy` names no user;
     * otherwise that row patched, read back.
     */
    method UpdateFile(id: int, p: FilePatch) returns (r: Option<FileRecord>)
      requires Valid()
      modifies this
      ensures Valid()
      ensures users == old(users) && departments == old(departments)
      ensures nextUserId == old(nextUserId) && nextDepartmentId == old(nextDepartmentId)
      ensures nextFileId == old(nextFileId)
      ensures r.None? <==> (!HasFile(old(files), id)
        || (p.uploadedBy.Some? && !UploaderExists(old(users), p.uploadedBy.value)))
      ensures r.None? ==> files == old(files)
      ensures r.Some? ==> files == PatchFiles(old(files), id, p)
      ensures r.Some? ==> forall i :: 0 <= i < |old(files)| && old(files)[i].id == id ==>
        r == Some(ReadFile(PatchFile(old(files)[i], p)))
    {
      if !HasFile(files, id) || (p.uploadedBy.Some? && !UploaderExists(users, p.uploadedBy.value)) {
        return None;
      }
      var k :| 0 <= k < |files| && files[k].id == id;
      var after := PatchFiles(files, id, p);
      forall i, j | 0 <= i < j < |after| ensures DistinctFiles(after[i], after[j]) {
        assert DistinctFiles(files[i], files[j]);
      }
      r := Some(ReadFile(PatchFile(files[k], p)));
      files := after;
    }

    /**
     * `deleteFile`: a soft delete. False when no file has the id; otherwise the row stays in
     * the table with `isDeleted` set (also when it was already set).
     */
    method DeleteFile(id: int) returns (ok: bool)
      requires Valid()
      modifies this
      ensures Valid()
      ensures users == old(users) && departments == old(departments)
      ensures nextUserId == old(nextUserId) && nextDepartmentId == old(nextDepartmentId)
      ensures nextFileId == old(nextFileId)
      ensures ok <==> HasFile(old(files), id)
      ensures files == SoftDelete(old(files), id)
      ensures |files| == |old(files)|
      ensures forall i :: 0 <= i < |files| ==>
        if files[i].id == id then files[i] == old(files)[i].(isDeleted := true) else files[i] == old(files)[i]
    {
      ok := HasFile(files, id);
      var after := SoftDelete(files, id);
      forall i, j | 0 <= i < j < |after| ensures DistinctFiles(after[i], after[j]) {
        assert DistinctFiles(files[i], files[j]);
      }
      files := after;
    }

    /** `getAllFiles`: the live files, in table order (the model's choice: no `orderBy`). */
    method GetAllFiles() returns (r: seq<FileRecord>)
      ensures r == Map(Filter(files, IsLive), ReadFile)
      ensures forall i :: 0 <= i < |r| ==> !r[i].isDeleted
    {
      var sel := Filter(files, IsLive);
      FilterSpec(files, IsLive);
      r := Map(sel, ReadFile);
      assert forall i :: 0 <= i < |sel| ==> sel[i] in sel;
    }

    /** `getFilesByUser`: the live files the user uploaded, in table order (the model's choice: no `orderBy`). */
    method GetFilesByUser(uid: int) returns (r: seq<FileRecord>)
      ensures r == Map(Filter(files, LiveUploadedBy(uid)), ReadFile)
      ensures forall i :: 0 <= i < |r| ==> !r[i].isDeleted && r[i].uploadedBy == Some(uid)
    {
      var sel := Filter(files, LiveUploadedBy(uid));
      FilterSpec(files, LiveUploadedBy(uid));
      forall i | 0 <= i < |sel| ensures !sel[i].isDeleted && sel[i].uploadedBy == Some(uid) {
        assert sel[i] in sel && LiveUploadedBy(uid)(sel[i]);
      }
      r := Map(sel, ReadFile);
      assert forall i :: 0 <= i < |r| ==> r[i] == ReadFile(sel[i]);
    }

    /** `getFilesByDepartment`: the live files of the department, in table order (the model's choice: no `orderBy`). */
    method GetFilesByDepartment(d: string) returns (r: seq<FileRecord>)
      ensures r == Map(Filter(files, LiveInDepartment(d)), ReadFile)
      ensures forall i :: 0 <= i < |r| ==> !r[i].isDeleted && r[i].department == Some(d)
    {
      var sel := Filter(files, LiveInDepartment(d));
      FilterSpec(files, LiveInDepartment(d));
      forall i | 0 <= i < |sel| ensures !sel[i].isDeleted && sel[i].department == Some(d) {
        assert sel[i] in sel && LiveInDepartment(d)(sel[i]);
      }
      r := Map(sel, ReadFile);
      assert forall i :: 0 <= i < |r| ==> r[i] == ReadFile(sel[i]);
    }

    /** `searchFiles`: the live files whose name or description contains the query, any case. */
    method SearchFiles(q: string) returns (r: seq<FileRecord>)
      ensures r == Map(Filter(files, LiveMatching(q)), ReadFile)
      ensures forall i :: 0 <= i < |r| ==> !r[i].isDeleted
      ensures forall i :: 0 <= i < |r| ==> (ContainsIgnoreCase(r[i].originalName, q)
        || (r[i].description.Some? && ContainsIgnoreCase(r[i].description.value, q)))
    {
      var sel := Filter(files, LiveMatching(q));
      FilterSpec(files, LiveMatching(q));
      forall i | 0 <= i < |sel| ensures !sel[i].isDeleted && MatchesQuery(sel[i], q) {
        assert sel[i] in sel && LiveMatching(q)(sel[i]);
      }
      r := Map(sel, ReadFile);
      assert forall i :: 0 <= i < |r| ==> r[i] == ReadFile(sel[i]);
    }
  }
}
