/**
 * The three tables of shared/schema.ts: row shapes, column defaults, unique columns and the
 * fields each insert schema admits. Timestamps are milliseconds since the epoch; `now` is the
 * database clock at insert time.
 */
module Schema {
  import opened Wrappers
  import opened Lists

  datatype UserRow = UserRow(
    id: int,
    username: string,
    email: string,
    password: string,
    role: string,
    department: Option<string>,
    firstName: string,
    lastName: string,
    isActive: bool,
    createdAt: Option<int>,
    lastLogin: Option<int>)

  datatype DepartmentRow = DepartmentRow(
    id: int,
    name: string,
    description: Option<string>,
    createdAt: Option<int>)

  datatype FileRow = FileRow(
    id: int,
    filename: string,
    originalName: string,
    fileType: string,
    fileSize: int,
    filePath: string,
    uploadedBy: Option<int>,
    department: Option<string>,
    category: Option<string>,
    description: Option<string>,
    status: string,
    createdAt: Option<int>,
    isDeleted: bool)

  /** The seven fields of the user insert schema; `role` may be omitted. */
  datatype InsertUser = InsertUser(
    username: string,
    email: string,
    password: string,
    role: Option<string>,
    department: Option<string>,
    firstName: string,
    lastName: string)

  datatype InsertDepartment = InsertDepartment(name: string, description: Option<string>)

  /** The ten fields of the file insert schema; `status` may be omitted. */
  datatype InsertFile = InsertFile(
    filename: string,
    originalName: string,
    fileType: string,
    fileSize: int,
    filePath: string,
    uploadedBy: Option<int>,
    department: Option<string>,
    category: Option<string>,
    description: Option<string>,
    status: Option<string>)

  const DefaultRole: string := "user"
  const DefaultStatus: string := "pending"

  /** The row an insert creates: the serial id, the clock, and the column defaults. */
  function NewUserRow(ins: InsertUser, id: int, now: int): (r: UserRow)
    ensures r.id == id && r.createdAt == Some(now)
    ensures r.isActive && r.lastLogin == None
    ensures ins.role == None ==> r.role == DefaultRole
    ensures ins.role != None ==> r.role == ins.role.value
    ensures InsertUserOf(r) == ins.(role := Some(r.role))
  {
    UserRow(id, ins.username, ins.email, ins.password, ins.role.GetOr(DefaultRole),
            ins.department, ins.firstName, ins.lastName, true, Some(now), None)
  }

  function NewDepartmentRow(ins: InsertDepartment, id: int, now: int): (r: DepartmentRow)
    ensures r.id == id && r.createdAt == Some(now)
    ensures r.name == ins.name && r.description == ins.description
  {
    DepartmentRow(id, ins.name, ins.description, Some(now))
  }

  function NewFileRow(ins: InsertFile, id: int, now: int): (r: FileRow)
    ensures r.id == id && r.createdAt == Some(now) && !r.isDeleted
    ensures ins.status == None ==> r.status == DefaultStatus
    ensures ins.status != None ==> r.status == ins.status.value
    ensures InsertFileOf(r) == ins.(status := Some(r.status))
  {
    FileRow(id, ins.filename, ins.originalName, ins.fileType, ins.fileSize, ins.filePath,
            ins.uploadedBy, ins.department, ins.category, ins.description,
            ins.status.GetOr(DefaultStatus), Some(now), false)
  }

  /** The insert-schema projection of a row: the columns a caller may set. */
  function InsertUserOf(r: UserRow): InsertUser {
    InsertUser(r.username, r.email, r.password, Some(r.role), r.department, r.firstName, r.lastName)
  }

  function InsertFileOf(r: FileRow): InsertFile {
    InsertFile(r.filename, r.originalName, r.fileType, r.fileSize, r.filePath, r.uploadedBy,
               r.department, r.category, r.description, Some(r.status))
  }

  /**
   * A user row is determined by its insertable columns plus the columns only the database sets:
   * a fresh row has `isActive` true and no `lastLogin`, whatever the insert says.
   */
  lemma UserRowFromInsert(r: UserRow, now: int)
    requires r.createdAt == Some(now) && r.isActive && r.lastLogin == None
    ensures NewUserRow(InsertUserOf(r), r.id, now) == r
  {
  }

  /**
   * A file row is determined by its ten insertable columns, its id and its clock: no insert
   * can produce a row that is already deleted.
   */
  lemma FileRowFromInsert(r: FileRow, now: int)
    requires r.createdAt == Some(now) && !r.isDeleted
    ensures NewFileRow(InsertFileOf(r), r.id, now) == r
  {
  }

  /** `id`, `username` and `email` are each unique among users. */
  predicate DistinctUsers(a: UserRow, b: UserRow) {
    a.id != b.id && a.username != b.username && a.email != b.email
  }

  /** `id` and `name` are each unique among departments. */
  predicate DistinctDepartments(a: DepartmentRow, b: DepartmentRow) {
    a.id != b.id && a.name != b.name
  }

  predicate DistinctFiles(a: FileRow, b: FileRow) {
    a.id != b.id
  }

  predicate UniqueUsers(rows: seq<UserRow>) {
    Pairwise(rows, DistinctUsers)
  }

  predicate UniqueDepartments(rows: seq<DepartmentRow>) {
    Pairwise(rows, DistinctDepartments)
  }

  predicate UniqueFiles(rows: seq<FileRow>) {
    Pairwise(rows, DistinctFiles)
  }
}
