/**
 * The decisions the HTTP routes of server/routes.ts make on top of the storage layer: the
 * upload filter and the metadata of an uploaded file, the download content type, the filter
 * object of the file listing and its scoping for plain users, the uploader name shown with each
 * file, the delete route, the statistics and the per-department counts, and the login answer.
 * Each route that touches the store is a method on `Store`'s state; the rules it applies are
 * functions with their properties proved as lemmas. Express itself, the file system, bcrypt and
 * the random part of stored file names are parameters.
 */
module Routes {
  import opened Wrappers
  import opened Text
  import opened Lists
  import opened Schema
  import opened Storage
  import opened Auth
  import opened FileUtils
  import ClientTypes
  import RoleContext

  /** An error answer: status, message and the optional `details` text. */
  datatype Reply = Reply(status: int, message: string, details: Option<string>)

  const ServerError: Reply := Reply(500, "Server error", None)

  /** The range of an `integer` (int4) column: Prisma refuses a lookup by an id outside it. */
  const MinId := -2147483648
  const MaxId := 2147483647

  predicate IsInt4(n: int) {
    MinId <= n <= MaxId
  }

  /** A query-string or body value is truthy when present and not empty. */
  predicate Truthy(v: Option<string>) {
    v.Some? && v.value != ""
  }

  // ---------------------------------------------------------------- path.extname

  /**
   * `path.extname` of a base name: from the last dot to the end, except that a name without
   * a dot, a name whose only dot is its first character, and ".." have none.
   */
  function Extname(name: string): (ext: string)
    ensures ext == "" || (ext[0] == '.' && '.' !in ext[1..])
  {
    var k := LastIndexOf(name, '.');
    if k <= 0 || name == ".." then "" else name[k..]
  }

  /** `ext.slice(1)` */
  function DropDot(ext: string): string {
    if ext == "" then "" else ext[1..]
  }

  /** The extension is what follows the last dot, when something precedes that dot. */
  lemma ExtnameSpec(stem: string, ext: string)
    requires '.' !in ext && stem != [] && !(stem == "." && ext == "")
    ensures Extname(stem + "." + ext) == "." + ext
  {
    var name := stem + "." + ext;
    var k := LastIndexOf(name, '.');
    assert name[|stem|] == '.' && name[|stem| + 1..] == ext;
    assert k == |stem|;
    if |name| == 2 {
      assert stem == name[..1];
    }
    assert name[k..] == "." + ext;
  }

  /** No dot, or a single leading dot ("pdf", ".pdf"), gives no extension. */
  lemma ExtnameNone(rest: string)
    requires '.' !in rest
    ensures Extname(rest) == ""
    ensures Extname("." + rest) == ""
  {
  }

  // ---------------------------------------------------------------- upload filter (multer)

  /** The server's `fileFilter`: the lower-cased `path.extname` is one of the nine types. */
  predicate ServerAccepts(originalName: string) {
    Lower(Extname(originalName)) in AllowedTypes
  }

  /**
   * The server accepts a name exactly when the client's check accepts its type and a dot
   * stands after the first character: the two differ only on names like "pdf" or ".pdf",
   * which the client takes as ".pdf" and the server refuses.
   */
  lemma UploadFilterMatchesClient(name: string)
    ensures ServerAccepts(name) <==> ClientExtension(name) in AllowedTypes && LastIndexOf(name, '.') >= 1
  {
    var k := LastIndexOf(name, '.');
    if k >= 1 && name != ".." {
      SameExtension(name);
    } else {
      assert Lower(Extname(name)) == "";
      if name == ".." {
        LastSegmentAt(name, '.');
        assert ClientExtension(name) == ".";
      }
    }
  }

  /** Once a dot stands after the first character, both sides see the same extension. */
  lemma SameExtension(name: string)
    requires LastIndexOf(name, '.') >= 1 && name != ".."
    ensures Lower(Extname(name)) == ClientExtension(name)
  {
    var k := LastIndexOf(name, '.');
    LastSegmentAt(name, '.');
    assert name[k..] == "." + name[k + 1..];
    LowerAppend(".", name[k + 1..]);
    assert Lower(".") == ".";
  }

  /** "pdf" and ".pdf" pass the client's check and fail the server's. */
  lemma FilterDisagreements()
    ensures ClientExtension("pdf") in AllowedTypes && !ServerAccepts("pdf")
    ensures ClientExtension(".pdf") in AllowedTypes && !ServerAccepts(".pdf")
  {
    ExtnameNone("pdf");
    assert Lower("") == "";
    LastSegmentWhole("pdf", '.');
    assert ClientExtension("pdf") == AllowedTypes[0];
    assert ".pdf" == "" + "." + "pdf";
    LastSegmentAfterLast("", '.', "pdf");
    assert ClientExtension(".pdf") == AllowedTypes[0];
  }

  // ---------------------------------------------------------------- download content type

  /** The six-entry MIME table, with `application/octet-stream` for everything else. */
  function MimeType(ext: string): string {
    if ext == ".pdf" then "application/pdf"
    else if ext == ".docx" then "application/vnd.openxmlformats-officedocument.wordprocessingml.document"
    else if ext == ".xlsx" then "application/vnd.openxmlformats-officedocument.spreadsheetml.sheet"
    else if ext == ".png" then "image/png"
    else if ext == ".jpg" || ext == ".jpeg" then "image/jpeg"
    else "application/octet-stream"
  }

  /** The name a download is sent under: `originalName || filename`. */
  function DownloadName(f: FileRecord): string {
    if f.originalName != "" then f.originalName else f.filename
  }

  /** The `Content-Type` of a download. */
  function ContentType(f: FileRecord): string {
    MimeType(Lower(Extname(DownloadName(f))))
  }

  /**
   * The download route after the lookup: 404 when there is no record or it has no path, 404
   * when the file is not on disk, otherwise the content type and the name to send it under.
   */
  function Download(file: Option<FileRecord>, onDisk: bool): Result<(string, string), Reply> {
    if file.None? || file.value.filePath == "" then Err(Reply(404, "Fichier introuvable", None))
    else if !onDisk then Err(Reply(404, "Fichier non trouv\U{00E9} sur le serveur", None))
    else Ok((ContentType(file.value), DownloadName(file.value)))
  }

  /**
   * The content type depends only on the lower-cased extension; six extensions have their
   * own type, and .doc, .xls and .gif, though uploadable, download as a byte stream.
   */
  lemma MimeTypeSpec(ext: string)
    ensures ext !in {".pdf", ".docx", ".xlsx", ".png", ".jpg", ".jpeg"} ==> MimeType(ext) == "application/octet-stream"
    ensures ext in {".jpg", ".jpeg"} ==> MimeType(ext) == "image/jpeg"
    ensures MimeType(".doc") == MimeType(".xls") == MimeType(".gif") == "application/octet-stream"
  {
  }

  /** The type comes from `originalName`, or from the stored name when it is empty. */
  lemma ContentTypeSource(f: FileRecord)
    ensures f.originalName == "" ==> ContentType(f) == MimeType(Lower(Extname(f.filename)))
    ensures f.originalName != "" ==> ContentType(f) == ContentType(f.(filename := ""))
  {
  }

  /** Lower-casing moves no dot: the last one stays where it was. */
  lemma {:induction false} LastDotOfLower(name: string)
    ensures LastIndexOf(Lower(name), '.') == LastIndexOf(name, '.')
    decreases |name|
  {
    if name != [] {
      var init := name[..|name| - 1];
      assert Lower(name)[..|name| - 1] == Lower(init);
      LastDotOfLower(init);
    }
  }

  /** Only ".." lower-cases to "..". */
  lemma LowerDotDot(name: string)
    ensures Lower(name) == ".." <==> name == ".."
  {
    var low := Lower(name);
    if low == ".." {
      assert |name| == |low| == 2 && low[0] == '.' && low[1] == '.';
      assert LowerChar(name[0]) == '.' && LowerChar(name[1]) == '.';
      assert name == [name[0], name[1]];
    }
    if name == ".." {
      assert low == [LowerChar('.'), LowerChar('.')];
    }
  }

  /** Lower-casing a name lower-cases its extension. */
  lemma ExtnameOfLower(name: string)
    ensures Extname(Lower(name)) == Lower(Extname(name))
  {
    var k := LastIndexOf(name, '.');
    LastDotOfLower(name);
    LowerDotDot(name);
    if 0 < k && name != ".." {
      assert Lower(name)[k..] == Lower(name[k..]);
    }
  }

  /**
   * The extension is lower-cased before the table is consulted, so the content type does not
   * depend on the letter case of the download name: names equal up to case give the same type.
   */
  lemma ContentTypeIgnoresCase(f: FileRecord, name: string)
    requires Lower(name) == Lower(f.originalName)
    ensures ContentType(f.(originalName := name)) == ContentType(f)
    ensures ContentType(f) == MimeType(Extname(Lower(DownloadName(f))))
  {
    assert |name| == |Lower(name)|;
    ExtnameOfLower(name);
    ExtnameOfLower(f.originalName);
    ExtnameOfLower(DownloadName(f));
  }

  /**
   * A soft-deleted file is still downloadable: the lookup by id ignores `isDeleted`, and the
   * route never looks at it.
   */
  lemma DeletedFilesStillDownload(f: FileRecord, onDisk: bool)
    ensures Download(Some(f.(isDeleted := true)), onDisk) == Download(Some(f), onDisk)
    ensures f.filePath != "" && onDisk ==> Download(Some(f.(isDeleted := true)), onDisk).Ok?
  {
  }

  // ---------------------------------------------------------------- file listing

  /** The query string of `GET /api/files`; `None` is an absent key. */
  datatype FilesQuery = FilesQuery(
    department: Option<string>,
    search: Option<string>,
    date: Option<string>,
    fileType: Option<string>,
    page: Option<string>,
    limit: Option<string>)

  /**
   * The filter object handed to the (unmodelled) filtered listing. `None` is an absent key;
   * `department` is `Some(None)` when it is set to a `null` department.
   */
  datatype FileFilters = FileFilters(
    search: Option<string>,
    department: Option<Option<string>>,
    fileType: Option<string>,
    dateRange: Option<int>)

  /** A department or type value that constrains the listing: truthy and not "all". */
  function Constraint(v: Option<string>): Option<string> {
    if Truthy(v) && v.value != "all" then v else None
  }

  /** The filter object built from the query. */
  function BuildFilters(q: FilesQuery): FileFilters {
    var days := if Truthy(q.date) then ParseInt(q.date.value) else None;
    FileFilters(
      if Truthy(q.search) then q.search else None,
      if Constraint(q.department).Some? then Some(Constraint(q.department)) else None,
      Constraint(q.fileType),
      days)
  }

  /** `page ? parseInt(page) : default`; `None` stands for `NaN`. */
  function PageParam(v: Option<string>, default: int): Option<int> {
    if Truthy(v) then ParseInt(v.value) else Some(default)
  }

  function PageNumber(q: FilesQuery): Option<int> {
    PageParam(q.page, 1)
  }

  function PageLimit(q: FilesQuery): Option<int> {
    PageParam(q.limit, 12)
  }

  /** For role "user" the department filter becomes the caller's own, whatever was asked. */
  function ScopeFilters(f: FileFilters, caller: Claims): FileFilters {
    if caller.role == "user" then f.(department := Some(caller.department)) else f
  }

  /** The filters the listing is finally run with. */
  function ListingFilters(q: FilesQuery, caller: Claims): FileFilters {
    ScopeFilters(BuildFilters(q), caller)
  }

  /**
   * "all" and empty values add no constraint, other values are kept as given, the date is
   * kept exactly when it parses as an integer, and the page and limit default to 1 and 12.
   */
  lemma BuildFiltersSpec(q: FilesQuery)
    ensures BuildFilters(q).department.None? <==> !Truthy(q.department) || q.department.value == "all"
    ensures BuildFilters(q).department.Some? ==> BuildFilters(q).department == Some(q.department)
    ensures BuildFilters(q).fileType.None? <==> !Truthy(q.fileType) || q.fileType.value == "all"
    ensures BuildFilters(q).fileType.Some? ==> BuildFilters(q).fileType == q.fileType
    ensures BuildFilters(q).search.Some? <==> Truthy(q.search)
    ensures BuildFilters(q).dateRange.Some? <==> Truthy(q.date) && ParseInt(q.date.value).Some?
    ensures BuildFilters(q).dateRange.Some? ==> BuildFilters(q).dateRange == ParseInt(q.date.value)
    ensures q.page.None? ==> PageNumber(q) == Some(1)
    ensures q.limit.None? ==> PageLimit(q) == Some(12)
    ensures q.page == Some("3") ==> PageNumber(q) == Some(3)
  {
    if q.page == Some("3") {
      assert IsDigit('3');
      ParseIntRoundTrip(3);
      assert NatToString(3) == "3";
    }
  }

  /**
   * Plain users are always confined to their own department, whatever they ask for; for the
   * other roles the requested filters stand. Nothing but the department is touched.
   */
  lemma ScopeFiltersSpec(q: FilesQuery, caller: Claims)
    ensures caller.role == "user" ==> ListingFilters(q, caller).department == Some(caller.department)
    ensures caller.role == "user" ==> ListingFilters(q, caller) == ListingFilters(q.(department := None), caller)
    ensures caller.role != "user" ==> ListingFilters(q, caller) == BuildFilters(q)
    ensures ListingFilters(q, caller).(department := None) == BuildFilters(q).(department := None)
  {
  }

  // ---------------------------------------------------------------- uploader name

  /** A file with its uploader's display name, as the listings answer. */
  datatype ListedFile = ListedFile(file: FileRecord, uploaderName: string)

  /** `if (file.uploadedBy)`: a present, non-zero uploader id. */
  predicate HasUploader(f: FileRecord) {
    f.uploadedBy.Some? && f.uploadedBy.value != 0
  }

  /** The uploader the route looks up: the user row with the id, read back, if any. */
  function UploaderOf(users: seq<UserRow>, f: FileRecord): Option<UserRow> {
    if HasUploader(f) then ReadUserOption(Find(users, UserIdIs(f.uploadedBy.value))) else None
  }

  /**
   * The display name: "Inconnu" without an uploader; the trimmed "first last" when either
   * name is set; otherwise the username, the email, or "ID <id>".
   */
  function UploaderName(uploader: Option<UserRow>): string {
    if uploader.None? then "Inconnu"
    else
      var u := uploader.value;
      if u.firstName != "" || u.lastName != "" then Trim(u.firstName + " " + u.lastName)
      else if u.username != "" then u.username
      else if u.email != "" then u.email
      else "ID " + IntToString(u.id)
  }

  /** The fallback chain of the uploader name, case by case. */
  lemma UploaderNameSpec(u: UserRow)
    ensures UploaderName(None) == "Inconnu"
    ensures (u.firstName != [] && u.lastName != [] && !IsWhitespace(u.firstName[0])
      && !IsWhitespace(u.lastName[|u.lastName| - 1])) ==>
      UploaderName(Some(u)) == u.firstName + " " + u.lastName
    ensures (u.firstName != [] && u.lastName == [] && !IsWhitespace(u.firstName[0])
      && !IsWhitespace(u.firstName[|u.firstName| - 1])) ==>
      UploaderName(Some(u)) == u.firstName
    ensures u.firstName == "" && u.lastName == "" && u.username != "" ==> UploaderName(Some(u)) == u.username
    ensures u.firstName == "" && u.lastName == "" && u.username == "" && u.email != "" ==>
      UploaderName(Some(u)) == u.email
    ensures u.firstName == "" && u.lastName == "" && u.username == "" && u.email == "" ==>
      UploaderName(Some(u)) == "ID " + IntToString(u.id)
  {
    var full := u.firstName + " " + u.lastName;
    if u.firstName != [] && u.lastName != [] && !IsWhitespace(u.firstName[0])
      && !IsWhitespace(u.lastName[|u.lastName| - 1])
    {
      assert full[0] == u.firstName[0] && full[|full| - 1] == u.lastName[|u.lastName| - 1];
      TrimUnchanged(full);
    }
    if u.firstName != [] && u.lastName == [] && !IsWhitespace(u.firstName[0])
      && !IsWhitespace(u.firstName[|u.firstName| - 1])
    {
      assert full == u.firstName + " ";
      TrimStartOfNonBlank(full);
      assert full[..|full| - 1] == u.firstName;
      assert IsWhitespace(full[|full| - 1]);
      assert TrimEnd(full) == TrimEnd(u.firstName);
      assert TrimEnd(u.firstName) == u.firstName;
    }
  }

  /**
   * The uploader names of a listing, looked up one file after the other (the route awaits
   * them together; the order of the lookups does not matter as they only read).
   */
  method ListWithUploaders(store: Store, files: seq<FileRecord>) returns (r: seq<ListedFile>)
    requires store.Valid()
    ensures |r| == |files|
    ensures forall i :: 0 <= i < |r| ==>
      r[i] == ListedFile(files[i], UploaderName(UploaderOf(store.users, files[i])))
  {
    r := [];
    var i := 0;
    while i < |files|
      invariant 0 <= i <= |files|
      invariant |r| == i
      invariant forall j :: 0 <= j < i ==> r[j] == ListedFile(files[j], UploaderName(UploaderOf(store.users, files[j])))
    {
      var name := "Inconnu";
      if HasUploader(files[i]) {
        var uploader := store.GetUser(files[i].uploadedBy.value);
        LookupIsGetUser(store.users, files[i].uploadedBy.value, uploader);
        name := UploaderName(uploader);
      }
      r := r + [ListedFile(files[i], name)];
      i := i + 1;
    }
  }

  /** What `getUser` answers is the lookup `UploaderOf` describes. */
  lemma LookupIsGetUser(users: seq<UserRow>, id: int, got: Option<UserRow>)
    requires UniqueUsers(users)
    requires got.Some? <==> HasUser(users, id)
    requires forall i :: 0 <= i < |users| && users[i].id == id ==> got == Some(ReadUser(users[i]))
    ensures got == ReadUserOption(Find(users, UserIdIs(id)))
  {
    FindSpec(users, UserIdIs(id));
    if HasUser(users, id) {
      var k :| 0 <= k < |users| && users[k].id == id;
      FindUnique(users, UserIdIs(id), k);
    }
  }

  // ---------------------------------------------------------------- upload

  /** The file multer received: the client's name for it and its size in bytes. */
  datatype Upload = Upload(originalName: string, size: int)

  /** The text fields of the upload form. */
  datatype UploadBody = UploadBody(department: Option<string>, category: Option<string>, description: Option<string>)

  const TooLargeReply: Reply :=
    Reply(400, "Fichier trop volumineux", Some("La taille maximale autoris\U{00E9}e est de 10MB"))
  const NoFileReply: Reply := Reply(400, "Aucun fichier fourni", None)
  const DepartmentRequired: Reply := Reply(400, "D\U{00E9}partement requis", None)
  const UploadFailed: Reply := Reply(500, "\U{00C9}chec de l'upload du fichier", None)

  /** The answer to a file the filter refuses, naming its lower-cased extension. */
  function FilterRefusal(originalName: string): Reply {
    Reply(400, "Erreur de fichier", Some(TypeErrorMessage(Lower(Extname(originalName)))))
  }

  /** multer: the type filter first, then the size limit; no file is not an error here. */
  function Multer(file: Option<Upload>): Result<Option<Upload>, Reply> {
    if file.None? then Ok(None)
    else if !ServerAccepts(file.value.originalName) then Err(FilterRefusal(file.value.originalName))
    else if file.value.size > MaxFileSize then Err(TooLargeReply)
    else Ok(file)
  }

  /** `a || b || undefined` over optional strings. */
  function FirstTruthy(a: Option<string>, b: Option<string>): Option<string> {
    if Truthy(a) then a else if Truthy(b) then b else None
  }

  /**
   * The record the route inserts. multer names the stored file `suffix` + the original
   * extension and puts it in `uploadsDir`; `suffix` stands for its clock-and-random part.
   */
  function UploadRecord(u: Upload, body: UploadBody, caller: Claims, suffix: string, uploadsDir: string): InsertFile {
    var filename := suffix + Extname(u.originalName);
    InsertFile(
      filename,
      u.originalName,
      Lower(DropDot(Extname(u.originalName))),
      u.size,
      uploadsDir + "/" + filename,
      Some(caller.id),
      FirstTruthy(body.department, caller.department),
      FirstTruthy(body.category, None),
      FirstTruthy(body.description, None),
      Some("approved"))
  }

  /** Everything the upload route decides before it writes to the store. */
  function UploadDecision(file: Option<Upload>, body: UploadBody, caller: Claims, suffix: string, uploadsDir: string)
    : Result<InsertFile, Reply>
  {
    match Multer(file)
    case Err(e) => Err(e)
    case Ok(None) => Err(NoFileReply)
    case Ok(Some(u)) =>
      if !Truthy(body.department) && caller.role != "user" then Err(DepartmentRequired)
      else Ok(UploadRecord(u, body, caller, suffix, uploadsDir))
  }

  /**
   * A refused type is reported before an excessive size, a missing file is refused, and only
   * a plain user may leave the department out.
   */
  lemma UploadRefusals(u: Upload, body: UploadBody, caller: Claims, suffix: string, dir: string)
    ensures UploadDecision(None, body, caller, suffix, dir) == Err(NoFileReply)
    ensures !ServerAccepts(u.originalName) ==>
      UploadDecision(Some(u), body, caller, suffix, dir) == Err(FilterRefusal(u.originalName))
    ensures ServerAccepts(u.originalName) && u.size > MaxFileSize ==>
      UploadDecision(Some(u), body, caller, suffix, dir) == Err(TooLargeReply)
    ensures ServerAccepts(u.originalName) && u.size <= MaxFileSize ==>
      (UploadDecision(Some(u), body, caller, suffix, dir).Err? <==> !Truthy(body.department) && caller.role != "user")
  {
  }

  /**
   * An accepted upload is recorded as approved, uploaded by the caller, in the requested
   * department or else the caller's, with the lower-cased extension (without its dot) as its
   * type, which is one of the nine allowed ones.
   */
  lemma UploadRecordSpec(u: Upload, body: UploadBody, caller: Claims, suffix: string, dir: string)
    requires ServerAccepts(u.originalName)
    ensures var ins := UploadRecord(u, body, caller, suffix, dir);
      && ins.status == Some("approved")
      && ins.uploadedBy == Some(caller.id)
      && ins.originalName == u.originalName && ins.fileSize == u.size
      && (Truthy(body.department) ==> ins.department == body.department)
      && (!Truthy(body.department) && Truthy(caller.department) ==> ins.department == caller.department)
      && (!Truthy(body.department) && !Truthy(caller.department) ==> ins.department == None)
      && "." + ins.fileType in AllowedTypes
      && '.' !in ins.fileType
      && ins.filePath == dir + "/" + ins.filename
    ensures NewFileRow(UploadRecord(u, body, caller, suffix, dir), 1, 0).status == "approved"
  {
    AcceptedType(u.originalName);
  }

  /** An accepted name's stored type is an allowed extension without its dot. */
  lemma AcceptedType(name: string)
    requires ServerAccepts(name)
    ensures "." + Lower(DropDot(Extname(name))) in AllowedTypes
    ensures '.' !in Lower(DropDot(Extname(name)))
  {
    var ext := Extname(name);
    assert ext != "";
    assert ext == "." + ext[1..];
    LowerAppend(".", ext[1..]);
    assert Lower(".") == ".";
    assert Lower(ext) == "." + Lower(ext[1..]);
  }

  /**
   * `POST /api/files`: the decision above, then the insert; an insert the database refuses
   * (the caller's id names no user) is answered with 500 and changes nothing.
   */
  method UploadRoute(store: Store, file: Option<Upload>, body: UploadBody, caller: Claims,
                     suffix: string, uploadsDir: string, now: int)
    returns (r: Result<FileRecord, Reply>)
    requires store.Valid()
    modifies store
    ensures store.Valid()
    ensures store.users == old(store.users) && store.departments == old(store.departments)
    ensures UploadDecision(file, body, caller, suffix, uploadsDir).Err? ==>
      r == Err(UploadDecision(file, body, caller, suffix, uploadsDir).error) && store.files == old(store.files)
    ensures UploadDecision(file, body, caller, suffix, uploadsDir).Ok? && !HasUser(old(store.users), caller.id) ==>
      r == Err(UploadFailed) && store.files == old(store.files)
    ensures UploadDecision(file, body, caller, suffix, uploadsDir).Ok? && HasUser(old(store.users), caller.id) ==>
      var row := NewFileRow(UploadDecision(file, body, caller, suffix, uploadsDir).value, old(store.nextFileId), now);
      r == Ok(ReadFile(row)) && store.files == old(store.files) + [row]
  {
    var decision := UploadDecision(file, body, caller, suffix, uploadsDir);
    if decision.Err? {
      return Err(decision.error);
    }
    var created := store.CreateFile(decision.value, now);
    if created.Err? {
      return Err(UploadFailed);
    }
    r := Ok(created.value);
  }

  // ---------------------------------------------------------------- delete

  const FileNotFound: Reply := Reply(404, "File not found", None)
  const FileDeleted: Reply := Reply(200, "File deleted successfully", None)

  /**
   * `DELETE /api/files/:id`: any signed-in caller may delete any file. 404 when no row has
   * the id; otherwise the row is soft-deleted (again, if it already was) and the answer is
   * 200. An id that does not parse, or lies outside the `integer` range, makes the lookup
   * throw, answered with 500.
   */
  method DeleteRoute(store: Store, idParam: string, caller: Claims) returns (r: Reply)
    requires store.Valid()
    modifies store
    ensures store.Valid()
    ensures store.users == old(store.users) && store.departments == old(store.departments)
    ensures ParseInt(idParam).None? || !IsInt4(ParseInt(idParam).value) ==>
      r == ServerError && store.files == old(store.files)
    ensures ParseInt(idParam).Some? && IsInt4(ParseInt(idParam).value) ==>
      var id := ParseInt(idParam).value;
      && (r == FileNotFound <==> !HasFile(old(store.files), id))
      && (r == FileDeleted <==> HasFile(old(store.files), id))
      && store.files == SoftDelete(old(store.files), id)
  {
    var parsed := ParseInt(idParam);
    if parsed.None? || !IsInt4(parsed.value) {
      return ServerError;
    }
    var id := parsed.value;
    var file := store.GetFile(id);
    if file.None? {
      MissingIdChangesNothing(store.users, store.files, id,
        UserPatch(None, None, None, None, None, None, None, None),
        FilePatch(None, None, None, None, None, None, None, None, None, None));
      return FileNotFound;
    }
    var ok := store.DeleteFile(id);
    r := if ok then FileDeleted else FileNotFound;
  }

  // ---------------------------------------------------------------- statistics

  /** `(acc[t] || 0) + 1` on a dictionary kept as key/count pairs in insertion order. */
  function Bump(h: seq<(string, nat)>, t: string): seq<(string, nat)> {
    if h == [] then [(t, 1)]
    else if h[0].0 == t then [(t, h[0].1 + 1)] + h[1..]
    else [h[0]] + Bump(h[1..], t)
  }

  /** `Object.keys(h)` */
  function Keys(h: seq<(string, nat)>): seq<string> {
    if h == [] then [] else [h[0].0] + Keys(h[1..])
  }

  /** `h[k] || 0` */
  function CountOf(h: seq<(string, nat)>, k: string): nat {
    if h == [] then 0 else if h[0].0 == k then h[0].1 else CountOf(h[1..], k)
  }

  function Tally(p: (string, nat)): int {
    p.1
  }

  /** The histogram the `reduce` builds from a list of types, one type after the other. */
  function TypeHistogram(types: seq<string>): seq<(string, nat)> {
    if types == [] then [] else Bump(TypeHistogram(types[..|types| - 1]), types[|types| - 1])
  }

  function TypeOf(f: FileRecord): string {
    f.fileType
  }

  function Is(k: string): string -> bool {
    (s: string) => s == k
  }

  /** One bump adds a key at the end only if it is new, and adds one to exactly its count. */
  lemma {:induction false} BumpSpec(h: seq<(string, nat)>, t: string)
    ensures Keys(Bump(h, t)) == if t in Keys(h) then Keys(h) else Keys(h) + [t]
    ensures Sum(Bump(h, t), Tally) == Sum(h, Tally) + 1
    ensures forall k :: CountOf(Bump(h, t), k) == CountOf(h, k) + (if k == t then 1 else 0)
  {
    if h != [] && h[0].0 != t {
      BumpSpec(h[1..], t);
      var b := [h[0]] + Bump(h[1..], t);
      assert b[1..] == Bump(h[1..], t);
      assert t in Keys(h) <==> t in Keys(h[1..]);
    } else if h != [] {
      var b := [(t, h[0].1 + 1)] + h[1..];
      assert b[1..] == h[1..];
    }
  }

  /**
   * The histogram has each type once, in order of first appearance, counts every
   * occurrence of each type, and its counts add up to the number of files.
   */
  lemma {:induction false} TypeHistogramSpec(types: seq<string>)
    ensures Keys(TypeHistogram(types)) == Distinct(types)
    ensures Sum(TypeHistogram(types), Tally) == |types|
    ensures forall k :: CountOf(TypeHistogram(types), k) == Count(types, Is(k))
    ensures forall i, j :: 0 <= i < j < |Keys(TypeHistogram(types))| ==>
      FirstIndex(types, Keys(TypeHistogram(types))[i]) < FirstIndex(types, Keys(TypeHistogram(types))[j])
  {
    DistinctOrder(types);
    if types != [] {
      var init := types[..|types| - 1];
      var t := types[|types| - 1];
      TypeHistogramSpec(init);
      BumpSpec(TypeHistogram(init), t);
      assert types == init + [t];
      forall k ensures CountOf(TypeHistogram(types), k) == Count(types, Is(k)) {
        FilterAppend(init, [t], Is(k));
      }
    }
  }

  /** The `reduce` of the stats route, as the loop it is. */
  method CountFileTypes(files: seq<FileRecord>) returns (hist: seq<(string, nat)>)
    ensures hist == TypeHistogram(Map(files, TypeOf))
  {
    hist := [];
    var i := 0;
    while i < |files|
      invariant 0 <= i <= |files|
      invariant hist == TypeHistogram(Map(files[..i], TypeOf))
    {
      var types := Map(files[..i + 1], TypeOf);
      assert types[..i] == Map(files[..i], TypeOf);
      hist := Bump(hist, files[i].fileType);
      i := i + 1;
    }
    assert files[..i] == files;
  }

  /** The body of `GET /api/stats`. */
  datatype Stats = Stats(
    totalFiles: nat,
    totalSize: int,
    activeUsers: nat,
    totalDepartments: nat,
    fileTypes: seq<(string, nat)>,
    userFiles: nat,
    totalUsers: nat)

  function InDepartmentOf(d: Option<string>): FileRecord -> bool {
    (f: FileRecord) => f.department == d
  }

  function SizeOf(f: FileRecord): int {
    f.fileSize
  }

  predicate IsActive(u: UserRow) {
    u.isActive
  }

  /** The files the statistics cover: a plain user's department, everything for the others. */
  function VisibleFiles(current: UserRow, files: seq<FileRecord>): seq<FileRecord> {
    if current.role == "user" then Filter(files, InDepartmentOf(current.department)) else files
  }

  /**
   * The statistics for `current` from the live files, all users, all departments and the
   * live files `current` uploaded.
   */
  function StatsOf(current: UserRow, files: seq<FileRecord>, users: seq<UserRow>,
                   departments: seq<DepartmentRow>, ownFiles: seq<FileRecord>): Stats
  {
    var visible := VisibleFiles(current, files);
    Stats(|visible|, Sum(visible, SizeOf), Count(users, IsActive), |departments|,
      TypeHistogram(Map(visible, TypeOf)), |ownFiles|, |users|)
  }

  /**
   * A plain user's statistics cover exactly the files of their department; the type counts
   * add up to the file total; the size total is the sum of the sizes; there are never more
   * active users than users.
   */
  lemma StatsSpec(current: UserRow, files: seq<FileRecord>, users: seq<UserRow>,
                  departments: seq<DepartmentRow>, ownFiles: seq<FileRecord>)
    ensures var s := StatsOf(current, files, users, departments, ownFiles);
      var visible := VisibleFiles(current, files);
      && s.totalFiles == |visible| && s.totalSize == Sum(visible, SizeOf)
      && Sum(s.fileTypes, Tally) == s.totalFiles
      && Keys(s.fileTypes) == Distinct(Map(visible, TypeOf))
      && s.activeUsers <= s.totalUsers
      && (current.role == "user" ==> forall f :: f in visible <==> f in files && f.department == current.department)
      && (current.role != "user" ==> visible == files)
      && ((forall f :: f in files ==> f.fileSize >= 0) ==> s.totalSize >= 0)
  {
    var visible := VisibleFiles(current, files);
    TypeHistogramSpec(Map(visible, TypeOf));
    FilterSpec(users, IsActive);
    FilterSpec(files, InDepartmentOf(current.department));
    if forall f :: f in files ==> f.fileSize >= 0 {
      forall i | 0 <= i < |visible| ensures SizeOf(visible[i]) >= 0 {
        assert visible[i] in visible;
      }
      SumNonNegative(visible, SizeOf);
    }
  }

  /**
   * `GET /api/stats?userId=`: 401 when no user has the id, otherwise the statistics over the
   * live files, with that user's own live uploads counted apart. An id that does not parse,
   * or lies outside the `integer` range, makes the lookup throw, answered with 500.
   */
  method StatsRoute(store: Store, userIdParam: string) returns (r: Result<Stats, Reply>)
    requires store.Valid()
    ensures ParseInt(userIdParam).None? || !IsInt4(ParseInt(userIdParam).value) ==> r == Err(ServerError)
    ensures (ParseInt(userIdParam).Some? && IsInt4(ParseInt(userIdParam).value)
      && !HasUser(store.users, ParseInt(userIdParam).value)) ==>
      r == Err(Reply(401, "Unauthorized", None))
    ensures forall i :: (0 <= i < |store.users| && ParseInt(userIdParam) == Some(store.users[i].id)
      && IsInt4(store.users[i].id)) ==>
      r == Ok(StatsOf(ReadUser(store.users[i]), Map(Filter(store.files, IsLive), ReadFile),
        Map(store.users, ReadUser), store.departments,
        Map(Filter(store.files, LiveUploadedBy(store.users[i].id)), ReadFile)))
  {
    var parsed := ParseInt(userIdParam);
    if parsed.None? || !IsInt4(parsed.value) {
      return Err(ServerError);
    }
    var id := parsed.value;
    var current := store.GetUser(id);
    if current.None? {
      return Err(Reply(401, "Unauthorized", None));
    }
    var allFiles := store.GetAllFiles();
    var users := store.GetAllUsers();
    assert users == Map(store.users, ReadUser);
    var departments := store.GetAllDepartments();
    var files := VisibleFiles(current.value, allFiles);
    var own := store.GetFilesByUser(id);
    var fileTypes := CountFileTypes(files);
    r := Ok(Stats(|files|, Sum(files, SizeOf), Count(users, IsActive), |departments|, fileTypes, |own|, |users|));
  }

  // ---------------------------------------------------------------- departments with counts

  /** A department as `GET /api/departments` lists it. */
  datatype DepartmentWithCounts = DepartmentWithCounts(department: DepartmentRow, userCount: nat, fileCount: nat)

  function FileInDepartment(name: string): FileRecord -> bool {
    (f: FileRecord) => f.department == Some(name)
  }

  /** Each department with the number of listed users and files whose department is its name. */
  function DepartmentCounts(departments: seq<DepartmentRow>, users: seq<UserRow>, files: seq<FileRecord>)
    : seq<DepartmentWithCounts>
  {
    Map(departments, (d: DepartmentRow) =>
      DepartmentWithCounts(d, Count(users, UserInDepartment(d.name)), Count(files, FileInDepartment(d.name))))
  }

  /**
   * Over the store's listings, a department's user count is the number of its users and its
   * file count the number of its live files: what `getUsersByDepartment` and
   * `getFilesByDepartment` would return.
   */
  lemma CountsMatchListings(users: seq<UserRow>, files: seq<FileRow>, name: string)
    ensures Count(Map(users, ReadUser), UserInDepartment(name)) == |Filter(users, UserInDepartment(name))|
    ensures Count(Map(Filter(files, IsLive), ReadFile), FileInDepartment(name))
      == |Filter(files, LiveInDepartment(name))|
  {
    forall i | 0 <= i < |users| ensures UserInDepartment(name)(users[i]) == UserInDepartment(name)(ReadUser(users[i])) {
      assert ReadUser(users[i]).department == users[i].department;
    }
    FilterMap(users, ReadUser, UserInDepartment(name), UserInDepartment(name));
    var live := Filter(files, IsLive);
    var fileIn := (x: FileRow) => FileInDepartment(name)(ReadFile(x));
    assert forall i :: 0 <= i < |live| ==> fileIn(live[i]) == FileInDepartment(name)(ReadFile(live[i]));
    FilterMap(live, ReadFile, FileInDepartment(name), fileIn);
    forall i | 0 <= i < |files| ensures LiveInDepartment(name)(files[i]) == (IsLive(files[i]) && fileIn(files[i])) {
      assert ReadFile(files[i]).department == files[i].department;
    }
    FilterFilter(files, IsLive, fileIn, LiveInDepartment(name));
  }

  /**
   * `GET /api/departments`: every department in the order `getAllDepartments` gives, each with the number of its
   * users and of its live files.
   */
  method DepartmentsRoute(store: Store) returns (r: seq<DepartmentWithCounts>)
    ensures |r| == |store.departments|
    ensures forall i :: 0 <= i < |r| ==>
      && r[i].department == store.departments[i]
      && r[i].userCount == |Filter(store.users, UserInDepartment(store.departments[i].name))|
      && r[i].fileCount == |Filter(store.files, LiveInDepartment(store.departments[i].name))|
  {
    var departments := store.GetAllDepartments();
    var users := store.GetAllUsers();
    assert users == Map(store.users, ReadUser);
    var files := store.GetAllFiles();
    r := DepartmentCounts(departments, users, files);
    forall i | 0 <= i < |r|
      ensures r[i].userCount == |Filter(store.users, UserInDepartment(store.departments[i].name))|
      ensures r[i].fileCount == |Filter(store.files, LiveInDepartment(store.departments[i].name))|
    {
      CountsMatchListings(store.users, store.files, store.departments[i].name);
    }
  }

  // ---------------------------------------------------------------- login

  /** The login body; `None` is a missing or non-string field. */
  datatype LoginBody = LoginBody(username: Option<string>, password: Option<string>)

  const InvalidRequest: Reply := Reply(400, "Invalid request", None)
  const InvalidCredentials: Reply := Reply(401, "Invalid credentials", None)

  /** The `user` object of the login answer as written: seven fields, no `isActive`. */
  function LoginUserAsWritten(u: UserRow): ClientTypes.User {
    ClientTypes.User(u.id, u.username, u.email, u.role, u.department, u.firstName, u.lastName, None, None)
  }

  /** The login answer's `user` with the account's `isActive` flag, which the client relies on. */
  function LoginUser(u: UserRow): (c: ClientTypes.User)
    ensures c == LoginUserAsWritten(u).(isActive := Some(u.isActive))
  {
    ClientTypes.User(u.id, u.username, u.email, u.role, u.department, u.firstName, u.lastName, Some(u.isActive), None)
  }

  /**
   * As written, the session the client keeps after a login has no `isActive`, so
   * `canUploadFiles` is false for every user who ever signs in, though only active users can.
   */
  lemma LoginAnswerBlocksUploads(u: UserRow)
    ensures !RoleContext.CanUploadFiles(Some(LoginUserAsWritten(u)))
  {
  }

  /** With the flag in the answer, every user who can sign in may upload. */
  lemma LoginAnswerAllowsUploads(u: UserRow)
    requires u.isActive
    ensures RoleContext.CanUploadFiles(Some(LoginUser(u)))
    ensures LoginUser(u).(isActive := None) == LoginUserAsWritten(u)
  {
  }

  /**
   * `POST /api/auth/login`: 400 for a missing or empty field, 401 for an unknown, inactive or
   * wrongly authenticated user, otherwise the user's last login is set to `now` and the
   * answer carries the token payload and the seven-field user, with which the client's
   * `canUploadFiles` is false. `passwordMatches` stands for the bcrypt
   * comparison of the given password with the stored hash.
   */
  method LoginRoute(store: Store, body: LoginBody, passwordMatches: (string, string) -> bool, now: int)
    returns (r: Result<(Claims, ClientTypes.User), Reply>)
    requires store.Valid()
    modifies store
    ensures store.Valid()
    ensures store.departments == old(store.departments) && store.files == old(store.files)
    ensures !Truthy(body.username) || !Truthy(body.password) ==>
      r == Err(InvalidRequest) && store.users == old(store.users)
    ensures r.Err? ==> r.error in {InvalidRequest, InvalidCredentials} && store.users == old(store.users)
    ensures r.Ok? ==> Truthy(body.username) && Truthy(body.password)
    ensures r.Ok? ==> !RoleContext.CanUploadFiles(Some(r.value.1))
    ensures r.Ok? ==> exists i :: 0 <= i < |old(store.users)| && old(store.users)[i].username == body.username.value
    ensures forall i :: (0 <= i < |old(store.users)| && Truthy(body.username) && Truthy(body.password)
      && old(store.users)[i].username == body.username.value) ==>
      var row := old(store.users)[i];
      && (r.Ok? <==> row.isActive && passwordMatches(body.password.value, row.password))
      && (r.Ok? ==> r.value == (TokenPayload(ReadUser(row)), LoginUserAsWritten(ReadUser(row))))
      && (r.Ok? ==> store.users == PatchUsers(old(store.users), row.id, LastLoginAt(now)))
  {
    if !Truthy(body.username) || !Truthy(body.password) {
      return Err(InvalidRequest);
    }
    var found := store.GetUserByUsername(body.username.value);
    if found.None? || !found.value.isActive {
      return Err(InvalidCredentials);
    }
    var u := found.value;
    if !passwordMatches(body.password.value, u.password) {
      return Err(InvalidCredentials);
    }
    ghost var k :| 0 <= k < |store.users| && store.users[k].username == body.username.value;
    assert u == ReadUser(store.users[k]);
    var updated := store.UpdateUser(u.id, LastLoginAt(now));
    assert !PatchClashes(old(store.users), u.id, LastLoginAt(now));
    assert HasUser(old(store.users), u.id);
    LoginAnswerBlocksUploads(u);
    r := Ok((TokenPayload(u), LoginUserAsWritten(u)));
  }

  /** The update a login makes: only the last login time. */
  function LastLoginAt(now: int): UserPatch {
    UserPatch(None, None, None, None, None, None, None, Some(now))
  }
}
