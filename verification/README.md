# Archivio rules, modelled in Dafny

Archivio is a small document-management web application: an Express server over a Postgres
database (through Prisma), and a React client. Users sign in, upload office documents and
images into departments, list and search them, download and delete them. An administrator
also sees statistics and manages users and departments. Under the routes and pages sits a set
of deterministic rules over records, strings and integers. This project models those rules and
proves what they promise:

- who may do what: the client's role context, the case-sensitive role hook, the sidebar's own
  copy, and the server's middleware. The drift between these copies is stated as lemmas, both
  where they agree and where letter case makes them disagree;
- the presentation thresholds that follow the file count;
- upload validation on the client and on the server, and the record stored for an upload;
- the listing filters of the server and of the grid, "my files", search and user pages, and the
  badge counting active filters;
- the storage layer as three in-memory tables, with soft deletion and role case mapping;
- statistics: counts, sizes, the type histogram, per-department counts and rounded
  percentages;
- the department dialog and the upload dialog as state machines, and the class string of the
  responsive grid.

There is one Dafny module per source file, plus four shared modules:

- `Wrappers`: `Option`, `Result`;
- `Text`: ASCII case mapping, JavaScript whitespace and `trim`, `split`/`join`, `parseInt`,
  `Number`;
- `Lists`: order-preserving filter, count, distinct, sum, subsequence;
- `JsMath`: `Math.round` of a quotient, in exact integers.

The stateful code is modelled as classes:

- the store (`Storage.Store`);
- the request `requireAuth` updates (`Auth.AuthRequest`);
- the filter bar, the search page, the department dialog and the upload dialog.

Loops stay loops: `handleSubmit`'s sequential uploads, the histogram `reduce`, the filter
badge's counter, the grid's conditional pushes, and the uploader-name and department-count
`map`s. Pure code is modelled as functions with lemmas.

Parameters stand for what lies outside the model:

- JWT verification is a function from a token to optional claims;
- the bcrypt comparison is a predicate;
- the clock is a number of milliseconds;
- the random part of multer's stored file names is a string;
- the existence of a file on disk is a boolean;
- whether the server accepts an upload request from the dialog is a predicate.

## Model

| member | source | states |
|---|---|---|
| Auth.RequireAuth | server/middleware/auth.ts:19-32 | On a valid bearer token the decoded claims become `req.user` and the request goes on; otherwise the answer is the 401 `Authenticate` gives and `req.user` is untouched |
| Auth.AuthenticateSpec | server/middleware/auth.ts:19-32 | A missing header, or one not starting with "Bearer ", gives 401 "Token manquant ou invalide". A token that does not verify gives 401 "Token invalide ou expiré". Success happens exactly when verification succeeds, and yields what it decoded |
| Auth.BearerTokenSpec | server/middleware/auth.ts:24 | The token is the text after "Bearer " up to the next space: the whole rest when it has no space, "" for the bare prefix |
| Auth.BearerRoundTrip | server/middleware/auth.ts:10-32 | A space-free token that verifies to a user's payload authenticates as exactly that user's id, role and department |
| Auth.PayloadCarriesOnlyThreeFields | server/middleware/auth.ts:10-17 | Two users get the same token payload iff they agree on id, role and department |
| Auth.RequireRoleSpec | server/middleware/auth.ts:34-41 | 403 without a user; otherwise passes iff the role is listed letter for letter, so "ADMIN" is refused where "admin" is required |
| Auth.SelfOrAdminSpec | server/middleware/auth.ts:43-48 | admin and superuser always pass. Anyone else passes iff `Number(userId)` equals their id, and their own printed id always passes. With a user present the check never throws |
| Schema.NewUserRow | shared/schema.ts:5-17 | A new user row has the given id and creation time, is active, has no last login, and has role "user" unless one is given. Its insertable fields are the inserted ones |
| Schema.NewDepartmentRow | shared/schema.ts:19-24 | A new department row keeps the given name and description, with the given id and creation time |
| Schema.NewFileRow | shared/schema.ts:26-40 | A new file row is not deleted, has status "pending" unless one is given, and keeps every inserted field |
| Schema.UserRowFromInsert | shared/schema.ts:42-50 | A fresh user row is rebuilt exactly from its insertable fields: the insert schema omits only id, isActive, createdAt and lastLogin |
| Schema.FileRowFromInsert | shared/schema.ts:57-68 | A fresh file row is rebuilt exactly from its ten insertable fields: id, createdAt and isDeleted cannot be set at insert |
| Storage.ReadFileDropsOnlyStatus | server/storage.ts:234-247 | Mapping a file row out loses its status and nothing else |
| Storage.ReadUserKeepsAllButRole | server/storage.ts:213-225 | Reading a user lower-cases the role, keeps every other column, and reading twice is reading once |
| Storage.StoredRoleSpec | server/storage.ts:61-69 | The stored role is non-empty and upper case: "USER" for an absent or empty role, the upper-cased role otherwise. It reads back as the lower-cased given role, or "user" |
| Storage.PatchKeepsUnique | server/storage.ts:71-81 | A patch that clashes with no other user keeps ids, usernames and emails unique, and moves no id |
| Storage.SoftDeleteSpec | server/storage.ts:160-170 | Deleting keeps every row and the uniqueness of ids. Only the row with the id changes, and only by getting `isDeleted` set. The lookup by id then finds it deleted |
| Storage.SoftDeleteHidesFromListing | server/storage.ts:160-177 | After a delete, the live listing is the old live listing without that id |
| Storage.MissingIdChangesNothing | server/storage.ts:71-170 | Updating or deleting a user, or updating or deleting a file, with an id no row has changes no row |
| Storage.ListingsSpec | server/storage.ts:172-210 | Each listing keeps, in the order the model fixes (table order), exactly the live rows its `where` selects: by uploader, by department, or by query on name or description |
| Storage.SearchQuerySpec | server/storage.ts:199-210 | The empty query lists every live file, and the letter case of the query never changes the answer |
| Storage.NothingDeletedListsAll | server/storage.ts:172-177 | With no deleted row, the live listing is the whole table |
| Storage.Store.constructor | server/storage.ts:35-37 | The store starts empty, with every serial at 1 |
| Storage.Store.GetUser | server/storage.ts:40-45 | Finds a user iff one has the id, and returns it read back |
| Storage.Store.GetUserByUsername | server/storage.ts:47-52 | Finds a user iff one has the username, and returns it read back |
| Storage.Store.GetUserByEmail | server/storage.ts:54-59 | Finds a user iff one has the email, and returns it read back |
| Storage.Store.CreateUser | server/storage.ts:61-69 | A taken username or email is refused and nothing changes. Otherwise a row with the next id and the upper-cased role is appended, and it reads back lower-cased |
| Storage.Store.UpdateUser | server/storage.ts:71-81 | Returns nothing and changes nothing iff no user has the id or the patch clashes on a unique column. Otherwise exactly that row is patched and returned read back |
| Storage.Store.DeleteUser | server/storage.ts:83-92 | Returns true iff a user had the id. Exactly that row is removed; the other tables are untouched |
| Storage.Store.GetAllUsers | server/storage.ts:94-97 | Every user, in table order as the model fixes it, read back with a lower-case role |
| Storage.Store.GetUsersByDepartment | server/storage.ts:99-104 | Exactly the users of the department, in table order as the model fixes it, read back |
| Storage.Store.GetDepartment | server/storage.ts:107-112 | Finds a department iff one has the id |
| Storage.Store.GetDepartmentByName | server/storage.ts:114-119 | Finds a department iff one has the name |
| Storage.Store.CreateDepartment | server/storage.ts:121-126 | A taken name is refused and nothing changes. Otherwise a row with the next id is appended and returned |
| Storage.Store.GetAllDepartments | server/storage.ts:128-131 | The whole department table, in table order as the model fixes it |
| Storage.Store.GetFile | server/storage.ts:134-139 | Finds a file iff a row has the id, deleted or not |
| Storage.Store.CreateFile | server/storage.ts:141-146 | An uploader id naming no user is refused (foreign key) and nothing changes. Otherwise a pending, live row with the next id is appended |
| Storage.Store.UpdateFile | server/storage.ts:148-158 | Returns nothing and changes nothing iff no file has the id or the new uploader names no user. Otherwise exactly that row is patched |
| Storage.Store.DeleteFile | server/storage.ts:160-170 | Returns false iff no row has the id. The table becomes its soft deletion: same length, only that row's `isDeleted` set |
| Storage.Store.GetAllFiles | server/storage.ts:172-177 | The live files, in table order as the model fixes it, none deleted |
| Storage.Store.GetFilesByUser | server/storage.ts:179-187 | The live files the user uploaded, in table order as the model fixes it |
| Storage.Store.GetFilesByDepartment | server/storage.ts:189-197 | The live files of the department, in table order as the model fixes it |
| Storage.Store.SearchFiles | server/storage.ts:199-210 | The live files whose name or description contains the query in any letter case, in table order as the model fixes it |
| FileOptimization.ViewModeRanges | client/src/hooks/useFileOptimization.tsx:23-27 | The view mode is table iff more than 5000 files, compact iff 1001..5000, and cards otherwise |
| FileOptimization.ViewModeMonotone | client/src/hooks/useFileOptimization.tsx:23-27 | More files never give a less dense mode (cards < compact < table) |
| FileOptimization.PageSizeSpec | client/src/hooks/useFileOptimization.tsx:30-36 | The page size is one of 12, 15, 25, 50 and 100. It is 12 up to 200 files and never decreases as the count grows |
| FileOptimization.AutoSwitchIffLessDense | client/src/hooks/useFileOptimization.tsx:39-43 | An automatic switch is advised iff the current mode is less dense than the optimal one, so never in table mode |
| FileOptimization.WarningSpec | client/src/hooks/useFileOptimization.tsx:46-54 | A warning appears iff the mode is cards with more than 5000 files. The message for more than 10000 files takes precedence |
| FileOptimization.TipsCount | client/src/hooks/useFileOptimization.tsx:57-75 | 0, 1, 3 or 5 tips for counts up to 1000, up to 5000, up to 10000, and above |
| FileOptimization.TipsPrefix | client/src/hooks/useFileOptimization.tsx:57-75 | The tips for a smaller count are a prefix of those for a larger one |
| RoleContext.NoUserNoRights | client/src/contexts/RoleContext.tsx:10-50 | Without a user, every access predicate is false |
| RoleContext.UpperAllowedRoles | client/src/contexts/RoleContext.tsx:10-15 | Upper-casing every allowed role never changes `hasAccess` |
| RoleContext.LowerAllowedRoles | client/src/contexts/RoleContext.tsx:10-15 | Lower-casing every allowed role never changes `hasAccess` |
| RoleContext.RoleCaseIrrelevant | client/src/contexts/RoleContext.tsx:10-34 | Upper- or lower-casing the user's role never changes `hasAccess`, `canManageUsers` or `canAccessFile` |
| RoleContext.ManagementPredicatesAgree | client/src/contexts/RoleContext.tsx:17-50 | `canManageUsers`, `canManageDepartments` and `canAccessUserManagement` agree for every user. Each holds iff the upper-cased role is SUPERUSER or ADMIN, which is also `hasAccess(["superuser","admin"])` |
| RoleContext.DeleteFileSpec | client/src/contexts/RoleContext.tsx:22-34 | `canDeleteFile` ignores the file, so a plain user cannot delete even their own upload. Whoever may delete a file may also access it |
| RoleContext.AccessFileSpec | client/src/contexts/RoleContext.tsx:29-34 | Elevated roles access every file. Others access a file iff they uploaded it or its department equals theirs, both without a department included |
| RoleContext.UploadDependsOnlyOnActive | client/src/contexts/RoleContext.tsx:41-45 | Uploading is allowed iff `isActive` is true. The role never matters, and an absent flag forbids it |
| RoleAccess.NoUserSpec | client/src/hooks/useRoleAccess.tsx:6-28 | Without a user nothing passes and the current role is undefined. With one, the current role is the role unchanged |
| RoleAccess.RoleTestsExclusive | client/src/hooks/useRoleAccess.tsx:11-21 | At most one of the three role tests holds, and each is exact lower-case equality |
| RoleAccess.ExactImpliesCaseInsensitive | client/src/hooks/useRoleAccess.tsx:6-9 | Whoever passes the exact check passes the context's case-insensitive one |
| RoleAccess.AgreeOnLowerCaseRoles | client/src/hooks/useRoleAccess.tsx:6-9 | For lower-case roles and lower-case allowed lists, the hook and the context decide alike |
| RoleAccess.DisagreeOnUpperCaseRole | client/src/hooks/useRoleAccess.tsx:6-17 | A user whose role is "ADMIN" is refused by the hook and admitted by the context |
| RoleAccess.ExactTestsImplyContext | client/src/hooks/useRoleAccess.tsx:11-21 | `isSuperUser` or `isAdmin` implies the context's `canManageUsers`, and `isUser` excludes it |
| Sidebar.HasAccessMatchesContext | client/src/components/Layout/Sidebar.tsx:31-36 | The sidebar's local `hasAccess` decides exactly as the context's, for every input |
| Sidebar.MenuGating | client/src/components/Layout/Sidebar.tsx:149-165 | "Utilisateurs" shows iff the upper-cased role is SUPERUSER or ADMIN, and "Configuration" iff it is SUPERUSER. The second implies the first, and the first is `canManageUsers` |
| Sidebar.InitialsSpec | client/src/components/Layout/Sidebar.tsx:59-61 | The initials are the upper-cased first letters. An empty first name shows "UNDEFINED" |
| Sidebar.LowerCaseKeysOnly | client/src/components/Layout/Sidebar.tsx:63-79 | Only the lower-case roles superuser, admin and user have a label and a colour. "ADMIN" and the like show "Inconnu" and gray |
| UserTable.InitialsSpec | client/src/components/Users/UserTable.tsx:40-42 | The first character of each non-empty name, case kept |
| UserTable.RoleLabelSpec | client/src/components/Users/UserTable.tsx:57-68 | The three known roles get their label in any letter case. Any other role is shown as it is |
| UserTable.RoleColorSpec | client/src/components/Users/UserTable.tsx:44-55 | The colour ignores case, and plain and unknown roles share the neutral colour |
| UserTable.FormatLastLoginBands | client/src/components/Users/UserTable.tsx:70-82 | The label is "Jamais" with no login and "Maintenant" under an hour, future dates included. It is "Il y a Nh" for 1 to 23 hours, "Hier" for 24 to 47, and a date beyond that |
| UserTable.CanDeleteUserSpec | client/src/components/Users/UserTable.tsx:84-89 | Nobody deletes their own row. A superuser deletes anyone else, an admin only users whose role is exactly "user", and anyone else nobody |
| FileUtils.ValidateFileSpec | client/src/lib/fileUtils.ts:3-27 | A file is valid iff its extension is one of the nine and its size is at most 10 MiB, and iff no error is returned. The type error is reported before the size error |
| FileUtils.SizeBoundary | client/src/lib/fileUtils.ts:19 | 10485760 bytes pass and 10485761 fail with the size error |
| FileUtils.ValidateIgnoresCase | client/src/lib/fileUtils.ts:10 | Upper- or lower-casing the name never changes the outcome |
| FileUtils.NoDotWholeName | client/src/lib/fileUtils.ts:10 | A name without a dot is its own extension candidate, so "pdf" is valid |
| FileUtils.ExtensionAfterLastDot | client/src/lib/fileUtils.ts:10 | The extension is "." plus the lower-cased text after the last dot |
| FileUtils.FileTypeIconSpec | client/src/lib/fileUtils.ts:37-44 | The icon ignores case, and everything outside the four groups is the paper clip |
| Routes.Extname | server/routes.ts:43 | `path.extname` is empty, or a dot followed by dot-free text |
| Routes.ExtnameSpec | server/routes.ts:43 | After a non-empty stem, the extension is "." plus the dot-free text after the last dot |
| Routes.ExtnameNone | server/routes.ts:43 | A dot-free name, or one whose only dot leads it, has no extension |
| Routes.UploadFilterMatchesClient | server/routes.ts:41-49 | The server accepts a name iff the client's check accepts its type and a dot stands after the first character |
| Routes.SameExtension | server/routes.ts:43 | With a dot after the first character, the server and the client see the same extension |
| Routes.FilterDisagreements | server/routes.ts:41-49 | "pdf" and ".pdf" pass the client's type check and fail the server's |
| Routes.MimeTypeSpec | server/routes.ts:92-101 | Only six extensions have a type of their own (.jpg and .jpeg are image/jpeg). .doc, .xls, .gif and everything else are byte streams |
| Routes.ContentTypeSource | server/routes.ts:92 | The type comes from `originalName`, and from the stored name only when `originalName` is empty |
| Routes.ExtnameOfLower | server/routes.ts:92 | Lower-casing a name lower-cases its `path.extname` and moves no dot |
| Routes.ContentTypeIgnoresCase | server/routes.ts:92-101 | For every file and every name equal to its `originalName` up to case, the content type is the same. It equals the table entry for the extension of the lower-cased name |
| Routes.DeletedFilesStillDownload | server/routes.ts:78-103 | The download never looks at `isDeleted`, so a soft-deleted file with a path on disk still downloads |
| Routes.BuildFiltersSpec | server/routes.ts:311-326 | "all" and empty values add no constraint, and other values are kept. The date is kept iff `parseInt` reads it. Page and limit default to 1 and 12 |
| Routes.ScopeFiltersSpec | server/routes.ts:333-338 | A plain user's department filter is always their own, whatever they asked. Other roles keep the requested filters, and nothing but the department is touched |
| Routes.UploaderNameSpec | server/routes.ts:341-354 | "Inconnu" without an uploader. Otherwise the trimmed "first last" when either name is set, and if not, the username, then the email, then "ID n" |
| Routes.ListWithUploaders | server/routes.ts:341-354 | One entry per file, in order, each with the name the fallback chain gives for its uploader in the store |
| Routes.LookupIsGetUser | server/routes.ts:343-345 | The uploader the route finds is the read-back row with that id |
| Routes.UploadRefusals | server/routes.ts:413-452 | A missing file, a refused type, an oversized file (type first) and a missing department for a role other than "user" are each refused with their own answer |
| Routes.UploadRecordSpec | server/routes.ts:454-465 | An accepted upload is recorded as approved and uploaded by the caller. Its department is the requested one, else the caller's, else none. Its type is the dot-free lower-cased extension, one of the nine allowed, and its path is under the upload directory |
| Routes.AcceptedType | server/routes.ts:457 | For a name the upload filter accepts, the stored type (the extension without its dot, lower-cased) is one of the nine allowed extensions once the dot is put back, and holds no dot itself |
| Routes.UploadRoute | server/routes.ts:413-486 | A refusal changes nothing. An accepted upload by an unknown caller is answered 500 and changes nothing. Otherwise exactly the upload's record is created |
| Routes.DeleteRoute | server/routes.ts:489-515 | Any caller may delete any file: 404 iff no row has the id, otherwise soft deletion and 200. An unreadable id, or one outside the `integer` range -2147483648..2147483647, is answered 500 and changes nothing |
| Routes.BumpSpec | server/routes.ts:547-550 | One step of the reduce adds a key only if new, at the end, and adds one to exactly that key's count |
| Routes.TypeHistogramSpec | server/routes.ts:547-550 | The histogram has each type once, a type listed before another first appears before it, counts every occurrence, and its counts add up to the number of files |
| Routes.CountFileTypes | server/routes.ts:547-550 | The reduce loop builds exactly that histogram |
| Routes.StatsSpec | server/routes.ts:533-559 | A plain user's stats cover exactly their department's files and the others' cover all files. The type counts add up to the total, the size is the sum of sizes, and there are no more active users than users |
| Routes.StatsRoute | server/routes.ts:518-565 | An unreadable id, or one outside the `integer` range, is answered 500, and an unknown user 401. Otherwise the stats of the live files for that user, with their own live uploads counted |
| Routes.CountsMatchListings | server/routes.ts:247-251 | A department's counts equal the sizes of its user listing and of its live-file listing |
| Routes.DepartmentsRoute | server/routes.ts:239-258 | Every department, in the order the listing gives, with the number of its users and of its live files |
| Routes.LoginUser | server/routes.ts:129-140 | The corrected login user is the written one plus the account's `isActive` |
| Routes.LoginAnswerBlocksUploads | server/routes.ts:129-140 | As written, the user the client keeps after signing in can never upload |
| Routes.LoginAnswerAllowsUploads | server/routes.ts:129-140 | With `isActive` in the answer, every user who can sign in may upload, and the answer differs from the written one only by that flag |
| Routes.LoginRoute | server/routes.ts:109-144 | An empty field gives 400. An unknown or inactive user, or a wrong password, gives 401, and nothing changes. Otherwise only that user's last login is set, and the answer is the token payload and the seven-field user, with which `canUploadFiles` is false |
| UploadModal.ReplaceWhitespaceRunsSpec | client/src/components/Files/UploadModal.tsx:99 | Replacing whitespace runs by "_" leaves no whitespace, never lengthens the name, and keeps a name without whitespace |
| UploadModal.FileDataSpec | client/src/components/Files/UploadModal.tsx:97-107 | The proposed name has no whitespace, is lower case and is no longer than the original. The type is the text after the last dot, case kept, which the client's check reads as its extension. The path is "/uploads/" + name, and the uploader is the user |
| UploadModal.ThroughFirstFailurePrefix | client/src/components/Files/UploadModal.tsx:96-111 | The requests sent are always a prefix of the uploads |
| UploadModal.ThroughFirstFailureAll | client/src/components/Files/UploadModal.tsx:96-111 | When every request is accepted, all of them are sent |
| UploadModal.ThroughFirstFailureStops | client/src/components/Files/UploadModal.tsx:96-111 | Otherwise the requests sent run up to and including the first one refused |
| UploadModal.UploadDialog.constructor | client/src/components/Files/UploadModal.tsx:25-30 | No selection and an empty form |
| UploadModal.UploadDialog.ApplyUserDefaults | client/src/components/Files/UploadModal.tsx:38-42 | A plain user's department is preset to their own, and nothing else changes |
| UploadModal.UploadDialog.SelectFiles | client/src/components/Files/UploadModal.tsx:70-72 | The selection is replaced, and nothing else changes |
| UploadModal.UploadDialog.SelectDepartment | client/src/components/Files/UploadModal.tsx:179-180 | The department changes, except for a plain user, whose selector is disabled |
| UploadModal.UploadDialog.EditFields | client/src/components/Files/UploadModal.tsx:26-30 | Category and description change, and nothing else |
| UploadModal.UploadDialog.HandleSubmit | client/src/components/Files/UploadModal.tsx:74-112 | No selection sends nothing, and neither does an empty department or category. Otherwise one request per file is sent in selection order, stopping at the first refused, and the outcome is AllUploaded or names the refused index. The close flag is left alone in the two early cases, and otherwise set exactly when the first request is accepted |
| UploadModal.VisibleSpec | client/src/components/Files/UploadModal.tsx:33-35 | The dialog shows iff the user is active, whatever the role |
| UploadModal.DialogAfterLogin | client/src/components/Files/UploadModal.tsx:33-35 | After the written login the dialog never shows. After the corrected one it shows for every active user |
| FiltersBar.With | client/src/components/Files/FiltersBar.tsx:45-47 | The named key gets the value, and the other keys keep theirs |
| FiltersBar.ActiveCount | client/src/components/Files/FiltersBar.tsx:54-61 | The count lies in 0..4 |
| FiltersBar.ActiveCountSpec | client/src/components/Files/FiltersBar.tsx:54-61 | 0 iff all three selects are "all" and the search is blank. A search of spaces counts like none. 4 iff every select is set and the search is not blank |
| FiltersBar.ActiveCountStep | client/src/components/Files/FiltersBar.tsx:45-61 | Moving one select off "all" raises the count by exactly one |
| FiltersBar.FiltersBarState.constructor | client/src/components/Files/FiltersBar.tsx:32 | The search starts from the parent's query |
| FiltersBar.FiltersBarState.ActiveFiltersCount | client/src/components/Files/FiltersBar.tsx:54-61 | The step-by-step counter equals the count above |
| FiltersBar.FiltersBarState.HandleFilterChange | client/src/components/Files/FiltersBar.tsx:45-47 | Only the named key changes |
| FiltersBar.FiltersBarState.ClearAllFilters | client/src/components/Files/FiltersBar.tsx:49-52 | Every select is set to "all" and the search emptied, so the count is 0 |
| FileGrid.FilteredFilesSpec | client/src/components/Files/FileGrid.tsx:21-26 | The grid shows, in fetched order, exactly the files matching type and department ("all" matches every file) and whose name contains the search in any case |
| FileGrid.NoFiltersShowsAll | client/src/components/Files/FileGrid.tsx:21-26 | With every select on "all" and no search, the whole list is shown |
| FileGrid.DateIgnored | client/src/components/Files/FileGrid.tsx:21-26 | The date select plays no part |
| FileGrid.SearchIgnoresCase | client/src/components/Files/FileGrid.tsx:24 | A query and its upper-case form show the same files |
| FileGrid.FooterSpec | client/src/components/Files/FileGrid.tsx:65 | The footer starts "Affichage de 1 à ", and `parseInt` of the rest reads back the number of files shown, which is at most the number fetched |
| MyFiles.FilteredFilesSpec | client/src/pages/MyFiles.tsx:29-33 | In order, exactly the user's files of the chosen type whose name contains the search in any case |
| MyFiles.OnlyTypeMatters | client/src/pages/MyFiles.tsx:29-33 | The department and date selects never change the result |
| MyFiles.AgreesWithGrid | client/src/pages/MyFiles.tsx:29-33 | The page filters like the grid with its department select on "all" |
| MyFiles.InitialShowsAll | client/src/pages/MyFiles.tsx:29-33 | Initially, despite the "30days" date, every file of the user is shown |
| SearchPage.FilteredFilesSpec | client/src/pages/Search.tsx:63-67 | In order, exactly the files matching each non-empty select |
| SearchPage.ClearedKeepsAll | client/src/pages/Search.tsx:63-71 | With both selects cleared, the whole answer is listed |
| SearchPage.NothingBeforeSearch | client/src/pages/Search.tsx:31-48 | Without a user, or before a query is sent, nothing is listed and no type is offered |
| SearchPage.FileTypesSpec | client/src/pages/Search.tsx:73 | The offered types are each type of the answer, once, ordered by where a file of that type first appears |
| Lists.DistinctOrder | client/src/pages/Search.tsx:73 | `Array.from(new Set(s))` lists the values by their first occurrence in `s`: of two listed values, the earlier one first occurs earlier |
| SearchPage.FilteredTypesOffered | client/src/pages/Search.tsx:63-73 | Every listed file's type is offered |
| SearchPage.SearchPageState.constructor | client/src/pages/Search.tsx:21-26 | No query, no filters |
| SearchPage.SearchPageState.TypeQuery | client/src/pages/Search.tsx:21 | Typing changes only the typed text |
| SearchPage.SearchPageState.HandleSearch | client/src/pages/Search.tsx:56-61 | A non-blank text becomes the sent query as typed, spaces included. A blank one leaves the previous query. The sent query is never blank |
| SearchPage.SearchPageState.SetFilters | client/src/pages/Search.tsx:63-67 | Choosing a select changes only the filters |
| SearchPage.SearchPageState.ClearFilters | client/src/pages/Search.tsx:69-71 | Both selects are emptied, and the queries are kept |
| UserManagement.FilteredUsersSpec | client/src/components/Users/UserManagementModal.tsx:27-41 | In order, exactly the users matching the search on names or email in any case, the role select, and the department scope |
| UserManagement.EmptySearchMatches | client/src/components/Users/UserManagementModal.tsx:28-31 | An empty search matches everyone |
| UserManagement.SuperuserSeesAll | client/src/components/Users/UserManagementModal.tsx:36-38 | A superuser with no search and every role sees the whole list |
| UserManagement.OthersScopedToDepartment | client/src/components/Users/UserManagementModal.tsx:36-38 | Any other viewer sees only their own department's users |
| UserManagement.OpensSpec | client/src/components/Users/UserManagementModal.tsx:43-45 | The dialog opens iff the upper-cased role is SUPERUSER or ADMIN |
| UserManagement.UpperCaseSuperuserScoped | client/src/components/Users/UserManagementModal.tsx:36-45 | A viewer whose role is "SUPERUSER" opens the dialog yet is scoped to their department like an admin |
| JsMath.RoundDiv | client/src/pages/Statistics.tsx:142 | `Math.round(n/d)` is the integer within half of n/d, with ties going up |
| JsMath.RoundDivUnique | client/src/pages/Statistics.tsx:142 | It is the only such integer |
| JsMath.PercentBounds | client/src/pages/Statistics.tsx:142 | A share of a whole rounds to a percentage in 0..100 |
| JsMath.RoundDivMonotone | client/src/pages/Statistics.tsx:142 | A larger share never shows a smaller figure |
| Statistics.FileTypeColorSpec | client/src/pages/Statistics.tsx:40-48 | png, jpg and jpeg are purple. Everything outside the six names is slate, "PDF" and "doc" included |
| Statistics.PercentageSpec | client/src/pages/Statistics.tsx:141-142 | 0 with no files. Otherwise the rounded 100·count/total, in 0..100 for a share |
| Statistics.EntryAtMostTotal | client/src/pages/Statistics.tsx:141 | Each count is at most the total |
| Statistics.RowsInRange | client/src/pages/Statistics.tsx:140-142 | One row per type, each percentage in 0..100 |
| Statistics.RowsOfServerStats | client/src/pages/Statistics.tsx:140-142 | For the server's histogram, each percentage is the rounded share of that type among all the files counted |
| Statistics.SharesNeedNotAddUp | client/src/pages/Statistics.tsx:142 | Three equal types show 33% each, 99 in all |
| RightPanel.SameColors | client/src/components/Layout/RightPanel.tsx:22-30 | The panel colours every type as the statistics page does |
| RightPanel.LookupAt | client/src/components/Layout/RightPanel.tsx:35 | With unique keys, looking up an entry's key gives its count |
| RightPanel.FileTypePercentageSpec | client/src/components/Layout/RightPanel.tsx:32-36 | 0 without stats and 0 for an empty histogram. For a listed type, the statistics page's percentage, in 0..100 |
| RightPanel.MissingTypeIsNaN | client/src/components/Layout/RightPanel.tsx:35 | A type missing from a non-empty histogram gives NaN, not 0 |
| RightPanel.ServerHistogramKeysUnique | client/src/components/Layout/RightPanel.tsx:32-36 | The server's histogram lists each type once |
| DepartmentsPage.SubmitRequestSpec | client/src/pages/Departments.tsx:102-110 | Nothing is sent iff the name is blank. Otherwise an update of the edited department, or a create, carrying the form |
| DepartmentsPage.EditRoundTrip | client/src/pages/Departments.tsx:177-183 | Editing and submitting unchanged sends back the department's name and its description, or "" |
| DepartmentsPage.DepartmentsDialog.constructor | client/src/pages/Departments.tsx:29-35 | The dialog starts closed, with an empty form, nothing being edited, and no request sent |
| DepartmentsPage.DepartmentsDialog.OpenAdd | client/src/pages/Departments.tsx:131-132 | The dialog opens, a blank creation when it was closed |
| DepartmentsPage.DepartmentsDialog.OpenEdit | client/src/pages/Departments.tsx:177-183 | The dialog opens on the department, its name and its description or "" |
| DepartmentsPage.DepartmentsDialog.ChangeForm | client/src/pages/Departments.tsx:236-245 | Typing changes only the form |
| DepartmentsPage.DepartmentsDialog.Submit | client/src/pages/Departments.tsx:102-110 | The request for the form is appended, if any, and the dialog state stays |
| DepartmentsPage.DepartmentsDialog.DeleteDepartment | client/src/pages/Departments.tsx:192 | A delete request is appended, and the dialog is untouched |
| DepartmentsPage.DepartmentsDialog.OnSaveSuccess | client/src/pages/Departments.tsx:49-51 | A successful save closes the dialog, ends editing and empties the form |
| DepartmentsPage.DepartmentsDialog.Close | client/src/pages/Departments.tsx:219-254 | Closing or cancelling makes the same reset |
| ResponsiveGrid.BreakpointClassesSpec | client/src/components/ui/responsive-grid.tsx:28-31 | One class per set breakpoint, and exactly their classes |
| ResponsiveGrid.BreakpointsFiltered | client/src/components/ui/responsive-grid.tsx:28-31 | The set breakpoints' classes come in md, lg, xl, 2xl order |
| ResponsiveGrid.PushIfSet | client/src/components/ui/responsive-grid.tsx:28-31 | A conditional push appends the breakpoint's class iff its count is truthy |
| ResponsiveGrid.GridClasses | client/src/components/ui/responsive-grid.tsx:16-34 | The class string is the space-joined head and set breakpoint classes, with the defaults for absent props |
| ResponsiveGrid.BreakpointsInTurn | client/src/components/ui/responsive-grid.tsx:28-31 | The breakpoint classes are those of md, lg, xl and 2xl taken in turn |
| ResponsiveGrid.GridTokensSpec | client/src/components/ui/responsive-grid.tsx:22-31 | The string starts with grid, gap-g and grid-cols-(default or 1), and holds 3 plus the number of set breakpoints tokens |
| ResponsiveGrid.ZeroIsUnset | client/src/components/ui/responsive-grid.tsx:25-28 | A zero count is falsy: a zero base gives one column, and a zero breakpoint is as if absent |
| ResponsiveGrid.DefaultGridTokens | client/src/components/ui/responsive-grid.tsx:19-31 | The default props give the head and the md, lg and xl classes |
| ResponsiveGrid.DefaultClassName | client/src/components/ui/responsive-grid.tsx:19-31 | The default props give "grid gap-6 grid-cols-1 md:grid-cols-2 lg:grid-cols-3 xl:grid-cols-4" |
| Text.JoinAppend | client/src/components/ui/responsive-grid.tsx:34 | `join` of two non-empty lists is their two joins with one separator between them |
| ResponsiveGrid.JoinSix | client/src/components/ui/responsive-grid.tsx:34 | `join` of six classes puts exactly one separator between each two |

## Left out

- Network, HTTP and caching plumbing are not modelled: Express wiring, `fetch`/`apiRequest`, react-query caching and invalidation, toasts, console logging, and rendering. Each route is modelled from the point where its inputs are known.
- Signing and verifying tokens (jsonwebtoken) and comparing passwords (bcrypt) are parameters. Token expiry is not modelled.
- The file system is not modelled: multer's disk storage writing the file, `existsSync` and `unlinkSync`. Clean-up after a refused upload does not change the tables, so it is left out. Whether a file exists on disk is a parameter of the download.
- multer's several-files limit (`LIMIT_FILE_COUNT`) is not modelled. The route takes a single file, so only the type filter, the size limit and "no file" are modelled.
- Prisma itself is not modelled: its queries are replaced by the tables they read and write.
- Storage.ListingsSpec, and the listing methods of Storage.Store built on it: the `findMany` calls set no `orderBy`, so the order of the rows they return is unspecified. The model fixes it to table (insertion) order, one of the orders the program allows. Routes.DepartmentsRoute and the pages that keep the fetched order inherit that choice.
- Storage.Store.DeleteUser: the effect of deleting a user on `files.uploaded_by` is not modelled, because the Prisma schema that fixes the foreign-key action is not part of this model. The row is simply removed.
- Storage.Store.CreateUser: a failed insert does not consume a serial value in the model, though Postgres sequences do.
- These storage methods are called by the routes but are not part of this model, and are kept abstract: `getFilesWithFilters`, the paginated `getAllUsers`/`getAllFiles`/`getFilesByUser`, `getRecentActivities`, `updateDepartment` and `deleteDepartment`. The listing route is modelled up to the filter object it hands over. The statistics and department routes take the listings' `data` as everything stored, which the 10000 limit stands for.
- The other routes are not modelled. They consist of a storage call behind a role check, and the role checks are modelled in `Auth`. These are: users, department writes, approve, activities, validate, logout, and files by user.
- Case mapping is ASCII only. JavaScript's `toUpperCase`/`toLowerCase` and Prisma's case-insensitive `contains` also map non-ASCII letters.
- `null` and `undefined` are one `None`. The user dialog's department comparison and the login answer's missing fields do not distinguish them.
- Objects used as dictionaries (the type histogram, the sidebar's role labels and colours) are insertion-ordered pairs or explicit tables. JavaScript orders integer-like keys first, and a type named like an `Object.prototype` member would read an inherited value. Neither is modelled.
- `parseInt` and `Number` are read in decimal only. Hexadecimal, exponent, `Infinity` and fraction forms are not read.
- Routes.DeleteRoute, Routes.StatsRoute: an id that `parseInt` cannot read, or one outside the `integer` (int4) column range -2147483648..2147483647, is modelled as the 500 the failed lookup causes. Prisma's own validation of `NaN` and of out-of-range ids is not part of this model; only its outcome, the thrown lookup, is.
- Floating point is not modelled: `formatFileSize` (`Math.log`, `toFixed`) in every copy, and the size shown in the client's size error. Percentages use exact half-up rounding, so JavaScript's float error at exact halves is not captured.
- Dates and locales are not modelled: `toLocaleDateString`, relative dates, and the date-range semantics of the listing. The last branch of `formatLastLogin` is an uninterpreted `LocaleDate`.
- The 300 ms debounce between the filter bar's search box and its parent is not modelled, nor is the class-name merge `cn()` of the responsive grid.
- Sidebar.LowerCaseKeysOnly: `roles[role] || "Inconnu"` also reads inherited `Object.prototype` members, so a role named "constructor" or "toString" gets a function rather than "Inconnu" and the default colour. The lemma's "only the three lower-case roles" holds for roles that are not such member names.
- UploadModal.UploadDialog.HandleSubmit: the hook-order problem of calling `useEffect` after a conditional return is not modelled. The success handler's `onClose` only sets a flag, so the dialog unmounting after the first upload is not captured.
- `isDragEventWithFiles` in client/src/lib/fileUtils.ts inspects a browser drag event, and is not modelled.
- The grid, the user dialog and the my-files page treat the listing answers as arrays, but the server sends `{ data, total, ... }` objects (server/routes.ts:400-406 for `/api/files/user/:userId`, which client/src/pages/MyFiles.tsx:24-33 fetches and calls `filter` on). The model takes the arrays those pages expect.
- MyFiles.FilteredFiles: takes the fetched answer as an array of files. Against the paginated object the server sends, `files?.filter` is not a function and the page would fail to render; that failure is not modelled.
- `PendingFiles.tsx`, the dashboard, configuration, activity, card, table and toolbar components, the seed script and the build configuration hold rendering and fetch code only, and are not part of this model.

## Findings

| source | as written | input that shows it | evidently intended | confidence | as-written member | corrected member |
|---|---|---|---|---|---|---|
| server/routes.ts:129-140 | The login answer's `user` has seven fields and no `isActive`. The client keeps that object as its session user (client/src/contexts/AuthContext.tsx:50-51), and `canUploadFiles` reads `!!user.isActive` (client/src/contexts/RoleContext.tsx:41-45) | Any active user signing in, e.g. `{ username: "alice", isActive: true }`: the session user has `isActive` undefined, so `canUploadFiles()` is false and the upload dialog renders nothing | Active users, the only ones who can sign in, may upload: the answer should carry `isActive` | not executed | Routes.LoginAnswerBlocksUploads | Routes.LoginAnswerAllowsUploads |
