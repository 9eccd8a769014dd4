/**
 * The access predicates of client/src/contexts/RoleContext.tsx. Each is a function of the
 * signed-in user (`None` when nobody is signed in); roles are compared after upper-casing.
 */
module RoleContext {
  import opened Wrappers
  import opened Text
  import opened ClientTypes

  /** The role, upper-cased, is SUPERUSER or ADMIN. */
  predicate IsElevated(u: User) {
    Upper(u.role) == "SUPERUSER" || Upper(u.role) == "ADMIN"
  }

  /** `allowedRoles.map(toUpperCase).includes(user.role.toUpperCase())` */
  predicate HasAccess(user: Option<User>, allowedRoles: seq<string>) {
    user.Some? && exists i | 0 <= i < |allowedRoles| :: Upper(allowedRoles[i]) == Upper(user.value.role)
  }

  predicate CanManageUsers(user: Option<User>) {
    user.Some? && IsElevated(user.value)
  }

  /** The file plays no part: only the role decides. */
  predicate CanDeleteFile(user: Option<User>, file: File) {
    user.Some? && IsElevated(user.value)
  }

  /** Elevated roles see every file; others their own uploads and their department's files. */
  predicate CanAccessFile(user: Option<User>, file: File) {
    user.Some? &&
      (IsElevated(user.value)
       || file.uploadedBy == Some(user.value.id)
       || file.department == user.value.department)
  }

  predicate CanManageDepartments(user: Option<User>) {
    user.Some? && IsElevated(user.value)
  }

  /** `!!user.isActive` */
  predicate CanUploadFiles(user: Option<User>) {
    user.Some? && user.value.isActive == Some(true)
  }

  predicate CanAccessUserManagement(user: Option<User>) {
    user.Some? && IsElevated(user.value)
  }

  /** Nobody signed in: every predicate is false. */
  lemma NoUserNoRights(allowedRoles: seq<string>, file: File)
    ensures !HasAccess(None, allowedRoles) && !CanManageUsers(None) && !CanDeleteFile(None, file)
    ensures !CanAccessFile(None, file) && !CanManageDepartments(None)
    ensures !CanUploadFiles(None) && !CanAccessUserManagement(None)
  {
  }

  /** Upper-casing every allowed role changes nothing. */
  lemma {:induction false} UpperAllowedRoles(user: Option<User>, allowedRoles: seq<string>)
    ensures HasAccess(user, seq(|allowedRoles|, i requires 0 <= i < |allowedRoles| => Upper(allowedRoles[i])))
         == HasAccess(user, allowedRoles)
  {
    var ups := seq(|allowedRoles|, i requires 0 <= i < |allowedRoles| => Upper(allowedRoles[i]));
    forall i | 0 <= i < |allowedRoles| ensures Upper(ups[i]) == Upper(allowedRoles[i]) {
      UpperIdempotent(allowedRoles[i]);
    }
    SameWitnesses(user, ups, allowedRoles);
  }

  /** Lower-casing every allowed role changes nothing. */
  lemma {:induction false} LowerAllowedRoles(user: Option<User>, allowedRoles: seq<string>)
    ensures HasAccess(user, seq(|allowedRoles|, i requires 0 <= i < |allowedRoles| => Lower(allowedRoles[i])))
         == HasAccess(user, allowedRoles)
  {
    var lows := seq(|allowedRoles|, i requires 0 <= i < |allowedRoles| => Lower(allowedRoles[i]));
    forall i | 0 <= i < |allowedRoles| ensures Upper(lows[i]) == Upper(allowedRoles[i]) {
      CaseRoundTrips(allowedRoles[i]);
    }
    SameWitnesses(user, lows, allowedRoles);
  }

  /** Two role lists that agree after upper-casing, entry by entry, grant the same access. */
  lemma SameWitnesses(user: Option<User>, a: seq<string>, b: seq<string>)
    requires |a| == |b| && forall i :: 0 <= i < |a| ==> Upper(a[i]) == Upper(b[i])
    ensures HasAccess(user, a) == HasAccess(user, b)
  {
    if HasAccess(user, a) {
      var i :| 0 <= i < |a| && Upper(a[i]) == Upper(user.value.role);
      assert Upper(b[i]) == Upper(user.value.role);
    }
    if HasAccess(user, b) {
      var i :| 0 <= i < |b| && Upper(b[i]) == Upper(user.value.role);
      assert Upper(a[i]) == Upper(user.value.role);
    }
  }

  /** Upper- or lower-casing the user's role changes no access decision. */
  lemma {:induction false} RoleCaseIrrelevant(u: User, allowedRoles: seq<string>, file: File)
    ensures HasAccess(Some(u.(role := Upper(u.role))), allowedRoles) == HasAccess(Some(u), allowedRoles)
    ensures HasAccess(Some(u.(role := Lower(u.role))), allowedRoles) == HasAccess(Some(u), allowedRoles)
    ensures CanManageUsers(Some(u.(role := Upper(u.role)))) == CanManageUsers(Some(u))
    ensures CanManageUsers(Some(u.(role := Lower(u.role)))) == CanManageUsers(Some(u))
    ensures CanAccessFile(Some(u.(role := Lower(u.role))), file) == CanAccessFile(Some(u), file)
    ensures CanAccessFile(Some(u.(role := Upper(u.role))), file) == CanAccessFile(Some(u), file)
  {
    UpperIdempotent(u.role);
    CaseRoundTrips(u.role);
  }

  /**
   * The three management predicates agree for every user, and each is `hasAccess` on the two
   * elevated roles.
   */
  lemma ManagementPredicatesAgree(user: Option<User>)
    ensures CanManageUsers(user) == CanManageDepartments(user)
    ensures CanManageUsers(user) == CanAccessUserManagement(user)
    ensures CanManageUsers(user) <==> user.Some? && Upper(user.value.role) in {"SUPERUSER", "ADMIN"}
    ensures CanManageUsers(user) == HasAccess(user, ["superuser", "admin"])
  {
    var elevated := ["superuser", "admin"];
    assert Upper(elevated[0]) == "SUPERUSER";
    assert Upper(elevated[1]) == "ADMIN";
    if CanManageUsers(user) {
      assert Upper(elevated[0]) == Upper(user.value.role) || Upper(elevated[1]) == Upper(user.value.role);
    }
  }

  /**
   * Deleting a file depends on the role alone, so an ordinary user may not delete even a file
   * they uploaded; whoever may delete a file may also open it.
   */
  lemma DeleteFileSpec(user: Option<User>, f: File, g: File)
    ensures CanDeleteFile(user, f) == CanDeleteFile(user, g)
    ensures user.Some? && !IsElevated(user.value) && f.uploadedBy == Some(user.value.id) ==> !CanDeleteFile(user, f)
    ensures CanDeleteFile(user, f) ==> CanAccessFile(user, f)
  {
  }

  /**
   * Elevated roles open every file; anyone else exactly the files they uploaded or that share
   * their department (an absent department on both sides counts as shared).
   */
  lemma AccessFileSpec(u: User, f: File)
    ensures IsElevated(u) ==> CanAccessFile(Some(u), f)
    ensures !IsElevated(u) ==>
      (CanAccessFile(Some(u), f) <==> f.uploadedBy == Some(u.id) || f.department == u.department)
    ensures u.department.None? && f.department.None? ==> CanAccessFile(Some(u), f)
  {
  }

  /** Uploading depends on `isActive` alone, never on the role. */
  lemma UploadDependsOnlyOnActive(u: User, role: string)
    ensures CanUploadFiles(Some(u)) <==> u.isActive == Some(true)
    ensures CanUploadFiles(Some(u.(role := role))) == CanUploadFiles(Some(u))
    ensures u.isActive.None? ==> !CanUploadFiles(Some(u))
  {
  }
}
