/**
 * The second access hook, client/src/hooks/useRoleAccess.tsx, which compares roles exactly,
 * and how it relates to the case-insensitive predicates of RoleContext.
 */
module RoleAccess {
  import opened Wrappers
  import opened Text
  import opened ClientTypes
  import RoleContext

  /** `allowedRoles.includes(user.role)` */
  predicate HasAccess(user: Option<User>, allowedRoles: seq<string>) {
    user.Some? && user.value.role in allowedRoles
  }

  predicate IsSuperUser(user: Option<User>) {
    user.Some? && user.value.role == "superuser"
  }

  predicate IsAdmin(user: Option<User>) {
    user.Some? && user.value.role == "admin"
  }

  predicate IsUser(user: Option<User>) {
    user.Some? && user.value.role == "user"
  }

  /** `user?.role` */
  function CurrentRole(user: Option<User>): Option<string> {
    if user.Some? then Some(user.value.role) else None
  }

  /** A role written entirely in lower case, as the storage layer hands roles out. */
  predicate IsLowerCase(s: string) {
    Lower(s) == s
  }

  /**
   * Without a user nothing is granted and there is no current role; with one, the current role
   * is the user's role as it is.
   */
  lemma NoUserSpec(allowedRoles: seq<string>, u: User)
    ensures !HasAccess(None, allowedRoles) && CurrentRole(None) == None
    ensures !IsSuperUser(None) && !IsAdmin(None) && !IsUser(None)
    ensures CurrentRole(Some(u)) == Some(u.role)
  {
  }

  /** At most one of the three role tests holds, and each is exact lower-case equality. */
  lemma RoleTestsExclusive(user: Option<User>)
    ensures !(IsSuperUser(user) && IsAdmin(user))
    ensures !(IsSuperUser(user) && IsUser(user))
    ensures !(IsAdmin(user) && IsUser(user))
    ensures IsAdmin(user) <==> CurrentRole(user) == Some("admin")
    ensures IsSuperUser(user) <==> CurrentRole(user) == Some("superuser")
    ensures IsUser(user) <==> CurrentRole(user) == Some("user")
  {
  }

  /** Exact membership always implies the case-insensitive one. */
  lemma ExactImpliesCaseInsensitive(user: Option<User>, allowedRoles: seq<string>)
    ensures HasAccess(user, allowedRoles) ==> RoleContext.HasAccess(user, allowedRoles)
  {
    if HasAccess(user, allowedRoles) {
      var i :| 0 <= i < |allowedRoles| && allowedRoles[i] == user.value.role;
    }
  }

  /**
   * When the user's role and every allowed role are in lower case, the exact hook and the
   * case-insensitive context decide alike.
   */
  lemma AgreeOnLowerCaseRoles(user: Option<User>, allowedRoles: seq<string>)
    requires user.Some? ==> IsLowerCase(user.value.role)
    requires forall i :: 0 <= i < |allowedRoles| ==> IsLowerCase(allowedRoles[i])
    ensures HasAccess(user, allowedRoles) == RoleContext.HasAccess(user, allowedRoles)
  {
    ExactImpliesCaseInsensitive(user, allowedRoles);
    if RoleContext.HasAccess(user, allowedRoles) {
      var i :| 0 <= i < |allowedRoles| && Upper(allowedRoles[i]) == Upper(user.value.role);
      SameUpperSameLower(allowedRoles[i], user.value.role);
      assert allowedRoles[i] == user.value.role;
    }
  }

  /** A user whose role arrives upper-cased is refused by the hook but admitted by the context. */
  lemma DisagreeOnUpperCaseRole(u: User)
    requires u.role == "ADMIN"
    ensures !HasAccess(Some(u), ["admin"])
    ensures RoleContext.HasAccess(Some(u), ["admin"])
    ensures !IsAdmin(Some(u)) && RoleContext.CanManageUsers(Some(u))
  {
    var allowed := ["admin"];
    assert Upper(allowed[0]) == "ADMIN";
    assert Upper(u.role) == "ADMIN";
  }

  /** The exact tests imply the matching context predicates. */
  lemma ExactTestsImplyContext(user: Option<User>)
    ensures IsSuperUser(user) || IsAdmin(user) ==> RoleContext.CanManageUsers(user)
    ensures IsUser(user) ==> !RoleContext.CanManageUsers(user)
  {
    assert Upper("superuser") == "SUPERUSER";
    assert Upper("admin") == "ADMIN";
    assert Upper("user") == "USER";
  }
}
