/**
 * The user-management dialog (client/src/components/Users/UserManagementModal.tsx): who may
 * open it, and which users its table lists for a search text and a role select.
 */
module UserManagement {
  import opened Wrappers
  import opened Text
  import opened Lists
  import opened ClientTypes
  import RoleContext

  /** The search text occurs, ignoring case, in the first name, the last name or the e-mail. */
  predicate MatchesSearch(u: User, searchQuery: string) {
    || ContainsIgnoreCase(u.firstName, searchQuery)
    || ContainsIgnoreCase(u.lastName, searchQuery)
    || ContainsIgnoreCase(u.email, searchQuery)
  }

  predicate MatchesRole(u: User, roleFilter: string) {
    roleFilter == "all" || u.role == roleFilter
  }

  /**
   * Only a viewer whose role is exactly "superuser" sees every department; anyone else sees
   * the users whose department equals theirs.
   */
  predicate MatchesDepartment(u: User, viewer: Option<User>) {
    || (viewer.Some? && viewer.value.role == "superuser")
    || u.department == (if viewer.Some? then viewer.value.department else None)
  }

  predicate Listed(u: User, viewer: Option<User>, searchQuery: string, roleFilter: string) {
    MatchesSearch(u, searchQuery) && MatchesRole(u, roleFilter) && MatchesDepartment(u, viewer)
  }

  function ListedBy(viewer: Option<User>, searchQuery: string, roleFilter: string): User -> bool {
    (u: User) => Listed(u, viewer, searchQuery, roleFilter)
  }

  /** `filteredUsers`: nothing while the list has not arrived. */
  function FilteredUsers(users: Option<seq<User>>, viewer: Option<User>, searchQuery: string, roleFilter: string): seq<User> {
    if users.None? then [] else Filter(users.value, ListedBy(viewer, searchQuery, roleFilter))
  }

  /** The dialog opens for roles that read as superuser or admin in any letter case. */
  predicate Opens(viewer: Option<User>) {
    RoleContext.HasAccess(viewer, ["superuser", "admin"])
  }

  /** The table the dialog shows, or `None` when it renders nothing. */
  function Displayed(users: Option<seq<User>>, viewer: Option<User>, searchQuery: string, roleFilter: string): Option<seq<User>> {
    if Opens(viewer) then Some(FilteredUsers(users, viewer, searchQuery, roleFilter)) else None
  }

  /**
   * The table lists, in order, exactly the users matching the search, the role select and the
   * department scope.
   */
  lemma FilteredUsersSpec(users: seq<User>, viewer: Option<User>, searchQuery: string, roleFilter: string)
    ensures IsSubsequence(FilteredUsers(Some(users), viewer, searchQuery, roleFilter), users)
    ensures forall u :: u in FilteredUsers(Some(users), viewer, searchQuery, roleFilter) <==>
      u in users && MatchesSearch(u, searchQuery) && MatchesRole(u, roleFilter) && MatchesDepartment(u, viewer)
  {
    FilterSpec(users, ListedBy(viewer, searchQuery, roleFilter));
  }

  /** An empty search matches everyone. */
  lemma EmptySearchMatches(u: User)
    ensures MatchesSearch(u, "")
  {
    assert Lower("") == "";
    ContainsEmpty(Lower(u.firstName));
  }

  /** A superuser with no search and every role sees the whole list. */
  lemma SuperuserSeesAll(users: seq<User>, viewer: User)
    requires viewer.role == "superuser"
    ensures FilteredUsers(Some(users), Some(viewer), "", "all") == users
  {
    forall i | 0 <= i < |users| ensures ListedBy(Some(viewer), "", "all")(users[i]) {
      EmptySearchMatches(users[i]);
    }
    FilterKeepsAll(users, ListedBy(Some(viewer), "", "all"));
  }

  /** Any other viewer sees only users of their own department. */
  lemma OthersScopedToDepartment(users: seq<User>, viewer: User, searchQuery: string, roleFilter: string)
    requires viewer.role != "superuser"
    ensures forall u :: u in FilteredUsers(Some(users), Some(viewer), searchQuery, roleFilter) ==>
      u.department == viewer.department
  {
    FilteredUsersSpec(users, Some(viewer), searchQuery, roleFilter);
  }

  /** The dialog opens exactly for viewers whose role, upper-cased, is SUPERUSER or ADMIN. */
  lemma OpensSpec(viewer: Option<User>)
    ensures Opens(viewer) <==> viewer.Some? && RoleContext.IsElevated(viewer.value)
  {
    RoleContext.ManagementPredicatesAgree(viewer);
  }

  /**
   * The gate ignores case but the scope does not: a viewer whose role is "SUPERUSER" opens the
   * dialog yet is limited to their own department, like an admin.
   */
  lemma UpperCaseSuperuserScoped(users: seq<User>, viewer: User, searchQuery: string, roleFilter: string)
    requires viewer.role == "SUPERUSER"
    ensures Displayed(Some(users), Some(viewer), searchQuery, roleFilter).Some?
    ensures forall u :: u in Displayed(Some(users), Some(viewer), searchQuery, roleFilter).value ==>
      u.department == viewer.department
  {
    OpensSpec(Some(viewer));
    OthersScopedToDepartment(users, viewer, searchQuery, roleFilter);
  }
}
