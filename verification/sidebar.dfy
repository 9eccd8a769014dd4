/** The sidebar's own helpers and menu gating (client/src/components/Layout/Sidebar.tsx). */
module Sidebar {
  import opened Wrappers
  import opened Text
  import opened ClientTypes
  import RoleContext

  /** The sidebar's local copy of the case-insensitive access test. */
  predicate HasAccess(user: Option<User>, allowedRoles: seq<string>) {
    if user.None? then false
    else
      var userRole := Upper(user.value.role);
      var allowedUpper := seq(|allowedRoles|, i requires 0 <= i < |allowedRoles| => Upper(allowedRoles[i]));
      userRole in allowedUpper
  }

  /** The "Utilisateurs" entry. */
  predicate ShowsUsersMenu(user: Option<User>) {
    HasAccess(user, ["superuser", "admin"])
  }

  /** The "Configuration" entry. */
  predicate ShowsConfigurationMenu(user: Option<User>) {
    HasAccess(user, ["superuser"])
  }

  /** `s[0]` interpolated into a template: the text `undefined` for an empty string. */
  function FirstCharText(s: string): string {
    if s == [] then "undefined" else [s[0]]
  }

  /** `` `${firstName[0]}${lastName[0]}`.toUpperCase() `` */
  function Initials(firstName: string, lastName: string): string {
    Upper(FirstCharText(firstName) + FirstCharText(lastName))
  }

  /** The label table has lower-case keys only; anything else is "Inconnu". */
  function RoleLabel(role: string): string {
    if role == "superuser" then "Super Utilisateur"
    else if role == "admin" then "Administrateur"
    else if role == "user" then "Utilisateur"
    else "Inconnu"
  }

  function RoleColor(role: string): string {
    if role == "superuser" then "bg-red-500"
    else if role == "admin" then "bg-blue-500"
    else if role == "user" then "bg-green-500"
    else "bg-gray-400"
  }

  /** The local copy decides exactly as the context's `hasAccess` does, for every input. */
  lemma HasAccessMatchesContext(user: Option<User>, allowedRoles: seq<string>)
    ensures HasAccess(user, allowedRoles) == RoleContext.HasAccess(user, allowedRoles)
  {
    if user.Some? {
      var allowedUpper := seq(|allowedRoles|, i requires 0 <= i < |allowedRoles| => Upper(allowedRoles[i]));
      if Upper(user.value.role) in allowedUpper {
        var i :| 0 <= i < |allowedUpper| && allowedUpper[i] == Upper(user.value.role);
        assert Upper(allowedRoles[i]) == Upper(user.value.role);
      }
      if RoleContext.HasAccess(user, allowedRoles) {
        var i :| 0 <= i < |allowedRoles| && Upper(allowedRoles[i]) == Upper(user.value.role);
        assert allowedUpper[i] == Upper(user.value.role);
      }
    }
  }

  /**
   * "Utilisateurs" shows for superusers and admins, "Configuration" for superusers only, in
   * any letter case; nothing shows without a user.
   */
  lemma MenuGating(user: Option<User>)
    ensures ShowsUsersMenu(user) <==> user.Some? && Upper(user.value.role) in {"SUPERUSER", "ADMIN"}
    ensures ShowsConfigurationMenu(user) <==> user.Some? && Upper(user.value.role) == "SUPERUSER"
    ensures ShowsConfigurationMenu(user) ==> ShowsUsersMenu(user)
    ensures ShowsUsersMenu(user) == RoleContext.CanManageUsers(user)
  {
    var both := ["superuser", "admin"];
    var one := ["superuser"];
    assert Upper(both[0]) == "SUPERUSER" && Upper(both[1]) == "ADMIN";
    assert Upper(one[0]) == "SUPERUSER";
    if user.Some? {
      var ub := seq(|both|, i requires 0 <= i < |both| => Upper(both[i]));
      var uo := seq(|one|, i requires 0 <= i < |one| => Upper(one[i]));
      assert ub == ["SUPERUSER", "ADMIN"];
      assert uo == ["SUPERUSER"];
    }
  }

  /**
   * Two non-empty names give their two first letters in upper case; an empty first name
   * gives the text UNDEFINED in their place.
   */
  lemma InitialsSpec(firstName: string, lastName: string)
    ensures firstName != [] && lastName != [] ==>
      Initials(firstName, lastName) == [UpperChar(firstName[0]), UpperChar(lastName[0])]
    ensures firstName == [] ==> Initials(firstName, lastName)[..9] == "UNDEFINED"
  {
    UpperAppend(FirstCharText(firstName), FirstCharText(lastName));
  }

  /**
   * Only the three lower-case role names have labels and colours: the upper-case spelling of
   * a role is "Inconnu" and grey.
   */
  lemma LowerCaseKeysOnly(role: string)
    ensures RoleLabel(role) != "Inconnu" <==> role in {"superuser", "admin", "user"}
    ensures RoleColor(role) != "bg-gray-400" <==> role in {"superuser", "admin", "user"}
    ensures RoleLabel("ADMIN") == "Inconnu" && RoleLabel("USER") == "Inconnu" && RoleLabel("SUPERUSER") == "Inconnu"
    ensures RoleColor("ADMIN") == "bg-gray-400"
  {
  }
}
