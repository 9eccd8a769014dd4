/** The helpers of the user list (client/src/components/Users/UserTable.tsx). */
module UserTable {
  import opened Wrappers
  import opened Text
  import opened ClientTypes

  /** `s.charAt(0)`: the empty string for an empty `s`. */
  function CharAt0(s: string): string {
    if s == [] then "" else [s[0]]
  }

  function Initials(firstName: string, lastName: string): string {
    CharAt0(firstName) + CharAt0(lastName)
  }

  function RoleColor(role: string): string {
    var r := Upper(role);
    if r == "SUPERUSER" then "bg-red-100 text-red-800"
    else if r == "ADMIN" then "bg-blue-100 text-blue-800"
    else if r == "USER" then "bg-slate-100 text-slate-800"
    else "bg-slate-100 text-slate-800"
  }

  /** Three labels for the known roles in any case; any other role is shown as it is. */
  function RoleLabel(role: string): string {
    var r := Upper(role);
    if r == "SUPERUSER" then "SuperUser"
    else if r == "ADMIN" then "Admin"
    else if r == "USER" then "Utilisateur"
    else role
  }

  /** What the last-login column shows; the last case is a locale-formatted date. */
  datatype LastLoginText = Label(text: string) | LocaleDate(at: int)

  const MsPerHour: int := 1000 * 60 * 60

  /**
   * `formatLastLogin` at the clock reading `now`: whole hours elapsed, rounded down (a
   * future login gives a negative count).
   */
  function FormatLastLogin(lastLogin: Option<int>, now: int): LastLoginText {
    if lastLogin.None? then Label("Jamais")
    else
      var hours := (now - lastLogin.value) / MsPerHour;
      if hours < 1 then Label("Maintenant")
      else if hours < 24 then Label("Il y a " + NatToString(hours) + "h")
      else if hours < 48 then Label("Hier")
      else LocaleDate(lastLogin.value)
  }

  /** Nobody deletes their own row; a superuser deletes anyone else, an admin only users. */
  predicate CanDeleteUser(current: Option<User>, target: User) {
    if current.Some? && current.value.id == target.id then false
    else if current.Some? && current.value.role == "superuser" then true
    else if current.Some? && current.value.role == "admin" && target.role == "user" then true
    else false
  }

  /** The initials are the first letter of each non-empty name, in the case they were typed. */
  lemma InitialsSpec(firstName: string, lastName: string)
    ensures |Initials(firstName, lastName)| == (if firstName == [] then 0 else 1) + (if lastName == [] then 0 else 1)
    ensures firstName != [] && lastName != [] ==> Initials(firstName, lastName) == [firstName[0], lastName[0]]
  {
  }

  /**
   * The label ignores the case of the role for the three known roles and is the role itself
   * otherwise.
   */
  lemma RoleLabelSpec(role: string)
    ensures RoleLabel(role) == RoleLabel(Lower(role)) || RoleLabel(role) == role
    ensures Upper(role) !in {"SUPERUSER", "ADMIN", "USER"} ==> RoleLabel(role) == role
    ensures Upper(role) == "ADMIN" ==> RoleLabel(role) == "Admin" && RoleLabel(Lower(role)) == "Admin"
    ensures Upper(role) == "SUPERUSER" ==> RoleLabel(role) == "SuperUser" && RoleLabel(Lower(role)) == "SuperUser"
    ensures Upper(role) == "USER" ==> RoleLabel(role) == "Utilisateur" && RoleLabel(Lower(role)) == "Utilisateur"
  {
    CaseRoundTrips(role);
  }

  /** Ordinary users and unknown roles share the neutral colour. */
  lemma RoleColorSpec(role: string)
    ensures Upper(role) !in {"SUPERUSER", "ADMIN"} ==> RoleColor(role) == "bg-slate-100 text-slate-800"
    ensures RoleColor(role) == RoleColor(Lower(role))
  {
    CaseRoundTrips(role);
  }

  /**
   * The hour bands: never logged in, under an hour (or in the future), one to 23 hours, 24 to
   * 47 hours, and anything older as a date.
   */
  lemma FormatLastLoginBands(last: int, now: int)
    ensures now - last < MsPerHour ==> FormatLastLogin(Some(last), now) == Label("Maintenant")
    ensures MsPerHour <= now - last < 24 * MsPerHour ==>
      FormatLastLogin(Some(last), now) == Label("Il y a " + NatToString((now - last) / MsPerHour) + "h")
    ensures 24 * MsPerHour <= now - last < 48 * MsPerHour ==> FormatLastLogin(Some(last), now) == Label("Hier")
    ensures now - last >= 48 * MsPerHour ==> FormatLastLogin(Some(last), now) == LocaleDate(last)
    ensures FormatLastLogin(None, now) == Label("Jamais")
  {
  }

  /**
   * Deleting yourself is never allowed; a superuser may delete every other user; an admin
   * exactly the other users whose role is "user"; nobody else anyone.
   */
  lemma CanDeleteUserSpec(current: Option<User>, target: User)
    ensures current.Some? && current.value.id == target.id ==> !CanDeleteUser(current, target)
    ensures current.Some? && current.value.id != target.id && current.value.role == "superuser" ==> CanDeleteUser(current, target)
    ensures current.Some? && current.value.role == "admin" ==>
      (CanDeleteUser(current, target) <==> current.value.id != target.id && target.role == "user")
    ensures current.None? || current.value.role !in {"superuser", "admin"} ==> !CanDeleteUser(current, target)
  {
  }
}
