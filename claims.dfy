/**
 * The signed-in user as the controllers see it: whether the identity is
 * authenticated and the claims they read (the name identifier, the
 * identity name and the application's "Ruolo" claim).
 */
module Claims {
  import opened Wrappers
  import opened Entities

  datatype Principal = Principal(
    authenticated: bool,
    nameIdentifier: Option<string>,
    name: Option<string>,
    ruolo: Option<string>)

  const UnknownUser: string := "Utente_Sconosciuto"

  /** `NameIdentifier ?? Identity.Name ?? "Utente_Sconosciuto"`: the first
      of the three that is present. */
  function CallerId(p: Principal): (r: string)
    ensures p.nameIdentifier.Some? ==> r == p.nameIdentifier.value
    ensures p.nameIdentifier.None? && p.name.Some? ==> r == p.name.value
    ensures p.nameIdentifier.None? && p.name.None? ==> r == UnknownUser
  {
    p.nameIdentifier.GetOr(p.name.GetOr(UnknownUser))
  }

  /** `FindFirst("Ruolo")?.Value ?? "User"`: a missing role claim reads as
      the plain user role. */
  function RoleOf(p: Principal): (r: string)
    ensures p.ruolo.Some? ==> r == p.ruolo.value
    ensures p.ruolo.None? ==> r == RoleUser
  {
    p.ruolo.GetOr(RoleUser)
  }
}
