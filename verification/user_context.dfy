/** `UserContextService`: who the caller is, read from the claims of the
    authenticated request. `TaskSharingController` carries private copies of
    the same two checks; they are this one definition. */
module UserContext {

  import opened Outcome
  import opened Models
  import Text

  const IdClaimMissing := "User ID claim is missing"

  /** What `Guid.Parse` makes of a text: the id, or the message of the
      `FormatException` it raises, which depends on how the text is malformed
      (too short, wrong digit count, a non-hexadecimal character). */
  datatype GuidParse = Parsed(id: Id) | Malformed(message: string)

  /** The role assumed when the request carries no role claim. */
  const DefaultRole := "User"

  const AdminName := "Admin"

  /** `GetUserId`: the name-identifier claim parsed as an id. A missing or
      empty claim is refused as unauthenticated; a claim that `parseGuid`
      (standing for `Guid.Parse`) rejects is a malformed request, reported
      with the parser's own message. */
  function GetUserId(claims: Claims, parseGuid: string -> GuidParse): (r: Result<Id>)
    ensures r == Err(Unauthorized(IdClaimMissing)) <==> claims.nameIdentifier.None? || claims.nameIdentifier == Some("")
    ensures r.Err? && r.error.BadRequest? <==>
      claims.nameIdentifier.Some? && claims.nameIdentifier != Some("") && parseGuid(claims.nameIdentifier.value).Malformed?
    ensures r.Err? && r.error.BadRequest? ==> r.error.message == parseGuid(claims.nameIdentifier.value).message
    ensures r.Ok? <==> claims.nameIdentifier.Some? && claims.nameIdentifier != Some("") && parseGuid(claims.nameIdentifier.value).Parsed?
    ensures r.Ok? ==> parseGuid(claims.nameIdentifier.value) == Parsed(r.value)
    ensures r.Err? ==> !r.error.NotFound?
  {
    match claims.nameIdentifier
    case None => Err(Unauthorized(IdClaimMissing))
    case Some(claim) =>
      if claim == "" then Err(Unauthorized(IdClaimMissing))
      else match parseGuid(claim)
        case Malformed(message) => Err(BadRequest(message))
        case Parsed(id) => Ok(id)
  }

  /** `GetUserRole`: the role claim, or `"User"` when there is none. */
  function GetUserRole(claims: Claims): string {
    match claims.role
    case None => DefaultRole
    case Some(role) => role
  }

  /** `IsAdmin`: the role, compared with `"Admin"` ignoring case. The caller
      is an admin exactly when the role claim spells "Admin" in any mix of
      upper and lower case; a missing role counts as `"User"` and is never an
      admin. */
  function IsAdmin(claims: Claims): (admin: bool)
    ensures claims.role.None? ==> !admin
    ensures claims.role.Some? ==> (admin <==> Text.IsCaseVariantOf(claims.role.value, AdminName))
  {
    Text.EqualsIgnoreCaseIsCaseVariant(GetUserRole(claims), AdminName);
    Text.EqualsIgnoreCaseIsCaseVariant(DefaultRole, AdminName);
    Text.EqualsIgnoreCase(GetUserRole(claims), AdminName)
  }

  /** The role names the application writes into claims are read back as
      the role they name: only `Admin` is an admin. */
  lemma IsAdminOfRoleName(claims: Claims, role: Role)
    requires claims.role == Some(RoleName(role))
    ensures IsAdmin(claims) <==> role == AdminRole
  {
    if role == UserRole {
      assert !Text.IsCaseVariantOf("User", AdminName) by {
        assert "User"[0] != Text.ToUpper(AdminName[0]) && "User"[0] != Text.ToLower(AdminName[0]);
      }
    }
  }
}
