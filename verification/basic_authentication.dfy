/** `BasicAuthentication`: the handler that turns an `Authorization: Basic`
    header into the claims of a stored user. */
module BasicAuthentication {

  import opened Outcome
  import opened Models
  import opened Store
  import Text
  import UserContext

  const Scheme := "Basic "
  const FailMessage := "Unauthorized"

  /** What the handler yields: the claims of an authenticated user, a
      refusal, or the `FormatException` of a token that is not Base64, which
      escapes the handler. */
  datatype AuthResult = Authenticated(claims: Claims) | Rejected(message: string) | DecodeFault

  /** The header is non-empty and starts with `"Basic "` in any letter case. */
  predicate HasScheme(header: string) {
    header != "" && Text.StartsWithIgnoreCase(header, Scheme)
  }

  /** The token: the header with its first six characters removed. */
  function Token(header: string): (token: string)
    requires HasScheme(header)
    ensures |token| == |header| - |Scheme|
    ensures header == header[..|Scheme|] + token
  {
    header[|Scheme|..]
  }

  /** `tokenDecoded.Split(':')` accepted only with exactly two pieces: the
      user name and the password. That is the case exactly when the decoded
      text holds one colon, and then it is the name, the colon and the
      password. */
  function Credentials(decoded: string): (c: Option<(string, string)>)
    ensures c.Some? <==> Text.Count(decoded, ':') == 1
    ensures c.Some? ==> ':' !in c.value.0 && ':' !in c.value.1
    ensures c.Some? ==> decoded == c.value.0 + [':'] + c.value.1
  {
    var parts := Text.Split(decoded, ':');
    if |parts| != 2 then None
    else
      Text.JoinSplit(decoded, ':');
      assert Text.Join(parts, ':') == parts[0] + [':'] + parts[1];
      Some((parts[0], parts[1]))
  }

  /** The claims issued for a user: the id as `formatGuid` (standing for
      `Guid.ToString`) writes it, the name, and the role's name. */
  function ClaimsOf(user: User, formatGuid: Id -> string): Claims {
    Claims(Some(formatGuid(user.userId)), Some(user.userName), Some(RoleName(user.role)))
  }

  /** `HandleAuthenticateAsync`. `decode` stands for Base64 decoding followed
      by UTF-8 decoding, `None` for a token Base64 refuses; `verify` stands
      for `VerifyHashedPassword`. A missing header, a header without the
      scheme, credentials that do not split into exactly two pieces, an
      unknown name, or a password that does not verify as exactly `Success`
      are all refused with the same message. */
  function HandleAuthenticate(users: seq<User>, header: Option<string>, decode: string -> Option<string>,
                              verify: (string, string) -> PasswordVerification, formatGuid: Id -> string): (r: AuthResult)
    ensures header.None? ==> r == Rejected(FailMessage)
    ensures header.Some? && !HasScheme(header.value) ==> r == Rejected(FailMessage)
    ensures r.Rejected? ==> r.message == FailMessage
    ensures r.DecodeFault? <==> header.Some? && HasScheme(header.value) && decode(Token(header.value)).None?
    ensures (header.Some? && HasScheme(header.value) && decode(Token(header.value)).Some? &&
             Text.Count(decode(Token(header.value)).value, ':') != 1) ==> r == Rejected(FailMessage)
    ensures r.Authenticated? ==>
      && header.Some? && HasScheme(header.value)
      && decode(Token(header.value)).Some?
      && Credentials(decode(Token(header.value)).value).Some?
      && var (name, password) := Credentials(decode(Token(header.value)).value).value;
         && FirstUserNamed(users, name).Some?
         && verify(users[FirstUserNamed(users, name).value].password, password) == Success
         && r.claims == ClaimsOf(users[FirstUserNamed(users, name).value], formatGuid)
  {
    match header
    case None => Rejected(FailMessage)
    case Some(h) =>
      if !HasScheme(h) then Rejected(FailMessage)
      else match decode(Token(h))
        case None => DecodeFault
        case Some(decoded) =>
          match Credentials(decoded)
          case None => Rejected(FailMessage)
          case Some((name, password)) =>
            match FirstUserNamed(users, name)
            case None => Rejected(FailMessage)
            case Some(i) =>
              if verify(users[i].password, password) != Success then Rejected(FailMessage)
              else Authenticated(ClaimsOf(users[i], formatGuid))
  }

  /** A name and a password free of colons come back out of their joined
      form unchanged. */
  lemma CredentialsOfPair(name: string, password: string)
    requires ':' !in name && ':' !in password
    ensures Credentials(name + [':'] + password) == Some((name, password))
  {
    Text.SplitPair(name, password, ':');
  }

  /** A password containing a colon never gets through: its credentials
      split into more than two pieces. */
  lemma ColonInPasswordFails(name: string, password: string)
    requires ':' in password
    ensures Credentials(name + [':'] + password).None?
  {
    Text.CountAppend(name + [':'], password, ':');
    Text.CountAppend(name, [':'], ':');
  }

  /** A stored user who sends a header with the scheme in any case, followed
      by a token that decodes to their name, a colon and a password that
      verifies, is authenticated with their own claims, provided names are
      unique. */
  lemma AuthenticatesStoredUser(users: seq<User>, k: nat, password: string, prefix: string, token: string,
                                decode: string -> Option<string>, verify: (string, string) -> PasswordVerification,
                                formatGuid: Id -> string)
    requires UserNamesUnique(users) && k < |users|
    requires ':' !in users[k].userName && ':' !in password
    requires |prefix| == |Scheme| && Text.EqualsIgnoreCase(prefix, Scheme)
    requires decode(token) == Some(users[k].userName + [':'] + password)
    requires verify(users[k].password, password) == Success
    ensures HandleAuthenticate(users, Some(prefix + token), decode, verify, formatGuid) == Authenticated(ClaimsOf(users[k], formatGuid))
  {
    var h := prefix + token;
    assert h[..|Scheme|] == prefix;
    assert Token(h) == token;
    CredentialsOfPair(users[k].userName, password);
    FirstUserNamedIsOnly(users, users[k].userName, k);
  }

  /** The claims issued for a user read back, through the user context, as
      that user's id and as admin exactly for the `Admin` role, provided the
      id's text form is non-empty and parses back to the id. */
  lemma ClaimsRoundTrip(user: User, formatGuid: Id -> string, parseGuid: string -> UserContext.GuidParse)
    requires formatGuid(user.userId) != "" && parseGuid(formatGuid(user.userId)) == UserContext.Parsed(user.userId)
    ensures UserContext.GetUserId(ClaimsOf(user, formatGuid), parseGuid) == Ok(user.userId)
    ensures UserContext.IsAdmin(ClaimsOf(user, formatGuid)) <==> user.role == AdminRole
  {
    UserContext.IsAdminOfRoleName(ClaimsOf(user, formatGuid), user.role);
  }
}
