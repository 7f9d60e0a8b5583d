/**
 * Authorization settings and the `Authorization` header value each one
 * produces: nothing, HTTP Basic credentials (section 2 of RFC 7617), or a
 * bearer or custom token.
 */
module Authorization {
  import opened Wrappers
  import Utf8
  import Base64

  datatype Credentials = Credentials(userName: string, password: string)

  datatype PasswordType = Basic(credentials: Credentials)

  datatype TokenType = Bearer(token: string) | Custom(token: string)

  datatype AuthorizationMethod =
    | NoAuthorization
    | WithCredentials(passwordType: PasswordType)
    | WithToken(tokenType: TokenType)

  datatype Header = Header(field: string, value: string)

  /** The user-pass string of RFC 7617: user name, a colon, password. */
  function UserPass(c: Credentials): string {
    c.userName + ":" + c.password
  }

  /** `PasswordType.description`: "Basic " and the base64 of the UTF-8 octets of user-pass. */
  function PasswordDescription(p: PasswordType): (value: string)
    ensures |value| >= 6 && value[..6] == "Basic "
  {
    "Basic " + Base64.Encode(Utf8.EncodeString(UserPass(p.credentials)))
  }

  /** `TokenType.description`. */
  function TokenDescription(t: TokenType): (value: string)
    ensures t.Bearer? ==> |value| == 7 + |t.token| && value[..7] == "Bearer " && value[7..] == t.token
    ensures t.Custom? ==> value == t.token
  {
    match t
    case Bearer(token) => "Bearer " + token
    case Custom(token) => token
  }

  /** The header fields a request carries for the given method. */
  function AuthorizationHeaders(a: AuthorizationMethod): (headers: seq<Header>)
    ensures a.NoAuthorization? <==> |headers| == 0
    ensures a.WithCredentials? ==> headers == [Header("Authorization", PasswordDescription(a.passwordType))]
    ensures a.WithToken? ==> headers == [Header("Authorization", TokenDescription(a.tokenType))]
  {
    match a
    case NoAuthorization => []
    case WithCredentials(p) => [Header("Authorization", PasswordDescription(p))]
    case WithToken(t) => [Header("Authorization", TokenDescription(t))]
  }

  /** The position of the first colon in `s`, if any. */
  function FirstColon(s: string): (r: Option<nat>)
    ensures r.Some? ==> r.value < |s| && s[r.value] == ':' && ':' !in s[..r.value]
    ensures r.None? ==> ':' !in s
  {
    if |s| == 0 then None
    else if s[0] == ':' then Some(0)
    else
      match FirstColon(s[1..])
      case None => None
      case Some(k) => assert s[..k + 1] == [s[0]] + s[1..][..k]; Some(k + 1)
  }

  /** How a server reads Basic credentials back: strip "Basic ", decode base64 and UTF-8, split at the first colon. */
  function ParseBasic(value: string): Option<Credentials> {
    if |value| < 6 || value[..6] != "Basic " then None
    else
      match Base64.Decode(value[6..])
      case None => None
      case Some(octets) =>
        match Utf8.DecodeString(octets)
        case None => None
        case Some(userPass) =>
          match FirstColon(userPass)
          case None => None
          case Some(k) => Some(Credentials(userPass[..k], userPass[k + 1..]))
  }

  /** The encoded part of a Basic value decodes back to user-pass, whatever the credentials. */
  lemma BasicEncodesUserPass(c: Credentials)
    ensures var value := PasswordDescription(Basic(c));
            Base64.Decode(value[6..]) == Some(Utf8.EncodeString(UserPass(c)))
            && Utf8.DecodeString(Utf8.EncodeString(UserPass(c))) == Some(UserPass(c))
  {
    var octets := Utf8.EncodeString(UserPass(c));
    assert PasswordDescription(Basic(c))[6..] == Base64.Encode(octets);
    Base64.RoundTrip(octets);
    Utf8.RoundTrip(UserPass(c));
  }

  /**
   * A user name without a colon (section 2 of RFC 7617 forbids one) is
   * recovered together with the password from the header value.
   */
  lemma BasicRoundTrip(c: Credentials)
    requires ':' !in c.userName
    ensures ParseBasic(PasswordDescription(Basic(c))) == Some(c)
  {
    BasicEncodesUserPass(c);
    var userPass := UserPass(c);
    var k := |c.userName|;
    assert userPass[k] == ':';
    assert userPass[..k] == c.userName;
    assert userPass[k + 1..] == c.password;
    assert FirstColon(userPass) == Some(k);
  }
}
