/**
 Authentication of API requests: the bearer token is taken from the
 Authorization header (the `Bearer` scheme of RFC 6750 section 2.1, matched
 case-insensitively as RFC 9110 section 11.1 asks of scheme names), the
 GitHub identity behind it is looked up through `lookup`, and the request
 either ends with 401 or goes on to the handler with the user's display name.
 */
module Middleware {
  import opened Wrappers
  import opened Text

  const AuthAdvice: string :=
    "ensure you include a Bearer token in the Authorization header, e.g. Authorization: Bearer <token> or Authorization: token <token>"
  const MissingHeaderMessage: string := "Missing Authorization header"
  const InvalidFormatMessage: string := "Invalid Authorization header format"
  const BearerScheme: string := "bearer"

  /** An error with a message and advice for the user. */
  datatype HumaneError = HumaneError(message: string, advice: string)

  /** `extractBearerToken`: the header is split at its first space; the first part must say "bearer" in any casing. */
  function ExtractBearerToken(header: string): (r: Result<string, HumaneError>)
    ensures header == "" ==> r == Failure(HumaneError(MissingHeaderMessage, AuthAdvice))
    ensures header != "" && ' ' !in header ==> r == Failure(HumaneError(InvalidFormatMessage, AuthAdvice))
    ensures r.Failure? ==> r.error.advice == AuthAdvice
    ensures r.Success? ==> |header| > |r.value| && header[|header| - |r.value|..] == r.value
  {
    if header == "" then Failure(HumaneError(MissingHeaderMessage, AuthAdvice))
    else match IndexOfChar(header, ' ')
      case None => Failure(HumaneError(InvalidFormatMessage, AuthAdvice))
      case Some(i) =>
        if ToLowerAscii(header[..i]) != BearerScheme then Failure(HumaneError(InvalidFormatMessage, AuthAdvice))
        else Success(header[i + 1..])
  }

  /** The first space of `s` is at `i` when `s[i]` is a space and none comes before. */
  lemma FirstSpaceAt(s: string, i: nat)
    requires i < |s| && s[i] == ' ' && ' ' !in s[..i]
    ensures IndexOfChar(s, ' ') == Some(i)
  {
    assert s[i] in s;
  }

  /** A scheme that lower-cases to "bearer" has six characters and no space. */
  lemma BearerSchemeHasNoSpace(scheme: string)
    requires ToLowerAscii(scheme) == BearerScheme
    ensures |scheme| == 6 && ' ' !in scheme
  {
    assert ' ' !in BearerScheme;
    forall i | 0 <= i < |scheme| ensures scheme[i] != ' ' {
      assert LowerChar(scheme[i]) == BearerScheme[i];
    }
  }

  /**
   The accepted headers are exactly a scheme spelling "bearer" in any casing,
   one space, and the token, which is returned verbatim (it may be empty or
   hold spaces).
   */
  lemma ExtractBearerTokenExactly(header: string, token: string)
    ensures ExtractBearerToken(header) == Success(token) <==>
      (|header| == 7 + |token| && ToLowerAscii(header[..6]) == BearerScheme && header[6] == ' ' && header[7..] == token)
  {
    if |header| == 7 + |token| && ToLowerAscii(header[..6]) == BearerScheme && header[6] == ' ' && header[7..] == token {
      BearerSchemeHasNoSpace(header[..6]);
      assert header[..6] == header[..7][..6];
      FirstSpaceAt(header, 6);
    }
    if ExtractBearerToken(header) == Success(token) {
      var i := IndexOfChar(header, ' ').value;
      BearerSchemeHasNoSpace(header[..i]);
    }
  }

  /** Every casing of the scheme in front of any token yields that token. */
  lemma ExtractBearerTokenRoundTrip(scheme: string, token: string)
    requires ToLowerAscii(scheme) == BearerScheme
    ensures ExtractBearerToken(scheme + " " + token) == Success(token)
  {
    BearerSchemeHasNoSpace(scheme);
    var header := scheme + " " + token;
    assert header[..6] == scheme && header[6] == ' ' && header[7..] == token;
    ExtractBearerTokenExactly(header, token);
  }

  /** The "token" scheme that the advice text mentions is refused. */
  lemma TokenSchemeRefused(token: string)
    ensures ExtractBearerToken("token " + token) == Failure(HumaneError(InvalidFormatMessage, AuthAdvice))
  {
    var header := "token " + token;
    assert header[5] == ' ' && header[..5] == "token";
    FirstSpaceAt(header, 5);
    assert ToLowerAscii("token")[0] == 't';
  }

  /** The fields of GitHub's user record that the service reads. */
  datatype GithubUser = GithubUser(id: int, login: string, avatarUrl: string, userType: string, name: string, email: string)

  /** What the middleware decides: abort with a status and a JSON error, or pass on with the user name, if one was set. */
  datatype Decision = Abort(status: int, error: string, advice: string) | Next(userName: Option<string>)

  /**
   `GitHubUserAuthMiddleware`. `lookup` is the call to GitHub's user endpoint;
   its failure is only logged and the request goes on without a user name.
   */
  function GitHubUserAuth(header: string, lookup: string -> Result<GithubUser, string>): (d: Decision)
    ensures d.Next? <==> ExtractBearerToken(header).Success?
    ensures d.Abort? ==> d == Abort(401, ExtractBearerToken(header).error.message, AuthAdvice)
    ensures d.Next? ==> d.userName == match lookup(ExtractBearerToken(header).value)
      case Success(user) => Some(user.name)
      case Failure(_) => None
  {
    match ExtractBearerToken(header)
    case Failure(e) => Abort(401, e.message, e.advice)
    case Success(token) =>
      match lookup(token)
      case Success(user) => Next(Some(user.name))
      case Failure(_) => Next(None)
  }

  /** The name the handlers read from the request context: the empty string when none was set. */
  function HandlerUserName(d: Decision): string
    requires d.Next?
  {
    if d.userName.Some? then d.userName.value else ""
  }

  /**
   The name the handlers see is empty exactly when the lookup failed or the
   GitHub account has no display name; the login is never used.
   */
  lemma HandlerUserNameEmpty(header: string, lookup: string -> Result<GithubUser, string>)
    requires GitHubUserAuth(header, lookup).Next?
    ensures var token := ExtractBearerToken(header).value;
      HandlerUserName(GitHubUserAuth(header, lookup)) == "" <==> lookup(token).Failure? || lookup(token).value.name == ""
  {
  }
}
