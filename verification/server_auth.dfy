/**
 * The server's authentication middleware: `authenticate` admits a request
 * carrying a valid bearer token, and `validateRequest` checks the email and
 * password of a login or registration body.
 */
module ServerAuth {
  import opened Wrappers
  import opened Strings
  import opened ServerErrors

  // ---------------------------------------------------------------------------
  // authenticate

  const BearerPrefix := "Bearer "
  const AuthenticationRequired := "Authentication required"
  const InvalidOrExpiredToken := "Invalid or expired token"

  /** What `authenticate` passes to `next`: the request with its user attached, or an error. */
  datatype AuthOutcome = Authenticated(userId: string) | Forwarded(err: ServerError)

  /** The outcome, and the token handed to `validateToken` if it was called at all. */
  datatype AuthResult = AuthResult(outcome: AuthOutcome, validated: Option<string>)

  /** `authHeader.split(' ')[1]` for a header that starts with "Bearer ". */
  function BearerToken(header: string): (token: string)
    requires StartsWith(header, BearerPrefix)
    ensures ' ' !in token
  {
    BeforeFirst(header[|BearerPrefix|..], ' ')
  }

  /**
   * `AuthService.validateToken`: the user id that `jwt.verify` decodes from
   * the token, or a 401 for any token it rejects. `verify` stands for
   * `jwt.verify` with the configured secret.
   */
  function ValidateToken(verify: string -> Option<string>, token: string): (r: AuthOutcome)
    ensures r.Authenticated? <==> verify(token).Some?
    ensures r.Authenticated? ==> r.userId == verify(token).value
    ensures r.Forwarded? ==> r.err == ApiError(401, InvalidOrExpiredToken, None)
  {
    match verify(token)
    case Some(user) => Authenticated(user)
    case None => Forwarded(ApiError(401, InvalidOrExpiredToken, None))
  }

  /** `authenticate(req, res, next)` for the request's `Authorization` header, if any. */
  function Authenticate(verify: string -> Option<string>, header: Option<string>): (r: AuthResult)
    ensures r.validated.None? <==> header.None? || !StartsWith(header.value, BearerPrefix)
    ensures r.validated.None? ==> r.outcome == Forwarded(ApiError(401, AuthenticationRequired, None))
    ensures r.validated.Some? ==> r.outcome == ValidateToken(verify, r.validated.value)
    ensures r.outcome.Authenticated? ==> verify(r.validated.value) == Some(r.outcome.userId)
  {
    match header
    case None => AuthResult(Forwarded(ApiError(401, AuthenticationRequired, None)), None)
    case Some(h) =>
      if !StartsWith(h, BearerPrefix) then AuthResult(Forwarded(ApiError(401, AuthenticationRequired, None)), None)
      else
        var token := BearerToken(h);
        AuthResult(ValidateToken(verify, token), Some(token))
  }

  /**
   * The token is the second space-separated field: for a header "Bearer " +
   * `token` + `rest`, where `rest` is empty or starts a new field, the token
   * validated is exactly `token`.
   */
  lemma TokenIsSecondField(verify: string -> Option<string>, token: string, rest: string)
    requires ' ' !in token
    requires |rest| == 0 || rest[0] == ' '
    ensures Authenticate(verify, Some(BearerPrefix + token + rest)).validated == Some(token)
  {
    var h := BearerPrefix + token + rest;
    assert h[..|BearerPrefix|] == BearerPrefix;
    assert h[|BearerPrefix|..] == token + rest;
    BeforeFirstAppend(token, rest, ' ');
  }

  /** Without a bearer header the verifier is never consulted: any two verifiers give the same result. */
  lemma NoBearerNoVerification(v1: string -> Option<string>, v2: string -> Option<string>, header: Option<string>)
    requires header.None? || !StartsWith(header.value, BearerPrefix)
    ensures Authenticate(v1, header) == Authenticate(v2, header)
  {
  }

  // ---------------------------------------------------------------------------
  // validateRequest

  const EmailRequired := "Email is required"
  const InvalidEmailFormat := "Invalid email format"
  const PasswordRequired := "Password is required"
  const PasswordTooShort := "Password must be at least 6 characters long"
  const MinPasswordLength := 6

  /** `[^\s@]`: a character the email pattern accepts in each of its three parts. */
  predicate EmailChar(c: char) {
    !IsJsSpace(c) && c != '@'
  }

  /**
   * `/^[^\s@]+@[^\s@]+\.[^\s@]+$/.test(s)`, read off the pattern: `s` splits
   * at an '@' (index `i`) and a later '.' (index `j`) into three non-empty
   * parts, and every character other than that '@' is a `[^\s@]` character.
   */
  predicate MatchesEmailPattern(s: string) {
    exists i, j | 0 < i && i + 1 < j < |s| - 1 ::
      && s[i] == '@' && s[j] == '.'
      && (forall k | 0 <= k < |s| && k != i :: EmailChar(s[k]))
  }

  /**
   * The email check as a scan: the first '@' has something before it, no
   * '@' after it, and a '.' strictly inside the part after it; no whitespace
   * anywhere.
   */
  predicate EmailFormatOk(s: string) {
    match IndexOf(s, '@')
    case None => false
    case Some(i) =>
      && 0 < i && i + 2 <= |s| - 1
      && '@' !in s[i + 1..]
      && '.' in s[i + 2..|s| - 1]
      && (forall k | 0 <= k < |s| :: !IsJsSpace(s[k]))
  }

  /** The scan accepts exactly the strings the pattern matches. */
  lemma EmailFormatMatchesPattern(s: string)
    ensures EmailFormatOk(s) <==> MatchesEmailPattern(s)
  {
    if EmailFormatOk(s) {
      ScanImpliesPattern(s);
    }
    if MatchesEmailPattern(s) {
      PatternImpliesScan(s);
    }
  }

  /** A string the scan accepts splits as the pattern requires. */
  lemma ScanImpliesPattern(s: string)
    requires EmailFormatOk(s)
    ensures MatchesEmailPattern(s)
  {
    var i := IndexOf(s, '@').value;
    var d := s[i + 2..|s| - 1];
    var m := IndexOf(d, '.').value;
    var j := i + 2 + m;
    assert s[j] == d[m] == '.';
    forall k | 0 <= k < |s| && k != i
      ensures EmailChar(s[k])
    {
      if k < i {
        assert s[k] == s[..i][k];
      } else {
        assert s[k] == s[i + 1..][k - i - 1];
      }
    }
    assert 0 < i && i + 1 < j < |s| - 1 && s[i] == '@' && s[j] == '.';
  }

  /** A string the pattern matches passes the scan. */
  lemma PatternImpliesScan(s: string)
    requires MatchesEmailPattern(s)
    ensures EmailFormatOk(s)
  {
    var i, j :| 0 < i && i + 1 < j < |s| - 1 && s[i] == '@' && s[j] == '.'
                && (forall k | 0 <= k < |s| && k != i :: EmailChar(s[k]));
    OnlyAtIsFirst(s, i);
    assert s[i + 2..|s| - 1][j - i - 2] == '.';
    forall k | 0 <= k < |s|
      ensures !IsJsSpace(s[k])
    {
      if k != i {
        assert EmailChar(s[k]);
      }
    }
  }

  /** An '@' where every other character is a `[^\s@]` character is the first and only one. */
  lemma OnlyAtIsFirst(s: string, i: nat)
    requires i < |s| && s[i] == '@'
    requires forall k | 0 <= k < |s| && k != i :: EmailChar(s[k])
    ensures IndexOf(s, '@') == Some(i)
    ensures '@' !in s[i + 1..]
  {
    NotInSlice(s, 0, i, '@');
    assert s[..i] == s[0..i];
    AtIsFirst(s, i);
    NotInSlice(s, i + 1, |s|, '@');
    assert s[i + 1..] == s[i + 1..|s|];
  }

  /** An '@' with none before it is the one `indexOf` finds. */
  lemma AtIsFirst(s: string, i: nat)
    requires i < |s| && s[i] == '@' && '@' !in s[..i]
    ensures IndexOf(s, '@') == Some(i)
  {
  }

  /** The email error `validateRequest` reports, if any. */
  function EmailProblem(email: Option<string>): (r: Option<string>)
    ensures r.None? <==> Truthy(email) && MatchesEmailPattern(email.value)
    ensures r == Some(EmailRequired) <==> !Truthy(email)
    ensures Truthy(email) && !MatchesEmailPattern(email.value) ==> r == Some(InvalidEmailFormat)
  {
    EmailFormatMatchesPattern(email.GetOr(""));
    if !Truthy(email) then Some(EmailRequired)
    else if !EmailFormatOk(email.value) then Some(InvalidEmailFormat)
    else None
  }

  /** The password error `validateRequest` reports, if any; the length counts UTF-16 code units. */
  function PasswordProblem(password: Option<string>): (r: Option<string>)
    ensures r.None? <==> Truthy(password) && Utf16Length(password.value) >= MinPasswordLength
    ensures r == Some(PasswordRequired) <==> !Truthy(password)
    ensures Truthy(password) && Utf16Length(password.value) < MinPasswordLength ==> r == Some(PasswordTooShort)
  {
    if !Truthy(password) then Some(PasswordRequired)
    else if Utf16Length(password.value) < MinPasswordLength then Some(PasswordTooShort)
    else None
  }

  function OptionToSeq(o: Option<string>): seq<string> {
    if o.Some? then [o.value] else []
  }

  /** What `validateRequest` does: call `next()`, or throw a 400 listing the problems. */
  datatype Validation = Proceed | Rejected(err: ServerError)

  /** `validateRequest(req, res, next)` for the body's `email` and `password` fields. */
  function ValidateRequest(email: Option<string>, password: Option<string>): (r: Validation)
    ensures r.Proceed? <==> && Truthy(email) && MatchesEmailPattern(email.value)
                            && Truthy(password) && Utf16Length(password.value) >= MinPasswordLength
    ensures r.Rejected? ==> r.err.ApiError? && r.err.statusCode == 400
  {
    var problems := OptionToSeq(EmailProblem(email)) + OptionToSeq(PasswordProblem(password));
    if |problems| > 0 then Rejected(ApiError(400, JoinWith(problems, ", "), None)) else Proceed
  }

  /**
   * The rejection message names the email problem first and the password
   * problem second, joined by ", " when there are both.
   */
  lemma RejectionMessage(email: Option<string>, password: Option<string>)
    ensures var r := ValidateRequest(email, password);
            var e := EmailProblem(email);
            var p := PasswordProblem(password);
            && (e.Some? && p.Some? ==> r.err.message == e.value + ", " + p.value)
            && (e.Some? && p.None? ==> r.err.message == e.value)
            && (e.None? && p.Some? ==> r.err.message == p.value)
  {
    var e := EmailProblem(email);
    var p := PasswordProblem(password);
    if e.Some? && p.Some? {
      assert OptionToSeq(e) + OptionToSeq(p) == [e.value, p.value];
      assert [e.value, p.value][1..] == [p.value];
      assert JoinWith([e.value, p.value], ", ") == e.value + ", " + JoinWith([p.value], ", ");
    } else if e.Some? {
      assert OptionToSeq(e) + OptionToSeq(p) == [e.value];
    } else if p.Some? {
      assert OptionToSeq(e) + OptionToSeq(p) == [p.value];
    }
  }

  /** "a@b.c" passes the email check. */
  lemma ShortestEmailPasses()
    ensures MatchesEmailPattern("a@b.c")
  {
    var s := "a@b.c";
    assert s[1] == '@' && s[3] == '.';
    assert forall k | 0 <= k < |s| && k != 1 :: EmailChar(s[k]);
  }

  /** Without a '.' after the '@' the email check fails. */
  lemma DotRequired()
    ensures !MatchesEmailPattern("a@bc")
  {
    EmailFormatMatchesPattern("a@bc");
    assert IndexOf("a@bc", '@') == Some(1);
  }

  /** A second '@' fails the email check. */
  lemma SecondAtRejected()
    ensures !MatchesEmailPattern("a@b@c.d")
  {
    var s := "a@b@c.d";
    EmailFormatMatchesPattern(s);
    assert IndexOf(s, '@') == Some(1);
    assert s[2..][1] == '@';
  }
}
