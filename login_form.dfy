/** The sign-in form of components/login-form.tsx: the password rules of
    `loginSchema`, the submit handler's state updates and the GitHub
    authorize URL. The server's reply is an input. */
module LoginForm {
  import opened Wrappers
  import opened Text
  import opened Http
  import UriComponent
  import QueryString

  const MinPasswordLength: nat := 6
  const TooShortMessage: string := "Password must be at least 6 characters long"
  const NoUppercaseMessage: string := "Password must include at least one uppercase letter"
  const NoLowercaseMessage: string := "Password must include at least one lowercase letter"
  const NoSpecialMessage: string := "Password must include at least one special character"
  const LoginFailedMessage: string := "Login failed"
  const UnknownErrorMessage: string := "Something went wrong"

  /** `/[A-Z]/` finds a match. */
  predicate HasUppercase(p: string) { exists i :: 0 <= i < |p| && IsAsciiUpper(p[i]) }
  /** `/[a-z]/` finds a match. */
  predicate HasLowercase(p: string) { exists i :: 0 <= i < |p| && IsAsciiLower(p[i]) }
  /** `/[^A-Za-z0-9]/` finds a match: any character that is not an ASCII
      letter or digit, a space or a non-ASCII letter included. */
  predicate HasSpecial(p: string) { exists i :: 0 <= i < |p| && !IsAsciiAlphanumeric(p[i]) }

  /** The issues zod reports for the password field, in the order the checks
      are declared (components/login-form.tsx:29-34); zod runs every check of
      a string schema. The length is counted in UTF-16 code units. */
  function PasswordIssues(p: string): (issues: seq<string>)
    ensures issues == [] <==>
      JsLength(p) >= MinPasswordLength && HasUppercase(p) && HasLowercase(p) && HasSpecial(p)
    ensures JsLength(p) < MinPasswordLength <==> issues != [] && issues[0] == TooShortMessage
    ensures |issues| <= 4
  {
    (if JsLength(p) < MinPasswordLength then [TooShortMessage] else [])
    + (if !HasUppercase(p) then [NoUppercaseMessage] else [])
    + (if !HasLowercase(p) then [NoLowercaseMessage] else [])
    + (if !HasSpecial(p) then [NoSpecialMessage] else [])
  }

  /** No digit is ever required. */
  lemma NoDigitRequired()
    ensures PasswordIssues("Abcde!") == []
  {
    var p := "Abcde!";
    assert forall i :: 0 <= i < |p| ==> p[i] as int <= 0xFFFF;
    assert IsAsciiUpper(p[0]) && IsAsciiLower(p[1]) && !IsAsciiAlphanumeric(p[5]);
  }

  /** A space counts as the special character. */
  lemma SpaceIsSpecial()
    ensures PasswordIssues("Ab cdef") == []
  {
    var p := "Ab cdef";
    assert forall i :: 0 <= i < |p| ==> p[i] as int <= 0xFFFF;
    assert IsAsciiUpper(p[0]) && IsAsciiLower(p[1]) && !IsAsciiAlphanumeric(p[2]);
  }

  /** A non-ASCII letter counts as the special character. */
  lemma AccentIsSpecial()
    ensures PasswordIssues("Abcdeé") == []
  {
    var p := "Abcdeé";
    assert forall i :: 0 <= i < |p| ==> p[i] as int <= 0xFFFF;
    assert IsAsciiUpper(p[0]) && IsAsciiLower(p[1]) && !IsAsciiAlphanumeric(p[5]);
  }

  /** The length rule is reported first. */
  lemma ShortPasswordMessage()
    ensures PasswordIssues("Abc!") == [TooShortMessage]
  {
    var p := "Abc!";
    assert forall i :: 0 <= i < |p| ==> p[i] as int <= 0xFFFF;
    assert IsAsciiUpper(p[0]) && IsAsciiLower(p[1]) && !IsAsciiAlphanumeric(p[3]);
  }

  /** The JSON body of the login endpoint; `error` is absent or empty when
      the server gives no message. */
  datatype LoginBody = LoginBody(success: bool, error: Option<string>, token: string, userId: string)

  /** The reply is a successful sign-in: status ok and `success` set. */
  predicate Succeeded(reply: Reply<LoginBody>) {
    reply.Replied? && reply.ok && reply.body.success
  }

  /** The message shown when a sign-in does not succeed: the server's `error`
      when it sent one, else "Login failed"; for a thrown error its message. */
  function FailureMessage(reply: Reply<LoginBody>): (m: string)
    requires !Succeeded(reply)
    ensures reply.Replied? ==> m != []
    ensures reply.Replied? && reply.body.error.Some? && reply.body.error.value != [] ==> m == reply.body.error.value
    ensures reply.Replied? && (reply.body.error.None? || reply.body.error.value == []) ==> m == LoginFailedMessage
    ensures reply.Threw? ==> m == CaughtMessage(reply.thrown, UnknownErrorMessage)
  {
    match reply
    case Threw(t) => CaughtMessage(t, UnknownErrorMessage)
    case Replied(_, body) =>
      if body.error.Some? && body.error.value != [] then body.error.value else LoginFailedMessage
  }

  const AuthorizeEndpoint: string := "https://github.com/login/oauth/authorize"
  const Scope: string := "read:user,user:email"
  const OAuthState: string := "login"

  /** The URL `loginWithGithub` sends the browser to
      (components/login-form.tsx:76-83); the client id is inserted as it is,
      the redirect URI through `encodeURIComponent`. */
  function AuthorizeUrl(clientId: string, redirectUri: string): string
  {
    AuthorizeEndpoint + "?"
    + ("client_id=" + clientId + "&"
       + ("redirect_uri=" + UriComponent.Encode(redirectUri) + "&"
          + ("scope=" + Scope + "&"
             + ("state=" + OAuthState))))
  }

  /** The four parameters of the authorize URL, in order. */
  function AuthorizePairs(clientId: string, redirectUri: string): seq<(string, string)>
  {
    [("client_id", clientId), ("redirect_uri", UriComponent.Encode(redirectUri)),
     ("scope", Scope), ("state", OAuthState)]
  }

  /** The authorize URL is the endpoint followed by its four parameters. */
  lemma AuthorizeUrlShape(clientId: string, redirectUri: string)
    ensures AuthorizeUrl(clientId, redirectUri)
      == AuthorizeEndpoint + "?" + QueryString.Build(AuthorizePairs(clientId, redirectUri))
  {
    var ps := AuthorizePairs(clientId, redirectUri);
    var e := UriComponent.Encode(redirectUri);
    var p3 := ps[3..];
    var p2 := ps[2..];
    var p1 := ps[1..];
    assert p3 == [("state", OAuthState)];
    assert p2[1..] == p3;
    assert p1[1..] == p2;
    var b3 := "state=" + OAuthState;
    assert QueryString.Build(p3) == b3 by {
      assert "state" + "=" == "state=";
    }
    var b2 := "scope=" + Scope + "&" + b3;
    assert QueryString.Build(p2) == b2 by {
      assert "scope" + "=" == "scope=";
    }
    var b1 := "redirect_uri=" + e + "&" + b2;
    assert QueryString.Build(p1) == b1 by {
      assert "redirect_uri" + "=" == "redirect_uri=";
    }
    assert QueryString.Build(ps) == "client_id=" + clientId + "&" + b1 by {
      assert "client_id" + "=" == "client_id=";
    }
  }

  /** Read back, the authorize URL's query holds exactly the four parameters,
      in order, and the redirect URI decodes to the configured one, whatever
      characters it contains; only the client id must be free of `&`. */
  lemma AuthorizeUrlQuery(clientId: string, redirectUri: string)
    requires '&' !in clientId
    ensures var pairs := AuthorizePairs(clientId, redirectUri);
      && AuthorizeUrl(clientId, redirectUri) == AuthorizeEndpoint + "?" + QueryString.Build(pairs)
      && QueryString.Parse(QueryString.Build(pairs)) == pairs
      && pairs[0].1 == clientId
      && UriComponent.Decode(pairs[1].1) == Some(redirectUri)
  {
    var e := UriComponent.Encode(redirectUri);
    var pairs := AuthorizePairs(clientId, redirectUri);
    AuthorizeUrlShape(clientId, redirectUri);
    assert '&' !in e by {
      forall k | 0 <= k < |e| ensures e[k] != '&' { assert UriComponent.IsEncodedChar(e[k]); }
    }
    assert forall i :: 0 <= i < |pairs| ==> QueryString.Writable(pairs[i]);
    QueryString.ParseBuild(pairs);
    UriComponent.DecodeEncode(redirectUri);
  }

  /** The component's state; `storage` is the browser's `localStorage`. */
  class Form {
    var loading: bool
    var resErrors: string
    var githubLoading: bool
    var storage: map<string, string>

    constructor (storage0: map<string, string>)
      ensures !loading && resErrors == "" && !githubLoading && storage == storage0
    {
      loading, resErrors, githubLoading := false, "", false;
      storage := storage0;
    }

    /** `onSubmit` up to the request. */
    method BeginSubmit()
      modifies this
      ensures loading && resErrors == ""
      ensures storage == old(storage) && githubLoading == old(githubLoading)
    {
      loading := true;
      resErrors := "";
    }

    /** `onSubmit` after the reply: the token and user id are stored only for
        a successful sign-in, otherwise the failure message is shown; either
        way `loading` ends false. */
    method SettleSubmit(reply: Reply<LoginBody>)
      modifies this
      ensures !loading && githubLoading == old(githubLoading)
      ensures Succeeded(reply) ==>
        && storage == old(storage)["token" := reply.body.token]["userId" := reply.body.userId]
        && resErrors == old(resErrors)
      ensures !Succeeded(reply) ==> storage == old(storage) && resErrors == FailureMessage(reply)
    {
      if Succeeded(reply) {
        storage := storage["token" := reply.body.token];
        storage := storage["userId" := reply.body.userId];
      } else {
        resErrors := FailureMessage(reply);
      }
      loading := false;
    }

    /** `onSubmit` as `handleSubmit` calls it: only for input the schema
        accepts (`emailValid` is zod's e-mail check). */
    method Submit(emailValid: bool, password: string, reply: Reply<LoginBody>) returns (sent: bool)
      modifies this
      ensures sent <==> emailValid && PasswordIssues(password) == []
      ensures !sent ==> loading == old(loading) && resErrors == old(resErrors) && storage == old(storage)
      ensures sent ==> !loading
      ensures sent && Succeeded(reply) ==>
        resErrors == "" && storage == old(storage)["token" := reply.body.token]["userId" := reply.body.userId]
      ensures sent && !Succeeded(reply) ==> resErrors == FailureMessage(reply) && storage == old(storage)
      ensures githubLoading == old(githubLoading)
    {
      sent := emailValid && PasswordIssues(password) == [];
      if sent {
        BeginSubmit();
        SettleSubmit(reply);
      }
    }

    /** `loginWithGithub`: sets the spinner and yields the URL the browser is
        sent to. */
    method LoginWithGithub(clientId: string, redirectUri: string) returns (url: string)
      modifies this
      ensures githubLoading && url == AuthorizeUrl(clientId, redirectUri)
      ensures loading == old(loading) && resErrors == old(resErrors) && storage == old(storage)
    {
      githubLoading := true;
      url := AuthorizeUrl(clientId, redirectUri);
    }
  }
}
