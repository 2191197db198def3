/** The change-password form of components/change-password.tsx: the length
    rules of `resetPasswordSchema`, the mount-time lookup of the signed-in
    user's e-mail and the submit handler's state updates. Replies are inputs. */
module ChangePassword {
  import opened Wrappers
  import opened Text
  import opened Http

  const MinLength: nat := 8
  const MaxLength: nat := 100
  const TooShortMessage: string := "Password must be at least 8 characters"
  const TooLongMessage: string := "Password too long"
  const ResetFailedMessage: string := "Something went wrong while resetting password"
  const ResetDoneMessage: string := "Password reset successful! Redirecting to login..."
  const UnknownErrorMessage: string := "Something went wrong"
  const NoTokenMessage: string := "Authentication token not found"
  const UserFailedMessage: string := "Failed to fetch user data"

  /** The issues zod reports for `oldPassword` or `newPassword`: both fields
      carry the same `.min(8)` and `.max(100)` checks, counted in UTF-16 code
      units. */
  function PasswordIssues(p: string): (issues: seq<string>)
    ensures issues == [] <==> MinLength <= JsLength(p) <= MaxLength
    ensures issues == [TooShortMessage] <==> JsLength(p) < MinLength
    ensures issues == [TooLongMessage] <==> JsLength(p) > MaxLength
  {
    assert [TooShortMessage] != [TooLongMessage] by {
      assert |[TooShortMessage][0]| != |[TooLongMessage][0]|;
    }
    (if JsLength(p) < MinLength then [TooShortMessage] else [])
    + (if JsLength(p) > MaxLength then [TooLongMessage] else [])
  }

  /** The schema accepts the form: a valid e-mail (zod's check, an input here)
      and two passwords within the bounds. */
  predicate Accepted(emailValid: bool, oldPassword: string, newPassword: string) {
    emailValid && PasswordIssues(oldPassword) == [] && PasswordIssues(newPassword) == []
  }

  /** The value the schema checks for `emaiL`: its default. The address on
      screen is separate component state shown through `value`, and
      `setEmail` never writes it into the form's values
      (components/change-password.tsx:53-55, 89, 146-153). */
  const SchemaEmail: string := ""

  /** What every address zod's `email()` accepts has: a non-empty local part
      before an `@`. The full pattern is not modelled. */
  predicate EmailShaped(s: string) {
    exists i :: 0 < i < |s| && s[i] == '@'
  }

  /** So the check sees an empty string and rejects it, whatever the
      passwords: the schema never accepts the form as written. */
  lemma SchemaEmailRejected(isEmail: string -> bool, oldPassword: string, newPassword: string)
    requires forall s :: isEmail(s) ==> EmailShaped(s)
    ensures !Accepted(isEmail(SchemaEmail), oldPassword, newPassword)
  {
    assert !EmailShaped(SchemaEmail);
  }

  /** With the fetched address passed to the schema, a well-formed address
      and two in-bounds passwords are accepted. */
  lemma FetchedEmailAccepted(isEmail: string -> bool, email: Option<string>, oldPassword: string, newPassword: string)
    requires email.Some? && isEmail(email.value)
    requires MinLength <= JsLength(oldPassword) <= MaxLength && MinLength <= JsLength(newPassword) <= MaxLength
    ensures Accepted(email.Some? && isEmail(email.value), oldPassword, newPassword)
  {
  }

  /** No rule relates the two passwords: a new password equal to the old one
      is accepted whenever it is within the bounds. */
  lemma SamePasswordAccepted(p: string)
    requires MinLength <= JsLength(p) <= MaxLength
    ensures Accepted(true, p, p)
  {
  }

  /** The JSON body of the change-password endpoint. */
  datatype ResetBody = ResetBody(success: bool, error: Option<string>)

  /** The reply is a success: status ok and `success` set. */
  predicate ResetSucceeded(reply: Reply<ResetBody>) {
    reply.Replied? && reply.ok && reply.body.success
  }

  /** The error and success texts `onSubmit` leaves behind, as the pair
      (`resErrors`, `success`). */
  function Settled(reply: Reply<ResetBody>): (r: (string, string))
    ensures r.0 == [] || r.1 == []
    ensures ResetSucceeded(reply) <==> r.1 != []
    ensures ResetSucceeded(reply) ==> r == ("", ResetDoneMessage)
    ensures reply.Replied? && !ResetSucceeded(reply) ==> r.1 == [] && r.0 != []
    ensures reply.Replied? && !ResetSucceeded(reply) && reply.body.error.Some? && reply.body.error.value != []
      ==> r.0 == reply.body.error.value
    ensures reply.Replied? && !ResetSucceeded(reply) && (reply.body.error.None? || reply.body.error.value == [])
      ==> r.0 == ResetFailedMessage
    ensures reply.Threw? ==> r == (CaughtMessage(reply.thrown, UnknownErrorMessage), "")
  {
    match reply
    case Threw(t) => (CaughtMessage(t, UnknownErrorMessage), "")
    case Replied(ok, body) =>
      if !ok || !body.success then
        (if body.error.Some? && body.error.value != [] then body.error.value else ResetFailedMessage, "")
      else ("", ResetDoneMessage)
  }

  /** The answer to the mount-time `GET /api/auth/get-user`: the request or
      the JSON parsing threw, the status was not ok (the status as printed and
      the body text), or an ok reply's JSON body. */
  datatype UserReply =
    | UserThrew(thrown: Thrown)
    | NotOk(status: string, text: string)
    | UserJson(success: bool, message: Option<string>, email: Option<string>)

  /** The message `fetchData` shows when it does not obtain an e-mail, or
      `None` when it does. */
  function UserError(token: Option<string>, reply: UserReply): (r: Option<string>)
    ensures (token.None? || token.value == []) ==> r == Some(NoTokenMessage)
    ensures r.None? <==> token.Some? && token.value != [] && reply.UserJson? && reply.success
    ensures token.Some? && token.value != [] && reply.UserThrew? ==>
      r == Some(CaughtMessage(reply.thrown, UnknownErrorMessage))
    ensures token.Some? && token.value != [] && reply.NotOk? ==>
      r == Some("Failed to fetch user data (" + reply.status + "): " + reply.text)
    ensures token.Some? && token.value != [] && reply.UserJson? && !reply.success ==>
      r == Some(if reply.message.Some? && reply.message.value != [] then reply.message.value else UserFailedMessage)
  {
    if token.None? || token.value == [] then Some(NoTokenMessage)
    else match reply
      case UserThrew(t) => Some(CaughtMessage(t, UnknownErrorMessage))
      case NotOk(status, text) => Some("Failed to fetch user data (" + status + "): " + text)
      case UserJson(success, message, _) =>
        if success then None
        else Some(if message.Some? && message.value != [] then message.value else UserFailedMessage)
  }

  /** The component's state. `email` is `None` while it holds `undefined`. */
  class Form {
    var email: Option<string>
    var resErrors: string
    var success: string
    var loading: bool

    constructor ()
      ensures email == Some("") && resErrors == "" && success == "" && !loading
    {
      email, resErrors, success, loading := Some(""), "", "", false;
    }

    /** `fetchData`, run once on mount: clears the error, then either stores
        the e-mail of a successful reply or shows why it could not. */
    method FetchData(token: Option<string>, reply: UserReply)
      modifies this
      ensures UserError(token, reply).None? ==> email == reply.email && resErrors == ""
      ensures UserError(token, reply).Some? ==> email == old(email) && resErrors == UserError(token, reply).value
      ensures success == old(success) && loading == old(loading)
    {
      resErrors := "";
      var e := UserError(token, reply);
      if e.None? {
        email := reply.email;
      } else {
        resErrors := e.value;
      }
    }

    /** `onSubmit` up to the request. */
    method BeginSubmit()
      modifies this
      ensures resErrors == "" && success == "" && loading
      ensures email == old(email)
    {
      resErrors := "";
      success := "";
      loading := true;
    }

    /** `onSubmit` after the reply: `loading` is cleared on every path, then
        one message is set. */
    method SettleSubmit(reply: Reply<ResetBody>)
      modifies this
      requires resErrors == "" && success == ""
      ensures (resErrors, success) == Settled(reply)
      ensures !loading && email == old(email)
    {
      loading := false;
      if ResetSucceeded(reply) {
        success := ResetDoneMessage;
      } else if reply.Threw? {
        resErrors := CaughtMessage(reply.thrown, UnknownErrorMessage);
      } else {
        resErrors := if reply.body.error.Some? && reply.body.error.value != [] then reply.body.error.value
                     else ResetFailedMessage;
      }
    }

    /** `onSubmit` as `handleSubmit` calls it: only for input the schema
        accepts. Afterwards at most one of the two messages is shown. */
    method Submit(emailValid: bool, oldPassword: string, newPassword: string, reply: Reply<ResetBody>)
      returns (sent: bool)
      modifies this
      ensures sent <==> Accepted(emailValid, oldPassword, newPassword)
      ensures sent ==> (resErrors, success) == Settled(reply) && !loading
      ensures sent ==> resErrors == [] || success == []
      ensures !sent ==> resErrors == old(resErrors) && success == old(success) && loading == old(loading)
      ensures email == old(email)
    {
      sent := Accepted(emailValid, oldPassword, newPassword);
      if sent {
        BeginSubmit();
        SettleSubmit(reply);
      }
    }

    /** The submit button as written: zod checks `SchemaEmail`, so no
        request is ever sent and nothing changes. */
    method SubmitAsWritten(isEmail: string -> bool, oldPassword: string, newPassword: string, reply: Reply<ResetBody>)
      returns (sent: bool)
      requires forall s :: isEmail(s) ==> EmailShaped(s)
      modifies this
      ensures !sent
      ensures resErrors == old(resErrors) && success == old(success) && loading == old(loading) && email == old(email)
    {
      SchemaEmailRejected(isEmail, oldPassword, newPassword);
      sent := Submit(isEmail(SchemaEmail), oldPassword, newPassword, reply);
    }

    /** The submit button as evidently intended: zod checks the fetched
        address (`undefined` fails `z.string()`). */
    method SubmitFetched(isEmail: string -> bool, oldPassword: string, newPassword: string, reply: Reply<ResetBody>)
      returns (sent: bool)
      modifies this
      ensures sent <==> Accepted(old(email).Some? && isEmail(old(email).value), oldPassword, newPassword)
      ensures sent ==> (resErrors, success) == Settled(reply) && !loading
      ensures !sent ==> resErrors == old(resErrors) && success == old(success) && loading == old(loading)
      ensures email == old(email)
    {
      sent := Submit(email.Some? && isEmail(email.value), oldPassword, newPassword, reply);
    }
  }
}
