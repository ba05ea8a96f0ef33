/**
 * The client contact form: its unanchored email test and the submit handler
 * `sendMessageHandler`, which updates the six pieces of component state. The
 * `fetch` call is replaced by a given outcome.
 */
module ContactForm {
  import opened Wrappers
  import opened JsText

  const InvalidEmailError := "Please enter a valid email address."
  const MissingFieldError := "Please fill in all fields."
  const ServerFallbackError := "Something went wrong!"
  const SendFallbackError := "Failed to send the message."

  /** A match of `\S+`. */
  predicate Solid(s: string)
  {
    |s| > 0 && NoWhiteSpace(s)
  }

  /**
   * What `/\S+@\S+\.\S+/` finds somewhere in `s`: a substring made of a
   * non-whitespace run, `@`, a run, `.`, a run.
   */
  ghost predicate MatchesLooseEmail(s: string)
  {
    exists lo, at, dot, hi :: LooseMatch(s, lo, at, dot, hi)
  }

  /** The match occupies `s[lo..hi]`, with its `@` at `at` and its `.` at `dot`. */
  ghost predicate LooseMatch(s: string, lo: int, at: int, dot: int, hi: int)
  {
    0 <= lo < at < dot < hi <= |s| && s[at] == '@' && s[dot] == '.' &&
    Solid(s[lo..at]) && Solid(s[at + 1..dot]) && Solid(s[dot + 1..hi])
  }

  /** The shortest such match around an `@` at `at` and a `.` at `dot`. */
  predicate LooseAround(s: string, at: int, dot: int)
  {
    && 0 < at && at + 1 < dot && dot + 1 < |s|
    && s[at] == '@' && s[dot] == '.'
    && !IsWhiteSpace(s[at - 1]) && !IsWhiteSpace(s[dot + 1])
    && NoWhiteSpace(s[at + 1..dot])
  }

  lemma LooseEmailShortest(s: string)
    ensures MatchesLooseEmail(s) <==> exists at, dot :: LooseAround(s, at, dot)
  {
    if MatchesLooseEmail(s) {
      var lo, at, dot, hi :| LooseMatch(s, lo, at, dot, hi);
      assert s[lo..at][at - 1 - lo] == s[at - 1];
      assert s[dot + 1..hi][0] == s[dot + 1];
      assert LooseAround(s, at, dot);
    }
    if exists at, dot :: LooseAround(s, at, dot) {
      var at, dot :| LooseAround(s, at, dot);
      ShortestIsMatch(s, at, dot);
    }
  }

  lemma ShortestIsMatch(s: string, at: int, dot: int)
    requires LooseAround(s, at, dot)
    ensures LooseMatch(s, at - 1, at, dot, dot + 2)
  {
    assert s[at - 1..at] == [s[at - 1]] && s[dot + 1..dot + 2] == [s[dot + 1]];
  }

  /** The form's `emailIsValid(email)`. */
  function EmailIsValid(email: string): (valid: bool)
    ensures valid <==> MatchesLooseEmail(email)
  {
    LooseEmailShortest(email);
    exists at, dot | 0 < at < dot < |email| :: LooseAround(email, at, dot)
  }

  /**
   * The checks before any request: the error they set, or None when the
   * request goes out. The email test comes first.
   */
  function ClientCheck(email: string, name: string, message: string): (error: Option<string>)
    ensures error.None? <==> MatchesLooseEmail(email) && !Blank(name) && !Blank(message)
    ensures !MatchesLooseEmail(email) ==> error == Some(InvalidEmailError)
    ensures MatchesLooseEmail(email) && (Blank(name) || Blank(message)) ==> error == Some(MissingFieldError)
  {
    if !EmailIsValid(email) then Some(InvalidEmailError)
    else if Trim(name) == "" || Trim(message) == "" then Some(MissingFieldError)
    else None
  }

  /** The JSON body sent to `/api/contact`. */
  datatype MessageData = MessageData(email: string, name: string, message: string)

  /**
   * How the request ends: a response with its `ok` flag and the body's
   * `message` (absent when the body has none), or an exception from `fetch`
   * or from `response.json()`, with its message.
   */
  datatype FetchOutcome = Answered(ok: bool, message: Option<string>) | Threw(reason: string)

  /** `value || fallback` on a string-or-undefined. */
  function OrElse(value: Option<string>, fallback: string): (r: string)
    ensures fallback != "" ==> r != ""
    ensures value.Some? && value.value != "" ==> r == value.value
    ensures (value.None? || value.value == "") ==> r == fallback
  {
    if value.Some? && value.value != "" then value.value else fallback
  }

  /** The `error` a failed request leaves, or None when the request succeeded. */
  function FailureOf(outcome: FetchOutcome): (error: Option<string>)
    ensures error.None? <==> outcome.Answered? && outcome.ok
    ensures error.Some? ==> error.value != ""
    ensures outcome.Answered? && !outcome.ok ==> error == Some(OrElse(outcome.message, ServerFallbackError))
    ensures outcome.Threw? ==> error == Some(OrElse(Some(outcome.reason), SendFallbackError))
  {
    match outcome
    case Answered(ok, message) =>
      if ok then None
      else
        var thrown := OrElse(message, ServerFallbackError);
        Some(OrElse(Some(thrown), SendFallbackError))
    case Threw(reason) => Some(OrElse(Some(reason), SendFallbackError))
  }

  /** The `ContactForm` component's state. */
  class ContactForm {
    var enteredEmail: string
    var enteredFullName: string
    var enteredMessage: string
    var isLoading: bool
    var error: Option<string>
    var success: bool

    /**
     * Between submits nothing is loading: the submit button is not rendered
     * while `isLoading` holds, so a submit never starts during another.
     */
    ghost predicate Valid()
      reads this
    {
      !isLoading
    }

    /** The initial `useState` values. */
    constructor ()
      ensures Valid()
      ensures enteredEmail == "" && enteredFullName == "" && enteredMessage == ""
      ensures !isLoading && error == None && !success
    {
      enteredEmail, enteredFullName, enteredMessage := "", "", "";
      isLoading, error, success := false, None, false;
    }

    /** The `onChange` handlers of the three inputs. */
    method ChangeEmail(value: string)
      modifies this
      ensures enteredEmail == value
      ensures enteredFullName == old(enteredFullName) && enteredMessage == old(enteredMessage)
      ensures isLoading == old(isLoading) && error == old(error) && success == old(success)
    {
      enteredEmail := value;
    }

    method ChangeFullName(value: string)
      modifies this
      ensures enteredFullName == value
      ensures enteredEmail == old(enteredEmail) && enteredMessage == old(enteredMessage)
      ensures isLoading == old(isLoading) && error == old(error) && success == old(success)
    {
      enteredFullName := value;
    }

    method ChangeMessage(value: string)
      modifies this
      ensures enteredMessage == value
      ensures enteredEmail == old(enteredEmail) && enteredFullName == old(enteredFullName)
      ensures isLoading == old(isLoading) && error == old(error) && success == old(success)
    {
      enteredMessage := value;
    }

    /**
     * `sendMessageHandler`, run to completion; `outcome` is how the request
     * ends if one is sent. Returns the body sent, or None when the local
     * checks stopped the submit.
     */
    method SendMessage(outcome: FetchOutcome) returns (sent: Option<MessageData>)
      requires Valid()
      modifies this
      ensures Valid()
      ensures ClientCheck(old(enteredEmail), old(enteredFullName), old(enteredMessage)).Some? ==>
        && sent == None && !success
        && error == ClientCheck(old(enteredEmail), old(enteredFullName), old(enteredMessage))
        && enteredEmail == old(enteredEmail) && enteredFullName == old(enteredFullName)
        && enteredMessage == old(enteredMessage)
      ensures ClientCheck(old(enteredEmail), old(enteredFullName), old(enteredMessage)).None? ==>
        && sent == Some(MessageData(old(enteredEmail), old(enteredFullName), old(enteredMessage)))
        && error == FailureOf(outcome)
      ensures success <==> sent.Some? && error.None?
      ensures success ==> enteredEmail == "" && enteredFullName == "" && enteredMessage == ""
      ensures !success ==> enteredEmail == old(enteredEmail) && enteredFullName == old(enteredFullName)
                           && enteredMessage == old(enteredMessage)
      ensures success != error.Some?
    {
      success := false;
      error := None;

      var check := ClientCheck(enteredEmail, enteredFullName, enteredMessage);
      if check.Some? {
        error := check;
        return None;
      }

      isLoading := true;
      var messageData := MessageData(enteredEmail, enteredFullName, enteredMessage);
      Deliver(outcome);
      sent := Some(messageData);
    }

    /**
     * The `fetch` to the contact API and its aftermath: on an ok response the
     * inputs are cleared and `success` set; otherwise `error` gets the
     * message thrown. `isLoading` is cleared at the end either way.
     */
    method Deliver(outcome: FetchOutcome)
      requires !success && error == None
      modifies this
      ensures !isLoading
      ensures error == FailureOf(outcome) && success == error.None?
      ensures success ==> enteredEmail == "" && enteredFullName == "" && enteredMessage == ""
      ensures !success ==> enteredEmail == old(enteredEmail) && enteredFullName == old(enteredFullName)
                           && enteredMessage == old(enteredMessage)
    {
      match outcome {
        case Answered(ok, message) =>
          if !ok {
            var thrown := OrElse(message, ServerFallbackError);
            error := Some(OrElse(Some(thrown), SendFallbackError));
          } else {
            success := true;
            enteredEmail := "";
            enteredFullName := "";
            enteredMessage := "";
          }
        case Threw(reason) =>
          error := Some(OrElse(Some(reason), SendFallbackError));
      }
      isLoading := false;
    }
  }
}
