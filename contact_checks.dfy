/**
 * How the three contact checks relate: `validateForm`, the client form's own
 * checks, and the input check of `/api/contact`. Whatever either client
 * check accepts, the server accepts; `validateForm` is the stricter client
 * check.
 */
module ContactChecks {
  import opened Wrappers
  import opened JsText
  import ValidateForm
  import ContactForm
  import ContactApi

  /** An email either client pattern accepts has an `@` and is not blank. */
  lemma LooseEmailHasAt(email: string)
    requires ContactForm.MatchesLooseEmail(email)
    ensures '@' in email && !Blank(email)
  {
    var lo, at, dot, hi :| ContactForm.LooseMatch(email, lo, at, dot, hi);
    assert email[at] in email;
    assert email[lo..at][0] == email[lo];
  }

  /** The anchored pattern of `validateForm` accepts only what the form's unanchored one accepts. */
  lemma AnchoredEmailIsLooseEmail(email: string)
    requires ValidateForm.MatchesEmailRegex(email)
    ensures ContactForm.MatchesLooseEmail(email)
  {
    var at, dot :| 0 <= at < dot < |email| && email[at] == '@' && email[dot] == '.' &&
      ValidateForm.PatternRun(email[..at]) && ValidateForm.PatternRun(email[at + 1..dot]) &&
      ValidateForm.PatternRun(email[dot + 1..]);
    assert email[0..at] == email[..at] && email[dot + 1..|email|] == email[dot + 1..];
    assert ContactForm.LooseMatch(email, 0, at, dot, |email|);
  }

  /** But not the other way round: the form lets a space before the address through. */
  lemma LooseEmailAdmitsSpaces()
    ensures ContactForm.EmailIsValid("a b@c.d")
    ensures !ValidateForm.EmailRegexTest("a b@c.d")
  {
    LooseAcceptsSpacedExample();
    AnchoredRejectsSpacedExample();
  }

  lemma LooseAcceptsSpacedExample()
    ensures ContactForm.LooseAround("a b@c.d", 3, 5)
  {
    var s := "a b@c.d";
    assert s[4..5] == ['c'];
    assert !IsWhiteSpace(s[2]) && !IsWhiteSpace(s[6]);
  }

  lemma AnchoredRejectsSpacedExample()
    ensures !ValidateForm.MatchesEmailRegex("a b@c.d")
  {
    var s := "a b@c.d";
    assert LastIndexOf(s, '@') == 3 by {
      assert s[4..] == "c.d";
    }
    assert !NoWhiteSpace(s[..3]) by {
      assert s[..3][1] == ' ';
    }
    ValidateForm.EmailRegexShape(s);
  }

  /** A triple `validateForm` accepts also passes the form's own checks. */
  lemma ValidateFormAcceptedPassesClientCheck(email: string, name: string, message: string)
    requires ValidateForm.ValidateForm(email, name, message).isValid
    ensures ContactForm.ClientCheck(email, name, message).None?
  {
    AnchoredEmailIsLooseEmail(email);
  }

  /** A triple the form's checks let through is never answered 422 by the server. */
  lemma ClientCheckedPassesServerCheck(email: string, name: string, message: string)
    requires ContactForm.ClientCheck(email, name, message).None?
    ensures !ContactApi.InputRejected(Some(email), Some(name), Some(message))
  {
    LooseEmailHasAt(email);
  }

  /** A triple `validateForm` accepts is never answered 422 by the server. */
  lemma ValidatedPassesServerCheck(email: string, name: string, message: string)
    requires ValidateForm.ValidateForm(email, name, message).isValid
    ensures !ContactApi.InputRejected(Some(email), Some(name), Some(message))
  {
    ValidateFormAcceptedPassesClientCheck(email, name, message);
    ClientCheckedPassesServerCheck(email, name, message);
  }

  /** The JSON body the form posts, as the server destructures it. */
  function PostedBody(data: ContactForm.MessageData): (body: ContactApi.RequestBody)
    ensures ContactApi.Field(body, "email") == Some(data.email)
    ensures ContactApi.Field(body, "name") == Some(data.name)
    ensures ContactApi.Field(body, "message") == Some(data.message)
  {
    map["email" := data.email, "name" := data.name, "message" := data.message]
  }

  /**
   * End to end: a body the form sends is stored (201) or hits a database
   * failure (500), never 422; and the stored document holds exactly the
   * form's three fields.
   */
  lemma SentMessageIsAccepted(data: ContactForm.MessageData, now: ContactApi.Timestamp,
                              connect: ContactApi.ConnectOutcome, insert: ContactApi.InsertOutcome)
    requires ContactForm.ClientCheck(data.email, data.name, data.message).None?
    ensures var reply := ContactApi.Respond("POST", PostedBody(data), now, connect, insert);
      && (reply.status == 201 || reply.status == 500)
      && (reply.stored.Some? ==>
            reply.stored.value.email == data.email && reply.stored.value.name == data.name &&
            reply.stored.value.message == data.message)
  {
    ClientCheckedPassesServerCheck(data.email, data.name, data.message);
  }
}
