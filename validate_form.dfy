/**
 * The contact-form validator `validateForm`: an anchored email pattern, a
 * redundant `@`/`.` check, then the trimmed name and the trimmed message,
 * reporting only the first failure.
 */
module ValidateForm {
  import opened Wrappers
  import opened JsText

  const InvalidEmailMessage := "Please enter a valid email address."
  const EmptyNameMessage := "Full name cannot be empty."
  const EmptyMessageMessage := "Message cannot be empty."

  /** The object the validator returns: `{isValid: true}` or `{isValid: false, message}`. */
  datatype Verdict = Verdict(isValid: bool, message: Option<string>)

  /** One character of the class `[^\s@]`. */
  predicate PatternChar(c: char)
  {
    !IsWhiteSpace(c) && c != '@'
  }

  /** A match of `[^\s@]+`. */
  predicate PatternRun(s: string)
  {
    |s| > 0 && forall i :: 0 <= i < |s| ==> PatternChar(s[i])
  }

  /**
   * What `/^[^\s@]+@[^\s@]+\.[^\s@]+$/` matches: the whole string splits as
   * run, `@`, run, `.`, run.
   */
  ghost predicate MatchesEmailRegex(s: string)
  {
    exists at, dot :: 0 <= at < dot < |s| && s[at] == '@' && s[dot] == '.' &&
      PatternRun(s[..at]) && PatternRun(s[at + 1..dot]) && PatternRun(s[dot + 1..])
  }

  /**
   * The same language described field by field: exactly one `@`; before it a
   * non-empty part without whitespace; after it a part with no whitespace and
   * no `@` that holds a `.` which is neither its first nor its last character.
   */
  predicate HasEmailShape(s: string)
  {
    && multiset(s)['@'] == 1
    && var at := LastIndexOf(s, '@');
       && 0 < at
       && NoWhiteSpace(s[..at])
       && NoWhiteSpace(s[at + 1..]) && '@' !in s[at + 1..]
       && exists j :: at + 1 < j < |s| - 1 && s[j] == '.'
  }

  lemma EmailRegexShape(s: string)
    ensures MatchesEmailRegex(s) <==> HasEmailShape(s)
  {
    if MatchesEmailRegex(s) {
      var at, dot :| 0 <= at < dot < |s| && s[at] == '@' && s[dot] == '.' &&
        PatternRun(s[..at]) && PatternRun(s[at + 1..dot]) && PatternRun(s[dot + 1..]);
      RegexSplitHasShape(s, at, dot);
    }
    if HasEmailShape(s) {
      ShapeHasRegexSplit(s);
    }
  }

  lemma RegexSplitHasShape(s: string, at: nat, dot: nat)
    requires at < dot < |s| && s[at] == '@' && s[dot] == '.'
    requires PatternRun(s[..at]) && PatternRun(s[at + 1..dot]) && PatternRun(s[dot + 1..])
    ensures HasEmailShape(s)
  {
    var domain := s[at + 1..];
    assert domain == s[at + 1..dot] + [s[dot]] + s[dot + 1..];
    assert '@' !in s[..at];
    assert '@' !in domain;
    assert s == s[..at] + [s[at]] + domain;
    assert multiset(s)['@'] == 1;
    assert LastIndexOf(s, '@') == at;
    assert NoWhiteSpace(domain);
  }

  lemma ShapeHasRegexSplit(s: string)
    requires HasEmailShape(s)
    ensures MatchesEmailRegex(s)
  {
    var at := LastIndexOf(s, '@');
    var dot :| at + 1 < dot < |s| - 1 && s[dot] == '.';
    LocalIsRun(s, at);
    DomainRuns(s, at, dot);
    assert 0 <= at < dot < |s| && s[at] == '@' && s[dot] == '.' &&
      PatternRun(s[..at]) && PatternRun(s[at + 1..dot]) && PatternRun(s[dot + 1..]);
  }

  /** With a single `@`, the part before it is a run of the pattern's class. */
  lemma LocalIsRun(s: string, at: int)
    requires multiset(s)['@'] == 1 && at == LastIndexOf(s, '@') && 0 < at
    requires NoWhiteSpace(s[..at])
    ensures PatternRun(s[..at])
  {
    var local, domain := s[..at], s[at + 1..];
    assert s == local + [s[at]] + domain;
    assert '@' !in local by {
      assert multiset(s)['@'] == multiset(local)['@'] + 1 + multiset(domain)['@'];
    }
    SliceIsRun(local, 0, at);
    assert local[0..at] == local;
  }

  /** The parts of the domain around a `.` inside it are runs of the pattern's class. */
  lemma DomainRuns(s: string, at: int, dot: int)
    requires 0 <= at && at + 1 < dot < |s| - 1
    requires NoWhiteSpace(s[at + 1..]) && '@' !in s[at + 1..]
    ensures PatternRun(s[at + 1..dot]) && PatternRun(s[dot + 1..])
  {
    var domain := s[at + 1..];
    SliceIsRun(domain, 0, dot - at - 1);
    assert domain[0..dot - at - 1] == s[at + 1..dot];
    SliceIsRun(domain, dot - at, |domain|);
    assert domain[dot - at..|domain|] == s[dot + 1..];
  }

  lemma SliceIsRun(d: string, lo: nat, hi: nat)
    requires lo < hi <= |d| && NoWhiteSpace(d) && '@' !in d
    ensures PatternRun(d[lo..hi])
  {
    forall i | 0 <= i < hi - lo
      ensures PatternChar(d[lo..hi][i])
    {
      assert d[lo..hi][i] == d[lo + i];
      assert d[lo + i] in d;
    }
  }

  /** `emailRegex.test(email)`, the pattern test that opens `validateForm`. */
  function EmailRegexTest(email: string): (matches: bool)
    ensures matches <==> MatchesEmailRegex(email)
  {
    EmailRegexShape(email);
    HasEmailShape(email)
  }

  /** `validateForm`'s second email check, for `@` and `.`, cannot reject what the pattern accepted. */
  lemma SecondEmailCheckRedundant(email: string)
    requires MatchesEmailRegex(email)
    ensures '@' in email && '.' in email
  {
    var at, dot :| 0 <= at < dot < |email| && email[at] == '@' && email[dot] == '.' &&
      PatternRun(email[..at]) && PatternRun(email[at + 1..dot]) && PatternRun(email[dot + 1..]);
    assert email[at] in email && email[dot] in email;
  }

  function Invalid(message: string): Verdict
  {
    Verdict(false, Some(message))
  }

  /** `validateForm({enteredEmail, enteredFullName, enteredMessage})`. */
  function ValidateForm(email: string, fullName: string, message: string): (verdict: Verdict)
    ensures verdict.isValid <==> verdict.message.None?
    ensures verdict.message.Some? ==> verdict.message.value != ""
    ensures verdict.isValid <==> MatchesEmailRegex(email) && !Blank(fullName) && !Blank(message)
    ensures !MatchesEmailRegex(email) ==> verdict == Invalid(InvalidEmailMessage)
    ensures MatchesEmailRegex(email) && Blank(fullName) ==> verdict == Invalid(EmptyNameMessage)
    ensures MatchesEmailRegex(email) && !Blank(fullName) && Blank(message) ==>
              verdict == Invalid(EmptyMessageMessage)
  {
    if !EmailRegexTest(email) then Invalid(InvalidEmailMessage)
    else if (SecondEmailCheckRedundant(email); '@' !in email || '.' !in email) then
      Invalid(InvalidEmailMessage)
    else if |Trim(fullName)| == 0 then Invalid(EmptyNameMessage)
    else if |Trim(message)| == 0 then Invalid(EmptyMessageMessage)
    else Verdict(true, None)
  }

  /** Examples: one accepted triple, and one malformed email rejected whatever comes with it. */
  lemma ValidateFormAcceptsExample()
    ensures ValidateForm("a@b.co", "X", "hi") == Verdict(true, None)
  {
    WellShapedExample();
    NotBlankExamples();
  }

  lemma ValidateFormRejectsExamples(fullName: string, message: string)
    ensures ValidateForm("bad", fullName, message) == Invalid(InvalidEmailMessage)
  {
    RejectsBadEmail();
  }

  lemma RejectsBadEmail()
    ensures !MatchesEmailRegex("bad")
  {
    assert '@' !in "bad";
    EmailRegexShape("bad");
  }

  lemma WellShapedExample()
    ensures HasEmailShape("a@b.co")
  {
    var s := "a@b.co";
    assert s[..1] == "a" && s[2..3] == "b" && s[4..] == "co";
    assert PatternRun("a") && PatternRun("b") && PatternRun("co");
    RegexSplitHasShape(s, 1, 3);
  }

  lemma NotBlankExamples()
    ensures !Blank("X") && !Blank("hi")
  {
    assert !IsWhiteSpace("X"[0]) && !IsWhiteSpace("hi"[0]);
  }
}
