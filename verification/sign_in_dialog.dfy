/** The magic-code sign-in dialog (components/SignInDialog.tsx): an e-mail
    step and a code step. The two auth calls are not modelled; each handler
    receives the outcome the call would have had and returns the request it
    made, so the dialog is a pure state machine. */
module SignInDialog {
  import opened Wrappers
  import opened JsString

  /** A non-empty run of characters that are neither whitespace nor "@":
      the class `[^\s@]+` of the e-mail pattern. */
  predicate Plain(s: string) {
    |s| > 0 && forall k :: 0 <= k < |s| ==> !IsWhitespace(s[k]) && s[k] != '@'
  }

  /** The anchored pattern `[^\s@]+@[^\s@]+\.[^\s@]+`: the string splits at an
      "@" at `a` and a later "." at `d` into three plain runs. */
  predicate MatchesEmailPattern(s: string) {
    exists a, d :: 0 < a && a + 1 < d && d + 1 < |s| && s[a] == '@' && s[d] == '.'
      && Plain(s[..a]) && Plain(s[a + 1..d]) && Plain(s[d + 1..])
  }

  /** The same test decided directly: no whitespace, a non-empty local part
      before the first "@", no other "@", and a "." in the domain that is
      neither its first nor its last character. */
  function IsValidEmail(s: string): (r: bool)
    ensures r ==> '@' in s && |s| >= 5
  {
    var local := BeforeFirst(s, '@');
    && (forall k :: 0 <= k < |s| ==> !IsWhitespace(s[k]))
    && 0 < |local| < |s|
    && var domain := s[|local| + 1..];
       && '@' !in domain && |domain| >= 3 && '.' in domain[1..|domain| - 1]
  }

  /** The direct test decides the pattern: both directions. */
  lemma ValidEmailIffPattern(s: string)
    ensures IsValidEmail(s) <==> MatchesEmailPattern(s)
  {
    if IsValidEmail(s) { ValidEmailMatches(s); }
    if MatchesEmailPattern(s) { MatchIsValidEmail(s); }
  }

  lemma ValidEmailMatches(s: string)
    requires IsValidEmail(s)
    ensures MatchesEmailPattern(s)
  {
    var a := |BeforeFirst(s, '@')|;
    OnlyOneAt(s);
    var domain := s[a + 1..];
    var mid := domain[1..|domain| - 1];
    var j :| 0 <= j < |mid| && mid[j] == '.';
    var d := a + 2 + j;
    assert mid[j] == domain[j + 1] == s[a + 1 + (j + 1)];
    PlainSlice(s, 0, a);
    PlainSlice(s, a + 1, d);
    PlainSlice(s, d + 1, |s|);
    PatternAt(s, a, d);
  }

  /** An "@" at `a` and a "." at `d` with plain runs around them match. */
  lemma PatternAt(s: string, a: int, d: int)
    requires 0 < a && a + 1 < d && d + 1 < |s| && s[a] == '@' && s[d] == '.'
    requires Plain(s[0..a]) && Plain(s[a + 1..d]) && Plain(s[d + 1..|s|])
    ensures MatchesEmailPattern(s)
  {
    assert s[..a] == s[0..a] && s[d + 1..] == s[d + 1..|s|];
  }

  /** A valid address has its first "@" after a non-empty local part, and no
      other "@" and no whitespace anywhere. */
  lemma OnlyOneAt(s: string)
    requires IsValidEmail(s)
    ensures var a := |BeforeFirst(s, '@')|;
      && 0 < a && a + 3 < |s| && s[a] == '@'
      && (forall k :: 0 <= k < |s| ==> !IsWhitespace(s[k]))
      && (forall k :: 0 <= k < |s| && k != a ==> s[k] != '@')
  {
    var local := BeforeFirst(s, '@');
    var a := |local|;
    var domain := s[a + 1..];
    forall k | 0 <= k < |s| && k != a ensures s[k] != '@' {
      if k < a { assert s[k] == local[k]; }
      else { assert s[k] == domain[k - a - 1]; }
    }
  }

  /** A non-empty slice free of whitespace and "@" is a plain run. */
  lemma PlainSlice(s: string, lo: int, hi: int)
    requires 0 <= lo < hi <= |s|
    requires forall k :: lo <= k < hi ==> !IsWhitespace(s[k]) && s[k] != '@'
    ensures Plain(s[lo..hi])
  {
    forall k | 0 <= k < hi - lo ensures !IsWhitespace(s[lo..hi][k]) && s[lo..hi][k] != '@' {
      assert s[lo..hi][k] == s[lo + k];
    }
  }

  lemma MatchIsValidEmail(s: string)
    requires MatchesEmailPattern(s)
    ensures IsValidEmail(s)
  {
    var a, d :| 0 < a && a + 1 < d && d + 1 < |s| && s[a] == '@' && s[d] == '.'
      && Plain(s[..a]) && Plain(s[a + 1..d]) && Plain(s[d + 1..]);
    PlainSplit(s, a, d);
    DomainAfter(s, a, d);
    ValidFromSplit(s, a);
  }

  /** The direct test passes once the only "@" is at `a > 0`, nothing is
      whitespace, and the domain after it has the required shape. */
  lemma ValidFromSplit(s: string, a: int)
    requires 0 < a < |s| && s[a] == '@'
    requires forall k :: 0 <= k < |s| ==> !IsWhitespace(s[k])
    requires forall k :: 0 <= k < a ==> s[k] != '@'
    requires var domain := s[a + 1..];
      '@' !in domain && |domain| >= 3 && '.' in domain[1..|domain| - 1]
    ensures IsValidEmail(s)
  {
    assert '@' !in s[..a] by {
      forall k | 0 <= k < a ensures s[..a][k] != '@' { assert s[..a][k] == s[k]; }
    }
    assert |BeforeFirst(s, '@')| == a;
  }

  /** After the only "@" there are at least three characters, no "@", and a
      "." that is neither the first nor the last of them. */
  lemma DomainAfter(s: string, a: int, d: int)
    requires 0 < a && a + 1 < d && d + 1 < |s| && s[d] == '.'
    requires forall k :: 0 <= k < |s| && k != a ==> s[k] != '@'
    ensures var domain := s[a + 1..];
      '@' !in domain && |domain| >= 3 && '.' in domain[1..|domain| - 1]
  {
    var domain := s[a + 1..];
    forall k | 0 <= k < |domain| ensures domain[k] != '@' {
      assert domain[k] == s[a + 1 + k];
    }
    assert domain[1..|domain| - 1][d - a - 2] == '.';
  }

  /** Where the three runs lie: no whitespace anywhere and "@" only at `a`. */
  lemma PlainSplit(s: string, a: int, d: int)
    requires 0 < a && a + 1 < d && d + 1 < |s| && s[a] == '@' && s[d] == '.'
    requires Plain(s[..a]) && Plain(s[a + 1..d]) && Plain(s[d + 1..])
    ensures forall k :: 0 <= k < |s| ==> !IsWhitespace(s[k])
    ensures forall k :: 0 <= k < |s| && k != a ==> s[k] != '@'
  {
    forall k | 0 <= k < |s| ensures !IsWhitespace(s[k]) && (k != a ==> s[k] != '@') {
      if k < a { assert s[k] == s[..a][k]; }
      else if a < k < d { assert s[k] == s[a + 1..d][k - a - 1]; }
      else if k > d { assert s[k] == s[d + 1..][k - d - 1]; }
    }
  }

  /** `email.trim().toLowerCase()`. */
  function Normalise(email: string): (r: string)
    ensures |r| <= |email|
    ensures r == [] || (!IsWhitespace(r[0]) && !IsWhitespace(r[|r| - 1]))
    ensures forall i :: 0 <= i < |r| ==> !('A' <= r[i] <= 'Z')
  {
    var t := Trim(email);
    ToLowerTwice(t);
    ToLower(t)
  }

  /** A normalised address is already normal: sending twice from the same
      input sends the same address. */
  lemma NormaliseIdempotent(email: string)
    ensures Normalise(Normalise(email)) == Normalise(email)
  {
    var t := Trim(email);
    ToLowerTwice(t);
    TrimTrimmed(ToLower(t));
  }

  datatype Step = EmailStep | CodeStep

  datatype Dialog = Dialog(
    step: Step,
    email: string,
    sentEmail: string,
    code: string,
    error: string,
    isSending: bool,
    isVerifying: bool)

  const InvalidEmailError: string := "Enter a valid email address."
  const SendFailedError: string := "Unable to send the magic code."
  const EmptyCodeError: string := "Enter the code you received."
  const VerifyFailedError: string := "Unable to verify the code."

  /** The effect that runs when the dialog opens: back to an empty e-mail
      step; the two busy flags are not touched. */
  function Open(d: Dialog): (r: Dialog)
    ensures r.step == EmailStep && r.email == "" && r.sentEmail == "" && r.code == "" && r.error == ""
    ensures r.isSending == d.isSending && r.isVerifying == d.isVerifying
  {
    d.(step := EmailStep, email := "", sentEmail := "", code := "", error := "")
  }

  /** What an auth call did: succeeded, or threw with a body message ("" when
      the error has none). */
  datatype Outcome = Succeeded | Failed(message: string)

  /** A handler's result: the new state and the call it made, if any. */
  datatype SendResult = SendResult(dialog: Dialog, sentTo: Option<string>)

  /** `handleSendCode`: an address failing the pattern is refused without a
      call; otherwise the code is requested for the normalised address, and
      on success that address is remembered and the code step shown. */
  function SendCode(d: Dialog, outcome: Outcome): (r: SendResult)
    ensures !IsValidEmail(Normalise(d.email)) ==>
      r.sentTo.None? && r.dialog == d.(error := InvalidEmailError)
    ensures IsValidEmail(Normalise(d.email)) ==>
      r.sentTo == Some(Normalise(d.email)) && !r.dialog.isSending
      && r.dialog.email == d.email && r.dialog.code == d.code && r.dialog.isVerifying == d.isVerifying
    ensures IsValidEmail(Normalise(d.email)) && outcome.Succeeded? ==>
      r.dialog.step == CodeStep && r.dialog.sentEmail == Normalise(d.email) && r.dialog.error == ""
    ensures IsValidEmail(Normalise(d.email)) && outcome.Failed? ==>
      r.dialog.step == d.step && r.dialog.sentEmail == d.sentEmail
      && r.dialog.error == Or(outcome.message, SendFailedError) && r.dialog.error != ""
  {
    var trimmed := Normalise(d.email);
    if !IsValidEmail(trimmed) then SendResult(d.(error := InvalidEmailError), None)
    else SendResult(Sending(d, trimmed, outcome), Some(trimmed))
  }

  /** The `try`/`catch`/`finally` of `handleSendCode` once `address` passed
      the pattern. */
  function Sending(d: Dialog, address: string, outcome: Outcome): (r: Dialog)
    ensures !r.isSending && r.email == d.email && r.code == d.code && r.isVerifying == d.isVerifying
    ensures outcome.Succeeded? ==> r.step == CodeStep && r.sentEmail == address && r.error == ""
    ensures outcome.Failed? ==>
      r.step == d.step && r.sentEmail == d.sentEmail
      && r.error == Or(outcome.message, SendFailedError) && r.error != ""
    ensures r == d.(step := r.step, sentEmail := r.sentEmail, error := r.error, isSending := false)
  {
    var busy := d.(isSending := true, error := "");
    var after :=
      if outcome.Succeeded? then busy.(sentEmail := address, step := CodeStep)
      else busy.(error := Or(outcome.message, SendFailedError));
    after.(isSending := false)
  }

  /** The sign-in call: the address and the trimmed code. */
  datatype Verification = Verification(email: string, code: string)

  datatype VerifyResult = VerifyResult(dialog: Dialog, call: Option<Verification>, signedIn: Option<string>, closed: bool)

  /** `handleVerifyCode`: a blank code is refused without a call; otherwise
      the code is checked against the remembered address (or, when none is
      remembered, the normalised input) and on success the user is signed
      in under that address and the dialog closes. */
  function VerifyCode(d: Dialog, outcome: Outcome): (r: VerifyResult)
    ensures Trim(d.code) == "" ==>
      r.call.None? && r.signedIn.None? && !r.closed && r.dialog == d.(error := EmptyCodeError)
    ensures Trim(d.code) != "" ==>
      r.call == Some(Verification(Or(d.sentEmail, Normalise(d.email)), Trim(d.code)))
      && !r.dialog.isVerifying && r.dialog.step == d.step && r.dialog.sentEmail == d.sentEmail
      && r.dialog == d.(error := r.dialog.error, isVerifying := false)
    ensures Trim(d.code) != "" && outcome.Succeeded? ==>
      r.signedIn == Some(r.call.value.email) && r.closed && r.dialog.error == ""
    ensures Trim(d.code) != "" && outcome.Failed? ==>
      r.signedIn.None? && !r.closed && r.dialog.error == Or(outcome.message, VerifyFailedError)
  {
    var trimmedCode := Trim(d.code);
    if trimmedCode == "" then VerifyResult(d.(error := EmptyCodeError), None, None, false)
    else
      var email := Or(d.sentEmail, Normalise(d.email));
      var busy := d.(isVerifying := true, error := "");
      match outcome
      case Succeeded =>
        VerifyResult(busy.(isVerifying := false), Some(Verification(email, trimmedCode)), Some(email), true)
      case Failed(message) =>
        VerifyResult(busy.(error := Or(message, VerifyFailedError), isVerifying := false),
                     Some(Verification(email, trimmedCode)), None, false)
  }

  /** "Change email": back to the e-mail step, keeping everything else. */
  function ChangeEmail(d: Dialog): (r: Dialog)
    ensures r.step == EmailStep && r == d.(step := EmailStep)
  {
    d.(step := EmailStep)
  }

  /** What the user or the parent does to the dialog. */
  datatype Event =
    | OpenEvent
    | TypeEmailEvent(email: string)
    | TypeCodeEvent(code: string)
    | SendCodeEvent(outcome: Outcome)
    | VerifyCodeEvent(outcome: Outcome)
    | ChangeEmailEvent

  function Dispatch(d: Dialog, ev: Event): Dialog {
    match ev
    case OpenEvent => Open(d)
    case TypeEmailEvent(email) => d.(email := email)
    case TypeCodeEvent(code) => d.(code := code)
    case SendCodeEvent(outcome) => SendCode(d, outcome).dialog
    case VerifyCodeEvent(outcome) => VerifyCode(d, outcome).dialog
    case ChangeEmailEvent => ChangeEmail(d)
  }

  /** The remembered address is empty or one that passed the pattern, and
      the code step is shown only once an address is remembered. */
  predicate Consistent(d: Dialog) {
    && (d.sentEmail == "" || MatchesEmailPattern(d.sentEmail))
    && (d.step == CodeStep ==> d.sentEmail != "")
  }

  lemma OpenIsConsistent(d: Dialog)
    ensures Consistent(Open(d))
  {
  }

  /** Sending a code remembers only an address that passed the pattern, and
      shows the code step only after remembering it. */
  lemma SendCodeKeepsConsistent(d: Dialog, outcome: Outcome)
    requires Consistent(d)
    ensures Consistent(SendCode(d, outcome).dialog)
  {
    var r := SendCode(d, outcome).dialog;
    if IsValidEmail(Normalise(d.email)) {
      if outcome.Succeeded? {
        ValidEmailIffPattern(Normalise(d.email));
        assert r.sentEmail == Normalise(d.email);
      } else {
        assert r.sentEmail == d.sentEmail && r.step == d.step;
      }
    } else {
      assert r.sentEmail == d.sentEmail && r.step == d.step;
    }
  }

  /** Every event keeps the dialog consistent. */
  lemma DispatchKeepsConsistent(d: Dialog, ev: Event)
    requires Consistent(d)
    ensures Consistent(Dispatch(d, ev))
  {
    match ev
    case SendCodeEvent(outcome) => SendCodeKeepsConsistent(d, outcome);
    case VerifyCodeEvent(outcome) =>
      assert VerifyCode(d, outcome).dialog.sentEmail == d.sentEmail;
      assert VerifyCode(d, outcome).dialog.step == d.step;
    case _ =>
  }

  /** In the code step of a consistent dialog the code is always checked
      against the address it was sent to, never the e-mail field. */
  lemma CodeStepVerifiesSentAddress(d: Dialog, outcome: Outcome)
    requires Consistent(d) && d.step == CodeStep && Trim(d.code) != ""
    ensures VerifyCode(d, outcome).call.value.email == d.sentEmail
    ensures MatchesEmailPattern(VerifyCode(d, outcome).call.value.email)
  {
  }
}
