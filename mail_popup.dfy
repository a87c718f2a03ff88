/**
 * The footer's mailing-list popup: its two field validators and the form
 * state that its four event handlers update.
 */
module MailPopup {
  import opened JsValues

  // ---------------------------------------------------------------------------
  // Field validators
  // ---------------------------------------------------------------------------

  /**
   * The characters matched by `\s` in an ECMAScript regular expression: the
   * WhiteSpace code points (tab, vertical tab, form feed, space, no-break
   * space, byte order mark and the other space separators) and the
   * LineTerminator code points.
   */
  predicate IsWs(c: char)
  {
    || c == '\t' || c == '\U{000B}' || c == '\U{000C}' || c == ' '
    || c == '\U{00A0}' || c == '\U{FEFF}' || c == '\U{1680}'
    || ('\U{2000}' <= c <= '\U{200A}')
    || c == '\U{202F}' || c == '\U{205F}' || c == '\U{3000}'
    || c == '\n' || c == '\r' || c == '\U{2028}' || c == '\U{2029}'
  }

  /** The character class `[^\s@]`. Note that '.' belongs to it. */
  predicate Plain(c: char)
  {
    !IsWs(c) && c != '@'
  }

  /** Every character of `s` is in `[^\s@]`, so `s` matches `[^\s@]*`. */
  ghost predicate AllPlain(s: string)
  {
    forall k :: 0 <= k < |s| ==> Plain(s[k])
  }

  /** `d` matches `[^\s@]+\.[^\s@]+`: it splits at some dot into two non-empty plain runs. */
  ghost predicate DomainPattern(d: string)
  {
    exists j :: 0 < j < |d| - 1 && d[j] == '.' && AllPlain(d[..j]) && AllPlain(d[j + 1..])
  }

  /** `s` matches `^[^\s@]+@[^\s@]+\.[^\s@]+$`: a non-empty plain local part, '@', then a domain. */
  ghost predicate EmailPattern(s: string)
  {
    exists i :: 0 < i < |s| && s[i] == '@' && AllPlain(s[..i]) && DomainPattern(s[i + 1..])
  }

  /**
   * The same language described by its parts: no whitespace, exactly one '@',
   * which is not the first character, and after it a '.' that is neither the
   * first nor the last character of the part after the '@'.
   */
  ghost predicate EmailShape(s: string)
  {
    && (forall k :: 0 <= k < |s| ==> !IsWs(s[k]))
    && exists i :: 0 < i < |s| && s[i] == '@'
         && (forall k :: 0 <= k < |s| && s[k] == '@' ==> k == i)
         && exists d :: i + 1 < d < |s| - 1 && s[d] == '.'
  }

  /** The states of a deterministic automaton for the email pattern. */
  datatype Phase =
    | Start     // nothing read
    | Local     // one or more characters of the local part read
    | AtSign    // the '@' has just been read
    | Host      // domain characters read, no usable separating dot yet
    | Dot       // a separating dot has just been read
    | Suffix    // at least one character after the separating dot: accepting
    | Dead      // no continuation can match

  function Step(p: Phase, c: char): Phase
  {
    match p
    case Start => if Plain(c) then Local else Dead
    case Local => if c == '@' then AtSign else if Plain(c) then Local else Dead
    case AtSign => if Plain(c) then Host else Dead
    case Host => if c == '.' then Dot else if Plain(c) then Host else Dead
    case Dot => if Plain(c) then Suffix else Dead
    case Suffix => if Plain(c) then Suffix else Dead
    case Dead => Dead
  }

  function Run(p: Phase, w: string): Phase
    decreases |w|
  {
    if |w| == 0 then p else Run(Step(p, w[0]), w[1..])
  }

  /** `emailIsValid`: the regular-expression test, run as the automaton above. */
  function EmailIsValid(email: string): (valid: bool)
    ensures valid <==> EmailPattern(email)
  {
    RunFromStart(email);
    Run(Start, email) == Suffix
  }

  /** `nameIsValid`: a first name is accepted exactly when it is not empty. */
  predicate NameIsValid(name: string): (valid: bool)
    ensures valid <==> name != ""
  {
    |name| > 0
  }

  // ---------------------------------------------------------------------------
  // The automaton recognises exactly the pattern
  // ---------------------------------------------------------------------------

  lemma {:induction false} AllPlainTail(w: string)
    requires |w| > 0
    ensures AllPlain(w) <==> Plain(w[0]) && AllPlain(w[1..])
  {
    if Plain(w[0]) && AllPlain(w[1..]) {
      forall k | 0 <= k < |w| ensures Plain(w[k]) {
        if k > 0 { assert w[k] == w[1..][k - 1]; }
      }
    }
  }

  lemma {:induction false} AllPlainSplit(d: string, j: int)
    requires 0 <= j < |d| && Plain(d[j])
    ensures AllPlain(d) <==> AllPlain(d[..j]) && AllPlain(d[j + 1..])
  {
    if AllPlain(d[..j]) && AllPlain(d[j + 1..]) {
      forall k | 0 <= k < |d| ensures Plain(d[k]) {
        if k < j { assert d[k] == d[..j][k]; }
        else if k > j { assert d[k] == d[j + 1..][k - j - 1]; }
      }
    }
  }

  lemma {:induction false} RunDead(w: string)
    ensures Run(Dead, w) == Dead
    decreases |w|
  {
    if |w| > 0 { RunDead(w[1..]); }
  }

  lemma {:induction false} RunSuffix(w: string)
    ensures Run(Suffix, w) == Suffix <==> AllPlain(w)
    decreases |w|
  {
    if |w| > 0 {
      AllPlainTail(w);
      if Plain(w[0]) { RunSuffix(w[1..]); } else { RunDead(w[1..]); }
    }
  }

  lemma {:induction false} RunDot(w: string)
    ensures Run(Dot, w) == Suffix <==> |w| > 0 && AllPlain(w)
  {
    if |w| > 0 {
      AllPlainTail(w);
      if Plain(w[0]) { RunSuffix(w[1..]); } else { RunDead(w[1..]); }
    }
  }

  lemma {:induction false} RunHost(w: string)
    ensures Run(Host, w) == Suffix <==>
      AllPlain(w) && exists j :: 0 <= j < |w| - 1 && w[j] == '.'
    decreases |w|
  {
    if |w| > 0 {
      AllPlainTail(w);
      var t := w[1..];
      if w[0] == '.' {
        RunDot(t);
      } else if Plain(w[0]) {
        RunHost(t);
        if exists j :: 0 <= j < |w| - 1 && w[j] == '.' {
          var j :| 0 <= j < |w| - 1 && w[j] == '.';
          assert t[j - 1] == '.';
        }
        if exists j :: 0 <= j < |t| - 1 && t[j] == '.' {
          var j :| 0 <= j < |t| - 1 && t[j] == '.';
          assert w[j + 1] == '.';
        }
      } else {
        RunDead(t);
      }
    }
  }

  lemma {:induction false} RunAtSign(d: string)
    ensures Run(AtSign, d) == Suffix <==> DomainPattern(d)
  {
    if |d| > 0 {
      var t := d[1..];
      if Plain(d[0]) {
        RunHost(t);
        AllPlainTail(d);
        if DomainPattern(d) {
          var j :| 0 < j < |d| - 1 && d[j] == '.' && AllPlain(d[..j]) && AllPlain(d[j + 1..]);
          AllPlainSplit(d, j);
          assert t[j - 1] == '.';
        }
        if Run(AtSign, d) == Suffix {
          var j :| 0 <= j < |t| - 1 && t[j] == '.';
          assert d[j + 1] == '.';
          AllPlainSplit(d, j + 1);
        }
      } else {
        RunDead(t);
      }
    } else {
      assert !DomainPattern(d);
    }
  }

  /** The tail of a string split at an '@' which follows a plain local part. */
  ghost predicate LocalThenDomain(w: string, i: int)
  {
    0 <= i < |w| && w[i] == '@' && AllPlain(w[..i]) && DomainPattern(w[i + 1..])
  }

  lemma {:induction false} ShiftLocal(w: string, i: int)
    requires |w| > 0 && Plain(w[0]) && 0 <= i < |w| - 1
    ensures LocalThenDomain(w, i + 1) <==> LocalThenDomain(w[1..], i)
  {
    var t := w[1..];
    assert w[i + 1] == t[i];
    assert w[i + 2..] == t[i + 1..];
    assert w[..i + 1][1..] == t[..i];
    AllPlainTail(w[..i + 1]);
  }

  lemma {:induction false} RunLocal(w: string)
    ensures Run(Local, w) == Suffix <==> exists i :: LocalThenDomain(w, i)
    decreases |w|
  {
    if |w| == 0 {
      assert forall i :: !LocalThenDomain(w, i);
    } else {
      var t := w[1..];
      if w[0] == '@' {
        RunAtSign(t);
        assert DomainPattern(t) ==> LocalThenDomain(w, 0);
      } else if Plain(w[0]) {
        RunLocal(t);
        if exists i :: LocalThenDomain(w, i) {
          var i :| LocalThenDomain(w, i);
          assert i > 0;
          ShiftLocal(w, i - 1);
        }
        if exists i :: LocalThenDomain(t, i) {
          var i :| LocalThenDomain(t, i);
          ShiftLocal(w, i);
        }
      } else {
        RunDead(t);
      }
    }
  }

  /** The automaton accepts a string exactly when the regular expression matches it. */
  lemma {:induction false} RunFromStart(s: string)
    ensures Run(Start, s) == Suffix <==> EmailPattern(s)
  {
    if |s| == 0 {
      assert !EmailPattern(s);
    } else {
      var t := s[1..];
      if Plain(s[0]) {
        RunLocal(t);
        if EmailPattern(s) {
          var i :| 0 < i < |s| && s[i] == '@' && AllPlain(s[..i]) && DomainPattern(s[i + 1..]);
          ShiftLocal(s, i - 1);
        }
        if exists i :: LocalThenDomain(t, i) {
          var i :| LocalThenDomain(t, i);
          ShiftLocal(s, i);
          assert LocalThenDomain(s, i + 1);
        }
      } else {
        RunDead(t);
      }
    }
  }

  // ---------------------------------------------------------------------------
  // What the pattern means
  // ---------------------------------------------------------------------------

  /** Every character other than the one at `i` is in `[^\s@]`. */
  ghost predicate PlainExceptAt(s: string, i: int)
  {
    forall k :: 0 <= k < |s| && k != i ==> Plain(s[k])
  }

  lemma {:induction false} PatternPlainExceptAt(s: string, i: int, j: int)
    requires 0 < i < |s| && s[i] == '@' && AllPlain(s[..i])
    requires 0 < j < |s[i + 1..]| - 1 && s[i + 1..][j] == '.'
    requires AllPlain(s[i + 1..][..j]) && AllPlain(s[i + 1..][j + 1..])
    ensures PlainExceptAt(s, i)
  {
    var d := s[i + 1..];
    AllPlainSplit(d, j);
    forall k | 0 <= k < |s| && k != i ensures Plain(s[k]) {
      if k < i { assert s[k] == s[..i][k]; }
      else { assert s[k] == d[k - i - 1]; }
    }
  }

  lemma {:induction false} ShapePlainExceptAt(s: string, i: int)
    requires 0 <= i < |s| && PlainExceptAt(s, i)
    ensures AllPlain(s[..i]) && AllPlain(s[i + 1..])
  {
    forall k | 0 <= k < i ensures Plain(s[..i][k]) { assert s[..i][k] == s[k]; }
    var t := s[i + 1..];
    forall k | 0 <= k < |t| ensures Plain(t[k]) { assert t[k] == s[k + i + 1]; }
  }

  lemma {:induction false} PatternHasShape(s: string)
    requires EmailPattern(s)
    ensures EmailShape(s)
  {
    var i :| 0 < i < |s| && s[i] == '@' && AllPlain(s[..i]) && DomainPattern(s[i + 1..]);
    var d := s[i + 1..];
    var j :| 0 < j < |d| - 1 && d[j] == '.' && AllPlain(d[..j]) && AllPlain(d[j + 1..]);
    PatternPlainExceptAt(s, i, j);
    assert s[i + 1 + j] == '.';
  }

  lemma {:induction false} ShapeHasPattern(s: string)
    requires EmailShape(s)
    ensures EmailPattern(s)
  {
    var i :| 0 < i < |s| && s[i] == '@'
      && (forall k :: 0 <= k < |s| && s[k] == '@' ==> k == i)
      && exists d :: i + 1 < d < |s| - 1 && s[d] == '.';
    var e :| i + 1 < e < |s| - 1 && s[e] == '.';
    assert PlainExceptAt(s, i);
    ShapePlainExceptAt(s, i);
    var d := s[i + 1..];
    var j := e - i - 1;
    assert d[j] == '.';
    AllPlainSplit(d, j);
  }

  /**
   * An address passes `emailIsValid` exactly when it has no whitespace, exactly
   * one '@' with something before it, and after the '@' a '.' that is neither
   * the first nor the last character there.
   */
  lemma {:induction false} EmailIsValidShape(s: string)
    ensures EmailIsValid(s) <==> EmailShape(s)
  {
    if EmailPattern(s) { PatternHasShape(s); }
    if EmailShape(s) { ShapeHasPattern(s); }
  }

  /** An address without '@' or without '.' never passes, and neither does the empty string. */
  lemma {:induction false} EmailNeedsAtAndDot(s: string)
    requires '@' !in s || '.' !in s
    ensures !EmailIsValid(s)
  {
    EmailIsValidShape(s);
  }

  /** Both validators reject an empty field. */
  lemma ValidatorsRejectEmpty()
    ensures !EmailIsValid("") && !NameIsValid("")
  {
  }

  /** Any non-empty plain local part, domain label and suffix form a valid address. */
  lemma {:induction false} LocalAtDomainDotSuffix(local: string, domain: string, suffix: string)
    requires |local| > 0 && |domain| > 0 && |suffix| > 0
    requires AllPlain(local) && AllPlain(domain) && AllPlain(suffix)
    ensures EmailIsValid(local + "@" + domain + "." + suffix)
  {
    var s := local + "@" + domain + "." + suffix;
    var d := domain + "." + suffix;
    assert s[..|local|] == local;
    assert s[|local| + 1..] == d;
    assert d[..|domain|] == domain;
    assert d[|domain| + 1..] == suffix;
  }

  /** Two sample addresses: a well-formed one and one without '@'. */
  lemma SampleAddresses()
    ensures EmailIsValid("jane@example.com")
    ensures !EmailIsValid("not-an-email")
  {
    assert AllPlain("jane");
    LocalAtDomainDotSuffix("jane", "example", "com");
    assert "jane" + "@" + "example" + "." + "com" == "jane@example.com";
    EmailNeedsAtAndDot("not-an-email");
  }

  // ---------------------------------------------------------------------------
  // Form state and its event handlers
  // ---------------------------------------------------------------------------

  /** The two translated messages that can stand under the email field. */
  datatype ErrorText = EmailEmpty | EmailIncorrect

  /** How the subscription request ended: an HTTP response, or a rejected `fetch`. */
  datatype NetworkOutcome = Response(status: int) | TransportFailure

  /** The POST issued on submit: the endpoint and the JSON body `{firstname, email, type}`. */
  datatype Request = Request(url: string, firstname: string, email: string, subscriptionType: string)

  /** What the popup body shows: the confirmation panel, or the form with its error lines. */
  datatype View =
    | SuccessPanel
    | FormPanel(firstNameErrorShown: bool, emailErrorShown: Option<ErrorText>, submitDisabled: bool)

  /**
   * The state cells of one popup instance, together with the parent's
   * `popupIsOpen` flag, which the close handler clears. The endpoint and the
   * subscription type are properties fixed for the instance.
   */
  class PopupState {
    const mailApiUrl: string
    const mailApiType: string
    var popupIsOpen: bool

    var formComplete: bool
    var email: string
    var firstName: string
    var emailError: bool
    var firstNameError: bool
    var validEmail: bool
    var validFirstName: bool
    var emailErrorText: ErrorText
    var isLoading: bool

    /** Each validity flag equals its validator applied to the current field. */
    ghost predicate Valid()
      reads this
    {
      && validEmail == EmailIsValid(email)
      && validFirstName == NameIsValid(firstName)
    }

    /** The initial state: empty fields, every flag false, the "empty" message preselected. */
    constructor (mailApiUrl: string, mailApiType: string, popupIsOpen: bool)
      ensures Valid()
      ensures this.mailApiUrl == mailApiUrl && this.mailApiType == mailApiType
      ensures this.popupIsOpen == popupIsOpen
      ensures !formComplete && email == "" && firstName == ""
      ensures !emailError && !firstNameError && !validEmail && !validFirstName
      ensures emailErrorText == EmailEmpty && !isLoading
    {
      this.mailApiUrl := mailApiUrl;
      this.mailApiType := mailApiType;
      this.popupIsOpen := popupIsOpen;
      formComplete := false;
      email := "";
      firstName := "";
      emailError := false;
      firstNameError := false;
      validEmail := false;
      validFirstName := false;
      emailErrorText := EmailEmpty;
      isLoading := false;
    }

    /** The render choice: the confirmation panel replaces the form once the form is complete. */
    function Screen(): (v: View)
      reads this
      ensures v.SuccessPanel? <==> formComplete
      ensures v.FormPanel? ==> v.firstNameErrorShown == firstNameError && v.submitDisabled == isLoading
      ensures v.FormPanel? ==> (v.emailErrorShown.Some? <==> emailError)
      ensures v.FormPanel? && emailError ==> v.emailErrorShown == Some(emailErrorText)
    {
      if formComplete then SuccessPanel
      else FormPanel(firstNameError, if emailError then Some(emailErrorText) else None, isLoading)
    }

    /** `handleEmailInput`: store the typed value and revalidate it; error flags stay as they are. */
    method HandleEmailInput(value: string)
      requires Valid()
      modifies this`email, this`validEmail
      ensures Valid()
      ensures email == value && validEmail == EmailIsValid(value)
    {
      email := value;
      validEmail := EmailIsValid(value);
    }

    /** `handleNameInput`: store the typed value and revalidate it; error flags stay as they are. */
    method HandleNameInput(value: string)
      requires Valid()
      modifies this`firstName, this`validFirstName
      ensures Valid()
      ensures firstName == value && validFirstName == NameIsValid(value)
    {
      var name := value;
      firstName := name;
      validFirstName := NameIsValid(name);
    }

    /**
     * `handleFormSubmit`: flag the invalid fields, choose the email message,
     * and, only when both stored validity flags hold, send one request whose
     * outcome is given. The request is sent and answered within this one step.
     */
    method HandleFormSubmit(outcome: NetworkOutcome) returns (request: Option<Request>)
      requires Valid()
      modifies this`emailError, this`firstNameError, this`emailErrorText, this`isLoading, this`formComplete
      ensures Valid()
      ensures emailError == (!validEmail || email == "")
      ensures firstNameError == (!validFirstName || firstName == "")
      ensures emailErrorText == (if |email| == 0 then EmailEmpty else EmailIncorrect)
      ensures request.Some? <==> validFirstName && validEmail
      ensures request.Some? ==> request.value == Request(mailApiUrl, firstName, email, mailApiType)
      ensures request.None? ==> isLoading == old(isLoading) && formComplete == old(formComplete)
      ensures request.Some? ==> !isLoading && formComplete == (old(formComplete) || outcome == Response(200))
      // what the invariant adds: the explicit emptiness checks change nothing,
      // and a sent request leaves no error line on the form
      ensures emailError == !EmailIsValid(email) && firstNameError == !NameIsValid(firstName)
      ensures request.Some? ==> !emailError && !firstNameError
      ensures Screen().SuccessPanel? ==> old(formComplete) || (request.Some? && outcome == Response(200))
    {
      emailError := !validEmail;
      firstNameError := !validFirstName;
      if firstName == "" {
        firstNameError := true;
      }
      if email == "" {
        emailError := true;
      }
      emailErrorText := if |email| == 0 then EmailEmpty else EmailIncorrect;

      if validFirstName && validEmail {
        isLoading := true;
        request := Some(Request(mailApiUrl, firstName, email, mailApiType));
        match outcome {
          case Response(status) =>
            if status == 200 {
              formComplete := true;
              isLoading := false;
            }
          case TransportFailure =>
            // the failure is only logged
        }
        isLoading := false;
      } else {
        request := None;
      }
    }

    /**
     * `handleCloseForm`: leave the confirmation panel, clear both fields with
     * their flags and errors, and ask the parent to hide the popup. The email
     * message and the loading flag are left as they are.
     */
    method HandleCloseForm()
      modifies this`formComplete, this`validEmail, this`validFirstName, this`popupIsOpen
      modifies this`email, this`firstName, this`emailError, this`firstNameError
      ensures Valid()
      ensures !formComplete && !popupIsOpen
      ensures email == "" && firstName == "" && !validEmail && !validFirstName
      ensures !emailError && !firstNameError
      ensures Screen() == FormPanel(false, None, isLoading)
    {
      if formComplete {
        formComplete := false;
      }
      validEmail := false;
      validFirstName := false;
      popupIsOpen := false;
      email := "";
      firstName := "";
      emailError := false;
      firstNameError := false;
    }
  }

  /**
   * The submission scenarios of the component, played against the contracts
   * above for any name, any accepted address and any rejected non-empty one
   * (`SampleAddresses` gives an instance of each).
   */
  method SubscriptionScenarios(url: string, listType: string, name: string, good: string, bad: string)
    requires name != "" && EmailIsValid(good) && bad != "" && !EmailIsValid(bad)
  {
    var popup := new PopupState(url, listType, true);

    // nothing typed: both errors, the "empty" message, no request
    var sent := popup.HandleFormSubmit(Response(200));
    assert sent.None? && popup.emailError && popup.firstNameError;
    assert popup.emailErrorText == EmailEmpty;

    // a name and a malformed address: only the email is flagged
    popup.HandleNameInput(name);
    popup.HandleEmailInput(bad);
    sent := popup.HandleFormSubmit(Response(200));
    assert sent.None? && popup.emailError && !popup.firstNameError;
    assert popup.emailErrorText == EmailIncorrect;

    // a well-formed address: the request is sent; a non-200 answer changes nothing visible
    popup.HandleEmailInput(good);
    sent := popup.HandleFormSubmit(Response(500));
    assert sent == Some(Request(url, name, good, listType));
    assert popup.Screen() == FormPanel(false, None, false);

    // a 200 answer shows the confirmation; closing resets the form and hides the popup
    sent := popup.HandleFormSubmit(Response(200));
    assert popup.Screen() == SuccessPanel;
    popup.HandleCloseForm();
    assert !popup.popupIsOpen && popup.email == "" && popup.firstName == "";
    assert popup.Screen() == FormPanel(false, None, false);
  }
}
