/** The login and registration page (`AuthManager`): the e-mail and password
    validators, the feedback they leave on a form field, the order of the
    checks in the two submit handlers, where the session is stored and how an
    existing session is found again, the loading state of a submit button and
    the show/hide toggle of a password field. */
module Auth {
  import opened Wrappers
  import opened JsStrings

  // ---------------------------------------------------------------------
  // validateEmail

  /** `[^\s@]`: neither whitespace nor `@`. */
  predicate EmailChar(c: char) {
    !IsWhitespace(c) && c != '@'
  }

  /** `[^\s@]+` */
  predicate EmailRun(s: string) {
    s != [] && forall k :: 0 <= k < |s| ==> EmailChar(s[k])
  }

  /** `/^[^\s@]+@[^\s@]+\.[^\s@]+$/.test(s)`: the whole text is a run, an `@`,
      a run, a `.` and a run. Runs may themselves contain dots, so any dot
      after the `@` may be the one the pattern matches. */
  predicate EmailValid(s: string) {
    exists i, j :: 0 <= i < j < |s| && s[i] == '@' && s[j] == '.'
      && EmailRun(s[..i]) && EmailRun(s[i + 1..j]) && EmailRun(s[j + 1..])
  }

  function Occurrences(s: string, c: char): (n: nat)
    ensures n <= |s|
  {
    if s == [] then 0 else (if s[0] == c then 1 else 0) + Occurrences(s[1..], c)
  }

  /** The accepted addresses described without the pattern: no whitespace,
      exactly one `@` and it is not the first character, and after it a `.`
      that neither starts nor ends the domain. */
  predicate EmailShape(s: string) {
    NoWhitespace(s) && Occurrences(s, '@') == 1
    && exists i, j :: 0 < i && i + 1 < j < |s| - 1 && s[i] == '@' && s[j] == '.'
  }

  lemma {:induction false} OccurrencesAppend(a: string, b: string, c: char)
    ensures Occurrences(a + b, c) == Occurrences(a, c) + Occurrences(b, c)
    decreases |a|
  {
    if a != [] {
      assert (a + b)[1..] == a[1..] + b;
      OccurrencesAppend(a[1..], b, c);
    } else {
      assert a + b == b;
    }
  }

  /** The occurrences before, at and after one position. */
  lemma OccurrencesSplit(s: string, c: char, i: nat)
    requires i < |s|
    ensures Occurrences(s, c) == Occurrences(s[..i], c) + (if s[i] == c then 1 else 0) + Occurrences(s[i + 1..], c)
  {
    assert s == s[..i] + ([s[i]] + s[i + 1..]);
    OccurrencesAppend(s[..i], [s[i]] + s[i + 1..], c);
    OccurrencesAppend([s[i]], s[i + 1..], c);
  }

  lemma {:induction false} NoOccurrences(s: string, c: char)
    ensures Occurrences(s, c) == 0 <==> forall k :: 0 <= k < |s| ==> s[k] != c
    decreases |s|
  {
    if s != [] {
      NoOccurrences(s[1..], c);
      assert forall k :: 1 <= k < |s| ==> s[k] == s[1..][k - 1];
    }
  }

  /** With a single occurrence at `i`, no other position holds the character. */
  lemma OnlyOccurrence(s: string, c: char, i: nat)
    requires i < |s| && s[i] == c && Occurrences(s, c) == 1
    ensures forall k :: 0 <= k < |s| && k != i ==> s[k] != c
  {
    OccurrencesSplit(s, c, i);
    NoOccurrences(s[..i], c);
    NoOccurrences(s[i + 1..], c);
    forall k | 0 <= k < |s| && k != i ensures s[k] != c {
      if k < i { assert s[k] == s[..i][k]; } else { assert s[k] == s[i + 1..][k - i - 1]; }
    }
  }

  /** The pattern's three runs hold no whitespace, and no `@` besides the one
      between them. */
  lemma RunsAsPieces(s: string, i: nat, j: nat)
    requires 0 <= i < j < |s| && s[i] == '@' && s[j] == '.'
    requires EmailRun(s[..i]) && EmailRun(s[i + 1..j]) && EmailRun(s[j + 1..])
    ensures NoWhitespace(s) && Occurrences(s, '@') == 1
  {
    RunsWithoutWhitespace(s, i, j);
    var t := s[i + 1..];
    assert t[..j - i - 1] == s[i + 1..j] && t[j - i - 1] == '.' && t[j - i..] == s[j + 1..];
    OccurrencesSplit(s, '@', i);
    OccurrencesSplit(t, '@', j - i - 1);
    NoOccurrences(s[..i], '@');
    NoOccurrences(s[i + 1..j], '@');
    NoOccurrences(s[j + 1..], '@');
  }

  lemma RunsWithoutWhitespace(s: string, i: nat, j: nat)
    requires 0 <= i < j < |s| && s[i] == '@' && s[j] == '.'
    requires EmailRun(s[..i]) && EmailRun(s[i + 1..j]) && EmailRun(s[j + 1..])
    ensures NoWhitespace(s)
  {
    forall k | 0 <= k < |s| ensures !IsWhitespace(s[k]) {
      if k < i { assert s[k] == s[..i][k]; }
      else if i < k < j { assert s[k] == s[i + 1..j][k - i - 1]; }
      else if j < k { assert s[k] == s[j + 1..][k - j - 1]; }
    }
  }

  lemma TwoOccurrences(s: string, c: char, i: nat, k: nat)
    requires i < k < |s| && s[i] == c && s[k] == c
    ensures Occurrences(s, c) >= 2
  {
    OccurrencesSplit(s, c, i);
    var t := s[i + 1..];
    assert t[k - i - 1] == c;
    OccurrencesSplit(t, c, k - i - 1);
  }

  lemma EmailValidHasShape(s: string)
    requires EmailValid(s)
    ensures EmailShape(s)
  {
    var i, j :| 0 <= i < j < |s| && s[i] == '@' && s[j] == '.'
      && EmailRun(s[..i]) && EmailRun(s[i + 1..j]) && EmailRun(s[j + 1..]);
    RunsAsPieces(s, i, j);
    assert 0 < i && i + 1 < j < |s| - 1;
  }

  lemma EmailShapeIsValid(s: string)
    requires EmailShape(s)
    ensures EmailValid(s)
  {
    var i, j :| 0 < i && i + 1 < j < |s| - 1 && s[i] == '@' && s[j] == '.';
    OnlyOccurrence(s, '@', i);
    var a, b, d := s[..i], s[i + 1..j], s[j + 1..];
    forall k | 0 <= k < |a| ensures EmailChar(a[k]) { assert a[k] == s[k]; }
    forall k | 0 <= k < |b| ensures EmailChar(b[k]) { assert b[k] == s[k + i + 1]; }
    forall k | 0 <= k < |d| ensures EmailChar(d[k]) { assert d[k] == s[k + j + 1]; }
    assert EmailRun(a) && EmailRun(b) && EmailRun(d);
  }

  /** `validateEmail` accepts exactly the addresses of the shape above. */
  lemma EmailValidExactly(s: string)
    ensures EmailValid(s) <==> EmailShape(s)
  {
    if EmailValid(s) { EmailValidHasShape(s); }
    if EmailShape(s) { EmailShapeIsValid(s); }
  }

  /** An accepted address is never empty, so the later `!email` test of
      `handleLogin` cannot fire for it. It may end in a dot: `a@b.c.` is
      accepted, its last run being `c.`. */
  lemma EmailValidNonEmpty(s: string)
    ensures EmailValid(s) ==> |s| >= 5 && s[0] != '@'
  {
    if EmailValid(s) {
      var i, j :| 0 <= i < j < |s| && s[i] == '@' && s[j] == '.'
        && EmailRun(s[..i]) && EmailRun(s[i + 1..j]) && EmailRun(s[j + 1..]);
      assert s[0] == s[..i][0];
    }
  }

  // ---------------------------------------------------------------------
  // validatePasswordStrength and validatePasswordMatch

  const MinLength := 8
  const LengthMessage := "كلمة المرور يجب أن تكون 8 أحرف على الأقل"
  const CompositionMessage := "كلمة المرور يجب أن تحتوي على أحرف كبيرة وصغيرة وأرقام"
  const EmailError := "يرجى إدخال بريد إلكتروني صحيح"
  const MismatchError := "كلمات المرور غير متطابقة"

  /** `/[A-Z]/.test(p)` */
  predicate HasUpper(p: string) {
    exists k :: 0 <= k < |p| && 'A' <= p[k] <= 'Z'
  }

  /** `/[a-z]/.test(p)` */
  predicate HasLower(p: string) {
    exists k :: 0 <= k < |p| && 'a' <= p[k] <= 'z'
  }

  /** `/\d/.test(p)`: without the `u` flag `\d` is the ASCII digits. */
  predicate HasDigit(p: string) {
    exists k :: 0 <= k < |p| && '0' <= p[k] <= '9'
  }

  /** `isStrong`: at least eight UTF-16 code units, and an upper-case letter, a
      lower-case letter and a digit. The special-character test the source
      computes plays no part. */
  predicate PasswordStrong(p: string) {
    JsLength(p) >= MinLength && HasUpper(p) && HasLower(p) && HasDigit(p)
  }

  /** The message `validatePasswordStrength` attaches to the field: the length
      rule first, then the composition rule; none for a strong password. */
  function StrengthMessage(p: string): (m: string)
    ensures m == [] <==> PasswordStrong(p)
    ensures m != [] ==> m == (if JsLength(p) < MinLength then LengthMessage else CompositionMessage)
  {
    if JsLength(p) < MinLength then LengthMessage
    else if !HasUpper(p) || !HasLower(p) || !HasDigit(p) then CompositionMessage
    else []
  }

  /** A strong password holds at least three different characters and at
      least four characters in all (eight code units, two per character at
      most). */
  lemma StrongPasswordSize(p: string)
    requires PasswordStrong(p)
    ensures |p| >= 4
    ensures (exists u, l, d :: 0 <= u < |p| && 0 <= l < |p| && 0 <= d < |p|
               && p[u] != p[l] && p[l] != p[d] && p[u] != p[d])
  {
    JsLengthBounds(p);
    var u :| 0 <= u < |p| && 'A' <= p[u] <= 'Z';
    var l :| 0 <= l < |p| && 'a' <= p[l] <= 'z';
    var d :| 0 <= d < |p| && '0' <= p[d] <= '9';
    assert p[u] != p[l] && p[l] != p[d] && p[u] != p[d];
  }

  /** `validatePasswordMatch`: the two fields must both be on the page and hold
      the same text. */
  function PasswordsMatch(password: Option<string>, confirm: Option<string>): (r: bool)
    ensures r <==> password.Some? && confirm.Some? && password.value == confirm.value
    ensures r ==> PasswordsMatch(confirm, password)
  {
    match (password, confirm)
    case (Some(p), Some(c)) => p == c
    case _ => false
  }

  // ---------------------------------------------------------------------
  // Form fields and their feedback

  const ValidBorder := "#28a745"
  const InvalidBorder := "#dc3545"
  const NeutralBorder := "#e1e5e9"

  /** An input of the form together with the `.error-message` element of its
      `.input-group`. */
  class InputField {
    var value: string
    var borderColor: string
    var errorMessage: Option<string>

    constructor (initial: string)
      ensures value == initial && borderColor == NeutralBorder && errorMessage == None
    {
      value := initial;
      borderColor := NeutralBorder;
      errorMessage := None;
    }

    /** `setInputValidation`: the old error goes; a valid field turns green; an
        invalid one turns red and shows the message when there is one. */
    method SetInputValidation(isValid: bool, message: string)
      modifies this
      ensures value == old(value)
      ensures borderColor == (if isValid then ValidBorder else InvalidBorder)
      ensures errorMessage.Some? <==> !isValid && message != []
      ensures errorMessage.Some? ==> errorMessage.value == message
    {
      errorMessage := None;
      if isValid {
        borderColor := ValidBorder;
      } else {
        borderColor := InvalidBorder;
        if message != [] {
          errorMessage := Some(message);
        }
      }
    }

    /** `clearValidationError`, run on every keystroke in an e-mail field. */
    method ClearValidationError()
      modifies this
      ensures value == old(value) && borderColor == NeutralBorder && errorMessage == None
    {
      errorMessage := None;
      borderColor := NeutralBorder;
    }
  }

  // ---------------------------------------------------------------------
  // The submit button

  const LoadingText := "جاري التحميل..."
  const LoadingIcon := "⏳"
  const LoginIcon := "🚀"
  const RegisterIcon := "✨"

  /** What `setButtonLoading` reads and writes on a button: `disabled`, the
      opacity, the `.btn-text` and `.btn-icon` texts and the
      `data-original-text` attribute. */
  datatype ButtonView = ButtonView(disabled: bool, opacity: string, text: string, icon: string,
                                   originalText: Option<string>)

  function IdleIcon(isLoginButton: bool): string {
    if isLoginButton then LoginIcon else RegisterIcon
  }

  /** `setButtonLoading(button, true)`: disabled, dimmed, the loading text and
      icon shown, and the text it had kept in the attribute. */
  function LoadingView(v: ButtonView): (r: ButtonView)
    ensures r.disabled && r.text == LoadingText && r.originalText == Some(v.text)
  {
    ButtonView(true, "0.7", LoadingText, LoadingIcon, Some(v.text))
  }

  /** `setButtonLoading(button, false)`: enabled and opaque again; a kept,
      non-empty text comes back together with the button's own icon. */
  function IdleView(v: ButtonView, isLoginButton: bool): (r: ButtonView)
    ensures !r.disabled && r.opacity == "1" && r.originalText == v.originalText
    ensures v.originalText.Some? && v.originalText.value != [] ==>
      r.text == v.originalText.value && r.icon == IdleIcon(isLoginButton)
    ensures !(v.originalText.Some? && v.originalText.value != []) ==> r.text == v.text && r.icon == v.icon
  {
    if v.originalText.Some? && v.originalText.value != [] then
      ButtonView(false, "1", v.originalText.value, IdleIcon(isLoginButton), v.originalText)
    else ButtonView(false, "1", v.text, v.icon, v.originalText)
  }

  /** A loading phase around a request gives the button back its label, usable
      again, whatever state it was in before. */
  lemma LoadingRoundTrip(v: ButtonView, isLoginButton: bool)
    requires v.text != []
    ensures IdleView(LoadingView(v), isLoginButton)
      == ButtonView(false, "1", v.text, IdleIcon(isLoginButton), Some(v.text))
  {
  }

  class AuthButton {
    var disabled: bool
    var opacity: string
    var text: string
    var icon: string
    var originalText: Option<string>
    /** Whether the button carries the `login-btn` class. */
    const isLoginButton: bool

    constructor (caption: string, isLogin: bool)
      ensures View() == ButtonView(false, "1", caption, IdleIcon(isLogin), None)
      ensures isLoginButton == isLogin
    {
      disabled := false;
      opacity := "1";
      text := caption;
      icon := IdleIcon(isLogin);
      originalText := None;
      isLoginButton := isLogin;
    }

    function View(): ButtonView
      reads this
    {
      ButtonView(disabled, opacity, text, icon, originalText)
    }

    /** `setButtonLoading`. */
    method SetButtonLoading(isLoading: bool)
      modifies this
      ensures View() == (if isLoading then LoadingView(old(View())) else IdleView(old(View()), isLoginButton))
    {
      if isLoading {
        disabled := true;
        opacity := "0.7";
        var kept := text;
        text := LoadingText;
        icon := LoadingIcon;
        originalText := Some(kept);
      } else {
        disabled := false;
        opacity := "1";
        if originalText.Some? && originalText.value != [] {
          text := originalText.value;
          icon := IdleIcon(isLoginButton);
        }
      }
    }
  }

  // ---------------------------------------------------------------------
  // Show/hide password

  const HideLabel := "🙈"
  const ShowLabel := "👁️"

  /** The new `type` of a password input: `password` becomes `text`, anything
      else becomes `password`. */
  function ToggledType(t: string): (r: string)
    ensures r == "text" <==> t == "password"
    ensures r == "password" <==> t != "password"
  {
    if t == "password" then "text" else "password"
  }

  /** Toggling always changes the type, and toggling twice restores it exactly
      for the two types the toggle itself produces. */
  lemma ToggleTwice(t: string)
    ensures ToggledType(t) != t
    ensures ToggledType(ToggledType(t)) == t <==> t == "password" || t == "text"
  {
  }

  class PasswordInput {
    var inputType: string

    constructor (t: string)
      ensures inputType == t
    {
      inputType := t;
    }
  }

  class ToggleButton {
    var caption: string
    /** The element its `data-target` names, if the page has it. */
    const target: PasswordInput?

    constructor (initialLabel: string, field: PasswordInput?)
      ensures caption == initialLabel && target == field
    {
      caption := initialLabel;
      target := field;
    }
  }

  // ---------------------------------------------------------------------
  // Storage of the session

  /** What one storage slot `userSession` holds: nothing, an empty string, text
      that `JSON.parse` rejects (or that parses to nothing with fields), or a
      parsed session object. */
  datatype StoredSession = Missing | EmptyText | NotJson
                         | Record(email: string, loginTime: string, isLoggedIn: bool)

  /** `localStorage` and `sessionStorage`. */
  datatype Storage = Storage(local: StoredSession, session: StoredSession)

  /** A slot whose `getItem` result is truthy. */
  predicate Truthy(s: StoredSession) {
    !s.Missing? && !s.EmptyText?
  }

  /** `saveUserSession`: a logged-in record in the persistent slot when
      `rememberMe` is set, in the per-tab slot otherwise. */
  function AfterSave(st: Storage, email: string, rememberMe: bool, now: string): (r: Storage)
    ensures rememberMe ==> r.local == Record(email, now, true) && r.session == st.session
    ensures !rememberMe ==> r.session == Record(email, now, true) && r.local == st.local
  {
    var record := Record(email, now, true);
    if rememberMe then st.(local := record) else st.(session := record)
  }

  /** The slot `checkExistingSession` reads: the persistent one whenever it
      holds a non-empty value. */
  function ResumedSession(st: Storage): (r: StoredSession)
    ensures Truthy(st.local) ==> r == st.local
    ensures !Truthy(st.local) ==> r == st.session
  {
    if Truthy(st.local) then st.local else st.session
  }

  /** Whether `checkExistingSession` sends the visitor on to `index.html`. */
  predicate Redirects(st: Storage) {
    var s := ResumedSession(st);
    s.Record? && s.isLoggedIn
  }

  /** A remembered session is always found again. A per-tab one is found
      unless the persistent slot holds something else: an older record wins,
      and text that does not parse hides the new session. */
  lemma SavedSessionFound(st: Storage, email: string, now: string)
    ensures Redirects(AfterSave(st, email, true, now))
    ensures ResumedSession(AfterSave(st, email, true, now)) == Record(email, now, true)
    ensures Redirects(AfterSave(st, email, false, now))
      <==> !Truthy(st.local) || (st.local.Record? && st.local.isLoggedIn)
  {
  }

  // ---------------------------------------------------------------------
  // The submit handlers

  datatype LoginOutcome = LoginEmailRejected | LoginFieldsMissing | LoggedIn

  /** The early returns of `handleLogin`, in their order. */
  function LoginOutcomeOf(email: string, password: string): LoginOutcome {
    if !EmailValid(email) then LoginEmailRejected
    else if email == [] || password == [] then LoginFieldsMissing
    else LoggedIn
  }

  /** `simulateLogin` accepts every credential, so a login succeeds exactly
      when the address is well-formed and a password is given; the "fill in
      all fields" notice appears only for a missing password. */
  lemma LoginSucceedsExactly(email: string, password: string)
    ensures LoginOutcomeOf(email, password) == LoggedIn <==> EmailValid(email) && password != []
    ensures LoginOutcomeOf(email, password) == LoginFieldsMissing <==> EmailValid(email) && password == []
  {
    EmailValidNonEmpty(email);
  }

  datatype RegisterOutcome = RegisterFieldsMissing | RegisterEmailRejected | PasswordWeak
                           | PasswordMismatch | TermsNotAccepted | Registered

  /** The early returns of `handleRegister`, in their order. */
  function RegisterOutcomeOf(name: string, email: string, password: string, confirm: string,
                             agreeTerms: bool): RegisterOutcome
  {
    if name == [] || email == [] || password == [] || confirm == [] then RegisterFieldsMissing
    else if !EmailValid(email) then RegisterEmailRejected
    else if !PasswordStrong(password) then PasswordWeak
    else if password != confirm then PasswordMismatch
    else if !agreeTerms then TermsNotAccepted
    else Registered
  }

  /** A registration succeeds exactly when a name is given, the address is
      well-formed, the password strong, confirmed and the terms accepted; the
      emptiness tests on the other fields add nothing to that. */
  lemma RegisterSucceedsExactly(name: string, email: string, password: string, confirm: string,
                                agreeTerms: bool)
    ensures RegisterOutcomeOf(name, email, password, confirm, agreeTerms) == Registered
      <==> name != [] && EmailValid(email) && PasswordStrong(password) && confirm == password && agreeTerms
  {
    EmailValidNonEmpty(email);
    JsLengthBounds(password);
  }

  /** A weak password is reported only for a form whose fields are all filled
      and whose address passed; nothing after the first failed check runs. */
  lemma RegisterFailureOrder(name: string, email: string, password: string, confirm: string,
                             agreeTerms: bool)
    ensures var o := RegisterOutcomeOf(name, email, password, confirm, agreeTerms);
      (o == RegisterEmailRejected ==> !EmailValid(email))
      && (o == PasswordWeak ==> EmailValid(email) && StrengthMessage(password) != [])
      && (o == PasswordMismatch ==> PasswordStrong(password) && !PasswordsMatch(Some(password), Some(confirm)))
      && (o == TermsNotAccepted ==> PasswordsMatch(Some(password), Some(confirm)) && !agreeTerms)
  {
  }

  // ---------------------------------------------------------------------
  // Forgot password

  const ResetSent := "تم إرسال رابط إعادة تعيين كلمة المرور إلى بريدك الإلكتروني"

  /** What the forgot-password link leads to. */
  datatype ForgotPasswordResult = NothingShown | Notice(message: string, isError: bool) | ThrowsTypeError

  /** `handleForgotPassword` as written: a non-empty reply to the prompt is
      passed to `validateEmail` as a bare `{ value }` object, and
      `setInputValidation` then calls `closest` on it, which that object does
      not have. So the handler throws before either notice is shown. */
  function ForgotPasswordAsWritten(reply: Option<string>): ForgotPasswordResult {
    if reply.None? || reply.value == [] then NothingShown else ThrowsTypeError
  }

  /** Even a well-formed address gets no answer as written. */
  lemma ForgotPasswordNeverAnswers(reply: Option<string>)
    ensures !ForgotPasswordAsWritten(reply).Notice?
    ensures ForgotPasswordAsWritten(Some("test@example.com")) == ThrowsTypeError
    ensures EmailValid("test@example.com")
  {
    DemoAddressValid();
  }

  /** The evidently intended handler: the reset notice for a well-formed
      address, the e-mail error for any other non-empty reply. */
  function ForgotPasswordNotice(reply: Option<string>): (r: ForgotPasswordResult)
    ensures r.NothingShown? <==> reply.None? || reply.value == []
    ensures r.Notice? && !r.isError <==> reply.Some? && EmailValid(reply.value)
    ensures r.Notice? ==> r.message == (if r.isError then EmailError else ResetSent)
    ensures !r.ThrowsTypeError?
  {
    EmailValidNonEmpty(if reply.Some? then reply.value else []);
    if reply.None? || reply.value == [] then NothingShown
    else if EmailValid(reply.value) then Notice(ResetSent, false)
    else Notice(EmailError, true)
  }

  // ---------------------------------------------------------------------
  // Concrete cases

  lemma DemoAddressValid()
    ensures EmailValid("test@example.com")
  {
    var s := "test@example.com";
    assert s[..4] == "test" && s[5..12] == "example" && s[13..] == "com";
    assert s[4] == '@' && s[12] == '.';
    assert EmailRun(s[..4]) && EmailRun(s[5..12]) && EmailRun(s[13..]);
  }

  /** The page's demo credentials log in, but their password would be refused
      at registration: it has no upper-case letter. */
  lemma DemoCredentials()
    ensures LoginOutcomeOf("test@example.com", "password123") == LoggedIn
    ensures RegisterOutcomeOf("name", "test@example.com", "password123", "password123", true) == PasswordWeak
    ensures StrengthMessage("password123") == CompositionMessage
  {
    DemoAddressValid();
    DemoPasswordWeak();
  }

  lemma DemoPasswordWeak()
    ensures JsLength("password123") >= MinLength && !HasUpper("password123")
  {
    var p := "password123";
    forall k | 0 <= k < |p| ensures !('A' <= p[k] <= 'Z') {
      assert p[k] in {'p', 'a', 's', 'w', 'o', 'r', 'd', '1', '2', '3'};
    }
    LongWithoutUpper(p);
  }

  /** Eight characters without an upper-case letter fail on composition. */
  lemma LongWithoutUpper(p: string)
    requires |p| >= MinLength
    requires forall k :: 0 <= k < |p| ==> !('A' <= p[k] <= 'Z')
    ensures JsLength(p) >= MinLength && !HasUpper(p)
    ensures StrengthMessage(p) == CompositionMessage
  {
    JsLengthBounds(p);
  }

  /** The dot must sit inside the domain. */
  lemma DotInsideDomain()
    ensures !EmailValid("a@b.") && !EmailValid("a@.b")
  {
    EmailValidExactly("a@b.");
    EmailValidExactly("a@.b");
  }

  /** One `@`, and no blank anywhere. */
  lemma SingleAtNoBlank()
    ensures !EmailValid("a@b@c.d") && !EmailValid("a b@c.d")
  {
    var s := "a@b@c.d";
    EmailValidExactly(s);
    TwoOccurrences(s, '@', 1, 3);
    EmailValidExactly("a b@c.d");
    assert !NoWhitespace("a b@c.d") by { assert IsWhitespace("a b@c.d"[1]); }
  }

  // ---------------------------------------------------------------------
  // The page

  class AuthManager {
    /** `localStorage` and `sessionStorage` as far as the page uses them. */
    var storage: Storage

    constructor (initial: Storage)
      ensures storage == initial
    {
      storage := initial;
    }

    /** `validateEmail` on a field: the verdict of the pattern, shown on the
        field. */
    method ValidateEmail(input: InputField) returns (isValid: bool)
      modifies input
      ensures isValid == EmailValid(old(input.value))
      ensures input.value == old(input.value)
      ensures input.borderColor == (if isValid then ValidBorder else InvalidBorder)
      ensures input.errorMessage == (if isValid then None else Some(EmailError))
    {
      isValid := EmailValid(input.value);
      input.SetInputValidation(isValid, if isValid then [] else EmailError);
    }

    /** `validatePasswordStrength` on a field: an error is shown exactly for a
        weak password, and it names the rule that failed first. */
    method ValidatePasswordStrength(input: InputField) returns (isStrong: bool)
      modifies input
      ensures isStrong == PasswordStrong(old(input.value))
      ensures input.value == old(input.value)
      ensures input.borderColor == (if isStrong then ValidBorder else InvalidBorder)
      ensures input.errorMessage.Some? <==> !isStrong
      ensures !isStrong ==> input.errorMessage.value == StrengthMessage(input.value)
    {
      var password := input.value;
      isStrong := JsLength(password) >= MinLength && HasUpper(password) && HasLower(password) && HasDigit(password);
      var message := StrengthMessage(password);
      input.SetInputValidation(isStrong, message);
    }

    /** `validatePasswordMatch` over the two fields it looks up, either of
        which may be missing from the page. */
    method ValidatePasswordMatch(password: InputField?, confirm: InputField?) returns (isMatch: bool)
      modifies confirm
      ensures isMatch == PasswordsMatch(if password == null then None else Some(old(password.value)),
                                        if confirm == null then None else Some(old(confirm.value)))
      ensures confirm != null ==> confirm.value == old(confirm.value)
      ensures password != null && confirm != null ==>
        confirm.borderColor == (if isMatch then ValidBorder else InvalidBorder)
      ensures password != null && confirm != null ==>
        confirm.errorMessage == (if isMatch then None else Some(MismatchError))
    {
      if password != null && confirm != null {
        isMatch := password.value == confirm.value;
        confirm.SetInputValidation(isMatch, if isMatch then [] else MismatchError);
        return;
      }
      isMatch := false;
    }

    /** `saveUserSession`. */
    method SaveUserSession(email: string, rememberMe: bool, now: string)
      modifies this
      ensures storage == AfterSave(old(storage), email, rememberMe, now)
    {
      var record := Record(email, now, true);
      if rememberMe {
        storage := storage.(local := record);
      } else {
        storage := storage.(session := record);
      }
    }

    /** `handleLogin`: the address is checked first, then that both fields are
        filled; `simulateLogin` always resolves, so the session is then saved
        in the slot `rememberMe` chooses, between the loading phases of the
        submit button. */
    method HandleLogin(emailInput: InputField, password: string, rememberMe: bool,
                       submit: AuthButton, now: string)
      returns (outcome: LoginOutcome)
      modifies this, emailInput, submit
      ensures outcome == LoginOutcomeOf(old(emailInput.value), password)
      ensures emailInput.value == old(emailInput.value)
      ensures emailInput.borderColor == (if EmailValid(old(emailInput.value)) then ValidBorder else InvalidBorder)
      ensures emailInput.errorMessage == (if EmailValid(old(emailInput.value)) then None else Some(EmailError))
      ensures storage == (if outcome == LoggedIn then AfterSave(old(storage), old(emailInput.value), rememberMe, now)
                          else old(storage))
      ensures submit.View() == (if outcome == LoggedIn
                                then IdleView(LoadingView(old(submit.View())), submit.isLoginButton)
                                else old(submit.View()))
    {
      var email := emailInput.value;
      var ok := ValidateEmail(emailInput);
      if !ok {
        return LoginEmailRejected;
      }
      if email == [] || password == [] {
        return LoginFieldsMissing;
      }
      submit.SetButtonLoading(true);
      SaveUserSession(email, rememberMe, now);
      submit.SetButtonLoading(false);
      outcome := LoggedIn;
    }

    /** `handleRegister`: the five checks in their order, each ending the
        handler when it fails; an accepted registration always succeeds and
        keeps the session for this tab only. */
    method HandleRegister(name: string, emailInput: InputField, passwordInput: InputField,
                          confirmInput: InputField, agreeTerms: bool, submit: AuthButton, now: string)
      returns (outcome: RegisterOutcome)
      requires emailInput != passwordInput && emailInput != confirmInput && passwordInput != confirmInput
      modifies this, emailInput, passwordInput, confirmInput, submit
      ensures outcome == RegisterOutcomeOf(name, old(emailInput.value), old(passwordInput.value),
                                           old(confirmInput.value), agreeTerms)
      ensures emailInput.value == old(emailInput.value) && passwordInput.value == old(passwordInput.value)
      ensures confirmInput.value == old(confirmInput.value)
      // the address field is checked once all fields are filled
      ensures outcome == RegisterFieldsMissing ==>
        emailInput.borderColor == old(emailInput.borderColor) && emailInput.errorMessage == old(emailInput.errorMessage)
      ensures outcome != RegisterFieldsMissing ==>
        emailInput.borderColor == (if EmailValid(old(emailInput.value)) then ValidBorder else InvalidBorder)
        && emailInput.errorMessage == (if EmailValid(old(emailInput.value)) then None else Some(EmailError))
      // the password field once the address has passed
      ensures outcome in {RegisterFieldsMissing, RegisterEmailRejected} ==>
        passwordInput.borderColor == old(passwordInput.borderColor)
        && passwordInput.errorMessage == old(passwordInput.errorMessage)
      ensures outcome !in {RegisterFieldsMissing, RegisterEmailRejected} ==>
        passwordInput.borderColor == (if PasswordStrong(old(passwordInput.value)) then ValidBorder else InvalidBorder)
        && (passwordInput.errorMessage.Some? <==> !PasswordStrong(old(passwordInput.value)))
        && (passwordInput.errorMessage.Some? ==> passwordInput.errorMessage.value == StrengthMessage(old(passwordInput.value)))
      // the confirmation field once the password is strong
      ensures outcome in {RegisterFieldsMissing, RegisterEmailRejected, PasswordWeak} ==>
        confirmInput.borderColor == old(confirmInput.borderColor)
        && confirmInput.errorMessage == old(confirmInput.errorMessage)
      ensures outcome !in {RegisterFieldsMissing, RegisterEmailRejected, PasswordWeak} ==>
        var isMatch := old(passwordInput.value) == old(confirmInput.value);
        confirmInput.borderColor == (if isMatch then ValidBorder else InvalidBorder)
        && confirmInput.errorMessage == (if isMatch then None else Some(MismatchError))
      ensures storage == (if outcome == Registered then AfterSave(old(storage), old(emailInput.value), false, now)
                          else old(storage))
      ensures submit.View() == (if outcome == Registered
                                then IdleView(LoadingView(old(submit.View())), submit.isLoginButton)
                                else old(submit.View()))
    {
      var email, password, confirm := emailInput.value, passwordInput.value, confirmInput.value;
      if name == [] || email == [] || password == [] || confirm == [] {
        return RegisterFieldsMissing;
      }
      var ok := ValidateEmail(emailInput);
      if !ok {
        return RegisterEmailRejected;
      }
      ok := ValidatePasswordStrength(passwordInput);
      if !ok {
        return PasswordWeak;
      }
      ok := ValidatePasswordMatch(passwordInput, confirmInput);
      if !ok {
        return PasswordMismatch;
      }
      if !agreeTerms {
        return TermsNotAccepted;
      }
      submit.SetButtonLoading(true);
      SaveUserSession(email, false, now);
      submit.SetButtonLoading(false);
      outcome := Registered;
    }

    /** `togglePasswordVisibility`: the target field, when present, flips
        between hidden and shown, and the button's label then says which. */
    method TogglePasswordVisibility(button: ToggleButton)
      modifies button, button.target
      ensures button.target != null ==> button.target.inputType == ToggledType(old(button.target.inputType))
      ensures button.target != null ==>
        button.caption == (if button.target.inputType == "text" then HideLabel else ShowLabel)
      ensures button.target == null ==> button.caption == old(button.caption)
    {
      var input := button.target;
      if input != null {
        var isPassword := input.inputType == "password";
        input.inputType := if isPassword then "text" else "password";
        button.caption := if isPassword then HideLabel else ShowLabel;
      }
    }

    /** `handleForgotPassword`, with the reply the prompt gave, answering as
        intended. */
    method HandleForgotPassword(reply: Option<string>) returns (result: ForgotPasswordResult)
      ensures result == ForgotPasswordNotice(reply)
      ensures storage == old(storage)
    {
      if reply.Some? && reply.value != [] {
        if EmailValid(reply.value) {
          result := Notice(ResetSent, false);
        } else {
          result := Notice(EmailError, true);
        }
      } else {
        result := NothingShown;
      }
    }
  }
}
