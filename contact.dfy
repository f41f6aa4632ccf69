/**
 * The contact form (component/Contact.jsx): the endpoint URL built from the
 * configured base, the field validator with its honeypot check, the
 * single-field change handler and the decision logic of the submit handler.
 * The HTTP exchange itself is not modelled: its outcome is an input.
 */
module Contact {
  import opened Wrappers
  import opened JsText

  // ---------------------------------------------------------------------------
  // Endpoint URL
  // ---------------------------------------------------------------------------

  const ContactsPath := "/contacts"

  /** `s.replace(/\/+$/, '')`: the run of slashes at the end of `s` removed. */
  function StripTrailingSlashes(s: string): (r: string)
    ensures |r| <= |s| && r == s[..|r|]
    ensures forall i :: |r| <= i < |s| ==> s[i] == '/'
    ensures r == [] || r[|r| - 1] != '/'
  {
    if s != [] && s[|s| - 1] == '/' then StripTrailingSlashes(s[..|s| - 1]) else s
  }

  /** Stripping twice strips nothing more. */
  lemma StripTrailingSlashesIdempotent(s: string)
    ensures StripTrailingSlashes(StripTrailingSlashes(s)) == StripTrailingSlashes(s)
  {
  }

  /**
   * The endpoint the form posts to, from the configured base URL (`None` when
   * the environment variable is unset): the base without its trailing slashes,
   * followed by "/contacts"; just "/contacts" when nothing is left of the base.
   */
  function ContactUrl(configured: Option<string>): (url: string)
    ensures |url| >= |ContactsPath| && url[|url| - |ContactsPath|..] == ContactsPath
    ensures var base := url[..|url| - |ContactsPath|];
            var env := configured.GetOr("");
            && |base| <= |env| && base == env[..|base|]
            && (forall i :: |base| <= i < |env| ==> env[i] == '/')
            && (base == [] || base[|base| - 1] != '/')
  {
    var base := StripTrailingSlashes(configured.GetOr(""));
    var url := if base != [] then base + ContactsPath else ContactsPath;
    assert url[..|url| - |ContactsPath|] == base;
    url
  }

  // ---------------------------------------------------------------------------
  // The form
  // ---------------------------------------------------------------------------

  /** The `name` attributes of the form's inputs. */
  datatype Field = Name | Email | Subject | Message | Honey

  /** The `form` state: one string per input; `honey` is the hidden honeypot. */
  datatype Form = Form(name: string, email: string, subject: string, message: string, honey: string)
  {
    function Get(f: Field): string {
      match f
      case Name => name
      case Email => email
      case Subject => subject
      case Message => message
      case Honey => honey
    }

    /** `{ ...form, [f]: v }`. */
    function With(f: Field, v: string): (r: Form)
      ensures r.Get(f) == v
      ensures forall g :: g != f ==> r.Get(g) == Get(g)
    {
      match f
      case Name => this.(name := v)
      case Email => this.(email := v)
      case Subject => this.(subject := v)
      case Message => this.(message := v)
      case Honey => this.(honey := v)
    }
  }

  const EmptyForm := Form("", "", "", "", "")

  // ---------------------------------------------------------------------------
  // Email shape: the regular expression ^[^\s@]+@[^\s@]+\.[^\s@]+$
  // ---------------------------------------------------------------------------

  /** A character of the class `[^\s@]`. */
  predicate PlainChar(c: char) {
    !IsSpace(c) && c != '@'
  }

  predicate AllPlain(s: string) {
    forall i :: 0 <= i < |s| ==> PlainChar(s[i])
  }

  /**
   * The language of the pattern: a non-empty plain run, '@', a non-empty plain
   * run, '.', a non-empty plain run, and nothing else. The middle run may
   * itself contain dots, so `k` may be any dot after the '@'.
   */
  ghost predicate MatchesEmailPattern(s: string) {
    exists i, k ::
      && 0 < i && i + 1 < k && k + 1 < |s|
      && s[i] == '@' && s[k] == '.'
      && AllPlain(s[..i]) && AllPlain(s[i + 1..k]) && AllPlain(s[k + 1..])
  }

  /** The index of the first `c` in `s`, or `|s|` when there is none. */
  function IndexOf(s: string, c: char): (i: nat)
    ensures i <= |s|
    ensures i < |s| ==> s[i] == c
    ensures forall j :: 0 <= j < i ==> s[j] != c
  {
    if s == [] then 0
    else if s[0] == c then 0
    else 1 + IndexOf(s[1..], c)
  }

  /** A '.' that is neither the first nor the last character of `d`. */
  predicate HasInnerDot(d: string) {
    exists j :: 0 < j < |d| - 1 && d[j] == '.'
  }

  /** The hand-written email check: no white space, one '@' after something, an inner dot after it. */
  predicate IsValidEmail(s: string) {
    var at := IndexOf(s, '@');
    && 0 < at < |s|
    && (forall m :: 0 <= m < |s| ==> !IsSpace(s[m]) && (s[m] == '@' ==> m == at))
    && HasInnerDot(s[at + 1..])
  }

  /** The hand-written check accepts exactly the strings the regular expression matches. */
  lemma EmailCheckMatchesPattern(s: string)
    ensures IsValidEmail(s) <==> MatchesEmailPattern(s)
  {
    if IsValidEmail(s) {
      ValidEmailMatches(s);
    }
    if MatchesEmailPattern(s) {
      var i, k :| && 0 < i && i + 1 < k && k + 1 < |s|
                  && s[i] == '@' && s[k] == '.'
                  && AllPlain(s[..i]) && AllPlain(s[i + 1..k]) && AllPlain(s[k + 1..]);
      MatchIsValidEmail(s, i, k);
    }
  }

  lemma ValidEmailMatches(s: string)
    requires IsValidEmail(s)
    ensures MatchesEmailPattern(s)
  {
    var at := IndexOf(s, '@');
    var d := s[at + 1..];
    var j :| 0 < j < |d| - 1 && d[j] == '.';
    var k := at + 1 + j;
    assert s[k] == '.';
    var user, host, top := s[..at], s[at + 1..k], s[k + 1..];
    forall m | 0 <= m < |user| ensures PlainChar(user[m]) {
      assert user[m] == s[m];
    }
    forall m | 0 <= m < |host| ensures PlainChar(host[m]) {
      assert host[m] == s[at + 1 + m];
    }
    forall m | 0 <= m < |top| ensures PlainChar(top[m]) {
      assert top[m] == s[k + 1 + m];
    }
  }

  lemma MatchIsValidEmail(s: string, i: int, k: int)
    requires 0 < i && i + 1 < k && k + 1 < |s|
    requires s[i] == '@' && s[k] == '.'
    requires AllPlain(s[..i]) && AllPlain(s[i + 1..k]) && AllPlain(s[k + 1..])
    ensures IsValidEmail(s)
  {
    forall m | 0 <= m < |s| && m != i ensures PlainChar(s[m]) {
      if m < i {
        assert s[..i][m] == s[m];
      } else if m < k {
        assert s[i + 1..k][m - i - 1] == s[m];
      } else if k < m {
        assert s[k + 1..][m - k - 1] == s[m];
      }
    }
    var at := IndexOf(s, '@');
    assert at == i;
    var d := s[at + 1..];
    assert d[k - at - 1] == '.';
  }

  // ---------------------------------------------------------------------------
  // Validation
  // ---------------------------------------------------------------------------

  const NameRequired := "Please enter your name"
  const EmailRequired := "Please enter your email"
  const EmailInvalid := "Please enter a valid email"
  const MessageTooShort := "Message must be at least 8 characters"
  const SpamDetected := "Spam detected"
  const MinMessageLength := 8

  function Present(o: Option<string>): seq<string> {
    if o.Some? then [o.value] else []
  }

  /**
   * The object `validate` returns. Its keys are inserted in the order the
   * checks run, so `Object.values` lists them name, email, message, honey;
   * `subject` is never checked, so it never has an entry.
   */
  datatype Errors = Errors(name: Option<string>, email: Option<string>, message: Option<string>, honey: Option<string>)
  {
    function Get(f: Field): Option<string> {
      match f
      case Name => name
      case Email => email
      case Subject => None
      case Message => message
      case Honey => honey
    }

    /**
     * `Object.values(e)`, in insertion order: empty exactly when no check
     * failed, and led by the name error, else the email error, else the
     * message error, else the honeypot error.
     */
    function Values(): (vs: seq<string>)
      ensures |vs| <= 4
      ensures vs == [] <==> name.None? && email.None? && message.None? && honey.None?
      ensures vs != [] ==> vs[0] == if name.Some? then name.value
                                   else if email.Some? then email.value
                                   else if message.Some? then message.value
                                   else honey.value
    {
      Present(name) + Present(email) + Present(message) + Present(honey)
    }

    /**
     * `{ ...prev, [f]: undefined }`: the message for `f` is gone and every
     * other message stays.
     */
    function Cleared(f: Field): (e: Errors)
      ensures e.Get(f) == None
      ensures forall g :: g != f ==> e.Get(g) == Get(g)
    {
      match f
      case Name => this.(name := None)
      case Email => this.(email := None)
      case Subject => this
      case Message => this.(message := None)
      case Honey => this.(honey := None)
    }
  }

  /** The `errors` state before any submit: the empty object. */
  const NoErrors := Errors(None, None, None, None)

  /** The email check on the trimmed address `email` (lines 25-29). */
  function EmailError(email: string): (e: Option<string>)
    ensures e == if email == [] then Some(EmailRequired)
                 else if !MatchesEmailPattern(email) then Some(EmailInvalid)
                 else None
  {
    EmailCheckMatchesPattern(email);
    if email == [] then Some(EmailRequired)
    else if !IsValidEmail(email) then Some(EmailInvalid)
    else None
  }

  /** `validate(values)`; `ValidateChecks` states what each of its checks decides. */
  function Validate(v: Form): Errors
  {
    var message := Trim(v.message);
    Errors(
      name := if Trim(v.name) == [] then Some(NameRequired) else None,
      email := EmailError(Trim(v.email)),
      message := if message == [] || Utf16Length(message) < MinMessageLength then Some(MessageTooShort) else None,
      honey := if v.honey != [] then Some(SpamDetected) else None)
  }

  /**
   * Each field's error is set exactly when its check fails: an empty trimmed
   * name; an empty or malformed trimmed email; a trimmed message shorter than
   * 8 UTF-16 code units (the empty one included); a non-empty honeypot.
   */
  lemma ValidateChecks(v: Form)
    ensures Validate(v).name == if Trim(v.name) == [] then Some(NameRequired) else None
    ensures Validate(v).email == if Trim(v.email) == [] then Some(EmailRequired)
                                 else if !MatchesEmailPattern(Trim(v.email)) then Some(EmailInvalid)
                                 else None
    ensures Validate(v).message ==
              if Utf16Length(Trim(v.message)) < MinMessageLength then Some(MessageTooShort) else None
    ensures Validate(v).honey == if v.honey != [] then Some(SpamDetected) else None
  {
  }

  /**
   * The length rule counts UTF-16 code units, as `.length` does: four
   * characters outside the Basic Multilingual Plane make a long enough message.
   */
  lemma AstralMessageLength()
    ensures Validate(Form("Jo", "a@b.co", "", "\U{1F600}\U{1F600}\U{1F600}\U{1F600}", "")).message == None
  {
    var m := "\U{1F600}\U{1F600}\U{1F600}\U{1F600}";
    assert TrimStart(m) == m;
    assert TrimEnd(m) == m;
    assert Utf16Length(m[3..]) == 2;
    assert Utf16Length(m[2..]) == 4 by { assert m[2..][1..] == m[3..]; }
    assert Utf16Length(m[1..]) == 6 by { assert m[1..][1..] == m[2..]; }
    assert Utf16Length(m) == 8;
  }

  /**
   * A form passes validation exactly when the trimmed name is non-empty, the
   * trimmed email has the shape of an address, the trimmed message has at
   * least 8 characters and the honeypot is empty.
   */
  lemma ValidationPassesExactly(v: Form)
    ensures Validate(v).Values() == [] <==>
              && Trim(v.name) != []
              && MatchesEmailPattern(Trim(v.email))
              && Utf16Length(Trim(v.message)) >= MinMessageLength
              && v.honey == []
  {
    ValidateChecks(v);
  }

  /** The subject is never checked: changing it changes no error. */
  lemma SubjectNeverValidated(v: Form, subject: string)
    ensures Validate(v.With(Subject, subject)) == Validate(v)
  {
  }

  /** `Object.values(errs).find(Boolean)`: the first non-empty text. */
  function FirstTruthy(values: seq<string>): (r: Option<string>)
    ensures r.Some? ==> exists i :: 0 <= i < |values| && values[i] == r.value && r.value != [] &&
                          forall j :: 0 <= j < i ==> values[j] == []
    ensures r.None? <==> forall i :: 0 <= i < |values| ==> values[i] == []
  {
    if values == [] then None
    else if values[0] != [] then Some(values[0])
    else
      var r := FirstTruthy(values[1..]);
      if r.Some? then
        var i :| 0 <= i < |values[1..]| && values[1..][i] == r.value && r.value != [] &&
                 forall j :: 0 <= j < i ==> values[1..][j] == [];
        assert values[i + 1] == r.value && forall j :: 0 <= j < i + 1 ==> values[j] == [];
        r
      else
        r
  }

  const ValidationFallback := "Validation error"

  /**
   * The status text shown when validation fails, `first || 'Validation
   * error'`: never empty, the fallback exactly when no value is a non-empty
   * text, and otherwise the first non-empty value.
   */
  function ValidationStatusText(values: seq<string>): (text: string)
    ensures text != []
    ensures FirstTruthy(values).Some? ==> text == FirstTruthy(values).value
    ensures (forall i :: 0 <= i < |values| ==> values[i] == []) ==> text == ValidationFallback
    ensures (exists i :: 0 <= i < |values| && values[i] != []) ==> text in values
  {
    FirstTruthy(values).GetOr(ValidationFallback)
  }

  /**
   * When validation fails, the status text is the error of the first failing
   * check in the order name, email, message, honey; the fallback text never shows.
   */
  lemma ValidationStatusIsFirstError(v: Form)
    ensures Validate(v).Values() != [] ==>
              ValidationStatusText(Validate(v).Values()) ==
              if Trim(v.name) == [] then NameRequired
              else if Trim(v.email) == [] then EmailRequired
              else if !MatchesEmailPattern(Trim(v.email)) then EmailInvalid
              else if Utf16Length(Trim(v.message)) < MinMessageLength then MessageTooShort
              else SpamDetected
  {
    ValidateChecks(v);
  }

  // ---------------------------------------------------------------------------
  // Submission outcome
  // ---------------------------------------------------------------------------

  /** A JSON value as JavaScript's truthiness and `??` see it. */
  datatype JsValue = Undefined | Null | Bool(b: bool) | Number(n: int) | Str(s: string) | Object
  {
    predicate Truthy() {
      match this
      case Undefined => false
      case Null => false
      case Bool(b) => b
      case Number(n) => n != 0
      case Str(s) => s != []
      case Object => true
    }

    predicate Nullish() {
      Undefined? || Null?
    }

    /** The truthiness of `value ?? default`: `default` stands in only for null and undefined. */
    predicate TruthyOr(default: bool)
      ensures TruthyOr(default) <==> Truthy() || (Nullish() && default)
    {
      if Nullish() then default else Truthy()
    }
  }

  /**
   * What the `fetch` exchange produced. `okField`, `error` and `message` are
   * the parsed body's fields (`Undefined` / `None` when absent or when the body
   * is the JSON `null`); `NonJson` carries what `res.text()` gave, `None` when
   * it could not be read.
   */
  datatype FetchOutcome =
    | NetworkError
    | NonJson(body: Option<string>)
    | Response(ok: bool, status: nat, okField: JsValue, error: Option<string>, message: Option<string>)

  datatype StatusKind = Success | Error
  datatype Status = Status(kind: StatusKind, text: string)

  const SentText := "Thanks \U{2014} message sent."
  const NetworkErrorText := "Network error \U{2014} could not send."
  const NonJsonPrefix := "Server responded with non-JSON: "
  const StatusPrefix := "Server returned "
  const UnreadableBody := "<non-readable>"

  /**
   * `res.ok && (data?.ok ?? true)`: a response with an OK status whose `ok`
   * field is absent, null or truthy.
   */
  predicate Accepted(o: FetchOutcome)
    ensures Accepted(o) <==> o.Response? && o.ok && o.okField.TruthyOr(true)
  {
    o.Response? && o.ok && (o.okField.Nullish() || o.okField.Truthy())
  }

  /**
   * `a || b` on optional strings: `a` when it is a non-empty string, `b`
   * otherwise, so the result is empty only when both are.
   */
  function OrElse(a: Option<string>, b: string): (r: string)
    ensures a.Some? && a.value != [] ==> r == a.value
    ensures !(a.Some? && a.value != []) ==> r == b
    ensures r != [] <==> (a.Some? && a.value != []) || b != []
  {
    if a.Some? && a.value != [] then a.value else b
  }

  /** The status the submit handler shows once validation has passed. */
  function Classify(o: FetchOutcome): (st: Status)
    ensures st.kind == Success <==> Accepted(o)
    ensures st.kind == Success ==> st.text == SentText
    ensures o.NetworkError? ==> st == Status(Error, NetworkErrorText)
    ensures o.NonJson? ==> st == Status(Error, NonJsonPrefix + o.body.GetOr(UnreadableBody))
    ensures o.Response? && !Accepted(o) ==>
              && st.kind == Error
              && (o.error.Some? && o.error.value != [] ==> st.text == o.error.value)
              && (!(o.error.Some? && o.error.value != []) && o.message.Some? && o.message.value != [] ==>
                    st.text == o.message.value)
              && (!(o.error.Some? && o.error.value != []) && !(o.message.Some? && o.message.value != []) ==>
                    st.text == StatusPrefix + Decimal(o.status))
    ensures st.text != []
  {
    match o
    case NetworkError => Status(Error, NetworkErrorText)
    case NonJson(body) => Status(Error, NonJsonPrefix + body.GetOr(UnreadableBody))
    case Response(ok, status, okField, error, message) =>
      if ok && okField.TruthyOr(true) then Status(Success, SentText)
      else Status(Error, OrElse(error, OrElse(message, StatusPrefix + Decimal(status))))
  }

  // ---------------------------------------------------------------------------
  // The component's state and its handlers
  // ---------------------------------------------------------------------------

  /** The state of one `Contact` component: `form`, `errors`, `status` and `sending`. */
  class ContactForm {
    var form: Form
    var errors: Errors
    var status: Option<Status>
    var sending: bool

    constructor ()
      ensures form == EmptyForm && errors == NoErrors && status == None && !sending
    {
      form := EmptyForm;
      errors := NoErrors;
      status := None;
      sending := false;
    }

    /** `handleChange`: the named input changed to `value`. */
    method HandleChange(f: Field, value: string)
      modifies this
      ensures form == old(form).With(f, value)
      ensures errors == old(errors).Cleared(f)
      ensures status == None
      ensures sending == old(sending)
    {
      form := form.With(f, value);
      errors := errors.Cleared(f);
      status := None;
    }

    /**
     * `handleSubmit` up to the `await`: the status is reset, the errors become
     * `validate(form)`, and either the first error is shown, or `sending` is
     * set and the request goes out carrying the form as it is now.
     * `request` is that payload, `None` when nothing was sent.
     */
    method HandleSubmit() returns (request: Option<Form>)
      modifies this
      ensures errors == Validate(old(form))
      ensures request.Some? <==> Validate(old(form)).Values() == []
      ensures request.None? ==> status == Some(Status(Error, ValidationStatusText(Validate(old(form)).Values())))
      ensures request.None? ==> sending == old(sending)
      ensures request.Some? ==> request.value == old(form) && status == None && sending
      ensures form == old(form)
    {
      status := None;
      var e := Validate(form);
      errors := e;
      var errs := e.Values();
      if errs != [] {
        status := Some(Status(Error, ValidationStatusText(errs)));
        return None;
      }
      sending := true;
      request := Some(form);
    }

    /**
     * The rest of `handleSubmit`, once the request has settled with
     * `outcome`: the status it gives, the form cleared on success (whatever
     * was typed meanwhile), and `sending` reset in the `finally` block.
     * `HandleChange` may run between `HandleSubmit` and this.
     */
    method Complete(outcome: FetchOutcome)
      modifies this
      ensures status == Some(Classify(outcome))
      ensures form == (if Accepted(outcome) then EmptyForm else old(form))
      ensures errors == old(errors)
      ensures !sending
    {
      status := Some(Classify(outcome));
      if Accepted(outcome) {
        form := EmptyForm;
      }
      // finally
      sending := false;
    }
  }
}
