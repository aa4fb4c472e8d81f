/** The browser side of the signup form: the local rate limiter and the controller behind the
    form's submit and input events. The page's elements are reduced to the controller's fields;
    `fetch`, the clock and the HTML escaping are inputs. */
module SignupForm {
  import opened Wrappers
  import opened JsString
  import opened EmailSyntax

  /** Minimum number of seconds between two recorded submissions. */
  const RATE_LIMIT_SECONDS := 30

  /** The user-facing messages. */
  const THANKS := "תודה על ההרשמה!"
  const ENTER_EMAIL := "נא להזין כתובת אימייל"
  const INVALID_EMAIL := "כתובת אימייל לא תקינה"
  const PLEASE_WAIT := "נא להמתין לפני שליחה נוספת"
  const NOT_CONNECTED := "תודה! (טופס עדיין לא מחובר)"
  const SEND_FAILED := "שגיאה בשליחה, נא לנסות שוב"

  /** The message element's class: `form-message`, `form-message success` or `form-message error`. */
  datatype MessageType = Plain | Success | Error

  /** How the `fetch` call of a submission settled: it returned (any response, opaque under
      `no-cors`) or it threw. */
  datatype SendOutcome = Returned | Threw

  /** `(Date.now() - last) / 1000`, the elapsed time in seconds, divided as JavaScript does,
      without rounding to an integer. */
  function ElapsedSeconds(now: int, last: int): real
  {
    (now - last) as real / 1000.0
  }

  /** Comparing the elapsed seconds with the limit is comparing whole milliseconds with 30000. */
  lemma ElapsedBelowLimit(now: int, last: int)
    ensures ElapsedSeconds(now, last) < RATE_LIMIT_SECONDS as real <==> now - last < RATE_LIMIT_SECONDS * 1000
  {
  }

  /** `isRateLimited()`: the stored item (absent or the empty string is falsy), read back with
      `parseInt`, against the current time in milliseconds. It compares the elapsed seconds with 30,
      as the source does; by `ElapsedBelowLimit` that is comparing milliseconds with 30000. A clock
      that went backwards counts as limited; an unreadable item (NaN) never limits. */
  function IsRateLimited(stored: Option<string>, now: int): (limited: bool)
    ensures stored == None || stored == Some("") ==> !limited
    ensures limited <==>
      && stored.Some? && stored.value != "" && ParseInt(stored.value).Some?
      && now - ParseInt(stored.value).value < RATE_LIMIT_SECONDS * 1000
  {
    if stored == None || stored.value == "" then false
    else match ParseInt(stored.value)
      case None => false
      case Some(last) =>
        ElapsedBelowLimit(now, last);
        ElapsedSeconds(now, last) < RATE_LIMIT_SECONDS as real
  }

  /** What `recordSubmission()` writes: `Date.now().toString()`. */
  function Recorded(now: nat): (item: Option<string>)
    ensures item.Some? && item.value != "" && ParseInt(item.value) == Some(now)
  {
    ParseIntOfDecimal(now);
    Some(ToDecimal(now))
  }

  /** Right after a submission is recorded, the client is rate-limited. */
  lemma RecordedThenLimited(t: nat)
    ensures IsRateLimited(Recorded(t), t)
  {
  }

  /** The cooldown ends exactly 30 seconds after the recorded time. */
  lemma CooldownWindow(t: nat, now: int)
    ensures IsRateLimited(Recorded(t), now) <==> now < t + RATE_LIMIT_SECONDS * 1000
  {
  }

  /** With nothing stored the client is never limited. */
  lemma NothingStoredNotLimited(now: int)
    ensures !IsRateLimited(None, now)
  {
  }

  /** Where the submit handler's chain of guards sends a submission, given the honeypot, the
      email input as it stood, the stored item, the time and whether a script URL is configured. */
  datatype Screening =
    | Honeypot            // a bot filled the hidden field: pretend success
    | MissingEmail        // nothing left after trimming and escaping
    | InvalidEmail        // fails the address check
    | Cooldown            // a submission was recorded less than 30 seconds ago
    | NotConnected        // the script URL is still the placeholder
    | Send(email: string) // the escaped address goes to `fetch`

  function Screen(honeypot: string, input: string, stored: Option<string>, now: int,
                  urlConfigured: bool, sanitize: string -> string): (s: Screening)
    ensures honeypot != "" <==> s == Honeypot
    ensures s == MissingEmail <==> honeypot == "" && sanitize(Trim(input)) == ""
    ensures s == InvalidEmail <==>
      honeypot == "" && sanitize(Trim(input)) != "" && !IsValidEmail(sanitize(Trim(input)))
    ensures s == Cooldown <==> honeypot == "" && IsValidEmail(sanitize(Trim(input))) && IsRateLimited(stored, now)
    ensures s == NotConnected <==>
      honeypot == "" && IsValidEmail(sanitize(Trim(input))) && !IsRateLimited(stored, now) && !urlConfigured
    ensures s.Send? <==>
      honeypot == "" && IsValidEmail(sanitize(Trim(input))) && !IsRateLimited(stored, now) && urlConfigured
    ensures s.Send? ==> s.email == sanitize(Trim(input))
  {
    var email := sanitize(Trim(input));
    if honeypot != "" then Honeypot
    else if email == "" then MissingEmail
    else if !IsValidEmail(email) then InvalidEmail
    else if IsRateLimited(stored, now) then Cooldown
    else if !urlConfigured then NotConnected
    else Send(email)
  }

  /** The message a screening shows, with its type. */
  function ScreenMessage(s: Screening): (m: (string, MessageType))
    requires !s.Send?
    ensures m.1 == Error <==> s in {MissingEmail, InvalidEmail, Cooldown}
  {
    match s
    case Honeypot => (THANKS, Success)
    case MissingEmail => (ENTER_EMAIL, Error)
    case InvalidEmail => (INVALID_EMAIL, Error)
    case Cooldown => (PLEASE_WAIT, Error)
    case NotConnected => (NOT_CONNECTED, Success)
  }

  /** The form controller. `loading` is the submit button's disabled flag (it also swaps the button
      text for the spinner); it is on exactly while a `fetch` is outstanding. */
  class Form {
    var inputValue: string
    var messageText: string
    var messageType: MessageType
    var loading: bool
    var storedLastSubmit: Option<string>

    constructor (input: string, stored: Option<string>)
      ensures inputValue == input && storedLastSubmit == stored
      ensures messageText == "" && messageType == Plain && !loading
    {
      inputValue := input;
      messageText := "";
      messageType := Plain;
      loading := false;
      storedLastSubmit := stored;
    }

    method ShowMessage(text: string, kind: MessageType)
      modifies this`messageText, this`messageType
      ensures messageText == text && messageType == kind
    {
      messageText := text;
      messageType := kind;
    }

    method ClearMessage()
      modifies this`messageText, this`messageType
      ensures messageText == "" && messageType == Plain
    {
      messageText := "";
      messageType := Plain;
    }

    method SetLoading(on: bool)
      modifies this`loading
      ensures loading == on
    {
      loading := on;
    }

    method RecordSubmission(now: nat)
      modifies this`storedLastSubmit
      ensures storedLastSubmit == Recorded(now)
    {
      storedLastSubmit := Some(ToDecimal(now));
    }

    /** The submit event, up to the `await` of `fetch`: the message is cleared, the guards of
        `Screen` run in order, and the screening decides the effect. The button is disabled while
        loading, and a disabled default button blocks the form's submission, so no submit event
        arrives then. (The guards read neither message field, so screening before the message is
        cleared changes nothing.) Returns the address handed to `fetch`, if it is called, and whether the
        input was given the focus back. */
    method Submit(honeypot: string, now: int, urlConfigured: bool, sanitize: string -> string)
      returns (sent: Option<string>, refocused: bool)
      requires !loading
      modifies this`inputValue, this`messageText, this`messageType, this`loading
      ensures var s := Screen(honeypot, old(inputValue), old(storedLastSubmit), now, urlConfigured, sanitize);
        && (sent.Some? <==> s.Send?)
        && (s.Send? ==> sent == Some(s.email) && loading && messageText == "" && messageType == Plain)
        && (!s.Send? ==> !loading && messageText == ScreenMessage(s).0 && messageType == ScreenMessage(s).1)
        && (refocused <==> s == MissingEmail || s == InvalidEmail)
        && inputValue == (if s == NotConnected then "" else old(inputValue))
        && storedLastSubmit == old(storedLastSubmit)
    {
      var screening := Screen(honeypot, inputValue, storedLastSubmit, now, urlConfigured, sanitize);
      sent, refocused := None, false;
      ClearMessage();
      match screening
      case Honeypot =>
        ShowMessage(THANKS, Success);
      case MissingEmail =>
        ShowMessage(ENTER_EMAIL, Error);
        refocused := true;
      case InvalidEmail =>
        ShowMessage(INVALID_EMAIL, Error);
        refocused := true;
      case Cooldown =>
        ShowMessage(PLEASE_WAIT, Error);
      case NotConnected =>
        ShowMessage(NOT_CONNECTED, Success);
        inputValue := "";
      case Send(email) =>
        SetLoading(true);
        sent := Some(email);
    }

    /** The rest of the submit handler once `fetch` settles at time `now`: the `try` body, the
        `catch` and the `finally` that turns loading off. `storageThrows` says whether writing the
        timestamp to `localStorage` throws (storage full or disabled); that write is inside the
        `try`, so it sends a delivered submission to the `catch` too, after nothing was stored. */
    method Settle(outcome: SendOutcome, now: nat, storageThrows: bool)
      requires loading
      modifies this
      ensures !loading
      ensures outcome == Returned && !storageThrows ==>
        storedLastSubmit == Recorded(now) && messageText == THANKS && messageType == Success && inputValue == ""
      ensures outcome == Threw || storageThrows ==>
        storedLastSubmit == old(storedLastSubmit) && messageText == SEND_FAILED && messageType == Error &&
        inputValue == old(inputValue)
    {
      if outcome == Returned && !storageThrows {
        RecordSubmission(now);
        ShowMessage(THANKS, Success);
        inputValue := "";
      } else {
        ShowMessage(SEND_FAILED, Error);
      }
      SetLoading(false);
    }

    /** The input event: typing clears an error message and leaves any other message alone. */
    method OnInput(newValue: string)
      modifies this
      ensures inputValue == newValue && loading == old(loading) && storedLastSubmit == old(storedLastSubmit)
      ensures old(messageType) == Error ==> messageText == "" && messageType == Plain
      ensures old(messageType) != Error ==> messageText == old(messageText) && messageType == old(messageType)
    {
      inputValue := newValue;
      if messageType == Error {
        ClearMessage();
      }
    }
  }

  /** An input that trims and escapes to a valid address, submitted without the honeypot, is held
      back only by the cooldown or a missing script URL. */
  lemma ScreenValid(input: string, email: string, stored: Option<string>, now: int, urlConfigured: bool,
                    sanitize: string -> string)
    requires sanitize(Trim(input)) == email && IsValidEmail(email)
    ensures Screen("", input, stored, now, urlConfigured, sanitize) ==
      if IsRateLimited(stored, now) then Cooldown
      else if !urlConfigured then NotConnected
      else Send(email)
  {
    ValidEmailHasOneAt(email);
  }

  /** Typing `not-an-email` (which escaping leaves alone) is refused as an invalid address, with
      nothing sent, whatever the stored item, the time and the configuration. */
  lemma NotAnEmailRejected(stored: Option<string>, now: int, urlConfigured: bool, sanitize: string -> string)
    requires sanitize("not-an-email") == "not-an-email"
    ensures Screen("", "not-an-email", stored, now, urlConfigured, sanitize) == InvalidEmail
  {
    TrimUnchanged("not-an-email");
    NotAnEmailIsInvalid();
  }

  /** Two submissions of a valid address in quick succession: the first is sent and recorded when
      `fetch` returns at `settledAt`, the second, less than 30 seconds later, is refused by the rate
      limiter (the wait message) without a send and keeps what the user typed. */
  method RapidResubmission(email: string, t0: nat, settledAt: nat, t1: int)
    returns (first: Option<string>, second: Option<string>, secondText: string, secondType: MessageType,
             inputKept: bool)
    requires IsValidEmail(email)
    requires t1 - settledAt < RATE_LIMIT_SECONDS * 1000
    ensures first == Some(email) && second == None && inputKept
    ensures secondText == PLEASE_WAIT && secondType == Error
  {
    var form := new Form(email, None);
    var sanitize := (s: string) => s;
    ValidEmailIsTrimmed(email);
    ScreenValid(email, email, None, t0, true, sanitize);
    var focus;
    first, focus := form.Submit("", t0, true, sanitize);
    form.Settle(Returned, settledAt, false);
    form.OnInput(email);
    RecordedThenLimited(settledAt);
    ScreenValid(email, email, Recorded(settledAt), t1, true, sanitize);
    second, focus := form.Submit("", t1, true, sanitize);
    secondText, secondType := form.messageText, form.messageType;
    inputKept := form.inputValue == email;
  }

  /** With the placeholder URL nothing is recorded, so an immediate second submission is not
      refused by the rate limiter: both end with the success message and an empty input. */
  method PlaceholderResubmission(email: string, t0: int, t1: int)
    returns (first: MessageType, second: MessageType, stored: Option<string>, loadingSeen: bool)
    requires IsValidEmail(email)
    ensures first == Success && second == Success && stored == None && !loadingSeen
  {
    var form := new Form(email, None);
    var sanitize := (s: string) => s;
    ValidEmailIsTrimmed(email);
    ScreenValid(email, email, None, t0, false, sanitize);
    var sent, focus := form.Submit("", t0, false, sanitize);
    first := form.messageType;
    loadingSeen := form.loading;
    form.OnInput(email);
    ScreenValid(email, email, None, t1, false, sanitize);
    sent, focus := form.Submit("", t1, false, sanitize);
    second := form.messageType;
    loadingSeen := loadingSeen || form.loading;
    stored := form.storedLastSubmit;
  }
}
