# Hebrew landing page: signup flow and Hebrew clock, modelled in Dafny

This project models the logic of a small Hebrew landing page. It is in four parts.

- **The clock widget** (`hebrew-clock.js`) spells the time of day in pointed Hebrew words. It has
  an hour table, three minute tables, a period of the day and a refresh delay that lands on the
  next minute.
- **The browser signup form** (`script.js`) has an email check built on a regular expression and
  a 30-second rate limiter backed by a stored timestamp. Its controller runs a chain of guards on
  submit: honeypot, empty input, invalid address, cooldown, unconfigured script URL. Then it sends
  the address and reports the outcome.
- **The spreadsheet endpoint** (`google-apps-script.js`) checks the address again. It refuses
  one that column A already holds, and otherwise appends one row `[email, timestamp]`.
- **The serverless relay** (`api/subscribe.js`) maps a request to an HTTP status through a fixed
  order of guards (405, 400, 500), then calls the upstream mailing-list service (200 or 502).

Modules:

- `Wrappers` holds `Option`.
- `JsString` models the JavaScript string behaviour the code relies on:
  - the `\s` white-space class;
  - `String.prototype.trim`;
  - `Number.prototype.toString` on non-negative integers;
  - `parseInt(s, 10)`.
- `EmailSyntax` is the address regular expression.
- `HebrewClock`, `SignupForm`, `AppsScript` and `SubscribeApi` model the four source files.

The form controller and the sheet change state in place, so they are classes:

- `SignupForm.Form` has the input value, the message text and type, the loading (disabled) flag
  and the stored timestamp as fields.
- `AppsScript.Sheet` has its rows as a `seq` field.

The clock, the address check, the rate-limit decision and the relay are functions.

Choices where the code decides:

- **What gets validated.** The form checks the *escaped* address `sanitize(trim(input))`, not the
  raw trimmed input, and sends that same escaped string. The model does the same.
  `SignupForm.Screen` tests `IsValidEmail` on `sanitize(Trim(input))`.
- **No syntax check in the relay.** The relay only asks for a non-empty string email. It does not
  apply the client's pattern. `SubscribeApi.NoSyntaxCheck` shows that `not-an-email` is
  accepted and relayed.
- **The send is split in two.** The submit handler awaits `fetch`, so it is modelled as two
  methods:
  - `Form.Submit` runs from the event up to the `await`;
  - `Form.Settle` is the `try`/`catch`/`finally` after the call settles.

  The loading flag is on between the two. `Submit` requires `!loading`: while loading, the
  button is disabled, and a disabled default button blocks the form's submission.

## Model

| member | source | states |
|---|---|---|
| `HebrewClock.GetTimeOfDay` | hebrew-clock.js:60-73 | The five periods partition the hours: morning iff 5..11, noon iff 12, afternoon iff 13..16, evening iff 17..20, night iff below 5 or above 20 (each iff in both directions). |
| `HebrewClock.MinuteToHebrew` | hebrew-clock.js:76-102 | Empty exactly for minute 0. 1..9 give the unit word, round tens the tens word, 11..19 the teen word. Every other minute gives tens word + " וְ" + unit word, and every table key it uses exists. |
| `HebrewClock.CompoundWordShape` | hebrew-clock.js:93-101 | A compound minute's words have length tens + "and" + units. They start with the tens word's first letter and end with exactly the unit word. |
| `HebrewClock.UnitWordsDistinct` | hebrew-clock.js:25-35 | The nine unit words are pairwise different and 5 to 9 characters long. |
| `HebrewClock.TenWordsDistinct` | hebrew-clock.js:38-44 | The five tens words are pairwise different and 6 to 11 characters long. |
| `HebrewClock.TeenWordsDistinct` | hebrew-clock.js:47-57 | The nine teen words are pairwise different and 14 to 18 characters long. |
| `HebrewClock.UnitIsNoTen` | hebrew-clock.js:25-44 | No unit word equals a tens word. |
| `HebrewClock.TensStartDistinct` | hebrew-clock.js:40-43 | The tens words for 20, 30, 40 and 50 begin with four different letters. |
| `HebrewClock.TeenShorterThanCompound` | hebrew-clock.js:47-57 | A teen word that starts with the same letter as a tens word from 20 to 50 is shorter than that tens word plus eight characters. |
| `HebrewClock.SingleWordsDistinct` | hebrew-clock.js:81-97 | Two different minutes that are each spelled by a single table entry are spelled differently. |
| `HebrewClock.CompoundWordsDistinct` | hebrew-clock.js:93-101 | Two different compound minutes are spelled differently. |
| `HebrewClock.CompoundIsNoSingleWord` | hebrew-clock.js:81-101 | A compound minute is never spelled like a single-entry minute. |
| `HebrewClock.MinuteWordsDistinct` | hebrew-clock.js:76-102 | Different minutes in 0..59 give different words, so the words identify the minute. |
| `HebrewClock.To12Hour` | hebrew-clock.js:105-109 | For 0..23 the result is in 1..12, is a key of the hour table, and agrees with the hour modulo 12 (so 0 gives 12 and 13..23 give h-12). 1..12 are unchanged. |
| `HebrewClock.HourWordsDistinct` | hebrew-clock.js:9-22 | The twelve hour words are pairwise different. |
| `HebrewClock.HourAndPeriodIdentifyHour` | hebrew-clock.js:116-119 | Two hours of the day with the same hour word and the same period are the same hour. |
| `HebrewClock.GetHebrewTime` | hebrew-clock.js:112-128 | The hour word is always defined for hours 0..23 and minutes 0..59. The display's meaning is `HebrewTimeIdentifiesTime`: it determines the hour and the minute. |
| `HebrewClock.MinutePart` | hebrew-clock.js:121-127 | The part of the display between the hour word and the period: nothing on the hour, otherwise " וְ" and the minute in words. |
| `HebrewClock.HebrewTimeParts` | hebrew-clock.js:112-128 | Every display is the hour word, the minute part, a space and the period, in that order. |
| `HebrewClock.MinutePartStart` | hebrew-clock.js:121-127 | The minute part is empty or starts with a space and a vav. |
| `HebrewClock.PeriodStart` | hebrew-clock.js:60-73 | Every period word is non-empty and starts with a bet or an alef. |
| `HebrewClock.HourWordSpace` | hebrew-clock.js:9-22 | A space inside an hour word is never its last character and is always followed by an ayin. |
| `HebrewClock.PeriodSpace` | hebrew-clock.js:60-73 | A space inside a period word is followed by exactly twelve characters. |
| `HebrewClock.PeriodLength` | hebrew-clock.js:60-73 | No period word is twelve characters long. |
| `HebrewClock.SameHourWord` | hebrew-clock.js:9-22 | Two hour words that each begin the same display, followed by a space and a vav, bet or alef, are the same word for the same hour. |
| `HebrewClock.SamePeriod` | hebrew-clock.js:60-73 | Two periods that each end the same display, after a space, are the same period. |
| `HebrewClock.MinutePartsDistinct` | hebrew-clock.js:76-102 | Different minutes in 0..59 give different minute parts. |
| `HebrewClock.HebrewTimeIdentifiesTime` | hebrew-clock.js:112-128 | The display identifies the time: two times of day (hour 0..23, minute 0..59) with the same display text are the same hour and minute. |
| `HebrewClock.MsUntilNextMinute` | hebrew-clock.js:138-139 | The delay is between 1 and 60000 ms, and the current second and millisecond plus the delay make exactly one minute. |
| `JsString.IsWhiteSpace` | script.js:37 | The `\s` class: the ECMAScript white-space and line-terminator characters, which `trim` also removes. |
| `JsString.LeadingSpace` | script.js:91 | The count of leading white-space characters: every character before it is white space, and the one at it (if any) is not. |
| `JsString.TrailingSpace` | script.js:91 | The same count at the back of the string. |
| `JsString.Trim` | script.js:91 | `trim()`: the slice between the leading and the trailing white space, empty when the string is all white space. The lemmas below state what it means. |
| `JsString.TrimIsSlice` | script.js:91 | The trimmed string is the contiguous slice of the input that starts after its leading white space. |
| `JsString.TrimBordered` | script.js:91 | The trimmed string is empty or neither starts nor ends with white space. |
| `JsString.TrimCutsWhiteSpace` | script.js:91 | Every character trimming removes, at either end, is white space. |
| `JsString.TrimEmptyIffAllWhiteSpace` | script.js:91 | The trimmed string is empty exactly when the input is all white space. |
| `JsString.TrimUnchanged` | script.js:91 | A string that neither starts nor ends with white space is its own trim. |
| `JsString.TrimIdempotent` | script.js:91 | Trimming twice is the same as trimming once. |
| `JsString.ToDecimal` | script.js:75 | `toString` of a non-negative integer is a non-empty string of decimal digits with no leading zero. |
| `JsString.ParseInt` | script.js:70 | `parseInt(s, 10)`: leading white space skipped, an optional sign, then the longest digit run; no digit there gives NaN (`None`). Its meaning for stored timestamps is `ParseIntOfDecimal`. |
| `JsString.ParseIntOfDecimal` | script.js:70-75 | `parseInt` reads back exactly the number written with `toString`. |
| `EmailSyntax.IsValidEmail` | script.js:36-38 | The pattern `^[^\s@]+@[^\s@]+\.[^\s@]+$`, term by term over positions: a run of address characters, the `@`, a run, a `.`, and a run reaching the end. The same test guards `doPost` (google-apps-script.js:30). Its meaning is `ValidEmailIffLocalAtDomain`. |
| `EmailSyntax.ValidEmailIsLocalAtDomain` | script.js:37 | Every string the pattern accepts has no white space, exactly one `@`, not first, and a `.` strictly inside the part after it. |
| `EmailSyntax.LocalAtDomainIsValidEmail` | script.js:37 | Every such string is accepted by the pattern. |
| `EmailSyntax.ValidEmailIffLocalAtDomain` | script.js:36-38 | The pattern accepts exactly the local@domain language, in both directions. |
| `EmailSyntax.OneAtCount` | script.js:37 | A string whose only `@` is at one position holds exactly one `@`. |
| `EmailSyntax.ValidEmailHasOneAt` | script.js:37 | A valid address holds exactly one `@`. |
| `EmailSyntax.ValidEmailIsTrimmed` | script.js:37 | A valid address is unchanged by trimming. |
| `EmailSyntax.EmptyIsInvalid` | script.js:37 | The empty string is rejected. |
| `EmailSyntax.WhiteSpaceIsInvalid` | script.js:37 | A white-space character anywhere makes the string invalid. |
| `EmailSyntax.AtCountOtherThanOneIsInvalid` | script.js:37 | A string with no `@` or with two or more is invalid. |
| `EmailSyntax.NoInteriorDotIsInvalid` | script.js:37 | Take a string whose first `@` is followed by a domain with no `.` strictly inside it. It is invalid. |
| `EmailSyntax.CanonicalIsValid` | script.js:37 | `user@domain.tld` is accepted. |
| `EmailSyntax.NotAnEmailIsInvalid` | script.js:37 | `not-an-email` is rejected. |
| `SignupForm.ElapsedSeconds` | script.js:70 | `(Date.now() - last) / 1000`, the elapsed time in seconds as a real number, not rounded. |
| `SignupForm.ElapsedBelowLimit` | script.js:70-71 | Comparing the elapsed seconds `(now - last) / 1000` with 30 is the same as comparing milliseconds with 30000. |
| `SignupForm.IsRateLimited` | script.js:67-72 | Compares the elapsed seconds with 30, as the source does. Its contract states the result in milliseconds (through `ElapsedBelowLimit`): no stored item, or an empty one, never limits; otherwise the client is limited iff the item parses and `now - last < 30000` ms, a clock that went backwards included. |
| `SignupForm.Recorded` | script.js:74-76 | What `recordSubmission` writes is a non-empty item from which `parseInt` reads back the time. |
| `SignupForm.RecordedThenLimited` | script.js:67-76 | Right after recording at time t, the client is limited at t. |
| `SignupForm.CooldownWindow` | script.js:67-76 | After recording at t, the client is limited at `now` exactly when `now < t + 30000`. |
| `SignupForm.NothingStoredNotLimited` | script.js:68-69 | With nothing stored the client is never limited. |
| `SignupForm.Screen` | script.js:83-117 | The whole guard order, each outcome as an iff. Honeypot iff the hidden field is non-empty. Otherwise, with `e = sanitize(trim(input))`: missing iff `e` is empty; invalid iff `e` is non-empty and fails the pattern; cooldown iff `e` is valid and the client is limited; not connected iff `e` is valid, not limited and the URL is the placeholder; send iff `e` is valid, not limited and the URL is configured, and the address sent is `e`. |
| `SignupForm.ScreenMessage` | script.js:85-117 | The message shown for a refused submission has the error type exactly for the empty-input, invalid-address and cooldown cases. |
| `SignupForm.ScreenValid` | script.js:91-117 | An input that escapes to a valid address is held back only by the cooldown (first) or a missing URL, and is otherwise sent as that address. |
| `SignupForm.NotAnEmailRejected` | script.js:91-104 | Typing `not-an-email` is refused as an invalid address, whatever the stored item, time or configuration. |
| `SignupForm.Form.ShowMessage` | script.js:48-51 | Sets the message text and type, and nothing else. |
| `SignupForm.Form.ClearMessage` | script.js:54-57 | Empties the message and resets its type, and nothing else. |
| `SignupForm.Form.SetLoading` | script.js:60-64 | Sets the loading (disabled) flag, and nothing else. |
| `SignupForm.Form.RecordSubmission` | script.js:74-76 | Stores the decimal form of the current time, and nothing else. |
| `SignupForm.Form.Submit` | script.js:81-120 | An address is handed to `fetch` iff the screening says send. Then loading is on and the message cleared. Otherwise loading stays off and the screening's message and type are shown. The input gets the focus back exactly for an empty or invalid address. The input is cleared only with the placeholder URL, and the stored timestamp never changes. |
| `SignupForm.Form.Settle` | script.js:122-143 | Loading is off afterwards in every case. A returned send whose timestamp write succeeds records the time, shows the thanks message and clears the input. A thrown send, or a failing `localStorage` write inside the same `try`, shows the send error and keeps the input and the stored item. |
| `SignupForm.Form.OnInput` | script.js:147-151 | Typing clears the message exactly when it is an error and leaves any other message, the loading flag and the stored item alone. |
| `SignupForm.RapidResubmission` | script.js:81-143 | The scenario: a valid address is sent and recorded, then resubmitted less than 30 s later. The second submission is refused by the rate limiter: the wait message with the error type. Nothing is sent, and the input is kept. |
| `SignupForm.PlaceholderResubmission` | script.js:81-117 | With the placeholder URL, two immediate submissions both show success. Nothing is stored, and loading never turns on. |
| `AppsScript.EmailColumn` | google-apps-script.js:40 | Column A has one entry per row, the row's address. |
| `AppsScript.Includes` | google-apps-script.js:41 | The scan finds the value iff it occurs in the column (exact, case-sensitive equality). |
| `AppsScript.Occurrences` | google-apps-script.js:40-41 | The count of rows holding an address is zero iff column A does not contain it. |
| `AppsScript.OccurrencesAppend` | google-apps-script.js:48 | Appending a row adds one occurrence of its own address and none of any other. |
| `AppsScript.AppendKeepsDistinct` | google-apps-script.js:39-48 | Appending an address not yet in column A keeps column A free of repeats. |
| `AppsScript.Sheet.DoPost` | google-apps-script.js:24-59 | An unreadable body, or a missing or invalid email, fails and leaves the sheet unchanged. So does a sheet that cannot be opened, or a column read that throws. A present address answers duplicate and appends nothing. For a new valid address, an append that throws fails with its error text and changes nothing. Otherwise exactly `[email, time]` is appended at the end and the answer is ok. Under sequential execution, with cell values stored verbatim, a sheet without repeated addresses never gains one. |
| `AppsScript.DoGet` | google-apps-script.js:62-66 | Always status ok with `Service is running`, whatever the request. |
| `AppsScript.PostTwice` | google-apps-script.js:24-52 | The same valid new address posted twice, with every sheet call succeeding, answers ok then duplicate. The sheet ends with exactly one new row, and the address occurs in it once. |
| `SubscribeApi.EmailOf` | api/subscribe.js:6-10 | The email is usable exactly when the body is an object whose `email` is a non-empty string. |
| `SubscribeApi.HasKey` | api/subscribe.js:12-16 | The key guard: the key is set and non-empty. |
| `SubscribeApi.Handler` | api/subscribe.js:1-39 | 405 iff the method is not POST. 400 iff it is POST and the email is unusable. 500 iff both pass and the key is missing. The upstream call is made iff all three pass, as exactly the members URL, the key as `Authorization` and `{email, status: '1'}`. 200 iff the call is made and the response is ok, 502 iff it is made and fails or throws. Success payload iff 200, and no other status occurs. |
| `SubscribeApi.NoSyntaxCheck` | api/subscribe.js:8-10 | Any non-empty string email, such as `not-an-email`, is relayed and answered with 200 when the key is set and the upstream accepts. |
| `SubscribeApi.MethodCheckFirst` | api/subscribe.js:2-4 | For a method other than POST, the reply does not depend on the body, the key or the upstream outcome. |

## Left out

- DOM and event wiring are reduced to controller fields:
  - element lookups, `addEventListener`, `preventDefault`;
  - `focus`, reported as `refocused`;
  - the button's text and spinner visibility, which follow the loading flag.
- `sanitize` (script.js:41-45) depends on the browser's HTML serialisation. It is a function parameter of `Screen` and `Form.Submit`.
- `fetch` and the `no-cors` mode in `script.js` become a `SendOutcome` (returned or threw). In `api/subscribe.js` the call becomes an `Upstream` outcome (ok, not ok, threw). The request body's `timestamp: new Date().toISOString()` is not modelled.
- The clock and dates are parameters:
  - `Date.now()` is an integer in milliseconds;
  - `getHours`, `getMinutes`, `getSeconds` and `getMilliseconds` are bounded integers;
  - `toISOString()` is the `receivedAt` string of a sheet row.
- `localStorage` is reduced to its one item, `Option<string>`. A write that throws is the `storageThrows` input of `Form.Settle`.
- `GOOGLE_SCRIPT_URL` is the `urlConfigured` flag. As shipped, the URL is the placeholder, which is `urlConfigured == false`.
- `setTimeout` and the `DOMContentLoaded` start-up (hebrew-clock.js:140-148) are not modelled, and neither is the writing of the text into the page. Only the formatting and the delay arithmetic are modelled.
- The spreadsheet services (`SpreadsheetApp`, `ContentService`) and `JSON.parse` are replaced:
  - reading the body throwing is a `Request` variant that carries its error text. The causes are a missing `e.postData`, a `JSON.parse` failure, or a body that parses to `null`, whose `email` cannot be read;
  - opening the sheet is a `SheetAccess` input (the placeholder `SHEET_ID` makes it fail);
  - whether reading column A and appending the row throw is a `SheetCalls` input. A throw is answered by the `catch` with its error text and appends nothing;
  - replies are values rather than JSON text.
- `ALLOWED_ORIGINS` (google-apps-script.js:19-22) is declared but never used, so it is not modelled.
- `process.env` is the `apiKey` parameter. `console.error` has no effect on the reply and is not modelled, and neither is the upstream status and text it logs.
- `AppsScript.Sheet.DoPost`: each call is treated as atomic. Apps Script can run two web-app executions at once, and the source takes no lock between the `includes` test (google-apps-script.js:41) and `appendRow` (line 48). So two simultaneous posts of one new address can both append it, which the model's no-repeat guarantee does not cover.
- `AppsScript.Sheet.DoPost`: `appendRow` is modelled as storing the address verbatim. The spreadsheet treats a cell value that begins with `=` as a formula, and the pattern accepts such an address (`=a@b.co`). `getValues()` then returns the computed value, so a repost of that address is not found.
- `AppsScript.Sheet.DoPost`: an `email` field that is present but not a string (a number, say) is not modelled. The pattern test would coerce it to text first. The model takes the parsed email as an optional string.
- `SubscribeApi.EmailOf`: a request body that is not an object is not distinguished from an object without `email`. Both give 400 in the source as in the model.
- `JsString.ToDecimal`: models `toString` on non-negative integers without exponent notation. This is exact for every `Date.now()` value, which is far below 10^21. Floating-point rounding is not modelled.
- `JsString.ParseInt`: the result is an unbounded integer. A digit string longer than a double can hold exactly would round in the source.
- Strings are sequences of Unicode scalar values, while JavaScript strings are UTF-16 code units. Every character of the `\s` class and of the tables lies in the Basic Multilingual Plane, so `trim` and the pattern behave the same on both.
- No transport through a hidden iframe, and no timeout on the send, exists in these source files. Neither is modelled.
- `SignupForm.IsRateLimited`: a `localStorage.getItem` that throws (storage blocked by the browser) would end the submit handler before any message is shown. This case is not modelled.
