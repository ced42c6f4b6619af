# Form logic of the event-booking front end

This project models the client-side form handling of a React event-booking
front end and proves properties of it in Dafny. It covers three pages:

- **Admin login** (`AdminLogin`). A two-field validator with ordered checks:
  "required" wins over "minimum length". It also models the change handler
  and the submit step that gates the login request and picks the failure
  message.
- **Admin dashboard event form** (`AdminDashboard`). A seven-rule validator
  producing an error map. It also models the change handler that clears a
  shown error, the event data sent to the server and the reset after a
  successful add.
- **Booking page** (`BookPage`). The booking form, its five seat options, the
  displayed total, the booking request and the toasts.

Each page's React state is a record. Each handler is a transition from the old
record to the new one. The two validators, which fill a fresh object key by
key, are methods proved equal to a specification function. Lemmas then state
the validation rules on that function.

Two supporting modules give the JavaScript semantics the forms depend on:

- `JsText`: `String.prototype.trim` over ECMAScript's WhiteSpace and
  LineTerminator code points, and the falsiness of the empty string.
- `JsNumber`: the string-to-number conversion that `text < 1` performs
  (ECMAScript's StringToNumber), for decimal literals with a fraction and an
  exponent, and `parseInt` in base ten.

`JsObject` gives `Object.keys(o).length` on an error object. `Wrappers` holds the `Option` type. `None` stands for `undefined`, a dropped
key, or NaN.

## Model

| member | source | states |
|---|---|---|
| JsText.Trim | src/pages/AdminLogin.jsx:14 | `.trim()`, also at src/pages/AdminDashboard.jsx:29-33; it has no contract of its own, and its behaviour is stated by `JsText.TrimShape` and `JsText.BlankIffTrimEmpty` |
| JsText.TrimStartShape | src/pages/AdminLogin.jsx:14 | `trimStart` removes exactly the longest whitespace prefix: the part removed is whitespace and the part kept does not start with whitespace |
| JsText.TrimEndShape | src/pages/AdminLogin.jsx:14 | `trimEnd` removes exactly the longest whitespace suffix |
| JsText.TrimShape | src/pages/AdminLogin.jsx:14 | the trimmed text has no whitespace at either end, and it is the text between the leading and trailing whitespace |
| JsText.BlankIffTrimEmpty | src/pages/AdminLogin.jsx:14 | `!s.trim()` holds exactly when every character of `s` is whitespace |
| JsText.WhitespaceTrimsToEmpty | src/pages/AdminDashboard.jsx:29 | whitespace-only text trims to the empty string |
| JsNumber.DigitValue | src/pages/AdminDashboard.jsx:90 | a decimal digit has a value below ten |
| JsNumber.DigitPrefix | src/pages/AdminDashboard.jsx:90 | the digits `parseInt` reads are the longest all-digit prefix: a prefix, all digits, and followed by a non-digit or nothing |
| JsNumber.DigitPrefixStopsAtNonDigit | src/pages/AdminDashboard.jsx:90 | digits followed by a non-digit are read exactly |
| JsNumber.SplitSignExtends | src/pages/AdminDashboard.jsx:90 | the sign read from text does not depend on what follows it |
| JsNumber.ToNumber | src/pages/AdminDashboard.jsx:34 | the conversion `formData.totalSeats < 1` performs; it has no contract of its own, and its behaviour is stated by `JsNumber.NumberOfInteger`, `JsNumber.ParseIntAgreesWithNumber`, `JsNumber.ExponentText`, `JsNumber.FractionText`, `JsNumber.FractionBelowOne` and `JsNumber.NonNumericTextIsNotLessThanOne` |
| JsNumber.ParseInt | src/pages/AdminDashboard.jsx:90-92 | `parseInt`, also at src/pages/BookPage.jsx:97; it has no contract of its own, and its behaviour is stated by `JsNumber.ParseIntReadsInteger`, `JsNumber.ParseSingleDigit`, `JsNumber.ExponentText` and `JsNumber.FractionText` |
| JsNumber.DigitsAreDecimal | src/pages/AdminDashboard.jsx:34 | a run of digits, read as a decimal literal, is worth its integer value |
| JsNumber.ParseIntReadsInteger | src/pages/AdminDashboard.jsx:90 | on text that is signed decimal integer text once trimmed, `parseInt` reads exactly that integer |
| JsNumber.NumberOfInteger | src/pages/AdminDashboard.jsx:34 | signed decimal integer text converts to its integer value |
| JsNumber.ParseIntAgreesWithNumber | src/pages/AdminDashboard.jsx:34 | on non-blank text that is a decimal integer once trimmed, `parseInt` and the `< 1` conversion give the same number |
| JsNumber.ExponentText | src/pages/AdminDashboard.jsx:34 | "0.1e1" converts to the number one, `parseInt` reads zero from it, and it is not integer text |
| JsNumber.FractionText | src/pages/AdminDashboard.jsx:34 | "1.5" converts to one and a half, `parseInt` reads one from it, and it is not integer text |
| JsNumber.FractionBelowOne | src/pages/AdminDashboard.jsx:34 | "0.5" converts to one half, which is below one |
| JsNumber.ParseSingleDigit | src/pages/BookPage.jsx:97 | `parseInt` of one digit is that digit's value |
| JsNumber.NonNumericTextIsNotLessThanOne | src/pages/AdminDashboard.jsx:34 | the text "abc" is not `< 1` (NaN), and `parseInt` gives NaN for it |
| AdminLogin.InitialState | src/pages/AdminLogin.jsx:6-9 | the page starts with an empty form, no field messages, no submit message, not loading |
| AdminLogin.ValidateFields | src/pages/AdminLogin.jsx:12-28 | the method's error map is the specification's, and it reports success exactly when the map has no keys, which is exactly when the form is acceptable |
| AdminLogin.LoginErrorsAt | src/pages/AdminLogin.jsx:13-24 | each field has an entry exactly when its rule fails, and the entry is that rule's single message |
| AdminLogin.BlankUsernameIsRequired | src/pages/AdminLogin.jsx:14-15 | a username blank after trimming gets exactly "Username is required", whatever its length |
| AdminLogin.ShortUsernameIsTooShort | src/pages/AdminLogin.jsx:16-17 | a non-blank username with untrimmed length below three gets the length message |
| AdminLogin.UsernameClean | src/pages/AdminLogin.jsx:14-18 | the username has no entry exactly when it is non-blank and at least three characters long |
| AdminLogin.PasswordMessages | src/pages/AdminLogin.jsx:20-24 | an empty password gets "Password is required"; a non-empty one shorter than six gets the length message; one of six or more gets none |
| AdminLogin.SpacesArePassword | src/pages/AdminLogin.jsx:20-24 | the password is never trimmed: six spaces raise no password error |
| AdminLogin.ErrorsAreFieldMessages | src/pages/AdminLogin.jsx:13-24 | the only keys are username and password, and each message is one of its field's two |
| AdminLogin.NoErrorsIffAcceptable | src/pages/AdminLogin.jsx:13-27 | the error map is empty exactly when the username is non-blank and at least three long and the password is at least six long |
| AdminLogin.HandleChange | src/pages/AdminLogin.jsx:30-35 | the named field takes the value and the other is kept; that field's message becomes ""; other messages are kept; the submit message is cleared |
| AdminLogin.ChangeHidesOnlyThatError | src/pages/AdminLogin.jsx:30-35 | after a change the edited field shows no message and the other shows what it showed before; repeating the change changes nothing more |
| AdminLogin.SubmitErrorMessage | src/pages/AdminLogin.jsx:48 | the failure message is the server's message when it is present and non-empty, otherwise "Invalid username or password"; it is never empty |
| AdminLogin.HandleSubmit | src/pages/AdminLogin.jsx:37-52 | field messages become the validator's; no request when the form is not acceptable; otherwise an accepted login stores the token and opens the dashboard, a rejected one shows the failure message; loading ends false |
| AdminDashboard.InitialForm | src/pages/AdminDashboard.jsx:11-20 | all eight fields start as empty text, the price included |
| AdminDashboard.InitialState | src/pages/AdminDashboard.jsx:11-23 | the initial form, no errors, not submitting |
| AdminDashboard.ErrorsUpToAt | src/pages/AdminDashboard.jsx:27-35 | after the first k checks a field has an entry exactly when it is among them and its rule fails, with the rule's message |
| AdminDashboard.InOrder | src/pages/AdminDashboard.jsx:29-35 | the error map is the seven checks applied in the source's order |
| JsObject.KeyCount | src/pages/AdminDashboard.jsx:38 | `Object.keys(errors).length` is zero exactly for the empty error object (also src/pages/AdminLogin.jsx:27) |
| JsObject.EmptyIffNoKeys | src/pages/AdminLogin.jsx:27 | a map has no keys exactly when it is empty |
| AdminDashboard.ValidateForm | src/pages/AdminDashboard.jsx:26-39 | the method's error map is the specification's, and it reports success exactly when the map is empty, which is exactly when the form is acceptable |
| AdminDashboard.EventErrorsAt | src/pages/AdminDashboard.jsx:27-35 | each field has an entry exactly when its rule fails, and the entry is the rule's message |
| AdminDashboard.TextFieldsRequired | src/pages/AdminDashboard.jsx:29-33 | title, description and venue get their "required" message exactly when blank after trimming |
| AdminDashboard.DateTimeRequired | src/pages/AdminDashboard.jsx:31-32 | date and time get their "required" message exactly when empty, without trimming |
| AdminDashboard.TotalSeatsMessages | src/pages/AdminDashboard.jsx:34 | the seat count gets "Must be at least 1 seat" exactly when it is empty or converts to a number below one; text that converts to NaN passes |
| AdminDashboard.ImageUrlMessages | src/pages/AdminDashboard.jsx:35 | an empty image URL never gets a message; a non-empty one gets "Must be a valid URL" exactly when it does not parse |
| AdminDashboard.PriceNeverChecked | src/pages/AdminDashboard.jsx:26-38 | price never has an entry; the keys are among the seven checked fields |
| AdminDashboard.NoErrorsIffAcceptable | src/pages/AdminDashboard.jsx:26-38 | the error map is empty exactly when all seven rules pass |
| AdminDashboard.SeatsEdgeCases | src/pages/AdminDashboard.jsx:34 | the handler's check on text the number input never delivers: whitespace-only seat text fails (it converts to zero), and non-numeric seat text passes (NaN is not below one) |
| AdminDashboard.FractionalSeats | src/pages/AdminDashboard.jsx:34 | fractions are compared as numbers: "0.5" fails the seat check and "1.5" passes it |
| AdminDashboard.SetField | src/pages/AdminDashboard.jsx:74 | the named field takes the value and every other field is kept |
| AdminDashboard.HandleInputChange | src/pages/AdminDashboard.jsx:73-78 | only the named field changes; its message becomes "" only when one was shown, otherwise the error map is untouched; the key set and the other messages are kept |
| AdminDashboard.BuildPayload | src/pages/AdminDashboard.jsx:86-93 | the text fields are sent as typed; available and total seats are both `parseInt` of the seat text; the price is `parseInt` of the price text |
| AdminDashboard.ValidatedSeatsArePositive | src/pages/AdminDashboard.jsx:34 | for a form that passed validation with seat text that is a decimal integer once trimmed, the seats sent equal the number checked and are at least one, and available equals total |
| AdminDashboard.CheckedSeatsDifferFromSent | src/pages/AdminDashboard.jsx:86-93 | a form with seat text "0.1e1" passes validation with no errors and is sent with zero total and zero available seats |
| AdminDashboard.IntendedTotalSeatsRule | src/pages/AdminDashboard.jsx:34 | the corrected seat rule; it has no contract of its own, and its behaviour is stated by `AdminDashboard.IntendedSeatsArePositive`, `AdminDashboard.IntendedRuleKeepsWholeNumbers` and `AdminDashboard.IntendedRuleRejectsMismatches` |
| AdminDashboard.IntendedSeatsArePositive | src/pages/AdminDashboard.jsx:34 | under the intended seat rule, every form that passes sends the number it checked, at least one, as both seat counts |
| AdminDashboard.IntendedRuleKeepsWholeNumbers | src/pages/AdminDashboard.jsx:34 | on whole-number seat text the intended rule gives the same message as the page's rule |
| AdminDashboard.IntendedRuleRejectsMismatches | src/pages/AdminDashboard.jsx:34 | the intended rule rejects "0.1e1" and "1.5", which the page lets through while sending a different number than it checked; it also rejects "abc", which the handler at line 34 accepts as NaN |
| AdminDashboard.ResetForm | src/pages/AdminDashboard.jsx:100-108 | the reset literal; it has no contract of its own, and its shape is stated by `AdminDashboard.ResetDropsPrice` and `AdminDashboard.AfterReset` |
| AdminDashboard.ResetDropsPrice | src/pages/AdminDashboard.jsx:100-108 | the reset empties the seven listed fields and drops the price key; it is the initial form without the price |
| AdminDashboard.AfterReset | src/pages/AdminDashboard.jsx:100-108 | after a reset the price is sent as NaN, and the reset form fails validation |
| AdminDashboard.OnSubmit | src/pages/AdminDashboard.jsx:80-117 | errors become the validator's; data is sent exactly when the form is acceptable, and it is the built payload; an add resets the form, a failure keeps it; submitting ends false |
| BookPage.InitialState | src/pages/BookPage.jsx:7-11 | no event, an empty name and email, one seat, no toast |
| BookPage.SeatOptionsExactly | src/pages/BookPage.jsx:100-102 | the selector offers exactly the counts 1 to 5, in order |
| BookPage.OptionText | src/pages/BookPage.jsx:100-102 | an option's value text is the single decimal digit of its count |
| BookPage.OptionTextParsesBack | src/pages/BookPage.jsx:97-102 | `parseInt` of an option's value text gives back the option's count |
| BookPage.ApplyEdit | src/pages/BookPage.jsx:84-97 | typing changes only the name or only the email; choosing an option keeps both texts and sets the count to that option's number, between one and five |
| BookPage.SeatsStayInRange | src/pages/BookPage.jsx:95-102 | any sequence of edits keeps the seat count between one and five |
| BookPage.InitialSeatsInRange | src/pages/BookPage.jsx:8 | from the initial form, every sequence of edits leaves a count between one and five |
| BookPage.TotalPrice | src/pages/BookPage.jsx:49 | the total is 0 with no event loaded, otherwise the ticket price times the seat count |
| BookPage.TotalPriceBounds | src/pages/BookPage.jsx:49 | with a non-negative price and an offered count, the total lies between one and five ticket prices, and one more seat adds one ticket price |
| BookPage.MakePayload | src/pages/BookPage.jsx:28-32 | the booking carries the name and email unchanged, the seat count as an integer and the route's event id |
| BookPage.HandleSubmit | src/pages/BookPage.jsx:25-47 | the booking is sent unconditionally; a success shows the "success" toast with its message, a failure the "error" toast with its message; the form and event are kept |
| BookPage.LoadEvent | src/pages/BookPage.jsx:14-23 | a loaded event is stored; a failed load shows "Failed to load event" as an error toast and keeps the event as it was |
| BookPage.FailedLoadShowsNoTotal | src/pages/BookPage.jsx:17-22 | after a failed load no event is shown and the total is zero |
| BookPage.BookingBeforeLoad | src/pages/BookPage.jsx:28-32 | before the event loads the total is zero, and a booking still names the route's event |

## Left out

- HTTP calls (axios), `localStorage`, `alert`, `window.confirm` and `console.error` are I/O. Each request's outcome is a parameter of the handler that awaits it: the login response, the add outcome, the booking result and the loaded event.
- The `setTimeout` toast dismissal and navigation (`navigate`, `useParams`) are timers and routing. The route id is a field of the booking state.
- The `URL` constructor behind `isValidUrl` is a browser API. Every operation that needs it takes it as a parameter.
- React hook semantics are not modelled: state updates are plain record transitions. This covers batching, functional `setState` updates and the `useEffect` refetch on tab change. `handleInputChange` reads `errors[field]` from the state it starts from.
- JSX rendering, CSS classes and the seat-option labels are presentation.
- BookPage.HandleSubmit: the browser withholds the submit event while the name is empty or the email fails `type="email"`. The model starts at the handler, which has no check of its own, so it also covers bookings the browser would not let through.
- Event listing, bookings listing, delete and tab switching in the dashboard are fetch-and-render code with no rules to state.
- HomePage, EventCard, Navbar and App are pure presentation and routing, so they are not part of this model.
- The seat and price inputs are `type="number"`. The browser's value sanitisation gives the handler either "" or a valid floating-point number such as "12", "1.5" or "0.1e1". The model accepts any text in these fields, so "  " and "abc" in `AdminDashboard.SeatsEdgeCases` describe the check at src/pages/AdminDashboard.jsx:34 on text the page cannot deliver.
- JsNumber.ToNumber: decimal literals only. Hexadecimal, octal and binary prefixes and `Infinity` convert to `None` (NaN) here, though JavaScript gives them values. Values are exact reals, not rounded to double precision, so "0.99999999999999999999" is below one here but rounds to one in JavaScript.
- JsNumber.ParseInt: base ten only. The `0x` prefix is not recognised, and the result is not bounded to double precision.
- Lengths are counted in Unicode scalar values, not UTF-16 code units, so characters outside the Basic Multilingual Plane count once rather than twice.
- BookPage.EventInfo: only the ticket price is modelled, as an integer. The other event fields are only rendered.
- AdminDashboard.ValidatedSeatsArePositive: holds only for seat text that is a decimal integer once trimmed. The page checks the seat text with `Number(text)` but sends `parseInt(text)`. So "1.5" passes and sends one seat, and "0.1e1" passes and sends zero (see "## Findings").
- BookPage.MakePayload: the seat count is held as an integer, which is what the `select` handler stores, so `parseInt` of it is the identity.

## Findings

| source | as written | input that shows it | evidently intended | confidence | as-written member | corrected member |
|---|---|---|---|---|---|---|
| src/pages/AdminDashboard.jsx:34 | the seat check converts the text with `Number`, but the event data carries `parseInt` of the same text (lines 90-91) | totalSeats "0.1e1": the number one passes the check, and `parseInt` sends 0 total and 0 available seats | an event that passes validation is sent with the seat count that was checked, at least one | not executed | AdminDashboard.CheckedSeatsDifferFromSent | AdminDashboard.IntendedSeatsArePositive |

The validator, `OnSubmit` and the other members model the page as written.
The corrected rule is `AdminDashboard.IntendedTotalSeatsRule`, stated beside them. It accepts only seat text that is a whole number of at least one once trimmed. `AdminDashboard.IntendedRuleKeepsWholeNumbers` shows it agrees with the page's rule on whole-number text. `AdminDashboard.IntendedRuleRejectsMismatches` shows it rejects "0.1e1" and "1.5", the texts that expose the mismatch.
