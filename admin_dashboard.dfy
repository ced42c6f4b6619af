/** The event-creation form of the admin dashboard (src/pages/AdminDashboard.jsx):
    its validator, its change handler, the event data it sends and the reset
    after a successful add. `isValidUrl` stands for "`new URL(text)` does not
    throw"; the browser's URL parser is not part of the model, so every
    operation that needs it takes it as a parameter. */
module AdminDashboard {
  import opened Wrappers
  import opened JsText
  import opened JsNumber
  import opened JsObject

  /** The form's inputs, by the key each one writes. */
  datatype EventField = Title | Description | Date | Time | Venue | TotalSeats | ImageUrl | Price

  /** The form as the page holds it: every input's text. `price` is `None` once
      the reset after an add has dropped the key. */
  datatype EventForm = EventForm(
    title: string,
    description: string,
    date: string,
    time: string,
    venue: string,
    totalSeats: string,
    imageUrl: string,
    price: Option<string>)

  datatype DashboardState = DashboardState(
    form: EventForm,
    errors: map<EventField, string>,
    isSubmitting: bool)

  const TitleRequired := "Title is required"
  const DescriptionRequired := "Description is required"
  const DateRequired := "Date is required"
  const TimeRequired := "Time is required"
  const VenueRequired := "Venue is required"
  const SeatsTooFew := "Must be at least 1 seat"
  const UrlInvalid := "Must be a valid URL"

  function InitialForm(): (f: EventForm)
    ensures f.title == f.description == f.date == f.time == f.venue == ""
    ensures f.totalSeats == f.imageUrl == "" && f.price == Some("")
  {
    EventForm("", "", "", "", "", "", "", Some(""))
  }

  function InitialState(): (s: DashboardState)
    ensures s.form == InitialForm() && s.errors == map[] && !s.isSubmitting
  {
    DashboardState(InitialForm(), map[], false)
  }

  /** `formData[field]`: the text of one input, `None` for a dropped key. */
  function FieldValue(form: EventForm, field: EventField): Option<string> {
    match field
    case Title => Some(form.title)
    case Description => Some(form.description)
    case Date => Some(form.date)
    case Time => Some(form.time)
    case Venue => Some(form.venue)
    case TotalSeats => Some(form.totalSeats)
    case ImageUrl => Some(form.imageUrl)
    case Price => form.price
  }

  /** The rules, one per field: the message the field earns, if any. Title,
      description and venue are trimmed, date and time are not. */
  function TitleRule(form: EventForm): Option<string> {
    if IsBlank(form.title) then Some(TitleRequired) else None
  }

  function DescriptionRule(form: EventForm): Option<string> {
    if IsBlank(form.description) then Some(DescriptionRequired) else None
  }

  function DateRule(form: EventForm): Option<string> {
    if form.date == "" then Some(DateRequired) else None
  }

  function TimeRule(form: EventForm): Option<string> {
    if form.time == "" then Some(TimeRequired) else None
  }

  function VenueRule(form: EventForm): Option<string> {
    if IsBlank(form.venue) then Some(VenueRequired) else None
  }

  /** The seat count fails when empty or a number below one. */
  function TotalSeatsRule(form: EventForm): Option<string> {
    if form.totalSeats == "" || LessThanOne(form.totalSeats) then Some(SeatsTooFew) else None
  }

  /** An image URL fails only when present and unparsable. */
  function ImageUrlRule(form: EventForm, isValidUrl: string -> bool): Option<string> {
    if form.imageUrl != "" && !isValidUrl(form.imageUrl) then Some(UrlInvalid) else None
  }

  /** The rule table; the price has no rule. */
  function FieldRule(form: EventForm, field: EventField, isValidUrl: string -> bool): Option<string> {
    match field
    case Title => TitleRule(form)
    case Description => DescriptionRule(form)
    case Date => DateRule(form)
    case Time => TimeRule(form)
    case Venue => VenueRule(form)
    case TotalSeats => TotalSeatsRule(form)
    case ImageUrl => ImageUrlRule(form, isValidUrl)
    case Price => None
  }

  /** One check of the validator: a failing rule records its message for the
      field, a passing one leaves the map as it was. */
  function Check(errors: map<EventField, string>, field: EventField, rule: Option<string>): map<EventField, string> {
    match rule
    case Some(message) => errors[field := message]
    case None => errors
  }

  /** The fields the validator checks, in the order it checks them. */
  const CheckedFields: seq<EventField> := [Title, Description, Date, Time, Venue, TotalSeats, ImageUrl]

  /** The entries the first `k` checked fields contribute: one per field whose
      rule fails. */
  function ErrorsUpTo(form: EventForm, k: nat, isValidUrl: string -> bool): map<EventField, string>
    requires k <= |CheckedFields|
  {
    if k == 0 then map[]
    else Check(ErrorsUpTo(form, k - 1, isValidUrl), CheckedFields[k - 1], FieldRule(form, CheckedFields[k - 1], isValidUrl))
  }

  /** The error map the validator produces. */
  function EventErrors(form: EventForm, isValidUrl: string -> bool): map<EventField, string> {
    ErrorsUpTo(form, |CheckedFields|, isValidUrl)
  }

  /** A field has an entry exactly when it is among the first `k` checked and its
      rule fails, and the entry is the rule's message. */
  lemma {:induction false} ErrorsUpToAt(form: EventForm, k: nat, f: EventField, isValidUrl: string -> bool)
    requires k <= |CheckedFields|
    ensures f in ErrorsUpTo(form, k, isValidUrl) <==> f in CheckedFields[..k] && FieldRule(form, f, isValidUrl).Some?
    ensures f in ErrorsUpTo(form, k, isValidUrl) ==>
      ErrorsUpTo(form, k, isValidUrl)[f] == FieldRule(form, f, isValidUrl).value
  {
    if k > 0 {
      ErrorsUpToAt(form, k - 1, f, isValidUrl);
      assert CheckedFields[..k] == CheckedFields[..k - 1] + [CheckedFields[k - 1]];
    }
  }

  /** The error map is the seven checks applied in the order of the form. */
  lemma InOrder(form: EventForm, isValidUrl: string -> bool)
    ensures EventErrors(form, isValidUrl)
         == Check(Check(Check(Check(Check(Check(Check(map[],
              Title, TitleRule(form)), Description, DescriptionRule(form)), Date, DateRule(form)),
              Time, TimeRule(form)), Venue, VenueRule(form)), TotalSeats, TotalSeatsRule(form)),
              ImageUrl, ImageUrlRule(form, isValidUrl))
  {
    var u := isValidUrl;
    assert ErrorsUpTo(form, 1, u) == Check(map[], Title, TitleRule(form));
    assert ErrorsUpTo(form, 2, u) == Check(ErrorsUpTo(form, 1, u), Description, DescriptionRule(form));
    assert ErrorsUpTo(form, 3, u) == Check(ErrorsUpTo(form, 2, u), Date, DateRule(form));
    assert ErrorsUpTo(form, 4, u) == Check(ErrorsUpTo(form, 3, u), Time, TimeRule(form));
    assert ErrorsUpTo(form, 5, u) == Check(ErrorsUpTo(form, 4, u), Venue, VenueRule(form));
    assert ErrorsUpTo(form, 6, u) == Check(ErrorsUpTo(form, 5, u), TotalSeats, TotalSeatsRule(form));
    assert ErrorsUpTo(form, 7, u) == Check(ErrorsUpTo(form, 6, u), ImageUrl, ImageUrlRule(form, u));
  }

  /** What a form must satisfy to be sent. */
  predicate Acceptable(form: EventForm, isValidUrl: string -> bool) {
    && !IsBlank(form.title)
    && !IsBlank(form.description)
    && form.date != ""
    && form.time != ""
    && !IsBlank(form.venue)
    && form.totalSeats != "" && !LessThanOne(form.totalSeats)
    && (form.imageUrl == "" || isValidUrl(form.imageUrl))
  }

  /** `validateForm`: fills a fresh error object field by field, in the order of
      the form, and reports whether it stayed empty. */
  method ValidateForm(form: EventForm, isValidUrl: string -> bool)
    returns (errors: map<EventField, string>, ok: bool)
    ensures errors == EventErrors(form, isValidUrl)
    ensures ok <==> EventErrors(form, isValidUrl) == map[]
    ensures ok <==> Acceptable(form, isValidUrl)
  {
    errors := map[];
    ghost var e0 := errors;
    if IsBlank(form.title) { errors := errors[Title := TitleRequired]; }
    assert errors == Check(e0, Title, TitleRule(form));
    ghost var e1 := errors;
    if IsBlank(form.description) { errors := errors[Description := DescriptionRequired]; }
    assert errors == Check(e1, Description, DescriptionRule(form));
    ghost var e2 := errors;
    if form.date == "" { errors := errors[Date := DateRequired]; }
    assert errors == Check(e2, Date, DateRule(form));
    ghost var e3 := errors;
    if form.time == "" { errors := errors[Time := TimeRequired]; }
    assert errors == Check(e3, Time, TimeRule(form));
    ghost var e4 := errors;
    if IsBlank(form.venue) { errors := errors[Venue := VenueRequired]; }
    assert errors == Check(e4, Venue, VenueRule(form));
    ghost var e5 := errors;
    if form.totalSeats == "" || LessThanOne(form.totalSeats) {
      errors := errors[TotalSeats := SeatsTooFew];
    }
    assert errors == Check(e5, TotalSeats, TotalSeatsRule(form));
    ghost var e6 := errors;
    if form.imageUrl != "" && !isValidUrl(form.imageUrl) {
      errors := errors[ImageUrl := UrlInvalid];
    }
    assert errors == Check(e6, ImageUrl, ImageUrlRule(form, isValidUrl));
    InOrder(form, isValidUrl);
    ok := KeyCount(errors) == 0;
    NoErrorsIffAcceptable(form, isValidUrl);
  }

  /** The entry of a field in the error map is the field's rule. */
  lemma EventErrorsAt(form: EventForm, f: EventField, isValidUrl: string -> bool)
    ensures f in EventErrors(form, isValidUrl) <==> FieldRule(form, f, isValidUrl).Some?
    ensures f in EventErrors(form, isValidUrl) ==>
      EventErrors(form, isValidUrl)[f] == FieldRule(form, f, isValidUrl).value
  {
    ErrorsUpToAt(form, |CheckedFields|, f, isValidUrl);
    assert CheckedFields[..|CheckedFields|] == CheckedFields;
  }

  /** Title, description and venue earn their "required" message exactly when
      they are blank after trimming. */
  lemma TextFieldsRequired(form: EventForm, isValidUrl: string -> bool)
    ensures Title in EventErrors(form, isValidUrl) <==> IsBlank(form.title)
    ensures Description in EventErrors(form, isValidUrl) <==> IsBlank(form.description)
    ensures Venue in EventErrors(form, isValidUrl) <==> IsBlank(form.venue)
    ensures Title in EventErrors(form, isValidUrl) ==> EventErrors(form, isValidUrl)[Title] == TitleRequired
    ensures Description in EventErrors(form, isValidUrl) ==>
      EventErrors(form, isValidUrl)[Description] == DescriptionRequired
    ensures Venue in EventErrors(form, isValidUrl) ==> EventErrors(form, isValidUrl)[Venue] == VenueRequired
  {
    EventErrorsAt(form, Title, isValidUrl);
    EventErrorsAt(form, Description, isValidUrl);
    EventErrorsAt(form, Venue, isValidUrl);
  }

  /** Date and time earn their "required" message exactly when they are empty;
      they are not trimmed. */
  lemma DateTimeRequired(form: EventForm, isValidUrl: string -> bool)
    ensures Date in EventErrors(form, isValidUrl) <==> form.date == ""
    ensures Time in EventErrors(form, isValidUrl) <==> form.time == ""
    ensures Date in EventErrors(form, isValidUrl) ==> EventErrors(form, isValidUrl)[Date] == DateRequired
    ensures Time in EventErrors(form, isValidUrl) ==> EventErrors(form, isValidUrl)[Time] == TimeRequired
  {
    EventErrorsAt(form, Date, isValidUrl);
    EventErrorsAt(form, Time, isValidUrl);
  }

  /** The seat count earns "Must be at least 1 seat" exactly when it is empty or
      a number below one; text that is not a number passes. */
  lemma TotalSeatsMessages(form: EventForm, isValidUrl: string -> bool)
    ensures TotalSeats in EventErrors(form, isValidUrl) <==>
      form.totalSeats == "" || (ToNumber(form.totalSeats).Some? && ToNumber(form.totalSeats).value < 1.0)
    ensures TotalSeats in EventErrors(form, isValidUrl) ==>
      EventErrors(form, isValidUrl)[TotalSeats] == SeatsTooFew
  {
    EventErrorsAt(form, TotalSeats, isValidUrl);
  }

  /** An empty image URL never earns a message; a non-empty one earns "Must be a
      valid URL" exactly when it does not parse. */
  lemma ImageUrlMessages(form: EventForm, isValidUrl: string -> bool)
    ensures form.imageUrl == "" ==> ImageUrl !in EventErrors(form, isValidUrl)
    ensures form.imageUrl != "" ==>
      (ImageUrl in EventErrors(form, isValidUrl) <==> !isValidUrl(form.imageUrl))
    ensures ImageUrl in EventErrors(form, isValidUrl) ==> EventErrors(form, isValidUrl)[ImageUrl] == UrlInvalid
  {
    EventErrorsAt(form, ImageUrl, isValidUrl);
  }

  /** The price is never checked: the keys are among the other seven fields. */
  lemma PriceNeverChecked(form: EventForm, isValidUrl: string -> bool)
    ensures Price !in EventErrors(form, isValidUrl)
    ensures EventErrors(form, isValidUrl).Keys <= {Title, Description, Date, Time, Venue, TotalSeats, ImageUrl}
  {
    forall f | f in EventErrors(form, isValidUrl)
      ensures f in {Title, Description, Date, Time, Venue, TotalSeats, ImageUrl}
    {
      EventErrorsAt(form, f, isValidUrl);
    }
    EventErrorsAt(form, Price, isValidUrl);
  }

  /** The error map is empty exactly when the form is acceptable. */
  lemma NoErrorsIffAcceptable(form: EventForm, isValidUrl: string -> bool)
    ensures EventErrors(form, isValidUrl) == map[] <==> Acceptable(form, isValidUrl)
  {
    TextFieldsRequired(form, isValidUrl);
    DateTimeRequired(form, isValidUrl);
    TotalSeatsMessages(form, isValidUrl);
    ImageUrlMessages(form, isValidUrl);
    PriceNeverChecked(form, isValidUrl);
    if EventErrors(form, isValidUrl) != map[] {
      var f :| f in EventErrors(form, isValidUrl);
      assert f in EventErrors(form, isValidUrl).Keys;
    }
  }

  /** The check on text a number input never delivers: whitespace-only seat text
      is truthy but counts as zero, so it fails, and text that is not a number
      passes. */
  lemma SeatsEdgeCases(isValidUrl: string -> bool)
    ensures TotalSeats in EventErrors(InitialForm().(totalSeats := "  "), isValidUrl)
    ensures TotalSeats !in EventErrors(InitialForm().(totalSeats := "abc"), isValidUrl)
  {
    NonNumericTextIsNotLessThanOne();
    TotalSeatsMessages(InitialForm().(totalSeats := "  "), isValidUrl);
    TotalSeatsMessages(InitialForm().(totalSeats := "abc"), isValidUrl);
  }

  /** Fractions are compared as numbers: "0.5" fails, "1.5" passes. */
  lemma FractionalSeats(isValidUrl: string -> bool)
    ensures TotalSeats in EventErrors(InitialForm().(totalSeats := "0.5"), isValidUrl)
    ensures TotalSeats !in EventErrors(InitialForm().(totalSeats := "1.5"), isValidUrl)
  {
    FractionBelowOne();
    FractionText();
    TotalSeatsMessages(InitialForm().(totalSeats := "0.5"), isValidUrl);
    TotalSeatsMessages(InitialForm().(totalSeats := "1.5"), isValidUrl);
  }

  /** A message is shown under a field when its entry is present and non-empty:
      `errors[field]` is truthy. */
  predicate ShowsError(errors: map<EventField, string>, field: EventField) {
    field in errors && errors[field] != ""
  }

  function SetField(form: EventForm, field: EventField, value: string): (f: EventForm)
    ensures FieldValue(f, field) == Some(value)
    ensures forall g :: g != field ==> FieldValue(f, g) == FieldValue(form, g)
  {
    match field
    case Title => form.(title := value)
    case Description => form.(description := value)
    case Date => form.(date := value)
    case Time => form.(time := value)
    case Venue => form.(venue := value)
    case TotalSeats => form.(totalSeats := value)
    case ImageUrl => form.(imageUrl := value)
    case Price => form.(price := Some(value))
  }

  /** `handleInputChange`: stores the value in the named field; the field's
      message is set to the empty string only if one was shown, otherwise the
      error map is left exactly as it was. */
  function HandleInputChange(s: DashboardState, field: EventField, value: string): (s': DashboardState)
    ensures FieldValue(s'.form, field) == Some(value)
    ensures forall g :: g != field ==> FieldValue(s'.form, g) == FieldValue(s.form, g)
    ensures s'.errors.Keys == s.errors.Keys
    ensures !ShowsError(s'.errors, field)
    ensures forall g :: g in s.errors && g != field ==> s'.errors[g] == s.errors[g]
    ensures !ShowsError(s.errors, field) ==> s'.errors == s.errors
    ensures s'.isSubmitting == s.isSubmitting
  {
    var errors := if ShowsError(s.errors, field) then s.errors[field := ""] else s.errors;
    s.(form := SetField(s.form, field, value), errors := errors)
  }

  /** The event data sent to the server. A `None` number is NaN. */
  datatype EventPayload = EventPayload(
    title: string,
    description: string,
    date: string,
    time: string,
    venue: string,
    imageUrl: string,
    totalSeats: Option<int>,
    availableSeats: Option<int>,
    price: Option<int>)

  /** `parseInt(formData.price)`: NaN for a dropped key. */
  function ParsePrice(price: Option<string>): Option<int> {
    if price.None? then None else ParseInt(price.value)
  }

  /** `{ ...formData, availableSeats, totalSeats, price }`: the text fields are
      sent as typed; both seat counts are the one parsed seat text. */
  function BuildPayload(form: EventForm): (p: EventPayload)
    ensures p.title == form.title && p.description == form.description
    ensures p.date == form.date && p.time == form.time
    ensures p.venue == form.venue && p.imageUrl == form.imageUrl
    ensures p.availableSeats == p.totalSeats == ParseInt(form.totalSeats)
    ensures p.price == ParsePrice(form.price)
  {
    var seats := ParseInt(form.totalSeats);
    EventPayload(form.title, form.description, form.date, form.time, form.venue,
                 form.imageUrl, seats, seats, ParsePrice(form.price))
  }

  /** A form that passes validation with whole-number seat text sends that
      number, which is at least one, as both the total and the available seats. */
  lemma ValidatedSeatsArePositive(form: EventForm, isValidUrl: string -> bool)
    requires Acceptable(form, isValidUrl)
    requires IntegerText(Trim(form.totalSeats)).Some?
    ensures BuildPayload(form).totalSeats == IntegerText(Trim(form.totalSeats))
    ensures ToNumber(form.totalSeats) == Some(BuildPayload(form).totalSeats.value as real)
    ensures BuildPayload(form).totalSeats.value >= 1
    ensures BuildPayload(form).availableSeats == BuildPayload(form).totalSeats
  {
    ParseIntAgreesWithNumber(form.totalSeats);
  }

  /** A form the page accepts and sends with zero seats: "0.1e1" is the number
      one, so it passes the check, but `parseInt` stops at the point. */
  lemma CheckedSeatsDifferFromSent(isValidUrl: string -> bool)
    ensures var form := EventForm("Gig", "Live music", "2025-06-01", "20:00", "Hall", "0.1e1", "", Some("10"));
      && Acceptable(form, isValidUrl)
      && EventErrors(form, isValidUrl) == map[]
      && BuildPayload(form).totalSeats == Some(0)
      && BuildPayload(form).availableSeats == Some(0)
  {
    var form := EventForm("Gig", "Live music", "2025-06-01", "20:00", "Hall", "0.1e1", "", Some("10"));
    ExponentText();
    assert !IsJsWhitespace(form.title[0]) && !IsJsWhitespace(form.description[0]);
    assert !IsJsWhitespace(form.venue[0]);
    NoErrorsIffAcceptable(form, isValidUrl);
  }

  /** Seat text that is a whole number of at least one once trimmed: the text for
      which the number checked and the number sent agree. */
  predicate WholeSeatCount(s: string) {
    !IsBlank(s) && IntegerText(Trim(s)).Some? && IntegerText(Trim(s)).value >= 1
  }

  /** The seat rule as evidently intended: the message unless the text is a whole
      number of at least one. */
  function IntendedTotalSeatsRule(form: EventForm): Option<string> {
    if WholeSeatCount(form.totalSeats) then None else Some(SeatsTooFew)
  }

  /** Under the intended rule every form that passes sends the number it checked,
      at least one, as both seat counts. */
  lemma IntendedSeatsArePositive(form: EventForm)
    requires IntendedTotalSeatsRule(form).None?
    ensures BuildPayload(form).totalSeats.Some? && BuildPayload(form).totalSeats.value >= 1
    ensures ToNumber(form.totalSeats) == Some(BuildPayload(form).totalSeats.value as real)
    ensures BuildPayload(form).availableSeats == BuildPayload(form).totalSeats
  {
    ParseIntAgreesWithNumber(form.totalSeats);
  }

  /** The intended rule differs from the page's only on text that is not a whole
      number: on whole-number text the two give the same message. */
  lemma IntendedRuleKeepsWholeNumbers(form: EventForm)
    requires !IsBlank(form.totalSeats) && IntegerText(Trim(form.totalSeats)).Some?
    ensures IntendedTotalSeatsRule(form) == TotalSeatsRule(form)
  {
    ParseIntAgreesWithNumber(form.totalSeats);
  }

  /** The intended rule rejects "0.1e1" and "1.5", which the page lets through
      while sending a different number than it checked. It also rejects "abc",
      which the page's check accepts as NaN. */
  lemma IntendedRuleRejectsMismatches(form: EventForm)
    ensures IntendedTotalSeatsRule(form.(totalSeats := "0.1e1")).Some?
    ensures IntendedTotalSeatsRule(form.(totalSeats := "1.5")).Some?
    ensures IntendedTotalSeatsRule(form.(totalSeats := "abc")).Some?
  {
    ExponentText();
    FractionText();
    NonNumericTextIsNotLessThanOne();
  }

  /** The form after a successful add: seven fields emptied. The literal has no
      `price` key, so the price is dropped rather than emptied. */
  function ResetForm(): EventForm {
    EventForm("", "", "", "", "", "", "", None)
  }

  /** The reset empties the seven listed fields and drops the price: it is the
      initial form but for the price. */
  lemma ResetDropsPrice()
    ensures FieldValue(ResetForm(), Price) == None
    ensures forall g :: g != Price ==> FieldValue(ResetForm(), g) == Some("")
    ensures ResetForm() == InitialForm().(price := None)
  {
  }

  /** After a reset the unedited price is sent as NaN, and the reset form cannot
      be sent again until new data is typed, whatever the URL check says. */
  lemma AfterReset(isValidUrl: string -> bool)
    ensures BuildPayload(ResetForm()).price == None
    ensures !Acceptable(ResetForm(), isValidUrl)
  {
    assert IsBlank(ResetForm().title);
  }

  /** The answer to the request that adds the event. */
  datatype AddOutcome = Added | AddFailed

  /** `onSubmit`: the messages become the validator's; an invalid form stops there
      with nothing sent. Otherwise the event data is sent, and `outcome` is the
      answer: an added event resets the form, a failure keeps it. Either way the
      submitting flag ends false. */
  method OnSubmit(s: DashboardState, isValidUrl: string -> bool, outcome: AddOutcome)
    returns (s': DashboardState, sent: Option<EventPayload>)
    ensures s'.errors == EventErrors(s.form, isValidUrl)
    ensures sent.Some? <==> Acceptable(s.form, isValidUrl)
    ensures sent.None? ==> s'.form == s.form && s'.isSubmitting == s.isSubmitting
    ensures sent.Some? ==> sent.value == BuildPayload(s.form) && !s'.isSubmitting
    ensures sent.Some? && outcome.Added? ==> s'.form == ResetForm()
    ensures sent.Some? && outcome.AddFailed? ==> s'.form == s.form
  {
    var errors, ok := ValidateForm(s.form, isValidUrl);
    s' := s.(errors := errors);
    if !ok {
      sent := None;
      return;
    }
    s' := s'.(isSubmitting := true);
    sent := Some(BuildPayload(s.form));
    if outcome.Added? {
      s' := s'.(form := ResetForm());
    }
    s' := s'.(isSubmitting := false);
  }
}
