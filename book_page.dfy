/** The booking page (src/pages/BookPage.jsx): the booking form, its seat
    selector, the total it shows and the request it sends for the event named
    in the route. React state is modelled as a record, each handler as a
    transition from the old record to the new one. */
module BookPage {
  import opened Wrappers
  import opened JsNumber

  datatype BookingForm = BookingForm(name: string, email: string, seats: int)

  /** The event as loaded from the server; the page's arithmetic uses only its
      price per ticket. */
  datatype EventInfo = EventInfo(price: int)

  datatype ToastType = SuccessToast | ErrorToast

  /** The page's state; `routeId` is the `id` route parameter. */
  datatype BookState = BookState(
    routeId: string,
    event: Option<EventInfo>,
    form: BookingForm,
    showToast: bool,
    toastMessage: string,
    toastType: ToastType)

  const BookingSucceeded := "Booking successfull"
  const BookingFailed := "Booking failed "
  const LoadFailed := "Failed to load event"

  /** The page as first rendered: no event, an empty form booking one seat, no
      toast shown. */
  function InitialState(routeId: string): (s: BookState)
    ensures s.routeId == routeId && s.event.None?
    ensures s.form.name == "" && s.form.email == "" && s.form.seats == 1
    ensures !s.showToast && s.toastMessage == "" && s.toastType == SuccessToast
  {
    BookState(routeId, None, BookingForm("", "", 1), false, "", SuccessToast)
  }

  /** The seat counts the selector offers, in order. */
  const SeatOptions: seq<int> := [1, 2, 3, 4, 5]

  /** The selector offers exactly the counts one to five, each once, in order. */
  lemma SeatOptionsExactly()
    ensures |SeatOptions| == 5
    ensures forall i :: 0 <= i < |SeatOptions| ==> SeatOptions[i] == i + 1
    ensures forall n :: n in SeatOptions <==> 1 <= n <= 5
  {
  }

  predicate SeatsInRange(form: BookingForm) {
    1 <= form.seats <= 5
  }

  /** One change the user can make to the form: typing a name or an email, or
      choosing the option at a position of the selector. */
  datatype FormEdit = TypeName(name: string) | TypeEmail(email: string) | ChooseSeats(option: nat)

  /** A choice names one of the selector's options. */
  predicate IsOffered(edit: FormEdit) {
    edit.ChooseSeats? ==> edit.option < |SeatOptions|
  }

  /** The `value` text of the option for a count: its decimal digit. */
  function OptionText(n: int): (text: string)
    requires 1 <= n <= 5
    ensures |text| == 1 && IsDigit(text[0]) && DigitValue(text[0]) == n
  {
    [('0' as int + n) as char]
  }

  /** `parseInt` of an option's value text gives back the option's count. */
  lemma OptionTextParsesBack(option: nat)
    requires option < |SeatOptions|
    ensures ParseInt(OptionText(SeatOptions[option])) == Some(SeatOptions[option])
  {
    var text := OptionText(SeatOptions[option]);
    assert text == [text[0]];
    ParseSingleDigit(text[0]);
  }

  /** `setForm({ ...form, field: value })`: the edited field changes and the
      others are kept. A choice stores `parseInt` of the chosen option's value
      text, which is the option's count. */
  function ApplyEdit(form: BookingForm, edit: FormEdit): (f: BookingForm)
    requires IsOffered(edit)
    ensures edit.TypeName? ==> f == BookingForm(edit.name, form.email, form.seats)
    ensures edit.TypeEmail? ==> f == BookingForm(form.name, edit.email, form.seats)
    ensures edit.ChooseSeats? ==> f == BookingForm(form.name, form.email, SeatOptions[edit.option])
    ensures edit.ChooseSeats? ==> SeatsInRange(f)
  {
    match edit
    case TypeName(name) => form.(name := name)
    case TypeEmail(email) => form.(email := email)
    case ChooseSeats(option) =>
      OptionTextParsesBack(option);
      form.(seats := ParseInt(OptionText(SeatOptions[option])).value)
  }

  function ApplyEdits(form: BookingForm, edits: seq<FormEdit>): BookingForm
    requires forall i :: 0 <= i < |edits| ==> IsOffered(edits[i])
    decreases |edits|
  {
    if edits == [] then form else ApplyEdits(ApplyEdit(form, edits[0]), edits[1..])
  }

  /** Whatever the user types and chooses, a seat count between one and five
      stays between one and five. */
  lemma {:induction false} SeatsStayInRange(form: BookingForm, edits: seq<FormEdit>)
    requires SeatsInRange(form)
    requires forall i :: 0 <= i < |edits| ==> IsOffered(edits[i])
    ensures SeatsInRange(ApplyEdits(form, edits))
    decreases |edits|
  {
    if edits != [] {
      assert forall i :: 0 <= i < |edits[1..]| ==> IsOffered(edits[1..][i]) by {
        forall i | 0 <= i < |edits[1..]| ensures IsOffered(edits[1..][i]) {
          assert edits[1..][i] == edits[i + 1];
        }
      }
      SeatsStayInRange(ApplyEdit(form, edits[0]), edits[1..]);
    }
  }

  lemma InitialSeatsInRange(routeId: string, edits: seq<FormEdit>)
    requires forall i :: 0 <= i < |edits| ==> IsOffered(edits[i])
    ensures SeatsInRange(ApplyEdits(InitialState(routeId).form, edits))
  {
    SeatsStayInRange(InitialState(routeId).form, edits);
  }

  /** `totalPrice`: nothing to pay before the event is loaded, the ticket price
      times the seat count after. */
  function TotalPrice(event: Option<EventInfo>, form: BookingForm): (total: int)
    ensures event.None? ==> total == 0
    ensures event.Some? ==> total == event.value.price * form.seats
  {
    if event.Some? then event.value.price * form.seats else 0
  }

  /** With a loaded event of non-negative price and a seat count the selector
      offers, the total lies between one and five ticket prices, and each extra
      seat adds one ticket price. */
  lemma TotalPriceBounds(e: EventInfo, form: BookingForm)
    requires e.price >= 0 && SeatsInRange(form)
    ensures e.price <= TotalPrice(Some(e), form) <= 5 * e.price
    ensures TotalPrice(Some(e), form.(seats := form.seats + 1)) == TotalPrice(Some(e), form) + e.price
  {
    assert e.price * form.seats <= e.price * 5 by {
      assert e.price * (5 - form.seats) >= 0;
    }
    assert e.price * (form.seats + 1) == e.price * form.seats + e.price;
  }

  /** The body of the booking request. */
  datatype BookingPayload = BookingPayload(name: string, email: string, seats: int, eventId: string)

  /** `{ ...form, seats: parseInt(form.seats), eventId: id }`: the name and email
      as typed, the seat count as an integer (it already is one, so `parseInt`
      keeps it) and the route's event id. */
  function MakePayload(form: BookingForm, routeId: string): (p: BookingPayload)
    ensures p.name == form.name && p.email == form.email
    ensures p.seats == form.seats && p.eventId == routeId
  {
    BookingPayload(form.name, form.email, form.seats, routeId)
  }

  /** What a submit produces: the new state and the request body it sent. */
  datatype SubmitResult = SubmitResult(state: BookState, sent: BookingPayload)

  /** `handleSubmit`: sends the booking unconditionally; `booked` is the server's
      answer. A success shows a success toast, a failure an error toast; the form
      and the event are kept. */
  function HandleSubmit(s: BookState, booked: bool): (r: SubmitResult)
    ensures r.sent == MakePayload(s.form, s.routeId)
    ensures r.state.showToast
    ensures r.state.toastType == SuccessToast <==> booked
    ensures r.state.toastMessage == (if booked then BookingSucceeded else BookingFailed)
    ensures r.state.form == s.form && r.state.event == s.event && r.state.routeId == s.routeId
  {
    var payload := MakePayload(s.form, s.routeId);
    if booked then
      SubmitResult(s.(toastMessage := BookingSucceeded, toastType := SuccessToast, showToast := true), payload)
    else
      SubmitResult(s.(toastMessage := BookingFailed, toastType := ErrorToast, showToast := true), payload)
  }

  /** The effect that loads the event: the loaded event is stored; a failed load
      shows an error toast and keeps the event as it was. */
  function LoadEvent(s: BookState, loaded: Option<EventInfo>): (s': BookState)
    ensures loaded.Some? ==> s' == s.(event := loaded)
    ensures loaded.None? ==>
      s'.event == s.event && s'.showToast && s'.toastType == ErrorToast && s'.toastMessage == LoadFailed
    ensures s'.form == s.form && s'.routeId == s.routeId
  {
    if loaded.Some? then s.(event := loaded)
    else s.(toastMessage := LoadFailed, toastType := ErrorToast, showToast := true)
  }

  /** After a failed first load the page shows no event and a total of zero, whatever
      the form holds. */
  lemma FailedLoadShowsNoTotal(routeId: string, form: BookingForm)
    ensures LoadEvent(InitialState(routeId), None).event.None?
    ensures TotalPrice(LoadEvent(InitialState(routeId).(form := form), None).event, form) == 0
  {
  }

  /** Until the event has loaded the page shows a total of zero, whatever the
      form holds; the booking it sends still names the route's event. */
  lemma BookingBeforeLoad(routeId: string, form: BookingForm, booked: bool)
    ensures TotalPrice(InitialState(routeId).event, form) == 0
    ensures HandleSubmit(InitialState(routeId).(form := form), booked).sent.eventId == routeId
  {
  }
}
