/** The booking page's step machine (components/booking/booking-flow.tsx):
    date, then time, then the details form, then the confirmation. Each
    handler is a pure transition on the page state. The outcome of the
    database insert, the generated id and the creation time are inputs, and
    the selected date is held as the "yyyy-MM-dd" text the page formats it
    to. */
module BookingFlow {

  import opened Nullable
  import opened Text
  import opened Clock
  import opened CivilDate
  import opened BookingTypes
  import opened Availability

  /** The unique-violation code the database reports when the (date, start
      time) pair is already taken. */
  const ConflictCode: string := "23505"
  const ConflictMessage: string := "This time slot was just booked by someone else. Please select a different time."
  const GenericMessage: string := "Something went wrong. Please try again."

  /** The step indicator's order. */
  const Steps: seq<BookingStep> := [DateStep, TimeStep, FormStep, ConfirmationStep]

  /** What `handleFormSubmit`'s closure captured at the click: the page's
      date and slot, the form's fields and the visitor's timezone. */
  datatype Submission = Submission(date: string, slot: TimeSlot, form: BookingFormData, timezone: string)

  /** The page's React state, and the insert it is awaiting (if any) with
      what that handler captured. The page keeps handling clicks while the
      insert is awaited. */
  datatype FlowState = FlowState(
    step: BookingStep,
    selectedDate: Option<string>,
    selectedSlot: Option<TimeSlot>,
    confirmed: Option<Booking>,
    submitting: bool,
    error: Option<string>,
    inFlight: Option<Submission>)

  /** The state the page opens in. */
  const Initial: FlowState := FlowState(DateStep, None, None, None, false, None, None)

  // ---- Step indicator -------------------------------------------------------

  /** `steps.findIndex(s => s.key === currentStep)`: the first position of the
      step in the indicator. */
  function StepIndex(step: BookingStep): (i: nat)
    ensures i < |Steps| && Steps[i] == step
    ensures forall j :: 0 <= j < i ==> Steps[j] != step
  {
    match step
    case DateStep => 0
    case TimeStep => 1
    case FormStep => 2
    case ConfirmationStep => 3
  }

  predicate IsActive(i: nat, current: BookingStep) {
    i == StepIndex(current)
  }

  predicate IsCompleted(i: nat, current: BookingStep) {
    i < StepIndex(current)
  }

  /** The indicator shows exactly one active step, the current one; the
      completed steps are exactly those the indicator lists before it; the
      rest are upcoming. */
  lemma IndicatorShape(current: BookingStep, i: nat)
    requires i < |Steps|
    ensures IsActive(i, current) <==> Steps[i] == current
    ensures IsCompleted(i, current) ==> !IsActive(i, current) && Steps[i] != current
    ensures IsCompleted(i, current) || IsActive(i, current) || StepIndex(current) < i
  {
    assert Steps[StepIndex(Steps[i])] == Steps[i];
    StepIndexInjective(Steps[i], current);
    assert StepIndex(Steps[i]) == i;
  }

  lemma StepIndexInjective(a: BookingStep, b: BookingStep)
    ensures StepIndex(a) == StepIndex(b) <==> a == b
  {
  }

  /** The Back button: shown on the time and form steps only. */
  predicate ShowBack(step: BookingStep) {
    step != DateStep && step != ConfirmationStep
  }

  // ---- Handlers -------------------------------------------------------------

  /** `handleDateSelect`: the date (possibly cleared) is stored, any chosen
      slot is dropped, and a defined date moves the page to the time step. */
  function SelectDate(s: FlowState, date: Option<string>): (r: FlowState)
    ensures r.selectedDate == date && r.selectedSlot == None
    ensures date.Some? ==> r.step == TimeStep
    ensures date.None? ==> r.step == s.step
    ensures r.confirmed == s.confirmed && r.submitting == s.submitting && r.error == s.error
  {
    var cleared := s.(selectedDate := date, selectedSlot := None);
    if date.Some? then cleared.(step := TimeStep) else cleared
  }

  /** `handleSlotSelect`: the slot is stored and the page moves to the form. */
  function SelectSlot(s: FlowState, slot: TimeSlot): (r: FlowState)
    ensures r.selectedSlot == Some(slot) && r.step == FormStep
    ensures r.selectedDate == s.selectedDate && r.confirmed == s.confirmed
    ensures r.submitting == s.submitting && r.error == s.error
  {
    s.(selectedSlot := Some(slot), step := FormStep)
  }

  /** `goBack`: the error is cleared; time goes back to date and form to
      time. The step is read once, before either update. */
  function GoBack(s: FlowState): (r: FlowState)
    ensures r.error == None
    ensures s.step == TimeStep ==> r.step == DateStep
    ensures s.step == FormStep ==> r.step == TimeStep
    ensures s.step == DateStep || s.step == ConfirmationStep ==> r.step == s.step
    ensures r.selectedDate == s.selectedDate && r.selectedSlot == s.selectedSlot
    ensures r.confirmed == s.confirmed && r.submitting == s.submitting
  {
    var cleared := s.(error := None);
    if s.step == TimeStep then cleared.(step := DateStep)
    else if s.step == FormStep then cleared.(step := TimeStep)
    else cleared
  }

  /** What the database insert (or its absence) produced. On success the
      page keeps the row the database returned (`data as Booking`), which
      is whatever the database stores and reads back for the insert. */
  datatype SubmitOutcome =
    | Persisted(row: Booking)                   // the inserted row came back
    | PersistError(code: string)                // the insert failed
    | LocalFallback(id: string, createdAt: string)  // no database configured

  /** The booking `handleFormSubmit` builds: the page's date, the "HH:MM"
      at characters 11 to 16 of the slot's ISO start and end, the form's
      fields, the visitor's timezone, status confirmed. Without the id and
      creation time this is the payload sent to the insert; with them it is
      the local fallback's booking. */
  function BookingFor(date: string, slot: TimeSlot, form: BookingFormData, timezone: string, id: string, createdAt: string): (b: Booking)
    ensures b.status == Confirmed && b.date == date
    ensures b.start_time == Slice(slot.start, 11, 16) && b.end_time == Slice(slot.end, 11, 16)
    ensures b.client_name == form.name && b.client_email == form.email && b.description == form.description
    ensures b.id == id && b.timezone == timezone && b.created_at == createdAt
  {
    Booking(id, date, Slice(slot.start, 11, 16), Slice(slot.end, 11, 16),
      form.name, form.email, form.description, Confirmed, timezone, createdAt)
  }

  /** `handleFormSubmit` up to the insert: without a date and a slot
      nothing happens; otherwise the page is marked busy, the error is
      cleared, and the booking's fields are captured from the current
      selection. */
  function BeginSubmit(s: FlowState, form: BookingFormData, timezone: string): (r: FlowState)
    ensures s.selectedDate.None? || s.selectedSlot.None? ==> r == s
    ensures s.selectedDate.Some? && s.selectedSlot.Some? ==>
      && r.submitting && r.error == None
      && r.inFlight == Some(Submission(s.selectedDate.value, s.selectedSlot.value, form, timezone))
      && r.step == s.step && r.selectedDate == s.selectedDate && r.selectedSlot == s.selectedSlot
      && r.confirmed == s.confirmed
  {
    if s.selectedDate.None? || s.selectedSlot.None? then s
    else s.(submitting := true, error := None,
             inFlight := Some(Submission(s.selectedDate.value, s.selectedSlot.value, form, timezone)))
  }

  /** The booking a submission records, with the id and creation time the
      insert (or the local fallback) gave it. */
  function Recorded(sub: Submission, id: string, createdAt: string): (b: Booking)
    ensures b == BookingFor(sub.date, sub.slot, sub.form, sub.timezone, id, createdAt)
  {
    BookingFor(sub.date, sub.slot, sub.form, sub.timezone, id, createdAt)
  }

  /** The rest of `handleFormSubmit`, once the insert has settled, applied
      to the page as it is by then, whatever was picked meanwhile. A
      conflict sends the visitor back to pick another time; any other
      failure keeps the step; a stored booking confirms the row the
      database returned, and the local fallback confirms the captured
      booking; both move to confirmation. With nothing awaited there is
      nothing to settle. */
  function Settle(s: FlowState, outcome: SubmitOutcome): (r: FlowState)
    ensures s.inFlight.None? ==> r == s
    ensures s.inFlight.Some? ==>
      && !r.submitting && r.inFlight == None
      && r.selectedDate == s.selectedDate && r.selectedSlot == s.selectedSlot
    ensures s.inFlight.Some? && outcome.PersistError? ==>
      && r.confirmed == s.confirmed
      && (outcome.code == ConflictCode ==> r.step == TimeStep && r.error == Some(ConflictMessage))
      && (outcome.code != ConflictCode ==> r.step == s.step && r.error == Some(GenericMessage))
    ensures s.inFlight.Some? && !outcome.PersistError? ==> r.step == ConfirmationStep && r.error == s.error
    ensures s.inFlight.Some? && outcome.Persisted? ==> r.confirmed == Some(outcome.row)
    ensures s.inFlight.Some? && outcome.LocalFallback? ==>
      r.confirmed == Some(BookingFor(s.inFlight.value.date, s.inFlight.value.slot, s.inFlight.value.form,
                                     s.inFlight.value.timezone, outcome.id, outcome.createdAt))
  {
    match s.inFlight
    case None => s
    case Some(sub) =>
      var settled := s.(submitting := false, inFlight := None);
      match outcome
      case PersistError(code) =>
        if code == ConflictCode then settled.(error := Some(ConflictMessage), step := TimeStep)
        else settled.(error := Some(GenericMessage))
      case Persisted(row) =>
        settled.(confirmed := Some(row), step := ConfirmationStep)
      case LocalFallback(id, createdAt) =>
        settled.(confirmed := Some(Recorded(sub, id, createdAt)), step := ConfirmationStep)
  }

  /** A submission nothing interrupts: the insert sends the date and slot
      the page shows, and once it settles the page is left idle with the
      returned row (or the local booking of that date and slot)
      confirmed. */
  lemma SubmitUninterrupted(s: FlowState, form: BookingFormData, timezone: string, outcome: SubmitOutcome)
    requires s.selectedDate.Some? && s.selectedSlot.Some?
    ensures BeginSubmit(s, form, timezone).inFlight == Some(Submission(s.selectedDate.value, s.selectedSlot.value, form, timezone))
    ensures var r := Settle(BeginSubmit(s, form, timezone), outcome);
      && !r.submitting && r.inFlight == None
      && r.selectedDate == s.selectedDate && r.selectedSlot == s.selectedSlot
      && (outcome.PersistError? ==>
            && r.confirmed == s.confirmed
            && (outcome.code == ConflictCode ==> r.step == TimeStep && r.error == Some(ConflictMessage))
            && (outcome.code != ConflictCode ==> r.step == s.step && r.error == Some(GenericMessage)))
      && (!outcome.PersistError? ==> r.step == ConfirmationStep && r.error == None)
      && (outcome.Persisted? ==> r.confirmed == Some(outcome.row))
      && (outcome.LocalFallback? ==>
            r.confirmed == Some(BookingFor(s.selectedDate.value, s.selectedSlot.value, form, timezone, outcome.id, outcome.createdAt)))
  {
  }

  // ---- Navigation -----------------------------------------------------------

  /** The Back button is shown exactly when pressing it changes the step. */
  lemma ShowBackIffGoBackMoves(s: FlowState)
    ensures ShowBack(s.step) <==> GoBack(s).step != s.step
  {
  }

  /** Forward moves advance the indicator by one; Back moves it back by
      one. A submission leaves the step alone until it settles. */
  lemma StepProgress(s: FlowState, date: string, slot: TimeSlot, form: BookingFormData, timezone: string, outcome: SubmitOutcome)
    ensures s.step == DateStep ==> StepIndex(SelectDate(s, Some(date)).step) == StepIndex(s.step) + 1
    ensures s.step == TimeStep ==> StepIndex(SelectSlot(s, slot).step) == StepIndex(s.step) + 1
    ensures StepIndex(BeginSubmit(s, form, timezone).step) == StepIndex(s.step)
    ensures s.step == FormStep && s.selectedDate.Some? && s.selectedSlot.Some? && !outcome.PersistError? ==>
      StepIndex(Settle(BeginSubmit(s, form, timezone), outcome).step) == StepIndex(s.step) + 1
    ensures ShowBack(s.step) ==> StepIndex(GoBack(s).step) + 1 == StepIndex(s.step)
  {
  }

  /** Back undoes a forward move: after picking a date on the date step, or
      a slot on the time step, Back returns to the step the visitor came
      from, keeping the choice made. */
  lemma BackUndoesForward(s: FlowState, date: string, slot: TimeSlot)
    ensures s.step == DateStep ==>
      GoBack(SelectDate(s, Some(date))).step == s.step && GoBack(SelectDate(s, Some(date))).selectedDate == Some(date)
    ensures s.step == TimeStep ==>
      GoBack(SelectSlot(s, slot)).step == s.step && GoBack(SelectSlot(s, slot)).selectedSlot == Some(slot)
  {
  }

  // ---- Reachable states -----------------------------------------------------

  /** What the visitor can do, as the page renders it, and the insert
      settling. The date picker shows only on the date step; the slot grid
      only on the time step with a date chosen, offering available slots
      only; the form only on the form step, its button disabled while
      submitting; Back wherever it is shown, busy or not. With a database
      the click and the settling of the awaited insert are two events, and
      other clicks can come between them; without one the handler never
      awaits, so the click confirms the local booking at once. */
  datatype Event =
    | PickDate(date: Option<string>)
    | PickSlot(slot: TimeSlot)
    | SubmitForm(form: BookingFormData, timezone: string)
    | InsertSettled(outcome: SubmitOutcome)
    | SubmitLocally(form: BookingFormData, timezone: string, id: string, createdAt: string)
    | Back

  /** Whether the page offers `e` in state `s`; `database` says whether a
      database client is configured. */
  predicate Enabled(database: bool, s: FlowState, e: Event) {
    match e
    case PickDate(_) => s.step == DateStep
    case PickSlot(slot) => s.step == TimeStep && s.selectedDate.Some? && slot.available
    case SubmitForm(_, _) => database && s.step == FormStep && !s.submitting
    case InsertSettled(outcome) => database && s.inFlight.Some? && !outcome.LocalFallback?
    case SubmitLocally(_, _, _, _) => !database && s.step == FormStep && !s.submitting
    case Back => ShowBack(s.step)
  }

  function Apply(s: FlowState, e: Event): FlowState {
    match e
    case PickDate(date) => SelectDate(s, date)
    case PickSlot(slot) => SelectSlot(s, slot)
    case SubmitForm(form, timezone) => BeginSubmit(s, form, timezone)
    case InsertSettled(outcome) => Settle(s, outcome)
    case SubmitLocally(form, timezone, id, createdAt) =>
      Settle(BeginSubmit(s, form, timezone), LocalFallback(id, createdAt))
    case Back => GoBack(s)
  }

  /** Folding a run of enabled events over the initial state; `None` once
      an event is not enabled. */
  function Run(database: bool, events: seq<Event>): Option<FlowState>
    decreases |events|
  {
    if |events| == 0 then Some(Initial)
    else match Run(database, events[..|events| - 1])
      case None => None
      case Some(s) =>
        var e := events[|events| - 1];
        if Enabled(database, s, e) then Some(Apply(s, e)) else None
  }

  /** What holds between events: the form step has what earlier steps
      chose, and so does the time step unless a conflict sent the page there
      after the date was cleared (`ConflictAfterDateCleared`); the chosen
      slot was offered as available; a booking
      is confirmed exactly on the confirmation step, with no error shown; the page is busy exactly while an insert is
      awaited, which is never on the confirmation step and never with an
      error shown; any error shown is one of the two messages. The
      confirmed booking need not match the current selection (see
      `BackDuringInsert`); the insert it came from carried the selection
      at the click (`RunConfirmsClick`). */
  predicate Consistent(s: FlowState) {
    && (s.step == TimeStep ==> s.selectedDate.Some? || s.error == Some(ConflictMessage))
    && (s.step == FormStep ==> s.selectedDate.Some? && s.selectedSlot.Some?)
    && (s.selectedSlot.Some? ==> s.selectedSlot.value.available)
    && (s.confirmed.Some? <==> s.step == ConfirmationStep)
    && (s.confirmed.Some? ==> s.error.None?)
    && (s.submitting <==> s.inFlight.Some?)
    && (s.inFlight.Some? ==> s.step != ConfirmationStep && s.error.None? && s.inFlight.value.slot.available)
    && (s.error.Some? ==> s.error.value == ConflictMessage || s.error.value == GenericMessage)
  }

  lemma ApplyConsistent(database: bool, s: FlowState, e: Event)
    requires Consistent(s) && Enabled(database, s, e)
    ensures Consistent(Apply(s, e))
  {
  }

  /** Every state the visitor can reach satisfies `Consistent`. */
  lemma {:induction false} RunConsistent(database: bool, events: seq<Event>)
    requires Run(database, events).Some?
    ensures Consistent(Run(database, events).value)
    decreases |events|
  {
    if |events| > 0 {
      var prefix := events[..|events| - 1];
      RunConsistent(database, prefix);
      ApplyConsistent(database, Run(database, prefix).value, events[|events| - 1]);
    }
  }

  /** Event `i` of the run is a submit click the page accepted, made on
      the form step. */
  predicate ClickAt(database: bool, events: seq<Event>, i: nat) {
    && i < |events|
    && (events[i].SubmitForm? || events[i].SubmitLocally?)
    && Run(database, events[..i]).Some?
    && var c := Run(database, events[..i]).value;
      && c.step == FormStep && c.selectedDate.Some? && c.selectedSlot.Some?
      && Enabled(database, c, events[i])
  }

  /** What click `i` captured from the page. */
  function CapturedAt(database: bool, events: seq<Event>, i: nat): (sub: Submission)
    requires ClickAt(database, events, i)
    ensures var c := Run(database, events[..i]).value;
      && sub.date == c.selectedDate.value && sub.slot == c.selectedSlot.value
      && sub.form == events[i].form && sub.timezone == events[i].timezone
  {
    var c := Run(database, events[..i]).value;
    Submission(c.selectedDate.value, c.selectedSlot.value, events[i].form, events[i].timezone)
  }

  /** Event `j` of the run settles the awaited insert `sub` with the
      returned `row`. */
  predicate SettledBy(database: bool, events: seq<Event>, j: nat, sub: Submission, row: Booking) {
    && j < |events|
    && events[j] == InsertSettled(Persisted(row))
    && Run(database, events[..j]).Some?
    && Run(database, events[..j]).value.inFlight == Some(sub)
  }

  /** The awaited insert, and the confirmed booking, come from a submit
      click of the run, however the visitor moved after it: the insert
      carries the date and slot the page showed at that click and the form
      sent with it; a stored booking is the row returned for that very
      insert, settled later; a local booking is the one built from it. */
  lemma {:induction false} RunConfirmsClick(database: bool, events: seq<Event>) returns (i: nat, j: nat)
    requires Run(database, events).Some?
    requires Run(database, events).value.inFlight.Some? || Run(database, events).value.confirmed.Some?
    ensures ClickAt(database, events, i)
    ensures var s := Run(database, events).value;
      && (s.inFlight.Some? ==> s.inFlight.value == CapturedAt(database, events, i))
      && (s.confirmed.Some? && events[i].SubmitLocally? ==>
            s.confirmed.value == Recorded(CapturedAt(database, events, i), events[i].id, events[i].createdAt))
      && (s.confirmed.Some? && events[i].SubmitForm? ==>
            i < j && SettledBy(database, events, j, CapturedAt(database, events, i), s.confirmed.value))
    decreases |events|
  {
    var n := |events| - 1;
    var prefix := events[..n];
    assert events[..n] == prefix;
    var c := Run(database, prefix).value;
    var e := events[n];
    RunConsistent(database, prefix);
    if e.SubmitForm? || e.SubmitLocally? {
      i, j := n, n;
    } else if e.InsertSettled? && e.outcome.Persisted? {
      i, j := RunConfirmsClick(database, prefix);
      assert events[..i] == prefix[..i];
      j := n;
    } else {
      assert c.inFlight.Some? || c.confirmed.Some?;
      i, j := RunConfirmsClick(database, prefix);
      assert events[..i] == prefix[..i];
      if j < n {
        assert events[..j] == prefix[..j];
      }
    }
  }

  /** Without a database nothing is ever awaited, so the confirmed
      booking is always the page's own selection, with status confirmed. */
  predicate MatchesSelection(s: FlowState) {
    && s.inFlight.None?
    && (s.confirmed.Some? ==>
          && s.confirmed.value.status == Confirmed
          && s.selectedDate.Some? && s.selectedSlot.Some?
          && s.confirmed.value.date == s.selectedDate.value
          && s.confirmed.value.start_time == Slice(s.selectedSlot.value.start, 11, 16)
          && s.confirmed.value.end_time == Slice(s.selectedSlot.value.end, 11, 16))
  }

  /** Every state reachable without a database has its confirmed booking
      match the selection shown. */
  lemma {:induction false} RunLocalMatchesSelection(events: seq<Event>)
    requires Run(false, events).Some?
    ensures MatchesSelection(Run(false, events).value)
    decreases |events|
  {
    if |events| > 0 {
      var prefix := events[..|events| - 1];
      RunLocalMatchesSelection(prefix);
      RunConsistent(false, prefix);
    }
  }

  /** Once confirmed, nothing the page offers changes the state: the
      confirmation step is final. */
  lemma ConfirmationIsFinal(database: bool, s: FlowState, e: Event)
    requires Consistent(s) && s.step == ConfirmationStep
    ensures !Enabled(database, s, e)
  {
  }

  /** A run extended by one event. */
  lemma RunSnoc(database: bool, events: seq<Event>, e: Event)
    ensures Run(database, events + [e]) ==
      if Run(database, events).Some? && Enabled(database, Run(database, events).value, e)
      then Some(Apply(Run(database, events).value, e)) else None
  {
    assert (events + [e])[..|events|] == events;
  }

  /** The page as written: pressing Back while the insert is awaited and
      picking another slot does not stop the first booking. The insert
      still awaited carries the first slot; once it settles the page is on
      the confirmation step with its returned row confirmed and the second
      slot selected. */
  lemma BackDuringInsert(date: string, first: TimeSlot, second: TimeSlot, form: BookingFormData, timezone: string, row: Booking)
    requires first.available && second.available
    ensures var awaited := Run(true, [PickDate(Some(date)), PickSlot(first), SubmitForm(form, timezone), Back, PickSlot(second)]);
      && awaited.Some?
      && awaited.value.inFlight == Some(Submission(date, first, form, timezone))
      && awaited.value.selectedSlot == Some(second)
    ensures var run := Run(true, [PickDate(Some(date)), PickSlot(first), SubmitForm(form, timezone), Back,
                                  PickSlot(second), InsertSettled(Persisted(row))]);
      && run.Some?
      && run.value.step == ConfirmationStep
      && run.value.selectedSlot == Some(second)
      && run.value.confirmed == Some(row)
  {
    var p3 := Submitted(date, first, form, timezone);
    var p4 := p3 + [Back];
    var p5 := p4 + [PickSlot(second)];
    RunSnoc(true, p3, Back);
    RunSnoc(true, p4, PickSlot(second));
    RunSnoc(true, p5, InsertSettled(Persisted(row)));
    assert p5 == [PickDate(Some(date)), PickSlot(first), SubmitForm(form, timezone), Back, PickSlot(second)];
    assert p5 + [InsertSettled(Persisted(row))] ==
      [PickDate(Some(date)), PickSlot(first), SubmitForm(form, timezone), Back,
       PickSlot(second), InsertSettled(Persisted(row))];
  }

  /** The same with Back twice and a new date: the insert of the first
      date is still awaited, and its row is confirmed while no slot is
      selected and another date is. */
  lemma NewDateDuringInsert(date: string, slot: TimeSlot, other: string, form: BookingFormData, timezone: string, row: Booking)
    requires slot.available
    ensures var awaited := Run(true, [PickDate(Some(date)), PickSlot(slot), SubmitForm(form, timezone), Back, Back,
                                      PickDate(Some(other))]);
      && awaited.Some?
      && awaited.value.inFlight == Some(Submission(date, slot, form, timezone))
      && awaited.value.selectedDate == Some(other)
    ensures var run := Run(true, [PickDate(Some(date)), PickSlot(slot), SubmitForm(form, timezone), Back, Back,
                                  PickDate(Some(other)), InsertSettled(Persisted(row))]);
      && run.Some?
      && run.value.step == ConfirmationStep
      && run.value.selectedDate == Some(other) && run.value.selectedSlot == None
      && run.value.confirmed == Some(row)
  {
    var p3 := Submitted(date, slot, form, timezone);
    var p4 := p3 + [Back];
    var p5 := p4 + [Back];
    var p6 := p5 + [PickDate(Some(other))];
    RunSnoc(true, p3, Back);
    RunSnoc(true, p4, Back);
    RunSnoc(true, p5, PickDate(Some(other)));
    RunSnoc(true, p6, InsertSettled(Persisted(row)));
    assert p6 == [PickDate(Some(date)), PickSlot(slot), SubmitForm(form, timezone), Back, Back, PickDate(Some(other))];
    assert p6 + [InsertSettled(Persisted(row))] ==
      [PickDate(Some(date)), PickSlot(slot), SubmitForm(form, timezone), Back, Back,
       PickDate(Some(other)), InsertSettled(Persisted(row))];
  }

  /** A conflict reported after the visitor went back and cleared the date
      puts the page on the time step with no date: the slot grid is not
      shown, only the conflict message and Back. */
  lemma ConflictAfterDateCleared(date: string, slot: TimeSlot, form: BookingFormData, timezone: string)
    requires slot.available
    ensures var run := Run(true, [PickDate(Some(date)), PickSlot(slot), SubmitForm(form, timezone), Back, Back,
                                  PickDate(None), InsertSettled(PersistError(ConflictCode))]);
      && run.Some?
      && run.value.step == TimeStep && run.value.selectedDate == None
      && run.value.error == Some(ConflictMessage) && run.value.confirmed == None
  {
    var p3 := Submitted(date, slot, form, timezone);
    var p4 := p3 + [Back];
    var p5 := p4 + [Back];
    var p6 := p5 + [PickDate(None)];
    RunSnoc(true, p3, Back);
    RunSnoc(true, p4, Back);
    RunSnoc(true, p5, PickDate(None));
    RunSnoc(true, p6, InsertSettled(PersistError(ConflictCode)));
    assert p6 + [InsertSettled(PersistError(ConflictCode))] ==
      [PickDate(Some(date)), PickSlot(slot), SubmitForm(form, timezone), Back, Back,
       PickDate(None), InsertSettled(PersistError(ConflictCode))];
  }

  /** Picking a date and a slot and submitting: the insert is awaited with
      that date and slot captured, on the form step. */
  function Submitted(date: string, slot: TimeSlot, form: BookingFormData, timezone: string): (events: seq<Event>)
    requires slot.available
    ensures Run(true, events).Some?
    ensures var s := Run(true, events).value;
      && s.step == FormStep && s.submitting && s.error == None && s.confirmed == None
      && s.selectedDate == Some(date) && s.selectedSlot == Some(slot)
      && s.inFlight == Some(Submission(date, slot, form, timezone))
  {
    var p1 := [PickDate(Some(date))];
    var p2 := p1 + [PickSlot(slot)];
    RunSnoc(true, [], PickDate(Some(date)));
    assert [] + p1 == p1;
    RunSnoc(true, p1, PickSlot(slot));
    RunSnoc(true, p2, SubmitForm(form, timezone));
    p2 + [SubmitForm(form, timezone)]
  }

  // ---- The slot's times, from the generator to the booking ------------------

  /** The "HH:MM" the page cuts from a generated slot's ISO strings is the
      minute the generator started from, and the end one hour later: the
      booking stores exactly the times the generator offered. */
  lemma BookedTimesFromSlot(date: string, m: nat, bookings: seq<Window>, blocks: seq<BlockWindow>, now: string,
                            startLocal: string, endLocal: string, form: BookingFormData, timezone: string, id: string, createdAt: string)
    requires ValidDateFormat(date) && m + 60 < 6000
    ensures var g := SlotAt(date, m, bookings, blocks, now);
      var b := BookingFor(date, TimeSlot(g.start, g.end, startLocal, endLocal, g.available), form, timezone, id, createdAt);
      && b.start_time == FromMinutes(m) && b.end_time == FromMinutes(m + 60)
      && CanonicalTime(b.start_time) && CanonicalTime(b.end_time)
      && ToMinutes(b.start_time) == m && ToMinutes(b.end_time) == m + 60
  {
    SlotSpan(date, m, bookings, blocks, now);
    ToMinutesFromMinutes(m);
    ToMinutesFromMinutes(m + 60);
  }

  /** The same for any slot of the generator's list, when every rule ends
      by midnight. */
  lemma BookedTimesFromGenerator(date: string, rules: seq<Window>, bookings: seq<Window>, blocks: seq<BlockWindow>, now: string,
                                 i: nat, startLocal: string, endLocal: string, form: BookingFormData, timezone: string, id: string, createdAt: string)
    requires ValidDateFormat(date) && RulesWellFormed(rules)
    requires forall j :: 0 <= j < |rules| ==> ToMinutes(rules[j].end_time) <= 1440
    requires i < |GenerateSlots(date, rules, bookings, blocks, now)|
    ensures var g := GenerateSlots(date, rules, bookings, blocks, now)[i];
      var b := BookingFor(date, TimeSlot(g.start, g.end, startLocal, endLocal, g.available), form, timezone, id, createdAt);
      && CanonicalTime(b.start_time) && CanonicalTime(b.end_time)
      && ToMinutes(b.end_time) == ToMinutes(b.start_time) + 60
      && b.start_time == FromMinutes(ScheduleMinutes(rules)[i])
  {
    GenerateSlotsCount(date, rules, bookings, blocks, now);
    var m := ScheduleMinutes(rules)[i];
    ScheduleMinutesOnGrid(rules, i);
    var j :| 0 <= j < |rules| && OnRuleGrid(rules[j], m);
    GeneratedSlotAt(date, rules, bookings, blocks, now, i);
    BookedTimesFromSlot(date, m, bookings, blocks, now, startLocal, endLocal, form, timezone, id, createdAt);
  }
}
