/** The `GET` handler of app/api/availability/route.ts around the
    generator: the date guard, the three table reads (or the default
    schedule when no backend is configured), the cut of every time to
    "HH:MM", and the early answer for a day without rules. */
module AvailabilityEndpoint {

  import opened Nullable
  import opened Text
  import opened Clock
  import opened CivilDate
  import opened BookingTypes
  import opened Availability

  /** The backend the handler reads. Each table read may come back with
      null data, which the handler treats as no rows. */
  datatype Backend =
    | Unconfigured
    | Store(
        ruleRows: Option<seq<AvailabilityRule>>,
        bookingRows: Option<seq<Booking>>,
        blockRows: Option<seq<BlockedSlot>>)

  /** The JSON answer: `{ error }` with status 400, or `{ slots, date }`. */
  datatype Response =
    | BadRequest(status: nat, error: string)
    | SlotList(slots: seq<Slot>, date: string)

  /** What the three reads hand to the generator. */
  datatype DayInputs = DayInputs(rules: seq<Window>, bookings: seq<Window>, blocks: seq<BlockWindow>)

  /** A value of a Postgres `time` column: its first five characters are
      "HH:MM". */
  predicate TimeColumn(t: string) {
    WellFormedTime(Slice(t, 0, 5))
  }

  /** Both times of every rule row are `time` values. */
  predicate RuleRowsWellFormed(rows: seq<AvailabilityRule>) {
    forall i :: 0 <= i < |rows| ==> TimeColumn(rows[i].start_time) && TimeColumn(rows[i].end_time)
  }

  /** The handler's assumption on the rules table. */
  predicate BackendWellFormed(backend: Backend) {
    backend.Store? && backend.ruleRows.Some? ==> RuleRowsWellFormed(backend.ruleRows.value)
  }

  /** `data ?? []`. */
  function RowsOf<T>(data: Option<seq<T>>): (rows: seq<T>)
    ensures data.None? ==> rows == []
    ensures data.Some? ==> rows == data.value
  {
    match data
    case None => []
    case Some(rows) => rows
  }

  /** The rules query (`day_of_week` equal to the date's weekday and
      `is_active`), each time cut to its first five characters. */
  function RulesFor(rows: seq<AvailabilityRule>, dow: int): (rules: seq<Window>)
    requires RuleRowsWellFormed(rows)
    ensures RulesWellFormed(rules)
    ensures |rules| <= |rows|
    ensures forall w :: w in rules <==>
      exists r :: r in rows && r.day_of_week == dow && r.is_active &&
        w == Window(Slice(r.start_time, 0, 5), Slice(r.end_time, 0, 5))
  {
    if |rows| == 0 then []
    else
      var r := rows[0];
      assert RuleRowsWellFormed(rows[1..]) by {
        forall i | 0 <= i < |rows[1..]|
          ensures TimeColumn(rows[1..][i].start_time) && TimeColumn(rows[1..][i].end_time)
        {
          assert rows[1..][i] == rows[i + 1];
        }
      }
      var rest := RulesFor(rows[1..], dow);
      assert forall x :: x in rows <==> x == r || x in rows[1..] by {
        assert rows == [r] + rows[1..];
      }
      if r.day_of_week == dow && r.is_active then
        var w := Window(Slice(r.start_time, 0, 5), Slice(r.end_time, 0, 5));
        assert TimeColumn(r.start_time) && TimeColumn(r.end_time);
        assert WellFormedTime(w.start_time) && WellFormedTime(w.end_time);
        assert forall i :: 0 < i < |[w] + rest| ==> ([w] + rest)[i] == rest[i - 1];
        [w] + rest
      else rest
  }

  /** The bookings query (same date, status other than cancelled), each
      time cut to its first five characters. */
  function BookingsFor(rows: seq<Booking>, date: string): (bookings: seq<Window>)
    ensures |bookings| <= |rows|
    ensures forall w :: w in bookings <==>
      exists b :: b in rows && b.date == date && b.status != Cancelled &&
        w == Window(Slice(b.start_time, 0, 5), Slice(b.end_time, 0, 5))
  {
    if |rows| == 0 then []
    else
      var b := rows[0];
      var rest := BookingsFor(rows[1..], date);
      assert forall x :: x in rows <==> x == b || x in rows[1..] by {
        assert rows == [b] + rows[1..];
      }
      if b.date == date && b.status != Cancelled then [Window(Slice(b.start_time, 0, 5), Slice(b.end_time, 0, 5))] + rest
      else rest
  }

  /** `t?.slice(0, 5) ?? null`. */
  function CutTime(t: Option<string>): (r: Option<string>)
    ensures r.None? <==> t.None?
    ensures t.Some? ==> r.value == Slice(t.value, 0, 5)
  {
    match t
    case None => None
    case Some(s) => Some(Slice(s, 0, 5))
  }

  /** The blocked-slots query (same date), each present time cut to its
      first five characters. */
  function BlocksFor(rows: seq<BlockedSlot>, date: string): (blocks: seq<BlockWindow>)
    ensures |blocks| <= |rows|
    ensures forall w :: w in blocks <==>
      exists b :: b in rows && b.date == date && w == BlockWindow(CutTime(b.start_time), CutTime(b.end_time))
  {
    if |rows| == 0 then []
    else
      var b := rows[0];
      var rest := BlocksFor(rows[1..], date);
      assert forall x :: x in rows <==> x == b || x in rows[1..] by {
        assert rows == [b] + rows[1..];
      }
      if b.date == date then [BlockWindow(CutTime(b.start_time), CutTime(b.end_time))] + rest
      else rest
  }

  /** What the handler feeds the generator for a valid date: with no
      backend, the default rule of the weekday and nothing booked or
      blocked; otherwise the three queries. */
  function InputsFor(date: string, backend: Backend): (inputs: DayInputs)
    requires ValidDateFormat(date)
    requires BackendWellFormed(backend)
    ensures RulesWellFormed(inputs.rules)
    ensures backend.Unconfigured? ==> inputs.bookings == [] && inputs.blocks == []
    ensures backend.Unconfigured? ==> (|inputs.rules| == 0 <==> DayOfWeek(date) >= 5)
  {
    var dow := DayOfWeek(date);
    match backend
    case Unconfigured =>
      (match DefaultRule(dow)
       case None => DayInputs([], [], [])
       case Some(w) =>
         DefaultWindowWellFormed();
         DayInputs([w], [], []))
    case Store(ruleRows, bookingRows, blockRows) =>
      DayInputs(
        RulesFor(RowsOf(ruleRows), dow),
        BookingsFor(RowsOf(bookingRows), date),
        BlocksFor(RowsOf(blockRows), date))
  }

  lemma DefaultWindowWellFormed()
    ensures RulesWellFormed([Window("09:00", "17:00")])
  {
  }

  /** `GET /api/availability?date=…`. A missing, empty or malformed date is
      answered with status 400; a day without rules with no slots;
      otherwise with the generated slots. `now` is `new Date().toISOString()`. */
  function Get(dateParam: Option<string>, backend: Backend, now: string): (r: Response)
    requires BackendWellFormed(backend)
    ensures r.BadRequest? <==> dateParam.None? || !ValidDateFormat(dateParam.value)
    ensures r.BadRequest? ==> r.status == 400 && r.error == InvalidDateMessage
    ensures r.SlotList? ==> r.date == dateParam.value
  {
    if dateParam.None? || dateParam.value == "" || !ValidDateFormat(dateParam.value) then
      BadRequest(400, InvalidDateMessage)
    else
      var date := dateParam.value;
      var inputs := InputsFor(date, backend);
      if |inputs.rules| == 0 then SlotList([], date)
      else SlotList(GenerateSlots(date, inputs.rules, inputs.bookings, inputs.blocks, now), date)
  }

  /** Whatever path is taken, a valid date is answered with the generator's
      output on the day's inputs (the early answer for a day without rules
      is what the generator gives for no rules). */
  lemma GetIsGenerator(date: string, backend: Backend, now: string)
    requires ValidDateFormat(date)
    requires BackendWellFormed(backend)
    ensures Get(Some(date), backend, now) ==
      SlotList(GenerateSlots(date, InputsFor(date, backend).rules, InputsFor(date, backend).bookings,
        InputsFor(date, backend).blocks, now), date)
  {
  }

  // ---- The default schedule -----------------------------------------------

  /** The window of every open day when no backend is configured. */
  const DefaultWindow: Window := Window("09:00", "17:00")

  lemma DefaultTimes()
    ensures CanonicalTime("09:00") && CanonicalTime("11:00") && CanonicalTime("17:00")
    ensures ToMinutes("09:00") == 540 && ToMinutes("11:00") == 660 && ToMinutes("17:00") == 1020
  {
  }

  /** The default window yields the eight hours 09:00, 10:00, …, 16:00. */
  lemma DefaultMinutes()
    ensures RulesWellFormed([DefaultWindow])
    ensures |ScheduleMinutes([DefaultWindow])| == 8
    ensures forall k :: 0 <= k < 8 ==> ScheduleMinutes([DefaultWindow])[k] == 540 + 60 * k
  {
    DefaultTimes();
    assert [DefaultWindow][1..] == [];
    assert ScheduleMinutes([DefaultWindow]) == RuleMinutes(540, 1020) + ScheduleMinutes([]);
    forall k | 0 <= k < 8
      ensures ScheduleMinutes([DefaultWindow])[k] == 540 + 60 * k
    {
      RuleMinutesAt(540, 1020, k);
    }
  }

  /** Rule 09:00–17:00, no bookings, no blocks, and a current time that
      does not sort after the first slot's start: eight slots, all
      available, the k-th from 09:00 + k hours to 10:00 + k hours. */
  lemma ScenarioOpenDay(date: string, now: string)
    requires !IsPast(IsoAt(date, "09:00"), now)
    ensures var slots := GenerateSlots(date, [DefaultWindow], [], [], now);
      && |slots| == 8
      && forall k :: 0 <= k < 8 ==> OpenDaySlot(date, now, k)
  {
    DefaultMinutes();
    forall k | 0 <= k < 8
      ensures OpenDaySlot(date, now, k)
    {
      OpenDaySlotHolds(date, now, k);
    }
  }

  /** The k-th slot of the open-day scenario. */
  predicate OpenDaySlot(date: string, now: string, k: nat)
    requires k < 8
  {
    DefaultMinutes();
    var slots := GenerateSlots(date, [DefaultWindow], [], [], now);
    && slots[k].start == IsoAt(date, FromMinutes(540 + 60 * k))
    && slots[k].end == IsoAt(date, FromMinutes(600 + 60 * k))
    && slots[k].available
  }

  lemma OpenDaySlotHolds(date: string, now: string, k: nat)
    requires k < 8
    requires !IsPast(IsoAt(date, "09:00"), now)
    ensures OpenDaySlot(date, now, k)
  {
    DefaultMinutes();
    GeneratedSlotAt(date, [DefaultWindow], [], [], now, k);
    var m := 540 + 60 * k;
    if IsPast(IsoAt(date, FromMinutes(m)), now) {
      PastMonotone(date, 540, m, now);
      DefaultTimes();
      FromMinutesToMinutes("09:00");
    }
  }

  /** The first slot of the default day starts at 09:00 and the last one
      ends at 17:00. */
  lemma DefaultDayBounds(date: string, now: string)
    ensures var slots := GenerateSlots(date, [DefaultWindow], [], [], now);
      |slots| == 8 && slots[0].start == IsoAt(date, "09:00") && slots[7].end == IsoAt(date, "17:00")
  {
    DefaultMinutes();
    GeneratedSlotAt(date, [DefaultWindow], [], [], now, 0);
    GeneratedSlotAt(date, [DefaultWindow], [], [], now, 7);
    DefaultTimes();
    FromMinutesToMinutes("09:00");
    FromMinutesToMinutes("17:00");
  }

  /** The same day with one booking at 11:00–12:00: the same slot list,
      except that the 11:00 slot (the third) is no longer available. */
  lemma ScenarioBookedAtEleven(date: string, now: string)
    ensures var plain := GenerateSlots(date, [DefaultWindow], [], [], now);
      var booked := GenerateSlots(date, [DefaultWindow], [Window("11:00", "12:00")], [], now);
      && |plain| == 8 && |booked| == 8
      && forall k :: 0 <= k < 8 ==> BookedSlot(date, now, k)
  {
    DefaultMinutes();
    forall k | 0 <= k < 8
      ensures BookedSlot(date, now, k)
    {
      BookedSlotHolds(date, now, k);
    }
  }

  /** The k-th slot of the booked-at-eleven scenario against the plain day. */
  predicate BookedSlot(date: string, now: string, k: nat)
    requires k < 8
  {
    DefaultMinutes();
    var plain := GenerateSlots(date, [DefaultWindow], [], [], now);
    var booked := GenerateSlots(date, [DefaultWindow], [Window("11:00", "12:00")], [], now);
    && booked[k].start == plain[k].start
    && booked[k].end == plain[k].end
    && (booked[k].available <==> plain[k].available && k != 2)
  }

  /** The slot at minute `m` starts at "11:00" iff `m` is 660. */
  lemma ElevenOClock(m: nat)
    requires m < 6000
    ensures "11:00" == FromMinutes(m) <==> m == 660
  {
    DefaultTimes();
    TimeNamesMinute("11:00", m);
  }

  lemma BookedSlotHolds(date: string, now: string, k: nat)
    requires k < 8
    ensures BookedSlot(date, now, k)
  {
    DefaultMinutes();
    var b := Window("11:00", "12:00");
    assert [] + [b] == [b];
    var m := ScheduleMinutes([DefaultWindow])[k];
    assert b.start_time != FromMinutes(m) <==> k != 2 by {
      ElevenOClock(m);
    }
    AddBookingEffect(date, [DefaultWindow], [], b, [], now, k);
  }

  /** The same day with a full-day block: eight slots, none available. */
  lemma ScenarioFullDayBlock(date: string, now: string)
    ensures var slots := GenerateSlots(date, [DefaultWindow], [], [BlockWindow(None, None)], now);
      |slots| == 8 && forall k :: 0 <= k < 8 ==> !slots[k].available
  {
    DefaultMinutes();
    assert BlockWindow(None, None) in [BlockWindow(None, None)];
    forall k | 0 <= k < 8
      ensures !GenerateSlots(date, [DefaultWindow], [], [BlockWindow(None, None)], now)[k].available
    {
      FullDayBlockBlocksAll(date, [DefaultWindow], [], [BlockWindow(None, None)], now, k);
    }
  }

  // ---- The handler -------------------------------------------------------

  /** Without a backend, Friday (5) and Saturday (6) have no slots. */
  lemma GetClosedDays(date: string, now: string)
    requires ValidDateFormat(date)
    requires DayOfWeek(date) >= 5
    ensures Get(Some(date), Unconfigured, now) == SlotList([], date)
  {
  }

  /** Without a backend, Sunday to Thursday get the single rule
      09:00–17:00, hence eight slots, with nothing booked or blocked. */
  lemma GetDefaultOpenDay(date: string, now: string)
    requires ValidDateFormat(date)
    requires DayOfWeek(date) <= 4
    ensures Get(Some(date), Unconfigured, now) == SlotList(GenerateSlots(date, [DefaultWindow], [], [], now), date)
    ensures |Get(Some(date), Unconfigured, now).slots| == 8
  {
    DefaultMinutes();
  }

  /** For a calendar date from year 100 on that falls on a Friday or a
      Saturday, the default schedule offers nothing. */
  lemma GetClosedOnFridayAndSaturday(date: string, now: string)
    requires ValidDateFormat(date)
    requires YearField(date) >= 100 && 1 <= MonthField(date) <= 12
    requires GregorianWeekday(YearField(date), MonthField(date), DayField(date)) >= 5
    ensures Get(Some(date), Unconfigured, now) == SlotList([], date)
  {
    DayOfWeekIsGregorian(date);
  }

  lemma {:induction false} BookingsForAppend(a: seq<Booking>, b: seq<Booking>, date: string)
    ensures BookingsFor(a + b, date) == BookingsFor(a, date) + BookingsFor(b, date)
    decreases |a|
  {
    if |a| == 0 {
      assert a + b == b;
    } else {
      assert (a + b)[0] == a[0];
      assert (a + b)[1..] == a[1..] + b;
      BookingsForAppend(a[1..], b, date);
    }
  }

  lemma RuleRowsAppend(a: seq<AvailabilityRule>, b: seq<AvailabilityRule>)
    requires RuleRowsWellFormed(a + b)
    ensures RuleRowsWellFormed(a) && RuleRowsWellFormed(b)
  {
    assert forall i :: 0 <= i < |a| ==> a[i] == (a + b)[i];
    assert forall i :: 0 <= i < |b| ==> b[i] == (a + b)[|a| + i];
  }

  lemma {:induction false} RulesForAppend(a: seq<AvailabilityRule>, b: seq<AvailabilityRule>, dow: int)
    requires RuleRowsWellFormed(a) && RuleRowsWellFormed(b) && RuleRowsWellFormed(a + b)
    ensures RulesFor(a + b, dow) == RulesFor(a, dow) + RulesFor(b, dow)
    decreases |a|
  {
    if |a| == 0 {
      assert a + b == b;
    } else {
      assert (a + b)[0] == a[0];
      assert (a + b)[1..] == a[1..] + b;
      RuleRowsAppend(a[1..], b);
      RuleRowsAppend([a[0]], a[1..] + b);
      assert [a[0]] + (a[1..] + b) == a + b;
      assert [a[0]] + a[1..] == a;
      RuleRowsAppend([a[0]], a[1..]);
      RulesForAppend(a[1..], b, dow);
    }
  }

  /** A cancelled booking, or one on another date, does not change the
      answer. */
  lemma IgnoredBookingRow(date: string, ruleRows: Option<seq<AvailabilityRule>>, rows: seq<Booking>, b: Booking,
                          blockRows: Option<seq<BlockedSlot>>, now: string)
    requires BackendWellFormed(Store(ruleRows, Some(rows), blockRows))
    requires b.status == Cancelled || b.date != date
    ensures Get(Some(date), Store(ruleRows, Some(rows + [b]), blockRows), now) ==
      Get(Some(date), Store(ruleRows, Some(rows), blockRows), now)
  {
    BookingsForAppend(rows, [b], date);
    NoBookingsFor(b, date);
    assert BookingsFor(rows + [b], date) == BookingsFor(rows, date);
    if ValidDateFormat(date) {
      assert InputsFor(date, Store(ruleRows, Some(rows + [b]), blockRows)) ==
        InputsFor(date, Store(ruleRows, Some(rows), blockRows));
    }
    GetOnSameInputs(date, Store(ruleRows, Some(rows + [b]), blockRows), Store(ruleRows, Some(rows), blockRows), now);
  }

  /** A cancelled booking, or one on another date, yields no window. */
  lemma NoBookingsFor(b: Booking, date: string)
    requires b.status == Cancelled || b.date != date
    ensures BookingsFor([b], date) == []
  {
    assert [b][1..] == [];
  }

  /** The answer for a date depends on the backend only through the day's
      inputs. */
  lemma GetOnSameInputs(date: string, one: Backend, other: Backend, now: string)
    requires BackendWellFormed(one) && BackendWellFormed(other)
    requires ValidDateFormat(date) ==> InputsFor(date, one) == InputsFor(date, other)
    ensures Get(Some(date), one, now) == Get(Some(date), other, now)
  {
  }

  /** An inactive rule, or one for another weekday, does not change the
      answer. */
  lemma IgnoredRuleRow(date: string, rows: seq<AvailabilityRule>, r: AvailabilityRule,
                       bookingRows: Option<seq<Booking>>, blockRows: Option<seq<BlockedSlot>>, now: string)
    requires ValidDateFormat(date)
    requires BackendWellFormed(Store(Some(rows + [r]), bookingRows, blockRows))
    requires !r.is_active || r.day_of_week != DayOfWeek(date)
    ensures BackendWellFormed(Store(Some(rows), bookingRows, blockRows))
    ensures Get(Some(date), Store(Some(rows + [r]), bookingRows, blockRows), now) ==
      Get(Some(date), Store(Some(rows), bookingRows, blockRows), now)
  {
    RuleRowsAppend(rows, [r]);
    RulesForAppend(rows, [r], DayOfWeek(date));
    NoRulesFor(r, DayOfWeek(date));
    assert RulesFor(rows + [r], DayOfWeek(date)) == RulesFor(rows, DayOfWeek(date));
    assert InputsFor(date, Store(Some(rows + [r]), bookingRows, blockRows)) ==
      InputsFor(date, Store(Some(rows), bookingRows, blockRows));
    GetOnSameInputs(date, Store(Some(rows + [r]), bookingRows, blockRows), Store(Some(rows), bookingRows, blockRows), now);
  }

  /** An inactive rule, or one for another weekday, yields no window. */
  lemma NoRulesFor(r: AvailabilityRule, dow: int)
    requires RuleRowsWellFormed([r])
    requires !r.is_active || r.day_of_week != dow
    ensures RulesFor([r], dow) == []
  {
    assert [r][1..] == [];
  }

  /** A booking that is not cancelled and is on the requested date turns off
      exactly the slot whose "HH:MM" is the first five characters of its
      start time, and nothing else changes. */
  lemma ActiveBookingRow(date: string, ruleRows: Option<seq<AvailabilityRule>>, rows: seq<Booking>, b: Booking,
                         blockRows: Option<seq<BlockedSlot>>, now: string, i: nat)
    requires ValidDateFormat(date)
    requires BackendWellFormed(Store(ruleRows, Some(rows), blockRows))
    requires b.status != Cancelled && b.date == date
    requires i < |Get(Some(date), Store(ruleRows, Some(rows), blockRows), now).slots|
    ensures var rules := RulesFor(RowsOf(ruleRows), DayOfWeek(date));
      var before := Get(Some(date), Store(ruleRows, Some(rows), blockRows), now).slots;
      var after := Get(Some(date), Store(ruleRows, Some(rows + [b]), blockRows), now).slots;
      && |after| == |before|
      && after[i].start == before[i].start
      && after[i].end == before[i].end
      && (after[i].available <==> before[i].available && Slice(b.start_time, 0, 5) != FromMinutes(ScheduleMinutes(rules)[i]))
  {
    var backend := Store(ruleRows, Some(rows), blockRows);
    var backend' := Store(ruleRows, Some(rows + [b]), blockRows);
    GetIsGenerator(date, backend, now);
    GetIsGenerator(date, backend', now);
    BookingsForAppend(rows, [b], date);
    var w := Window(Slice(b.start_time, 0, 5), Slice(b.end_time, 0, 5));
    assert BookingsFor([b], date) == [w];
    var inputs := InputsFor(date, backend);
    AddBookingEffect(date, inputs.rules, inputs.bookings, w, inputs.blocks, now, i);
  }
}
