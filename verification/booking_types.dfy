/** The records the booking subsystem passes around (types/booking.ts),
    plus the rows of the three database tables the availability endpoint
    reads. All times are "HH:MM" strings in UTC and all dates "YYYY-MM-DD". */
module BookingTypes {

  import opened Nullable

  datatype BookingStatus = Pending | Confirmed | Cancelled

  /** A recurring weekly window; `day_of_week` is 0 for Sunday. */
  datatype AvailabilityRule = AvailabilityRule(
    id: string,
    day_of_week: int,
    start_time: string,
    end_time: string,
    is_active: bool)

  /** An ad-hoc exclusion for one date. The endpoint reads both times as
      nullable: a null start time blocks the whole day. */
  datatype BlockedSlot = BlockedSlot(
    id: string,
    date: string,
    start_time: Option<string>,
    end_time: Option<string>)

  datatype Booking = Booking(
    id: string,
    date: string,
    start_time: string,
    end_time: string,
    client_name: string,
    client_email: string,
    description: string,
    status: BookingStatus,
    timezone: string,
    created_at: string)

  /** A slot as the booking page holds it: the endpoint's UTC ISO strings,
      their local-time renderings for display, and the availability flag. */
  datatype TimeSlot = TimeSlot(
    start: string,
    end: string,
    startLocal: string,
    endLocal: string,
    available: bool)

  datatype BookingFormData = BookingFormData(name: string, email: string, description: string)

  datatype BookingStep = DateStep | TimeStep | FormStep | ConfirmationStep
}
