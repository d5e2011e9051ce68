/** The reservation form shared by the booking and modify pages: its fields,
    the single-field edits the inputs send, and the availability reply of the
    server. */
module Forms {
  import opened Wrappers
  import opened Calendar
  import opened DateTime

  /** The keys of the form, which are also the keys of its error object. */
  datatype Field = Name | Phone | RoomType | CheckInDate | CheckInTime
                 | CheckOutDate | CheckOutTime | GuestCount | Notes

  /** An empty date input is `None`; a guest count that is not a number
      (`parseInt("")`) is `None`. */
  datatype ReservationForm = ReservationForm(
    name: string,
    phone: string,
    roomType: string,
    checkInDate: Option<CalendarDate>,
    checkInTime: Minutes,
    checkOutDate: Option<CalendarDate>,
    checkOutTime: Minutes,
    guestCount: Option<int>,
    notes: string)

  /** What one input's change event carries: the field and its new value. */
  datatype Edit =
    | SetName(text: string)
    | SetPhone(text: string)
    | SetRoomType(text: string)
    | SetCheckInDate(date: Option<CalendarDate>)
    | SetCheckInTime(time: Minutes)
    | SetCheckOutDate(date: Option<CalendarDate>)
    | SetCheckOutTime(time: Minutes)
    | SetGuestCount(count: Option<int>)
    | SetNotes(text: string)

  function FieldOf(e: Edit): Field {
    match e
    case SetName(_) => Name
    case SetPhone(_) => Phone
    case SetRoomType(_) => RoomType
    case SetCheckInDate(_) => CheckInDate
    case SetCheckInTime(_) => CheckInTime
    case SetCheckOutDate(_) => CheckOutDate
    case SetCheckOutTime(_) => CheckOutTime
    case SetGuestCount(_) => GuestCount
    case SetNotes(_) => Notes
  }

  /** The field that `e` names holds the value `e` carries. */
  predicate Holds(f: ReservationForm, e: Edit) {
    match e
    case SetName(v) => f.name == v
    case SetPhone(v) => f.phone == v
    case SetRoomType(v) => f.roomType == v
    case SetCheckInDate(v) => f.checkInDate == v
    case SetCheckInTime(v) => f.checkInTime == v
    case SetCheckOutDate(v) => f.checkOutDate == v
    case SetCheckOutTime(v) => f.checkOutTime == v
    case SetGuestCount(v) => f.guestCount == v
    case SetNotes(v) => f.notes == v
  }

  /** `a` and `b` agree on every field except possibly `k`. */
  predicate SameExcept(a: ReservationForm, b: ReservationForm, k: Field) {
    && (k == Name || a.name == b.name)
    && (k == Phone || a.phone == b.phone)
    && (k == RoomType || a.roomType == b.roomType)
    && (k == CheckInDate || a.checkInDate == b.checkInDate)
    && (k == CheckInTime || a.checkInTime == b.checkInTime)
    && (k == CheckOutDate || a.checkOutDate == b.checkOutDate)
    && (k == CheckOutTime || a.checkOutTime == b.checkOutTime)
    && (k == GuestCount || a.guestCount == b.guestCount)
    && (k == Notes || a.notes == b.notes)
  }

  /** `{ ...prev, [field]: value }`: the named field takes the new value and
      every other field is kept. */
  function ApplyEdit(f: ReservationForm, e: Edit): (r: ReservationForm)
    ensures Holds(r, e)
    ensures SameExcept(f, r, FieldOf(e))
  {
    match e
    case SetName(v) => f.(name := v)
    case SetPhone(v) => f.(phone := v)
    case SetRoomType(v) => f.(roomType := v)
    case SetCheckInDate(v) => f.(checkInDate := v)
    case SetCheckInTime(v) => f.(checkInTime := v)
    case SetCheckOutDate(v) => f.(checkOutDate := v)
    case SetCheckOutTime(v) => f.(checkOutTime := v)
    case SetGuestCount(v) => f.(guestCount := v)
    case SetNotes(v) => f.(notes := v)
  }

  /** The server's availability reply for a room type and stay. Prices are
      integer cents. */
  datatype Availability = Availability(
    available: bool,
    remainingRooms: int,
    roomPricePerDay: int,
    estimatedTotalPrice: int,
    numberOfDays: int)

  /** Both pages ask the server for availability only once a room type and
      both dates are filled in. */
  predicate ShouldCheckAvailability(f: ReservationForm) {
    f.roomType != "" && f.checkInDate.Some? && f.checkOutDate.Some?
  }

  /** The body of the availability request: the room type and the stay. */
  datatype AvailabilityQuery = AvailabilityQuery(
    roomType: string,
    checkInDate: CalendarDate,
    checkInTime: Minutes,
    checkOutDate: CalendarDate,
    checkOutTime: Minutes)

  /** `checkAvailability`: the request either page sends for its form, or
      none while a room type or a date is missing. */
  function AvailabilityRequest(f: ReservationForm): (q: Option<AvailabilityQuery>)
    ensures q.Some? <==> f.roomType != "" && f.checkInDate.Some? && f.checkOutDate.Some?
    ensures q.Some? ==>
      && q.value.roomType == f.roomType
      && Some(q.value.checkInDate) == f.checkInDate && q.value.checkInTime == f.checkInTime
      && Some(q.value.checkOutDate) == f.checkOutDate && q.value.checkOutTime == f.checkOutTime
  {
    if ShouldCheckAvailability(f) then
      Some(AvailabilityQuery(f.roomType, f.checkInDate.value, f.checkInTime,
                             f.checkOutDate.value, f.checkOutTime))
    else None
  }

  /** A `null` reply, or one that says the room is not available, blocks
      submission. */
  predicate IsAvailable(a: Option<Availability>) {
    a.Some? && a.value.available
  }
}
