/** The booking and modify pages side by side: the same form, two rule sets
    that neither contain nor exclude each other. */
module Pages {
  import opened Wrappers
  import opened Calendar
  import opened DateTime
  import opened Forms
  import Booking
  import Modify

  /** A form the booking page accepts, with `now` no earlier than the start
      of `today` and check-out on another day than check-in, is one the
      modify page accepts too. */
  lemma BookableOnTwoDaysIsModifiable(f: ReservationForm, now: int, today: CalendarDate)
    requires Booking.IsBookable(f, now)
    requires InstantMillis(today, 0) <= now
    requires f.checkInDate != f.checkOutDate
    ensures Modify.IsModifiable(f, today)
  {
    InstantOrder(f.checkInDate.value, f.checkInTime, today, 0);
    InstantOrder(f.checkInDate.value, f.checkInTime, f.checkOutDate.value, f.checkOutTime);
    DayNumberOrder(f.checkInDate.value, f.checkOutDate.value);
  }

  /** Whatever either page would send has had its availability asked for:
      a form that passes the booking or the modify rules has a room type and
      both dates. */
  lemma SentFormsWereQueried(f: ReservationForm, now: int, today: CalendarDate,
                             availability: Option<Availability>)
    ensures Booking.HandleSubmit(f, now, availability).SendBooking? ==> AvailabilityRequest(f).Some?
    ensures Modify.HandleSubmit(f, today, availability).SendPatch? ==> AvailabilityRequest(f).Some?
    ensures Booking.IsBookable(f, now) ==> AvailabilityRequest(f).Some?
    ensures Modify.IsModifiable(f, today) ==> AvailabilityRequest(f).Some?
  {
  }

  /** The forms the two pages start with pass neither page's rules and ask
      for no availability: the room type and the dates are empty. */
  lemma InitialFormsRejected(now: int, today: CalendarDate)
    ensures !Booking.IsBookable(Booking.InitialForm, now)
    ensures !Modify.IsModifiable(Modify.InitialForm, today)
    ensures AvailabilityRequest(Booking.InitialForm).None?
    ensures AvailabilityRequest(Modify.InitialForm).None?
  {
  }

  /** A stay of twelve hours or more within one day passes the booking rules
      but never the modify rules, which want check-out on a later day. */
  lemma SameDayStayOnlyBookable(f: ReservationForm, now: int, today: CalendarDate)
    requires Booking.IsBookable(f, now)
    requires f.checkInDate == f.checkOutDate
    ensures !Modify.IsModifiable(f, today)
  {
  }

  /** An overnight stay shorter than twelve hours, with no name and no guest
      count, passes the modify rules and fails three booking rules. */
  lemma ShortOvernightStayOnlyModifiable(d: CalendarDate, today: CalendarDate, now: int)
    requires DayNumber(today) <= DayNumber(d)
    ensures var f := ReservationForm("", "", "Deluxe", Some(d), 23 * 60, Some(NextDate(d)), 60, None, "");
      && Modify.IsModifiable(f, today)
      && !Booking.IsBookable(f, now)
      && Booking.StayTooShort(f)
      && Booking.GuestCountInvalid(f)
  {
  }
}
