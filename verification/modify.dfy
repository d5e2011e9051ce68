/** The modify-booking page (app/modify/page.tsx): the same reservation form
    as the booking page, with plain single-field edits and a weaker
    validator that compares dates only, against today's date. */
module Modify {
  import opened Wrappers
  import opened Text
  import opened Calendar
  import opened DateTime
  import opened Forms
  import opened ErrorMap

  /** The form before the stored booking is loaded. */
  const InitialForm: ReservationForm :=
    ReservationForm("", "", "", None, 12 * 60, None, 11 * 60, Some(1), "")

  /** The messages this page's `validateForm` can assign. */
  datatype ModifyError =
    | RoomTypeRequired | CheckInDateRequired | CheckOutDateRequired
    | CheckInInThePast | CheckOutNotAfterCheckIn
  {
    function Text(): string {
      match this
      case RoomTypeRequired => "Room type is required"
      case CheckInDateRequired => "Check-in date is required"
      case CheckOutDateRequired => "Check-out date is required"
      case CheckInInThePast => "Check-in date cannot be in the past"
      case CheckOutNotAfterCheckIn => "Check-out date must be after check-in date"
    }
  }

  type ModifyErrors = seq<Entry<Field, ModifyError>>

  datatype ModifyPage = ModifyPage(form: ReservationForm, errors: ModifyErrors)

  /** `handleChange`: the named field takes the new value, its error becomes
      `undefined`, and nothing else changes; in particular check-out does
      not follow check-in. */
  function HandleChange(p: ModifyPage, e: Edit): (r: ModifyPage)
    ensures Holds(r.form, e) && SameExcept(p.form, r.form, FieldOf(e))
    ensures Lookup(r.errors, FieldOf(e)) == Some(None)
    ensures forall k :: k != FieldOf(e) ==> Lookup(r.errors, k) == Lookup(p.errors, k)
    ensures KeysDistinct(p.errors) ==> KeysDistinct(r.errors)
  {
    ModifyPage(ApplyEdit(p.form, e), Put(p.errors, FieldOf(e), None))
  }

  /** `formData.checkInDate < currentDate`: an empty check-in date is before
      every date. */
  predicate CheckInBeforeToday(f: ReservationForm, today: CalendarDate) {
    DateBefore(f.checkInDate, Some(today))
  }

  /** `formData.checkOutDate <= formData.checkInDate`. */
  predicate CheckOutNotAfter(f: ReservationForm) {
    DateNotAfter(f.checkOutDate, f.checkInDate)
  }

  /** The five assignments of `validateForm`, in the page's order, each
      made when its condition holds; a later assignment to the same key
      replaces the earlier message in place. */
  function Assignments(roomMissing: bool, checkInMissing: bool, checkOutMissing: bool,
                       checkInPast: bool, checkOutEarly: bool): ModifyErrors
  {
    var e1 := SetIf([], roomMissing, RoomType, RoomTypeRequired);
    var e2 := SetIf(e1, checkInMissing, CheckInDate, CheckInDateRequired);
    var e3 := SetIf(e2, checkOutMissing, CheckOutDate, CheckOutDateRequired);
    var e4 := SetIf(e3, checkInPast, CheckInDate, CheckInInThePast);
    SetIf(e4, checkOutEarly, CheckOutDate, CheckOutNotAfterCheckIn)
  }

  /** Each date key ends with the ordering message when its comparison
      fails, and with the "required" message only when the date is missing
      but the comparison passes. */
  lemma AssignmentsAt(roomMissing: bool, checkInMissing: bool, checkOutMissing: bool,
                      checkInPast: bool, checkOutEarly: bool, k: Field)
    ensures Lookup(Assignments(roomMissing, checkInMissing, checkOutMissing, checkInPast, checkOutEarly), k)
      == match k
         case RoomType => if roomMissing then Some(Some(RoomTypeRequired)) else None
         case CheckInDate =>
           if checkInPast then Some(Some(CheckInInThePast))
           else if checkInMissing then Some(Some(CheckInDateRequired)) else None
         case CheckOutDate =>
           if checkOutEarly then Some(Some(CheckOutNotAfterCheckIn))
           else if checkOutMissing then Some(Some(CheckOutDateRequired)) else None
         case _ => None
  {
    if k == RoomType {
      RoomTypeAssigned(roomMissing, checkInMissing, checkOutMissing, checkInPast, checkOutEarly);
    } else if k == CheckInDate {
      CheckInAssigned(roomMissing, checkInMissing, checkOutMissing, checkInPast, checkOutEarly);
    } else if k == CheckOutDate {
      CheckOutAssigned(roomMissing, checkInMissing, checkOutMissing, checkInPast, checkOutEarly);
    } else {
      NothingElseAssigned(roomMissing, checkInMissing, checkOutMissing, checkInPast, checkOutEarly, k);
    }
  }

  lemma RoomTypeAssigned(roomMissing: bool, checkInMissing: bool, checkOutMissing: bool,
                         checkInPast: bool, checkOutEarly: bool)
    ensures Lookup(Assignments(roomMissing, checkInMissing, checkOutMissing, checkInPast, checkOutEarly), RoomType)
      == if roomMissing then Some(Some(RoomTypeRequired)) else None
  {
  }

  lemma CheckInAssigned(roomMissing: bool, checkInMissing: bool, checkOutMissing: bool,
                        checkInPast: bool, checkOutEarly: bool)
    ensures Lookup(Assignments(roomMissing, checkInMissing, checkOutMissing, checkInPast, checkOutEarly), CheckInDate)
      == if checkInPast then Some(Some(CheckInInThePast))
         else if checkInMissing then Some(Some(CheckInDateRequired)) else None
  {
  }

  lemma CheckOutAssigned(roomMissing: bool, checkInMissing: bool, checkOutMissing: bool,
                         checkInPast: bool, checkOutEarly: bool)
    ensures Lookup(Assignments(roomMissing, checkInMissing, checkOutMissing, checkInPast, checkOutEarly), CheckOutDate)
      == if checkOutEarly then Some(Some(CheckOutNotAfterCheckIn))
         else if checkOutMissing then Some(Some(CheckOutDateRequired)) else None
  {
  }

  lemma NothingElseAssigned(roomMissing: bool, checkInMissing: bool, checkOutMissing: bool,
                            checkInPast: bool, checkOutEarly: bool, k: Field)
    requires k != RoomType && k != CheckInDate && k != CheckOutDate
    ensures Lookup(Assignments(roomMissing, checkInMissing, checkOutMissing, checkInPast, checkOutEarly), k) == None
  {
  }

  /** `validateForm`'s assignments for a form, with `today` for the current
      date. */
  function AsWritten(f: ReservationForm, today: CalendarDate): ModifyErrors {
    Assignments(f.roomType == "", f.checkInDate.None?, f.checkOutDate.None?,
                CheckInBeforeToday(f, today), CheckOutNotAfter(f))
  }

  /** Check-in is filled in and not before today. */
  predicate StartsFromToday(f: ReservationForm, today: CalendarDate) {
    f.checkInDate.Some? && DayNumber(today) <= DayNumber(f.checkInDate.value)
  }

  /** Check-out is missing, or check-in is filled in and check-out is not on a
      later day. */
  predicate CheckOutNotLater(f: ReservationForm) {
    f.checkOutDate.None?
    || (f.checkInDate.Some? && DayNumber(f.checkOutDate.value) <= DayNumber(f.checkInDate.value))
  }

  /** What the error object holds under each key, rule by rule: the two
      "required" messages are always overwritten, so a missing date shows
      the ordering message, and times, guest count, name, phone and notes
      are never checked. */
  function RuleVerdict(f: ReservationForm, today: CalendarDate, k: Field): Option<Option<ModifyError>> {
    match k
    case RoomType => if f.roomType == "" then Some(Some(RoomTypeRequired)) else None
    case CheckInDate => if !StartsFromToday(f, today) then Some(Some(CheckInInThePast)) else None
    case CheckOutDate => if CheckOutNotLater(f) then Some(Some(CheckOutNotAfterCheckIn)) else None
    case _ => None
  }

  /** `validateForm`, with `today` for the UTC date of `new Date()`. */
  function ValidateForm(f: ReservationForm, today: CalendarDate): (r: ModifyErrors)
    ensures KeysDistinct(r) && AllDefined(r)
    ensures forall k :: Lookup(r, k) == RuleVerdict(f, today, k)
  {
    AsWrittenMeetsRules(f, today);
    AsWritten(f, today)
  }

  lemma AsWrittenMeetsRules(f: ReservationForm, today: CalendarDate)
    ensures forall k :: Lookup(AsWritten(f, today), k) == RuleVerdict(f, today, k)
  {
    forall k ensures Lookup(AsWritten(f, today), k) == RuleVerdict(f, today, k) {
      AsWrittenAt(f, today, k);
    }
  }

  /** One key at a time: the last assignment to a key decides what it holds. */
  lemma AsWrittenAt(f: ReservationForm, today: CalendarDate, k: Field)
    ensures Lookup(AsWritten(f, today), k) == RuleVerdict(f, today, k)
  {
    AssignmentsAt(f.roomType == "", f.checkInDate.None?, f.checkOutDate.None?,
                  CheckInBeforeToday(f, today), CheckOutNotAfter(f), k);
    CheckInRule(f, today);
    CheckOutRule(f);
  }

  /** The check-in comparison fails exactly when check-in is missing or
      before today. */
  lemma CheckInRule(f: ReservationForm, today: CalendarDate)
    ensures CheckInBeforeToday(f, today) <==> !StartsFromToday(f, today)
  {
  }

  /** The check-out comparison fails exactly when check-out is missing or
      not on a later day than a filled-in check-in. */
  lemma CheckOutRule(f: ReservationForm)
    ensures CheckOutNotAfter(f) <==> CheckOutNotLater(f)
  {
    if f.checkOutDate.Some? && f.checkInDate.Some? {
      DayNumberOrder(f.checkOutDate.value, f.checkInDate.value);
    }
  }

  /** Every rule of the modify page holds: a room type, a check-in from today
      on, and a check-out on a later day. */
  predicate IsModifiable(f: ReservationForm, today: CalendarDate) {
    && f.roomType != ""
    && f.checkInDate.Some? && DayNumber(today) <= DayNumber(f.checkInDate.value)
    && f.checkOutDate.Some? && DayNumber(f.checkInDate.value) < DayNumber(f.checkOutDate.value)
  }

  /** The form is valid, that is the error object has no keys, exactly when
      every rule holds. */
  lemma ValidIffModifiable(f: ReservationForm, today: CalendarDate, r: ModifyErrors)
    requires KeysDistinct(r) && AllDefined(r)
    requires forall k :: Lookup(r, k) == RuleVerdict(f, today, k)
    ensures |r| == 0 <==> IsModifiable(f, today)
  {
    if |r| == 0 {
      assert Lookup(r, RoomType) == RuleVerdict(f, today, RoomType);
      assert Lookup(r, CheckInDate) == RuleVerdict(f, today, CheckInDate);
      assert Lookup(r, CheckOutDate) == RuleVerdict(f, today, CheckOutDate);
    } else {
      FirstEntryAnswers(r, k => RuleVerdict(f, today, k));
    }
  }

  /** An empty check-in date always ends with the "cannot be in the past"
      message, never with "required". */
  lemma EmptyCheckInShowsPast(f: ReservationForm, today: CalendarDate)
    requires f.checkInDate.None?
    ensures Message(ValidateForm(f, today), CheckInDate) == Some(CheckInInThePast)
  {
    assert Lookup(ValidateForm(f, today), CheckInDate) == RuleVerdict(f, today, CheckInDate);
  }

  /** An empty check-out date, and a check-out on the check-in day whatever
      the times, end with the "must be after check-in" message. */
  lemma CheckOutOnCheckInDayRejected(f: ReservationForm, today: CalendarDate)
    requires f.checkOutDate.None? || f.checkOutDate == f.checkInDate
    ensures Message(ValidateForm(f, today), CheckOutDate) == Some(CheckOutNotAfterCheckIn)
  {
    assert Lookup(ValidateForm(f, today), CheckOutDate) == RuleVerdict(f, today, CheckOutDate);
  }

  /** Two forms that agree on room type and dates get the same error object:
      times, guest count, name, phone and notes play no part. */
  lemma OnlyRoomAndDatesMatter(f: ReservationForm, g: ReservationForm, today: CalendarDate)
    requires f.roomType == g.roomType
    requires f.checkInDate == g.checkInDate && f.checkOutDate == g.checkOutDate
    ensures ValidateForm(f, today) == ValidateForm(g, today)
  {
    assert AsWritten(f, today) == AsWritten(g, today);
  }

  /** The page compares the date texts with JavaScript's `<` and `<=`; for
      four-digit years that is the day order used above. */
  lemma DateChecksAsStrings(f: ReservationForm, today: CalendarDate)
    requires f.checkInDate.Some? ==> f.checkInDate.value.year <= 9999
    requires f.checkOutDate.Some? ==> f.checkOutDate.value.year <= 9999
    requires today.year <= 9999
    ensures CheckInBeforeToday(f, today)
      <==> StrLess(DateFieldText(f.checkInDate), FormatDate(today))
    ensures CheckOutNotAfter(f)
      <==> StrLessEq(DateFieldText(f.checkOutDate), DateFieldText(f.checkInDate))
  {
    DateFieldOrder(f.checkInDate, Some(today));
    DateFieldOrder(f.checkOutDate, f.checkInDate);
  }

  /** The body of the PATCH: the stay, the guest count and the notes; the
      guest's name and phone are not sent. */
  datatype PatchBody = PatchBody(
    roomType: string,
    checkInDate: CalendarDate,
    checkInTime: Minutes,
    checkOutDate: CalendarDate,
    checkOutTime: Minutes,
    guestCount: Option<int>,
    notes: string)

  /** What pressing "save" leads to. */
  datatype SubmitOutcome =
    | Rejected(errors: ModifyErrors)
    | Blocked
    | SendPatch(body: PatchBody)

  /** `handleSubmit`: the PATCH is sent only for a valid form with an
      available room; otherwise nothing is sent. */
  function HandleSubmit(f: ReservationForm, today: CalendarDate, availability: Option<Availability>)
    : (r: SubmitOutcome)
    ensures r.SendPatch? <==> IsModifiable(f, today) && IsAvailable(availability)
    ensures r.SendPatch? ==>
      && r.body.roomType == f.roomType
      && Some(r.body.checkInDate) == f.checkInDate && r.body.checkInTime == f.checkInTime
      && Some(r.body.checkOutDate) == f.checkOutDate && r.body.checkOutTime == f.checkOutTime
      && r.body.guestCount == f.guestCount && r.body.notes == f.notes
    ensures r.Rejected? <==> !IsModifiable(f, today)
    ensures r.Rejected? ==> r.errors == ValidateForm(f, today)
    ensures r.Rejected? ==> |r.errors| > 0 && AllDefined(r.errors)
  {
    var errors := ValidateForm(f, today);
    ValidIffModifiable(f, today, errors);
    if |errors| != 0 then Rejected(errors)
    else if !IsAvailable(availability) then Blocked
    else SendPatch(PatchBody(f.roomType, f.checkInDate.value, f.checkInTime, f.checkOutDate.value,
                             f.checkOutTime, f.guestCount, f.notes))
  }
}
