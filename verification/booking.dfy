/** The new-booking page (app/booking/page.tsx): how an edit to one input
    updates the form, how the form is validated against the current time,
    and when it may be submitted. */
module Booking {
  import opened Wrappers
  import opened Text
  import opened Calendar
  import opened DateTime
  import opened Forms
  import opened ErrorMap

  /** Check-in time set whenever the check-in date changes (14:00). */
  const DefaultCheckInTime: Minutes := 14 * 60
  /** Check-out time the form starts with (11:00). */
  const DefaultCheckOutTime: Minutes := 11 * 60
  /** The minimum stay: 12 hours. */
  const MinimumStayMinutes: int := 12 * 60
  const MinimumStayMillis: int := MinimumStayMinutes * MillisPerMinute

  const InitialForm: ReservationForm :=
    ReservationForm("", "", "", None, DefaultCheckInTime, None, DefaultCheckOutTime, Some(1), "")

  /** The messages `validateForm` can assign, with the text the page shows
      for each. */
  datatype BookingError =
    | RoomTypeRequired | CheckInDateRequired | CheckInInThePast | CheckOutDateRequired
    | MinimumStayViolated | SameDayOrderViolated | CheckOutNotAfterCheckIn
    | GuestCountRequired | NameRequired
  {
    function Text(): string {
      match this
      case RoomTypeRequired => "Room type is required"
      case CheckInDateRequired => "Check-in date is required"
      case CheckInInThePast => "Check-in date and time cannot be in the past"
      case CheckOutDateRequired => "Check-out date is required"
      case MinimumStayViolated => "Minimum stay duration is 12 hours"
      case SameDayOrderViolated => "Check-out time must be after check-in time on same day"
      case CheckOutNotAfterCheckIn => "Check-out date and time must be after check-in date and time"
      case GuestCountRequired => "At least 1 guest is required"
      case NameRequired => "Name is required"
    }
  }

  /** The page's error object. */
  type BookingErrors = seq<Entry<Field, BookingError>>

  datatype DateAndTime = DateAndTime(date: CalendarDate, time: Minutes)

  /** `calculateMinCheckoutDateTime`: the date and time twelve hours after
      check-in; from 12:00 on, that is on the next calendar day. */
  function CalculateMinCheckout(d: CalendarDate, t: Minutes): (r: DateAndTime)
    ensures InstantMillis(r.date, r.time) == InstantMillis(d, t) + MinimumStayMillis
    ensures r.date == (if t >= 12 * 60 then NextDate(d) else d)
  {
    if t + MinimumStayMinutes < MinutesPerDay then DateAndTime(d, t + MinimumStayMinutes)
    else DateAndTime(NextDate(d), t + MinimumStayMinutes - MinutesPerDay)
  }

  predicate IsCheckInEdit(e: Edit) {
    e.SetCheckInDate? || e.SetCheckInTime?
  }

  /** The fields no date or time edit touches. */
  predicate SameGuestDetails(a: ReservationForm, b: ReservationForm) {
    a.name == b.name && a.phone == b.phone && a.roomType == b.roomType
    && a.guestCount == b.guestCount && a.notes == b.notes
  }

  /** Check-out is exactly the minimum stay after check-in. */
  predicate CheckOutIsMinimum(f: ReservationForm) {
    f.checkInDate.Some? && f.checkOutDate.Some?
    && InstantMillis(f.checkOutDate.value, f.checkOutTime)
       == InstantMillis(f.checkInDate.value, f.checkInTime) + MinimumStayMillis
  }

  /** After a check-in date change, a check-out date earlier than the new
      check-in date is moved to the check-in date at 11:00. */
  function RollBackCheckOut(n: ReservationForm): ReservationForm {
    if n.checkOutDate.Some? && DateBefore(n.checkOutDate, n.checkInDate) then
      n.(checkOutDate := n.checkInDate, checkOutTime := DefaultCheckOutTime)
    else n
  }

  /** When both dates are equal and the new check-in time is not before the
      check-out time, check-out moves to one hour after the new check-in
      time. */
  function SameDayAdjust(n: ReservationForm, e: Edit): ReservationForm {
    if n.checkInDate == n.checkOutDate && e.SetCheckInTime? && n.checkOutTime <= e.time then
      n.(checkOutTime := AddHours(e.time, 1))
    else n
  }

  /** After a check-in edit with a check-in date present, check-out becomes
      exactly the minimum stay after check-in. */
  function FollowCheckIn(n: ReservationForm, e: Edit): ReservationForm {
    if IsCheckInEdit(e) && n.checkInDate.Some? then
      var m := CalculateMinCheckout(n.checkInDate.value, n.checkInTime);
      n.(checkOutDate := Some(m.date), checkOutTime := m.time)
    else n
  }

  /** `handleInputChange` on the form. */
  function HandleInputChange(prev: ReservationForm, e: Edit): (r: ReservationForm)
    ensures !IsCheckInEdit(e) ==> Holds(r, e) && SameExcept(prev, r, FieldOf(e))
    ensures IsCheckInEdit(e) ==> SameGuestDetails(prev, r)
    ensures e.SetCheckInDate? ==> r.checkInDate == e.date && r.checkInTime == DefaultCheckInTime
    ensures e.SetCheckInTime? ==> r.checkInTime == e.time && r.checkInDate == prev.checkInDate
    ensures IsCheckInEdit(e) && r.checkInDate.Some? ==> CheckOutIsMinimum(r)
    ensures e.SetCheckInDate? && e.date.None? ==>
      r.checkOutDate == prev.checkOutDate && r.checkOutTime == prev.checkOutTime
    ensures e.SetCheckInTime? && prev.checkInDate.None? ==>
      && r.checkOutDate == prev.checkOutDate
      && r.checkOutTime == (if prev.checkOutDate.None? && prev.checkOutTime <= e.time
                            then AddHours(e.time, 1) else prev.checkOutTime)
  {
    var n := ApplyEdit(prev, e);
    var n1 := if e.SetCheckInDate? then RollBackCheckOut(n.(checkInTime := DefaultCheckInTime)) else n;
    FollowCheckIn(SameDayAdjust(n1, e), e)
  }

  /** The roll-back of lines 168-174 never shows in the result: with a new
      check-in date it is overwritten by the twelve-hour rule, and with an
      empty one its condition is false. */
  lemma RollBackIsOverridden(f: ReservationForm, d: Option<CalendarDate>)
    ensures var n := ApplyEdit(f, SetCheckInDate(d)).(checkInTime := DefaultCheckInTime);
      HandleInputChange(f, SetCheckInDate(d)) == FollowCheckIn(n, SetCheckInDate(d))
  {
  }

  /** Any check-in date change makes check-out 02:00 on the following day. */
  lemma NewCheckInDateGivesTwoAm(f: ReservationForm, d: CalendarDate)
    ensures var r := HandleInputChange(f, SetCheckInDate(Some(d)));
      r.checkOutDate == Some(NextDate(d)) && r.checkOutTime == 2 * 60
  {
  }

  /** Applying the same edit twice gives the same form as applying it once. */
  lemma HandleInputChangeIdempotent(f: ReservationForm, e: Edit)
    ensures HandleInputChange(HandleInputChange(f, e), e) == HandleInputChange(f, e)
  {
    var once := HandleInputChange(f, e);
    if e.SetCheckInTime? && f.checkInDate.None? && f.checkOutDate.None? && f.checkOutTime <= e.time {
      var t := AddHours(e.time, 1);
      if e.time / 60 == 23 {
        assert t < e.time;
      } else {
        assert t > e.time;
      }
    }
  }

  /** The page's state: the form and the error object. */
  datatype BookingPage = BookingPage(form: ReservationForm, errors: BookingErrors)

  /** `handleInputChange` on the whole page: the form as above, and the
      edited field's error set to `undefined` while every other error stays. */
  function OnInputChange(p: BookingPage, e: Edit): (r: BookingPage)
    ensures Lookup(r.errors, FieldOf(e)) == Some(None)
    ensures forall k :: k != FieldOf(e) ==> Lookup(r.errors, k) == Lookup(p.errors, k)
    ensures KeysDistinct(p.errors) ==> KeysDistinct(r.errors)
    ensures r.form == HandleInputChange(p.form, e)
  {
    BookingPage(HandleInputChange(p.form, e), Put(p.errors, FieldOf(e), None))
  }

  datatype RoomCategory = RoomCategory(id: int, typeName: string, price: int, photos: seq<string>)

  /** The index of the first room type named `value`, if any. */
  function FindRoomIndex(types: seq<RoomCategory>, value: string, from: nat): (r: Option<nat>)
    requires from <= |types|
    ensures r.Some? ==>
      (from <= r.value < |types| && types[r.value].typeName == value
       && forall j :: from <= j < r.value ==> types[j].typeName != value)
    ensures r.None? ==> forall j :: from <= j < |types| ==> types[j].typeName != value
    decreases |types| - from
  {
    if from == |types| then None
    else if types[from].typeName == value then Some(from)
    else FindRoomIndex(types, value, from + 1)
  }

  /** `roomTypes.find(r => r.type === value) || null`. */
  function SelectRoom(types: seq<RoomCategory>, value: string): (r: Option<RoomCategory>)
    ensures r.None? <==> forall j :: 0 <= j < |types| ==> types[j].typeName != value
    ensures r.Some? ==> r.value.typeName == value
    ensures r.Some? ==>
      exists i :: (0 <= i < |types| && types[i] == r.value
                   && forall j :: 0 <= j < i ==> types[j].typeName != value)
  {
    match FindRoomIndex(types, value, 0)
    case None => None
    case Some(i) => Some(types[i])
  }

  /** `handleRoomTypeChange`: record the choice in the form, clear the room
      type's error as any edit does, and select the first room type of that
      name. */
  function HandleRoomTypeChange(p: BookingPage, types: seq<RoomCategory>, value: string)
    : (r: (BookingPage, Option<RoomCategory>))
    ensures r.0.form.roomType == value && SameExcept(p.form, r.0.form, RoomType)
    ensures Lookup(r.0.errors, RoomType) == Some(None)
    ensures forall k :: k != RoomType ==> Lookup(r.0.errors, k) == Lookup(p.errors, k)
    ensures r.0.errors == Put(p.errors, RoomType, None)
    ensures r.1 == SelectRoom(types, value)
  {
    (OnInputChange(p, SetRoomType(value)), SelectRoom(types, value))
  }

  /** `isTimeValid`: an empty date passes; otherwise the instant must be
      strictly after `now`. */
  function IsTimeValid(d: Option<CalendarDate>, t: Minutes, now: int): (ok: bool)
    ensures ok <==> d.None? || now < InstantMillis(d.value, t)
  {
    if d.None? then true else InstantMillis(d.value, t) > now
  }

  function CheckInMillis(f: ReservationForm): int
    requires f.checkInDate.Some?
  {
    InstantMillis(f.checkInDate.value, f.checkInTime)
  }

  function CheckOutMillis(f: ReservationForm): int
    requires f.checkOutDate.Some?
  {
    InstantMillis(f.checkOutDate.value, f.checkOutTime)
  }

  predicate CheckInInPast(f: ReservationForm, now: int) {
    f.checkInDate.Some? && CheckInMillis(f) < now
  }

  /** Both dates are present and check-out comes less than twelve hours
      after check-in. */
  predicate StayTooShort(f: ReservationForm) {
    f.checkInDate.Some? && f.checkOutDate.Some?
    && CheckOutMillis(f) < CheckInMillis(f) + MinimumStayMillis
  }

  /** Both dates are present and check-out is on an earlier day than
      check-in. */
  predicate CheckOutDayBeforeCheckIn(f: ReservationForm) {
    f.checkInDate.Some? && f.checkOutDate.Some?
    && DayNumber(f.checkOutDate.value) < DayNumber(f.checkInDate.value)
  }

  predicate GuestCountInvalid(f: ReservationForm) {
    f.guestCount.None? || f.guestCount.value < 1
  }

  /** Every rule of the booking page holds. */
  predicate IsBookable(f: ReservationForm, now: int) {
    && f.roomType != ""
    && f.checkInDate.Some? && now <= CheckInMillis(f)
    && f.checkOutDate.Some? && CheckInMillis(f) + MinimumStayMillis <= CheckOutMillis(f)
    && !GuestCountInvalid(f)
    && !IsBlank(f.name)
  }

  /** The check-out time message that ends up in the error object: the
      same-day message replaces the minimum-stay one. */
  function CheckOutTimeMessage(f: ReservationForm): BookingError {
    if f.checkInDate == f.checkOutDate && f.checkOutTime <= f.checkInTime
    then SameDayOrderViolated else MinimumStayViolated
  }

  /** `!formData.guestCount || formData.guestCount < 1`, with `NaN` as
      `None`. */
  function GuestCountRejected(c: Option<int>): bool {
    match c
    case None => true
    case Some(n) => n == 0 || n < 1
  }

  /** The two check-out time rules as written: fewer than twelve hours, or
      the same day with a check-out time not after the check-in time. */
  predicate CheckOutTimeRuleFires(f: ReservationForm) {
    f.checkInDate.Some? && f.checkOutDate.Some?
    && (CheckOutMillis(f) < CheckInMillis(f) + MinimumStayMillis
        || (f.checkInDate == f.checkOutDate && f.checkOutTime <= f.checkInTime))
  }

  /** The cross-day rule as written: different dates and a check-out instant
      not after the check-in instant. */
  predicate CheckOutOrderRuleFires(f: ReservationForm) {
    f.checkInDate.Some? && f.checkOutDate.Some? && f.checkInDate != f.checkOutDate
    && CheckOutMillis(f) <= CheckInMillis(f)
  }

  /** The error object `validateForm` builds from the outcome of each rule,
      key by key in the order the keys are first assigned, each with the
      last message assigned to it. */
  function Collected(
    roomType: bool, checkInMissing: bool, checkInPast: bool, checkOutMissing: bool,
    checkOutTime: bool, timeMessage: BookingError, checkOutOrder: bool, guestCount: bool, name: bool)
    : BookingErrors
  {
    EntryIf(roomType, RoomType, RoomTypeRequired)
    + (EntryIf(checkInMissing, CheckInDate, CheckInDateRequired)
    + (EntryIf(checkInPast, CheckInTime, CheckInInThePast)
    + (EntryIf(checkOutMissing, CheckOutDate, CheckOutDateRequired)
    + (EntryIf(checkOutTime, CheckOutTime, timeMessage)
    + (EntryIf(checkOutOrder, CheckOutDate, CheckOutNotAfterCheckIn)
    + (EntryIf(guestCount, GuestCount, GuestCountRequired)
    + EntryIf(name, Name, NameRequired)))))))
  }

  /** What the error object holds under key `k` by the rules of the booking
      page, each stated on its own: the message of the rule that fails for
      `k`, or nothing. */
  function RuleVerdict(f: ReservationForm, now: int, k: Field): Option<Option<BookingError>> {
    match k
    case RoomType => if f.roomType == "" then Some(Some(RoomTypeRequired)) else None
    case CheckInDate => if f.checkInDate.None? then Some(Some(CheckInDateRequired)) else None
    case CheckInTime => if CheckInInPast(f, now) then Some(Some(CheckInInThePast)) else None
    case CheckOutDate =>
      if f.checkOutDate.None? then Some(Some(CheckOutDateRequired))
      else if CheckOutDayBeforeCheckIn(f) then Some(Some(CheckOutNotAfterCheckIn))
      else None
    case CheckOutTime => if StayTooShort(f) then Some(Some(CheckOutTimeMessage(f))) else None
    case GuestCount => if GuestCountInvalid(f) then Some(Some(GuestCountRequired)) else None
    case Name => if IsBlank(f.name) then Some(Some(NameRequired)) else None
    case Phone => None
    case Notes => None
  }

  /** The rule outcomes exactly as the page computes them. */
  function AsWritten(f: ReservationForm, now: int): BookingErrors {
    Collected(
      f.roomType == "", f.checkInDate.None?, f.checkInDate.Some? && CheckInMillis(f) < now,
      f.checkOutDate.None?, CheckOutTimeRuleFires(f), CheckOutTimeMessage(f),
      CheckOutOrderRuleFires(f), GuestCountRejected(f.guestCount), Trim(f.name) == "")
  }

  /** `validateForm`: every rule is checked on its own and the error object
      collects one message per failing field; the form is valid when the
      object has no keys. With no check-in date, `new Date("T…")` is an
      invalid date and every comparison with it is false, so no check-out
      comparison fires. */
  function ValidateForm(f: ReservationForm, now: int): (r: BookingErrors)
    ensures KeysDistinct(r) && AllDefined(r)
    ensures forall k :: Lookup(r, k) == RuleVerdict(f, now, k)
  {
    AsWrittenMeetsRules(f, now);
    AsWrittenWellFormed(f, now);
    AsWritten(f, now)
  }

  /** Each entry the page assigns agrees with the rule for its key. */
  lemma AsWrittenMeetsRules(f: ReservationForm, now: int)
    ensures forall k :: Lookup(AsWritten(f, now), k) == RuleVerdict(f, now, k)
  {
    forall k ensures Lookup(AsWritten(f, now), k) == RuleVerdict(f, now, k) {
      AsWrittenKey(f, now, k);
    }
  }

  lemma AsWrittenKey(f: ReservationForm, now: int, k: Field)
    ensures Lookup(AsWritten(f, now), k) == RuleVerdict(f, now, k)
  {
    CollectedShape(
      f.roomType == "", f.checkInDate.None?, f.checkInDate.Some? && CheckInMillis(f) < now,
      f.checkOutDate.None?, CheckOutTimeRuleFires(f), CheckOutTimeMessage(f),
      CheckOutOrderRuleFires(f), GuestCountRejected(f.guestCount), Trim(f.name) == "", k);
    match k
    case CheckOutDate => CheckOutOrderRuleIsDayOrder(f);
    case CheckOutTime => SameDayRuleSubsumed(f);
    case Name => TrimEmptyIffBlank(f.name);
    case _ =>
  }

  lemma AsWrittenWellFormed(f: ReservationForm, now: int)
    ensures KeysDistinct(AsWritten(f, now)) && AllDefined(AsWritten(f, now))
  {
    CollectedWellFormed(
      f.roomType == "", f.checkInDate.None?, f.checkInDate.Some? && CheckInMillis(f) < now,
      f.checkOutDate.None?, CheckOutTimeRuleFires(f), CheckOutTimeMessage(f),
      CheckOutOrderRuleFires(f), GuestCountRejected(f.guestCount), Trim(f.name) == "");
  }

  /** The same-day rule only ever fires on stays already shorter than twelve
      hours. */
  lemma SameDayRuleSubsumed(f: ReservationForm)
    ensures CheckOutTimeRuleFires(f) <==> StayTooShort(f)
  {
  }

  /** The cross-day order rule fires exactly when check-out is on an earlier
      day than check-in. */
  lemma CheckOutOrderRuleIsDayOrder(f: ReservationForm)
    ensures CheckOutOrderRuleFires(f) <==> CheckOutDayBeforeCheckIn(f)
  {
    if f.checkInDate.Some? && f.checkOutDate.Some? {
      DayNumberOrder(f.checkInDate.value, f.checkOutDate.value);
    }
  }

  function CollectedVerdict(
    roomType: bool, checkInMissing: bool, checkInPast: bool, checkOutMissing: bool,
    checkOutTime: bool, timeMessage: BookingError, checkOutOrder: bool, guestCount: bool, name: bool,
    j: Field): Option<Option<BookingError>>
  {
    match j
    case RoomType => if roomType then Some(Some(RoomTypeRequired)) else None
    case CheckInDate => if checkInMissing then Some(Some(CheckInDateRequired)) else None
    case CheckInTime => if checkInPast then Some(Some(CheckInInThePast)) else None
    case CheckOutDate =>
      if checkOutMissing then Some(Some(CheckOutDateRequired))
      else if checkOutOrder then Some(Some(CheckOutNotAfterCheckIn))
      else None
    case CheckOutTime => if checkOutTime then Some(Some(timeMessage)) else None
    case GuestCount => if guestCount then Some(Some(GuestCountRequired)) else None
    case Name => if name then Some(Some(NameRequired)) else None
    case Phone => None
    case Notes => None
  }

  lemma CollectedShape(
    roomType: bool, checkInMissing: bool, checkInPast: bool, checkOutMissing: bool,
    checkOutTime: bool, timeMessage: BookingError, checkOutOrder: bool, guestCount: bool, name: bool,
    j: Field)
    ensures Lookup(Collected(roomType, checkInMissing, checkInPast, checkOutMissing,
                             checkOutTime, timeMessage, checkOutOrder, guestCount, name), j)
      == CollectedVerdict(roomType, checkInMissing, checkInPast, checkOutMissing,
                          checkOutTime, timeMessage, checkOutOrder, guestCount, name, j)
  {
    var s8 := EntryIf(name, Name, NameRequired);
    var s7 := EntryIf(guestCount, GuestCount, GuestCountRequired) + s8;
    var s6 := EntryIf(checkOutOrder, CheckOutDate, CheckOutNotAfterCheckIn) + s7;
    var s5 := EntryIf(checkOutTime, CheckOutTime, timeMessage) + s6;
    var s4 := EntryIf(checkOutMissing, CheckOutDate, CheckOutDateRequired) + s5;
    var s3 := EntryIf(checkInPast, CheckInTime, CheckInInThePast) + s4;
    var s2 := EntryIf(checkInMissing, CheckInDate, CheckInDateRequired) + s3;
    assert s8 + [] == s8;
    EntryIfAt(name, Name, NameRequired, [], j);
    EntryIfAt(guestCount, GuestCount, GuestCountRequired, s8, j);
    EntryIfAt(checkOutOrder, CheckOutDate, CheckOutNotAfterCheckIn, s7, j);
    EntryIfAt(checkOutTime, CheckOutTime, timeMessage, s6, j);
    EntryIfAt(checkOutMissing, CheckOutDate, CheckOutDateRequired, s5, j);
    EntryIfAt(checkInPast, CheckInTime, CheckInInThePast, s4, j);
    EntryIfAt(checkInMissing, CheckInDate, CheckInDateRequired, s3, j);
    EntryIfAt(roomType, RoomType, RoomTypeRequired, s2, j);
  }

  /** The collected error object never holds a key twice, and each of its
      messages is shown. */
  lemma CollectedWellFormed(
    roomType: bool, checkInMissing: bool, checkInPast: bool, checkOutMissing: bool,
    checkOutTime: bool, timeMessage: BookingError, checkOutOrder: bool, guestCount: bool, name: bool)
    requires !(checkOutMissing && checkOutOrder)
    ensures var r := Collected(roomType, checkInMissing, checkInPast, checkOutMissing,
                               checkOutTime, timeMessage, checkOutOrder, guestCount, name);
      KeysDistinct(r) && AllDefined(r)
  {
    var s8 := EntryIf(name, Name, NameRequired) + [];
    var s7 := EntryIf(guestCount, GuestCount, GuestCountRequired) + s8;
    var s6 := EntryIf(checkOutOrder, CheckOutDate, CheckOutNotAfterCheckIn) + s7;
    var s5 := EntryIf(checkOutTime, CheckOutTime, timeMessage) + s6;
    var s4 := EntryIf(checkOutMissing, CheckOutDate, CheckOutDateRequired) + s5;
    var s3 := EntryIf(checkInPast, CheckInTime, CheckInInThePast) + s4;
    var s2 := EntryIf(checkInMissing, CheckInDate, CheckInDateRequired) + s3;
    var r := EntryIf(roomType, RoomType, RoomTypeRequired) + s2;
    assert s8 + [] == s8;
    EntryIfWellBuilt(name, Name, NameRequired, []);
    EntryIfAt(name, Name, NameRequired, [], GuestCount);
    EntryIfWellBuilt(guestCount, GuestCount, GuestCountRequired, s8);
    EntryIfAt(guestCount, GuestCount, GuestCountRequired, s8, CheckOutDate);
    EntryIfAt(name, Name, NameRequired, [], CheckOutDate);
    EntryIfWellBuilt(checkOutOrder, CheckOutDate, CheckOutNotAfterCheckIn, s7);
    EntryIfAt(checkOutOrder, CheckOutDate, CheckOutNotAfterCheckIn, s7, CheckOutTime);
    EntryIfAt(guestCount, GuestCount, GuestCountRequired, s8, CheckOutTime);
    EntryIfAt(name, Name, NameRequired, [], CheckOutTime);
    EntryIfWellBuilt(checkOutTime, CheckOutTime, timeMessage, s6);
    EntryIfAt(checkOutTime, CheckOutTime, timeMessage, s6, CheckOutDate);
    EntryIfAt(guestCount, GuestCount, GuestCountRequired, s8, CheckOutDate);
    EntryIfAt(name, Name, NameRequired, [], CheckOutDate);
    EntryIfAt(checkOutOrder, CheckOutDate, CheckOutNotAfterCheckIn, s7, CheckOutDate);
    EntryIfWellBuilt(checkOutMissing, CheckOutDate, CheckOutDateRequired, s5);
    EntryIfAt(checkOutMissing, CheckOutDate, CheckOutDateRequired, s5, CheckInTime);
    EntryIfAt(checkOutTime, CheckOutTime, timeMessage, s6, CheckInTime);
    EntryIfAt(checkOutOrder, CheckOutDate, CheckOutNotAfterCheckIn, s7, CheckInTime);
    EntryIfAt(guestCount, GuestCount, GuestCountRequired, s8, CheckInTime);
    EntryIfAt(name, Name, NameRequired, [], CheckInTime);
    EntryIfWellBuilt(checkInPast, CheckInTime, CheckInInThePast, s4);
    EntryIfAt(checkInPast, CheckInTime, CheckInInThePast, s4, CheckInDate);
    EntryIfAt(checkOutMissing, CheckOutDate, CheckOutDateRequired, s5, CheckInDate);
    EntryIfAt(checkOutTime, CheckOutTime, timeMessage, s6, CheckInDate);
    EntryIfAt(checkOutOrder, CheckOutDate, CheckOutNotAfterCheckIn, s7, CheckInDate);
    EntryIfAt(guestCount, GuestCount, GuestCountRequired, s8, CheckInDate);
    EntryIfAt(name, Name, NameRequired, [], CheckInDate);
    EntryIfWellBuilt(checkInMissing, CheckInDate, CheckInDateRequired, s3);
    EntryIfAt(checkInMissing, CheckInDate, CheckInDateRequired, s3, RoomType);
    EntryIfAt(checkInPast, CheckInTime, CheckInInThePast, s4, RoomType);
    EntryIfAt(checkOutMissing, CheckOutDate, CheckOutDateRequired, s5, RoomType);
    EntryIfAt(checkOutTime, CheckOutTime, timeMessage, s6, RoomType);
    EntryIfAt(checkOutOrder, CheckOutDate, CheckOutNotAfterCheckIn, s7, RoomType);
    EntryIfAt(guestCount, GuestCount, GuestCountRequired, s8, RoomType);
    EntryIfAt(name, Name, NameRequired, [], RoomType);
    EntryIfWellBuilt(roomType, RoomType, RoomTypeRequired, s2);
    WellBuiltIsWellFormed(r);
  }



  /** The form is valid, that is the error object has no keys, exactly when
      every rule of the booking page holds. */
  lemma ValidIffBookable(f: ReservationForm, now: int, r: BookingErrors)
    requires KeysDistinct(r) && AllDefined(r)
    requires forall k :: Lookup(r, k) == RuleVerdict(f, now, k)
    ensures |r| == 0 <==> IsBookable(f, now)
  {
    if |r| == 0 {
      NoErrorsMeansBookable(f, now, r);
    } else {
      FirstErrorFails(f, now, r);
      FailingRuleBlocks(f, now, r[0].key);
    }
  }

  lemma NoErrorsMeansBookable(f: ReservationForm, now: int, r: BookingErrors)
    requires |r| == 0
    requires forall k :: Lookup(r, k) == RuleVerdict(f, now, k)
    ensures IsBookable(f, now)
  {
    BookableIffNoVerdict(f, now);
    forall k ensures RuleVerdict(f, now, k).None? {
      assert Lookup(r, k) == RuleVerdict(f, now, k);
    }
  }

  /** The first entry of an error object that agrees with the rules names a
      failing rule. */
  lemma FirstErrorFails(f: ReservationForm, now: int, r: BookingErrors)
    requires KeysDistinct(r) && |r| > 0
    requires forall k :: Lookup(r, k) == RuleVerdict(f, now, k)
    ensures RuleVerdict(f, now, r[0].key).Some?
  {
    FirstEntryAnswers(r, k => RuleVerdict(f, now, k));
  }

  /** A failing rule, for whichever field, makes the form unbookable. */
  lemma FailingRuleBlocks(f: ReservationForm, now: int, k: Field)
    requires RuleVerdict(f, now, k).Some?
    ensures !IsBookable(f, now)
  {
    if IsBookable(f, now) {
      CheckOutDayFollowsStay(f);
    }
  }

  /** A form is bookable exactly when no rule fails on it. */
  lemma BookableIffNoVerdict(f: ReservationForm, now: int)
    ensures IsBookable(f, now) <==> forall k :: RuleVerdict(f, now, k).None?
  {
    if IsBookable(f, now) {
      CheckOutDayFollowsStay(f);
    } else {
      var k := FirstFailingField(f, now);
    }
  }

  /** A field whose rule fails on a form that is not bookable. */
  function FirstFailingField(f: ReservationForm, now: int): (k: Field)
    requires !IsBookable(f, now)
    ensures RuleVerdict(f, now, k).Some?
  {
    if f.roomType == "" then RoomType
    else if f.checkInDate.None? then CheckInDate
    else if CheckInInPast(f, now) then CheckInTime
    else if f.checkOutDate.None? then CheckOutDate
    else if StayTooShort(f) then CheckOutTime
    else if GuestCountInvalid(f) then GuestCount
    else Name
  }

  /** A stay of at least twelve hours never ends on an earlier day. */
  lemma CheckOutDayFollowsStay(f: ReservationForm)
    requires f.checkInDate.Some? && f.checkOutDate.Some?
    requires CheckInMillis(f) + MinimumStayMillis <= CheckOutMillis(f)
    ensures !CheckOutDayBeforeCheckIn(f)
  {
  }

  /** With both dates present, a stay of at least twelve hours raises no
      check-out error, and any shorter stay, on one day or across days,
      raises a check-out time error. */
  lemma MinimumStayRule(f: ReservationForm, now: int)
    requires f.checkInDate.Some? && f.checkOutDate.Some?
    ensures CheckOutMillis(f) - CheckInMillis(f) >= MinimumStayMillis ==>
      !HasError(ValidateForm(f, now), CheckOutTime) && !HasError(ValidateForm(f, now), CheckOutDate)
    ensures CheckOutMillis(f) - CheckInMillis(f) < MinimumStayMillis ==>
      HasError(ValidateForm(f, now), CheckOutTime)
  {
    var r := ValidateForm(f, now);
    MinimumStayVerdict(f, now, r);
  }

  lemma MinimumStayVerdict(f: ReservationForm, now: int, r: BookingErrors)
    requires f.checkInDate.Some? && f.checkOutDate.Some?
    requires forall k :: Lookup(r, k) == RuleVerdict(f, now, k)
    ensures CheckOutMillis(f) - CheckInMillis(f) >= MinimumStayMillis ==>
      !HasError(r, CheckOutTime) && !HasError(r, CheckOutDate)
    ensures CheckOutMillis(f) - CheckInMillis(f) < MinimumStayMillis ==>
      HasError(r, CheckOutTime)
  {
    assert Lookup(r, CheckOutTime) == RuleVerdict(f, now, CheckOutTime);
    assert Lookup(r, CheckOutDate) == RuleVerdict(f, now, CheckOutDate);
    if CheckOutMillis(f) - CheckInMillis(f) >= MinimumStayMillis {
      CheckOutDayFollowsStay(f);
    }
  }

  /** A check-in at exactly `now` is accepted by `validateForm` but refused by
      `isTimeValid`, which asks for a strictly later instant. */
  lemma CheckInAtNow(f: ReservationForm)
    requires f.checkInDate.Some?
    ensures !HasError(ValidateForm(f, CheckInMillis(f)), CheckInTime)
    ensures !IsTimeValid(f.checkInDate, f.checkInTime, CheckInMillis(f))
  {
    var now := CheckInMillis(f);
    CheckInAtNowVerdict(f, ValidateForm(f, now));
  }

  lemma CheckInAtNowVerdict(f: ReservationForm, r: BookingErrors)
    requires f.checkInDate.Some?
    requires forall k :: Lookup(r, k) == RuleVerdict(f, CheckInMillis(f), k)
    ensures !HasError(r, CheckInTime)
  {
    assert Lookup(r, CheckInTime) == RuleVerdict(f, CheckInMillis(f), CheckInTime);
  }

  /** For every `now`: a check-in `isTimeValid` accepts never gets the
      "in the past" message, and the two disagree only for a check-in at
      exactly `now`, which the validator accepts and `isTimeValid` refuses. */
  lemma TimeValidAgreesWithValidator(f: ReservationForm, now: int)
    ensures IsTimeValid(f.checkInDate, f.checkInTime, now) ==>
      !HasError(ValidateForm(f, now), CheckInTime)
    ensures !IsTimeValid(f.checkInDate, f.checkInTime, now) && !HasError(ValidateForm(f, now), CheckInTime)
      ==> f.checkInDate.Some? && now == CheckInMillis(f)
    ensures f.checkInDate.Some? && HasError(ValidateForm(f, now), CheckInTime) ==>
      !IsTimeValid(f.checkInDate, f.checkInTime, now)
  {
    TimeValidVerdict(f, now, ValidateForm(f, now));
  }

  lemma TimeValidVerdict(f: ReservationForm, now: int, r: BookingErrors)
    requires forall k :: Lookup(r, k) == RuleVerdict(f, now, k)
    ensures IsTimeValid(f.checkInDate, f.checkInTime, now) ==> !HasError(r, CheckInTime)
    ensures !IsTimeValid(f.checkInDate, f.checkInTime, now) && !HasError(r, CheckInTime)
      ==> f.checkInDate.Some? && now == CheckInMillis(f)
    ensures f.checkInDate.Some? && HasError(r, CheckInTime) ==>
      !IsTimeValid(f.checkInDate, f.checkInTime, now)
  {
    assert Lookup(r, CheckInTime) == RuleVerdict(f, now, CheckInTime);
  }

  /** What pressing "submit" leads to. */
  datatype SubmitOutcome =
    | ShowErrors(errors: BookingErrors)
    | Blocked
    | SendBooking(form: ReservationForm)

  /** `handleSubmit`: invalid forms open the error notification, a missing or
      negative availability reply stops silently, and otherwise the form is
      posted. */
  function HandleSubmit(f: ReservationForm, now: int, availability: Option<Availability>)
    : (r: SubmitOutcome)
    ensures r.SendBooking? <==> IsBookable(f, now) && IsAvailable(availability)
    ensures r.SendBooking? ==> r.form == f
    ensures r.ShowErrors? <==> !IsBookable(f, now)
    ensures r.ShowErrors? ==> r.errors == ValidateForm(f, now)
    ensures r.ShowErrors? ==> |r.errors| > 0 && AllDefined(r.errors)
  {
    var errors := ValidateForm(f, now);
    ValidIffBookable(f, now, errors);
    if |errors| != 0 then ShowErrors(errors)
    else if !(availability.Some? && availability.value.available) then Blocked
    else SendBooking(f)
  }
}
