/** The admin bookings list (app/admin/bookings/page.tsx): the search,
    status and "today" filters over the fetched bookings, the revenue of the
    confirmed ones, and removal of a cancelled booking. */
module AdminBookings {
  import opened Wrappers
  import opened Text
  import opened Calendar
  import opened Lists

  /** One row of the bookings list. The guest's name and phone and the room
      type are `None` when the server leaves them out (the page reads them
      with `?.`); a date that does not parse is `None`. Prices are integer
      cents. */
  datatype BookingRow = BookingRow(
    id: int,
    guestName: Option<string>,
    guestPhone: Option<string>,
    roomType: Option<string>,
    checkInDate: Option<CalendarDate>,
    checkOutDate: Option<CalendarDate>,
    totalPrice: int,
    status: string)

  datatype DateFilter = AllDates | CheckInToday | CheckOutToday

  /** The three controls above the table. A status filter of "all" keeps
      every status. */
  datatype ListView = ListView(searchTerm: string, statusFilter: string, dateFilter: DateFilter)

  const AllStatuses := "all"
  const Confirmed := "confirmed"
  const CancelFailed := "Failed to cancel booking"

  /** `isToday`: `moment(date).isSame(moment(), 'day')`, with the current
      date as a parameter; a date that does not parse is never today. */
  predicate IsToday(d: Option<CalendarDate>, today: CalendarDate) {
    d == Some(today)
  }

  /** `value?.toLowerCase().includes(term.toLowerCase()) || false`. */
  predicate FieldMatches(value: Option<string>, term: string) {
    value.Some? && MatchesIgnoringCase(value.value, term)
  }

  /** The name or the room type contains the term ignoring case, or the phone
      contains it as typed. */
  predicate MatchesSearch(b: BookingRow, term: string) {
    FieldMatches(b.guestName, term)
    || (b.guestPhone.Some? && Contains(b.guestPhone.value, term))
    || FieldMatches(b.roomType, term)
  }

  predicate MatchesStatus(b: BookingRow, statusFilter: string) {
    statusFilter == AllStatuses || b.status == statusFilter
  }

  predicate MatchesDate(b: BookingRow, f: DateFilter, today: CalendarDate) {
    match f
    case AllDates => true
    case CheckInToday => IsToday(b.checkInDate, today)
    case CheckOutToday => IsToday(b.checkOutDate, today)
  }

  /** The predicate `filteredBookings` passes to `filter`: with an empty
      search term only the status filter applies. */
  predicate Kept(b: BookingRow, v: ListView, today: CalendarDate) {
    if v.searchTerm == "" then MatchesStatus(b, v.statusFilter)
    else MatchesSearch(b, v.searchTerm) && MatchesStatus(b, v.statusFilter)
         && MatchesDate(b, v.dateFilter, today)
  }

  function KeepRow(v: ListView, today: CalendarDate): BookingRow -> bool {
    b => Kept(b, v, today)
  }

  /** `filteredBookings`: the kept rows, in their original order. */
  function FilteredBookings(rows: seq<BookingRow>, v: ListView, today: CalendarDate)
    : (r: seq<BookingRow>)
    ensures forall b :: b in r <==> b in rows && Kept(b, v, today)
    ensures IsSublist(r, rows)
    ensures forall b :: multiset(r)[b] == if Kept(b, v, today) then multiset(rows)[b] else 0
  {
    FilterIsSublist(rows, KeepRow(v, today));
    FilterCounts(rows, KeepRow(v, today));
    Filter(rows, KeepRow(v, today))
  }

  /** With an empty search term the date filter and the date play no part,
      and with the status filter on "all" every row stays. */
  lemma EmptyTermIgnoresDate(rows: seq<BookingRow>, v: ListView, today: CalendarDate,
                             f: DateFilter, other: CalendarDate)
    requires v.searchTerm == ""
    ensures FilteredBookings(rows, v, today) == FilteredBookings(rows, v.(dateFilter := f), other)
    ensures v.statusFilter == AllStatuses ==> FilteredBookings(rows, v, today) == rows
  {
    FilterSame(rows, KeepRow(v, today), KeepRow(v.(dateFilter := f), other));
    if v.statusFilter == AllStatuses {
      FilterKeepsAll(rows, KeepRow(v, today));
    }
  }

  function Searching(term: string): BookingRow -> bool {
    (b: BookingRow) => MatchesSearch(b, term)
  }

  function WithStatus(statusFilter: string): BookingRow -> bool {
    (b: BookingRow) => MatchesStatus(b, statusFilter)
  }

  function OnDate(f: DateFilter, today: CalendarDate): BookingRow -> bool {
    (b: BookingRow) => MatchesDate(b, f, today)
  }

  /** With a non-empty term the list is the search, status and date filters
      applied one after another. */
  lemma SearchThenStatusThenDate(rows: seq<BookingRow>, v: ListView, today: CalendarDate)
    requires v.searchTerm != ""
    ensures FilteredBookings(rows, v, today)
      == Filter(Filter(Filter(rows, Searching(v.searchTerm)), WithStatus(v.statusFilter)),
                OnDate(v.dateFilter, today))
  {
    var search, status := Searching(v.searchTerm), WithStatus(v.statusFilter);
    var both := (b: BookingRow) => search(b) && status(b);
    FilterFilter(rows, search, status, both);
    FilterFilter(rows, both, OnDate(v.dateFilter, today), KeepRow(v, today));
  }

  predicate IsConfirmed(b: BookingRow) {
    b.status == Confirmed
  }

  function Price(b: BookingRow): int {
    b.totalPrice
  }

  /** What a row adds to the revenue: its price when confirmed, else 0. */
  function RevenueShare(b: BookingRow): int {
    if b.status == Confirmed then b.totalPrice else 0
  }

  /** `totalRevenue` over a list: the sum of the prices of its confirmed
      rows. */
  function TotalRevenue(rows: seq<BookingRow>): int {
    SumOf(Filter(rows, IsConfirmed), Price)
  }

  /** Revenue counts every confirmed row's price once and every other row as
      zero. */
  lemma RevenueCountsConfirmedOnly(rows: seq<BookingRow>)
    ensures TotalRevenue(rows) == SumOf(rows, RevenueShare)
  {
    SumFilter(rows, IsConfirmed, Price, RevenueShare);
  }

  /** Revenue adds up over consecutive parts of the list, so a row that is
      not confirmed adds nothing. */
  lemma RevenueSplits(a: seq<BookingRow>, b: seq<BookingRow>)
    ensures TotalRevenue(a + b) == TotalRevenue(a) + TotalRevenue(b)
  {
    FilterConcat(a, b, IsConfirmed);
    SumConcat(Filter(a, IsConfirmed), Filter(b, IsConfirmed), Price);
  }

  /** The revenue card: the revenue of the rows the filters keep. */
  function ShownRevenue(rows: seq<BookingRow>, v: ListView, today: CalendarDate): int {
    TotalRevenue(FilteredBookings(rows, v, today))
  }

  /** What a row adds to the revenue card: its price when it is kept and
      confirmed, else 0. */
  function ShownShare(v: ListView, today: CalendarDate): BookingRow -> int {
    (b: BookingRow) => if Kept(b, v, today) && b.status == Confirmed then b.totalPrice else 0
  }

  function KeptAndConfirmed(v: ListView, today: CalendarDate): BookingRow -> bool {
    (b: BookingRow) => Kept(b, v, today) && IsConfirmed(b)
  }

  /** The revenue card counts each row once: its price when the filters keep
      it and it is confirmed, nothing otherwise. */
  lemma ShownRevenueCountsKeptConfirmed(rows: seq<BookingRow>, v: ListView, today: CalendarDate)
    ensures ShownRevenue(rows, v, today) == SumOf(rows, ShownShare(v, today))
  {
    FilterFilter(rows, KeepRow(v, today), IsConfirmed, KeptAndConfirmed(v, today));
    SumFilter(rows, KeptAndConfirmed(v, today), Price, ShownShare(v, today));
  }

  /** The page's state around cancelling. */
  datatype CancelState = CancelState(
    rows: seq<BookingRow>,
    selected: Option<int>,
    modalOpen: bool,
    error: string)

  /** The rows a successful cancel keeps: those with another id. */
  function OtherThan(id: int): BookingRow -> bool {
    (b: BookingRow) => b.id != id
  }

  /** `handleConfirmCancel`, with the outcome of the DELETE request as
      `deleted`. No selection, or the id 0 (`!0` is true), does nothing; a
      successful delete drops every row with the selected id and closes the
      dialog; a failed one only sets the error. */
  function ConfirmCancel(s: CancelState, deleted: bool): (r: CancelState)
    ensures (s.selected.None? || s.selected == Some(0)) ==> r == s
    ensures s.selected.Some? && s.selected.value != 0 && deleted ==>
      && (forall b :: b in r.rows <==> b in s.rows && b.id != s.selected.value)
      && IsSublist(r.rows, s.rows)
      && !r.modalOpen && r.error == s.error && r.selected == s.selected
    ensures s.selected.Some? && s.selected.value != 0 && !deleted ==>
      r == s.(error := CancelFailed)
  {
    match s.selected
    case None => s
    case Some(id) =>
      if id == 0 then s
      else if deleted then
        FilterIsSublist(s.rows, OtherThan(id));
        s.(rows := Filter(s.rows, OtherThan(id)), modalOpen := false)
      else s.(error := CancelFailed)
  }

  /** Cancelling an id no row carries leaves the list as it was. */
  lemma CancelUnknownIdKeepsRows(s: CancelState)
    requires s.selected.Some? && s.selected.value != 0
    requires forall b :: b in s.rows ==> b.id != s.selected.value
    ensures ConfirmCancel(s, true).rows == s.rows
  {
    FilterKeepsAll(s.rows, OtherThan(s.selected.value));
  }

  /** Removing the cancelled rows removes as many rows as carry the id, and
      keeps every other row as many times as before. */
  lemma CancelKeepsOtherRows(s: CancelState)
    requires s.selected.Some? && s.selected.value != 0
    ensures forall b: BookingRow :: b.id != s.selected.value ==>
      multiset(ConfirmCancel(s, true).rows)[b] == multiset(s.rows)[b]
    ensures forall b: BookingRow :: b.id == s.selected.value ==> multiset(ConfirmCancel(s, true).rows)[b] == 0
  {
    FilterCounts(s.rows, OtherThan(s.selected.value));
  }
}
