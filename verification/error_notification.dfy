/** The error dialog of the booking page (components/ErrorNotification.tsx):
    it lists the entries of the page's error object whose message is set and
    not empty, in the object's key order. */
module ErrorNotification {
  import opened Wrappers
  import opened Lists
  import opened ErrorMap
  import opened Forms
  import Booking

  /** A message as the page passes it on: its text, or `undefined`. */
  function ShowMessage<M>(m: Option<M>, show: M -> string): Option<string> {
    match m
    case None => None
    case Some(x) => Some(show(x))
  }

  /** The error object with every message replaced by its text, entry for
      entry. */
  function Texts<K, M>(e: seq<Entry<K, M>>, show: M -> string): (r: seq<Entry<K, string>>)
    ensures |r| == |e|
  {
    seq(|e|, i requires 0 <= i < |e| => Entry(e[i].key, ShowMessage(e[i].message, show)))
  }

  /** Looking a key up in the texts is looking it up in the object and
      showing what is found. */
  lemma {:induction false} TextsLookup<K, M>(e: seq<Entry<K, M>>, show: M -> string, k: K)
    ensures Lookup(Texts(e, show), k) ==
      match Lookup(e, k) case None => None case Some(m) => Some(ShowMessage(m, show))
    decreases |e|
  {
    if |e| > 0 {
      assert Texts(e, show)[1..] == Texts(e[1..], show);
      TextsLookup(e[1..], show, k);
    }
  }

  /** `filter(([_, value]) => value)`: a message that is `undefined` or empty
      is falsy and dropped. */
  predicate Shown<K>(x: Entry<K, string>) {
    x.message.Some? && x.message.value != ""
  }

  /** `errorMessages`: the shown entries, in the object's order. */
  function ErrorMessages<K(!new)>(e: seq<Entry<K, string>>): (r: seq<Entry<K, string>>)
    ensures forall x :: x in r <==> x in e && x.message.Some? && x.message.value != ""
    ensures IsSublist(r, e)
  {
    FilterIsSublist(e, Shown);
    Filter(e, Shown)
  }

  /** With distinct keys, what a lookup finds is an entry of the object. */
  lemma {:induction false} LookupEntry<K, M>(e: seq<Entry<K, M>>, k: K)
    requires Lookup(e, k).Some?
    ensures Entry(k, Lookup(e, k).value) in e
    decreases |e|
  {
    if e[0].key != k {
      LookupEntry(e[1..], k);
    }
  }

  /** A key that holds a non-empty message is listed with that message. */
  lemma MessageListed<K(!new)>(e: seq<Entry<K, string>>, k: K)
    requires Message(e, k).Some? && Message(e, k).value != ""
    ensures Entry(k, Message(e, k)) in ErrorMessages(e)
  {
    LookupEntry(e, k);
  }

  /** A key that is absent or holds `undefined` is not listed at all, since
      keys are distinct. */
  lemma NotListedWithoutMessage<K(!new)>(e: seq<Entry<K, string>>, k: K)
    requires KeysDistinct(e) && Message(e, k).None?
    ensures forall x :: x in ErrorMessages(e) ==> x.key != k
  {
    forall x | x in ErrorMessages(e) ensures x.key != k {
      var i :| 0 <= i < |e| && e[i] == x;
      LookupFirst(e, i);
    }
  }

  function BookingText(m: Booking.BookingError): string {
    m.Text()
  }

  /** Every booking message has text to show. */
  lemma BookingTextsNonEmpty(m: Booking.BookingError)
    ensures BookingText(m) != ""
  {
    match m
    case RoomTypeRequired =>
    case CheckInDateRequired =>
    case CheckInInThePast =>
    case CheckOutDateRequired =>
    case MinimumStayViolated =>
    case SameDayOrderViolated =>
    case CheckOutNotAfterCheckIn =>
    case GuestCountRequired =>
    case NameRequired =>
  }

  /** What the dialog lists for a booking page. */
  function Dialog(p: Booking.BookingPage): seq<Entry<Field, string>> {
    ErrorMessages(Texts(p.errors, BookingText))
  }

  /** Straight after validation the dialog lists every message of the error
      object, each under its own field, in the order the checks run. */
  lemma DialogAfterValidation(f: ReservationForm, now: int)
    ensures var e := Booking.ValidateForm(f, now);
      Dialog(Booking.BookingPage(f, e)) == Texts(e, BookingText)
  {
    var e := Booking.ValidateForm(f, now);
    var t := Texts(e, BookingText);
    forall x | x in t ensures Shown(x) {
      var i :| 0 <= i < |t| && t[i] == x;
      assert e[i].message.Some?;
      BookingTextsNonEmpty(e[i].message.value);
    }
    FilterKeepsAll(t, Shown);
  }

  /** Once a field is edited its error is no longer listed, while every
      other field keeps its listed message. */
  lemma EditedFieldLeavesDialog(p: Booking.BookingPage, edit: Edit, k: Field)
    requires KeysDistinct(p.errors)
    ensures forall x :: x in Dialog(Booking.OnInputChange(p, edit)) ==> x.key != FieldOf(edit)
    ensures k != FieldOf(edit) && HasError(p.errors, k) ==>
      Entry(k, Some(BookingText(Message(p.errors, k).value)))
        in Dialog(Booking.OnInputChange(p, edit))
  {
    var r := Booking.OnInputChange(p, edit);
    var t := Texts(r.errors, BookingText);
    TextsLookup(r.errors, BookingText, FieldOf(edit));
    NotListedWithoutMessage(t, FieldOf(edit));
    if k != FieldOf(edit) && HasError(p.errors, k) {
      TextsLookup(r.errors, BookingText, k);
      BookingTextsNonEmpty(Message(p.errors, k).value);
      MessageListed(t, k);
    }
  }
}
