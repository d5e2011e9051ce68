/** The landing page (app/page.tsx): a phone-number box that accepts only
    digits, and the check that turns a ten-digit number into the lookup the
    page sends and the page it then opens. */
module PhoneEntry {
  import opened Wrappers
  import opened Text

  const PhoneRequired := "Phone number is required."
  const PhoneInvalid := "Please enter a valid 10-digit phone number"
  /** The country code the page puts in front of the number. */
  const CountryCode := "91"

  datatype PhonePage = PhonePage(phone: string, error: string)

  const Initial := PhonePage("", "")

  /** `/^\d{10}$/`: exactly ten ASCII digits. */
  predicate IsTenDigits(s: string) {
    |s| == 10 && AllDigits(s)
  }

  /** `handleInputChange`: a value made of digits only (the empty value
      included) replaces the number and clears the error; any other value is
      ignored. */
  function HandleInputChange(p: PhonePage, value: string): (r: PhonePage)
    ensures AllDigits(value) ==> r == PhonePage(value, "")
    ensures !AllDigits(value) ==> r == p
  {
    if AllDigits(value) then PhonePage(value, "") else p
  }

  function TypeAll(p: PhonePage, values: seq<string>): PhonePage
    decreases |values|
  {
    if |values| == 0 then p else TypeAll(HandleInputChange(p, values[0]), values[1..])
  }

  /** Whatever is typed, the box only ever holds digits, and never more of
      them than the longest value the input element passed on. */
  lemma {:induction false} PhoneStaysDigits(p: PhonePage, values: seq<string>, limit: nat)
    requires AllDigits(p.phone) && |p.phone| <= limit
    requires forall i :: 0 <= i < |values| ==> |values[i]| <= limit
    ensures AllDigits(TypeAll(p, values).phone)
    ensures |TypeAll(p, values).phone| <= limit
    decreases |values|
  {
    if |values| > 0 {
      PhoneStaysDigits(HandleInputChange(p, values[0]), values[1..], limit);
    }
  }

  /** From the empty box the page starts with, whatever the input element
      passes on (at most ten characters), the box holds at most ten digits. */
  lemma TypingFromStart(values: seq<string>)
    requires forall i :: 0 <= i < |values| ==> |values[i]| <= 10
    ensures AllDigits(TypeAll(Initial, values).phone) && |TypeAll(Initial, values).phone| <= 10
  {
    PhoneStaysDigits(Initial, values, 10);
  }

  /** `checkPhone` up to the request: an empty number and a number that is
      not ten digits each set their message and send nothing; a valid number
      clears the error and is looked up with the country code in front. */
  function CheckPhone(p: PhonePage): (r: (PhonePage, Option<string>))
    ensures p.phone == "" ==> r == (p.(error := PhoneRequired), None)
    ensures p.phone != "" && !IsTenDigits(p.phone) ==> r == (p.(error := PhoneInvalid), None)
    ensures r.1.Some? <==> IsTenDigits(p.phone)
    ensures r.1.Some? ==> r.0 == p.(error := "") && r.1.value == FormatPhone(p.phone)
    ensures r.1.Some? ==> |r.1.value| == 12 && AllDigits(r.1.value)
  {
    if p.phone == "" then (p.(error := PhoneRequired), None)
    else if !IsTenDigits(p.phone) then (p.(error := PhoneInvalid), None)
    else (p.(error := ""), Some(FormatPhone(p.phone)))
  }

  /** The number as the server stores it: `91` followed by the ten digits. */
  function FormatPhone(phone: string): string {
    CountryCode + phone
  }

  /** The typed number back from the stored one. */
  function LocalPart(formatted: string): string
    requires |formatted| >= |CountryCode|
  {
    formatted[|CountryCode|..]
  }

  /** The country code can be taken off again: the formatted number gives
      back the typed one, and two different numbers never format alike. */
  lemma FormatPhoneRoundTrip(phone: string, other: string)
    ensures LocalPart(FormatPhone(phone)) == phone
    ensures FormatPhone(phone) == FormatPhone(other) ==> phone == other
  {
    assert LocalPart(FormatPhone(phone)) == phone;
    if FormatPhone(phone) == FormatPhone(other) {
      assert LocalPart(FormatPhone(other)) == other;
    }
  }

  /** The page the lookup leads to: the modify page for a known number, the
      registration page for an unknown one, both carrying the formatted
      number; `None` when the lookup failed and only a notice is shown. */
  function Destination(formatted: string, found: Option<bool>): (path: Option<string>)
    ensures path.Some? <==> found.Some?
    ensures found == Some(true) ==> path == Some("/modify?phone=" + formatted)
    ensures found == Some(false) ==> path == Some("/register?phone=" + formatted)
  {
    match found
    case None => None
    case Some(known) =>
      Some((if known then "/modify?phone=" else "/register?phone=") + formatted)
  }

  /** Only ten typed digits ever lead to another page. */
  lemma OnlyValidNumbersLeave(p: PhonePage, found: Option<bool>)
    requires CheckPhone(p).1.Some? && found.Some?
    ensures IsTenDigits(p.phone)
    ensures Destination(CheckPhone(p).1.value, found).Some?
  {
  }
}
