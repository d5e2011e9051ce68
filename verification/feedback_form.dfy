/** The guest feedback form (app/feedback/page.tsx): picking a rating with
    the star buttons, and the guard and flags around sending it. */
module FeedbackForm {
  import opened Wrappers
  import opened Stars

  /** The values the five star buttons set, in the order they are drawn. */
  const StarButtons: seq<int> := [1, 2, 3, 4, 5]

  const MissingFields := "Rating and booking ID are required."
  const SubmitFailed := "Failed to submit feedback."
  const SubmitCrashed := "An error occurred while submitting feedback."

  /** The form's state; the booking id comes from the address, `None` when
      it is missing or empty. */
  datatype FeedbackState = FeedbackState(
    rating: Option<int>,
    comment: string,
    bookingId: Option<string>,
    isSubmitting: bool,
    isSubmitted: bool,
    error: Option<string>)

  function Initial(bookingId: Option<string>): FeedbackState {
    FeedbackState(None, "", bookingId, false, false, None)
  }

  /** The rating is unset or one of the button values. */
  predicate RatingInRange(s: FeedbackState) {
    s.rating.None? || 1 <= s.rating.value <= 5
  }

  /** What the user can do before sending: press a star button (by its
      position) or type a comment. */
  datatype Input = PressStar(button: nat) | TypeComment(text: string)

  /** `setRating(star)` and `setFeedback(text)`; a position past the last
      button presses nothing. */
  function ApplyInput(s: FeedbackState, i: Input): (r: FeedbackState)
    ensures RatingInRange(s) ==> RatingInRange(r)
    ensures i.PressStar? && i.button < 5 ==> r == s.(rating := Some(i.button + 1))
    ensures i.PressStar? && i.button >= 5 ==> r == s
    ensures i.TypeComment? ==> r == s.(comment := i.text)
  {
    match i
    case PressStar(b) => if b < |StarButtons| then s.(rating := Some(StarButtons[b])) else s
    case TypeComment(t) => s.(comment := t)
  }

  function ApplyInputs(s: FeedbackState, inputs: seq<Input>): FeedbackState
    decreases |inputs|
  {
    if |inputs| == 0 then s else ApplyInputs(ApplyInput(s, inputs[0]), inputs[1..])
  }

  /** Whatever is pressed or typed, the rating stays unset or in 1..5. */
  lemma {:induction false} RatingStaysInRange(s: FeedbackState, inputs: seq<Input>)
    requires RatingInRange(s)
    ensures RatingInRange(ApplyInputs(s, inputs))
    decreases |inputs|
  {
    if |inputs| > 0 {
      RatingStaysInRange(ApplyInput(s, inputs[0]), inputs[1..]);
    }
  }

  /** On the page as it opens, any inputs leave the rating unset or in 1..5,
      and nothing is submitted or being submitted. */
  lemma InputsFromStart(bookingId: Option<string>, inputs: seq<Input>)
    ensures RatingInRange(ApplyInputs(Initial(bookingId), inputs))
    ensures !ApplyInputs(Initial(bookingId), inputs).isSubmitting
    ensures !ApplyInputs(Initial(bookingId), inputs).isSubmitted
  {
    RatingStaysInRange(Initial(bookingId), inputs);
    InputsKeepFlags(Initial(bookingId), inputs);
  }

  /** Star presses and typing never touch the submission flags. */
  lemma {:induction false} InputsKeepFlags(s: FeedbackState, inputs: seq<Input>)
    ensures ApplyInputs(s, inputs).isSubmitting == s.isSubmitting
    ensures ApplyInputs(s, inputs).isSubmitted == s.isSubmitted
    decreases |inputs|
  {
    if |inputs| > 0 {
      InputsKeepFlags(ApplyInput(s, inputs[0]), inputs[1..]);
    }
  }

  /** Star `n` (from 1) is highlighted when a rating is set and `n` is at most
      the rating. */
  predicate Highlighted(rating: Option<int>, n: int) {
    rating.Some? && rating.value != 0 && n <= rating.value
  }

  /** The five star buttons' highlighting. */
  function StarHighlights(rating: Option<int>): (r: seq<bool>)
    ensures |r| == 5
    ensures forall i :: 0 <= i < 5 ==> (r[i] <==> Highlighted(rating, StarButtons[i]))
    ensures FilledCount(r) == if rating.Some? then Clamp(rating.value, 0, 5) else 0
  {
    var filled := if rating.Some? then rating.value else 0;
    StarRowCount(5, filled);
    StarRow(5, filled)
  }

  /** The body of the POST request. */
  datatype FeedbackRequest = FeedbackRequest(rating: int, comment: string, bookingId: string)

  /** The first half of `submitFeedback`: without a rating or a booking id
      only the error is set; otherwise the error is cleared, the form is
      marked as submitting and the request is sent. */
  function StartSubmit(s: FeedbackState): (r: (FeedbackState, Option<FeedbackRequest>))
    ensures r.1.None? <==> s.rating.None? || s.rating.value == 0 || s.bookingId.None?
    ensures r.1.None? ==> r.0 == s.(error := Some(MissingFields))
    ensures r.1.Some? ==>
      && r.0 == s.(isSubmitting := true, error := None)
      && r.1.value == FeedbackRequest(s.rating.value, s.comment, s.bookingId.value)
  {
    if s.rating.None? || s.rating.value == 0 || s.bookingId.None? then
      (s.(error := Some(MissingFields)), None)
    else
      (s.(isSubmitting := true, error := None),
       Some(FeedbackRequest(s.rating.value, s.comment, s.bookingId.value)))
  }

  /** How the request ended: an ok response, a response that is not ok with
      the `message` it carried (if any), or a failure to reach the server or
      to read its reply. */
  datatype Response = Ok | NotOk(message: Option<string>) | Unreachable

  /** The second half of `submitFeedback`: only an ok response marks the
      form as submitted, every other outcome sets an error, and submitting
      always ends. */
  function FinishSubmit(s: FeedbackState, response: Response): (r: FeedbackState)
    ensures !r.isSubmitting
    ensures r.isSubmitted <==> s.isSubmitted || response.Ok?
    ensures response.Ok? ==> r.error == s.error
    ensures response.NotOk? ==> r.error == Some(
      if response.message.Some? && response.message.value != "" then response.message.value
      else SubmitFailed)
    ensures response.Unreachable? ==> r.error == Some(SubmitCrashed)
    ensures r.rating == s.rating && r.comment == s.comment && r.bookingId == s.bookingId
  {
    match response
    case Ok => s.(isSubmitted := true, isSubmitting := false)
    case NotOk(m) =>
      s.(error := Some(if m.Some? && m.value != "" then m.value else SubmitFailed),
         isSubmitting := false)
    case Unreachable => s.(error := Some(SubmitCrashed), isSubmitting := false)
  }

  /** One press of the submit button, start to end. */
  function Submit(s: FeedbackState, response: Response): FeedbackState {
    var (started, request) := StartSubmit(s);
    if request.None? then started else FinishSubmit(started, response)
  }

  /** Every attempt ends with the form no longer submitting, and only an ok
      response to a sent request marks it as submitted. */
  lemma SubmitAlwaysEnds(s: FeedbackState, response: Response)
    requires !s.isSubmitting && !s.isSubmitted
    ensures !Submit(s, response).isSubmitting
    ensures Submit(s, response).isSubmitted <==> StartSubmit(s).1.Some? && response.Ok?
    ensures !Submit(s, response).isSubmitted ==> Submit(s, response).error.Some?
  {
  }

  /** The submit button is disabled while no rating is set or a request is
      under way. */
  predicate SubmitDisabled(s: FeedbackState) {
    s.rating.None? || s.rating.value == 0 || s.isSubmitting
  }

  /** On a form whose rating came from the buttons, an enabled submit button
      and a booking id mean the request is sent. */
  lemma EnabledButtonSends(s: FeedbackState)
    requires RatingInRange(s) && !SubmitDisabled(s) && s.bookingId.Some?
    ensures StartSubmit(s).1.Some?
  {
  }
}
