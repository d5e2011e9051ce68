/** The admin room-type page (app/admin/rooms/page.tsx): the search over
    room types, the edit dialog's form, and whether saving it updates an
    existing room type or creates a new one. */
module AdminRooms {
  import opened Wrappers
  import opened Text
  import opened Lists

  /** A room type as the server lists it; prices are integer cents. */
  datatype Room = Room(id: int, typeName: string, price: int, availability: int)

  /** The dialog's fields. */
  datatype RoomForm = RoomForm(typeName: string, price: int, availability: int)

  const EmptyForm := RoomForm("", 0, 0)
  const OperationFailed := "Operation failed"

  datatype RoomsPage = RoomsPage(
    rooms: seq<Room>,
    searchTerm: string,
    editing: Option<Room>,
    form: RoomForm,
    dialogOpen: bool,
    error: string)

  function TypeMatches(term: string): Room -> bool {
    (r: Room) => MatchesIgnoringCase(r.typeName, term)
  }

  /** `filteredRooms`: the room types whose name contains the search term,
      ignoring case, in their original order. */
  function FilteredRooms(rooms: seq<Room>, term: string): (r: seq<Room>)
    ensures forall x :: x in r <==> x in rooms && MatchesIgnoringCase(x.typeName, term)
    ensures IsSublist(r, rooms)
    ensures forall x ::
      multiset(r)[x] == (if MatchesIgnoringCase(x.typeName, term) then multiset(rooms)[x] else 0)
  {
    FilterIsSublist(rooms, TypeMatches(term));
    FilterCounts(rooms, TypeMatches(term));
    Filter(rooms, TypeMatches(term))
  }

  /** An empty search lists every room type. */
  lemma EmptySearchKeepsAll(rooms: seq<Room>)
    ensures FilteredRooms(rooms, "") == rooms
  {
    forall x | x in rooms ensures TypeMatches("")(x) {
      ContainsEmpty(Lower(x.typeName));
    }
    FilterKeepsAll(rooms, TypeMatches(""));
  }

  /** `handleEdit`: remember the room being edited, copy its type, price and
      availability into the form unchanged, and open the dialog. */
  function HandleEdit(p: RoomsPage, room: Room): (r: RoomsPage)
    ensures r.editing == Some(room) && r.dialogOpen
    ensures r.form.typeName == room.typeName && r.form.price == room.price
      && r.form.availability == room.availability
    ensures r.rooms == p.rooms && r.searchTerm == p.searchTerm && r.error == p.error
  {
    p.(editing := Some(room), form := RoomForm(room.typeName, room.price, room.availability),
       dialogOpen := true)
  }

  /** `resetForm`: nothing is being edited and the form is empty. */
  function ResetForm(p: RoomsPage): (r: RoomsPage)
    ensures r.editing.None? && r.form == RoomForm("", 0, 0)
    ensures r.rooms == p.rooms && r.searchTerm == p.searchTerm
      && r.dialogOpen == p.dialogOpen && r.error == p.error
  {
    p.(editing := None, form := EmptyForm)
  }

  /** The request saving the dialog sends. */
  datatype RoomRequest =
    | Patch(id: int, body: RoomForm)
    | Post(body: RoomForm)

  /** The request `handleSubmit` sends: a PATCH of the edited room type when
      there is one, a POST of a new one otherwise; the form goes as it is. */
  function SubmitRequest(p: RoomsPage): (q: RoomRequest)
    ensures q.Patch? <==> p.editing.Some?
    ensures q.Patch? ==> q.id == p.editing.value.id
    ensures q.body == p.form
  {
    match p.editing
    case Some(room) => Patch(room.id, p.form)
    case None => Post(p.form)
  }

  /** How the request ended: success, or a failure with the server's `error`
      text if it sent one. */
  datatype RequestOutcome = Succeeded | Failed(serverError: Option<string>)

  /** The rest of `handleSubmit`: on success the dialog closes and the form
      is reset, while an earlier error text stays on screen (the list is
      fetched again, which is not modelled); on failure
      the server's error text, or "Operation failed" when there is none or
      it is empty, is shown. */
  function FinishSubmit(p: RoomsPage, outcome: RequestOutcome): (r: RoomsPage)
    ensures outcome.Succeeded? ==> !r.dialogOpen && r.editing.None? && r.form == EmptyForm
    ensures outcome.Succeeded? ==> r == ResetForm(p).(dialogOpen := false)
    ensures outcome.Failed? ==> r == p.(error := r.error)
    ensures outcome.Failed? ==>
      r.error == (if outcome.serverError.Some? && outcome.serverError.value != ""
                  then outcome.serverError.value else OperationFailed)
  {
    match outcome
    case Succeeded => ResetForm(p.(dialogOpen := false))
    case Failed(e) =>
      p.(error := if e.Some? && e.value != "" then e.value else OperationFailed)
  }

  /** Editing a room type and saving it sends a PATCH of that room type with
      its own values, and after a successful save the next save without a
      new edit is a POST. */
  lemma EditThenSave(p: RoomsPage, room: Room)
    ensures SubmitRequest(HandleEdit(p, room))
      == Patch(room.id, RoomForm(room.typeName, room.price, room.availability))
    ensures SubmitRequest(FinishSubmit(HandleEdit(p, room), Succeeded)).Post?
  {
  }

  /** Resetting after an edit leaves no trace of the edit but the open
      dialog. */
  lemma ResetUndoesEdit(p: RoomsPage, room: Room)
    ensures ResetForm(HandleEdit(p, room)) == ResetForm(p).(dialogOpen := true)
  {
  }

  datatype ChipColor = Success | Danger

  /** The availability chip: green when some rooms are left, red otherwise. */
  function AvailabilityChip(room: Room): (c: ChipColor)
    ensures c == Success <==> room.availability > 0
  {
    if room.availability > 0 then Success else Danger
  }
}
