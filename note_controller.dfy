/** backend/controllers/noteController.js over an in-memory collection:
    every request is scoped to the caller's `userId`, and answers are
    200/201, 400 with the validation messages, or 404 'Note not found'. */
module NoteController {
  import opened Wrappers
  import opened Responses
  import opened NoteSchema
  import ListFilter

  const NotFoundMessage := "Note not found"

  /** What the list filter sees of a note. */
  function View(n: Note): ListFilter.RecordView {
    ListFilter.RecordView(n.userId, n.tags, n.isFavorite, SearchableFields(n))
  }

  /** The notes collection. */
  class NoteStore {
    var notes: map<Id, Note>
    var nextId: Id

    /** Every stored note sits under its own id, below the next fresh id,
        and satisfies the schema. */
    predicate Valid()
      reads this
    {
      forall id :: id in notes ==> notes[id].id == id && id < nextId && WellFormed(notes[id])
    }

    constructor ()
      ensures Valid() && notes == map[] && nextId == 0
    {
      notes := map[];
      nextId := 0;
    }

    /** Whether `id` names a note of `userId`: `findOne({ _id, userId })`. */
    predicate Owns(userId: UserId, id: Id)
      reads this
    {
      id in notes && notes[id].userId == userId
    }

    /** getNotes: the caller's notes the parameters select, newest
        `updatedAt` first, with `count` their number. */
    method GetNotes(userId: UserId, params: ListFilter.ListParams,
                    textMatches: (string, seq<string>) -> bool)
      returns (resp: ListResponse<Note>)
      requires Valid()
      ensures resp.count == |resp.data|
      ensures forall k :: 0 <= k < |resp.data| ==>
                resp.data[k].id in notes && notes[resp.data[k].id] == resp.data[k]
                && ListFilter.Selected(userId, params, View(resp.data[k]), textMatches)
      ensures forall id :: id in notes && ListFilter.Selected(userId, params, View(notes[id]), textMatches)
                ==> notes[id] in resp.data
      ensures forall a, b :: 0 <= a < b < |resp.data| ==>
                resp.data[a].updatedAt >= resp.data[b].updatedAt && resp.data[a].id != resp.data[b].id
    {
      var query := ListFilter.BuildQuery(userId, params);
      var all := notes;
      var keep := (n: Note) => ListFilter.Matches(View(n), query, textMatches);
      var stamp := (n: Note) => n.updatedAt;
      var ids := ListFilter.FindSorted(all, keep, stamp);
      var data := seq(|ids|, k requires 0 <= k < |ids| => all[ids[k]]);
      ListFilter.ListedRecords(all, keep, stamp, ids, data);
      forall k | 0 <= k < |data|
        ensures data[k].id in all && all[data[k].id] == data[k]
        ensures ListFilter.Selected(userId, params, View(data[k]), textMatches)
      {
        assert keep(data[k]);
      }
      forall a, b | 0 <= a < b < |data| ensures data[a].id != data[b].id {
        assert data[a].id == ids[a] && data[b].id == ids[b];
      }
      resp := ListResponse(|data|, data);
    }

    /** getNoteById: a missing note and another user's note give the same 404. */
    method GetNoteById(userId: UserId, id: Id) returns (resp: Response<Note>)
      requires Valid()
      ensures Owns(userId, id) ==> resp == Ok(200, None, notes[id])
      ensures !Owns(userId, id) ==> resp == NotFound(NotFoundMessage)
    {
      if !Owns(userId, id) {
        return NotFound(NotFoundMessage);
      }
      resp := Ok(200, None, notes[id]);
    }

    /** createNote: `note.save()` either stores the normalised note under a
        fresh id, owned by the caller, or reports every failing path. */
    method CreateNote(userId: UserId, body: NoteBody, now: int) returns (resp: Response<Note>)
      requires Valid()
      modifies this
      ensures Valid()
      ensures CreateErrors(body) != [] ==>
                resp == ValidationFailed(MapSeq(CreateErrors(body), Message))
                && notes == old(notes) && nextId == old(nextId)
      ensures CreateErrors(body) == [] ==>
                && resp == Ok(201, Some("Note created successfully"), NewNote(old(nextId), userId, body, now))
                && old(nextId) !in old(notes)
                && notes == old(notes)[old(nextId) := resp.data] && nextId == old(nextId) + 1
    {
      var errors := CreateErrors(body);
      if errors != [] {
        return ValidationFailed(MapSeq(errors, Message));
      }
      var note := NewNote(nextId, userId, body, now);
      notes := notes[nextId := note];
      nextId := nextId + 1;
      resp := Ok(201, Some("Note created successfully"), note);
    }

    /** updateNote: the update is validated first, then applied to the
        caller's note only; the other notes are untouched. */
    method UpdateNote(userId: UserId, id: Id, body: NoteBody, now: int) returns (resp: Response<Note>)
      requires Valid()
      modifies this
      ensures Valid() && nextId == old(nextId)
      ensures UpdateErrors(body) != [] ==>
                resp == ValidationFailed(MapSeq(UpdateErrors(body), Message)) && notes == old(notes)
      ensures UpdateErrors(body) == [] && !old(Owns(userId, id)) ==>
                resp == NotFound(NotFoundMessage) && notes == old(notes)
      ensures UpdateErrors(body) == [] && old(Owns(userId, id)) ==>
                && resp == Ok(200, Some("Note updated successfully"), ApplyUpdate(old(notes)[id], body, now))
                && notes == old(notes)[id := resp.data]
    {
      var errors := UpdateErrors(body);
      if errors != [] {
        return ValidationFailed(MapSeq(errors, Message));
      }
      if !Owns(userId, id) {
        return NotFound(NotFoundMessage);
      }
      var updated := ApplyUpdate(notes[id], body, now);
      notes := notes[id := updated];
      resp := Ok(200, Some("Note updated successfully"), updated);
    }

    /** deleteNote: `findOneAndDelete({ _id, userId })`. */
    method DeleteNote(userId: UserId, id: Id) returns (resp: Response<()>)
      requires Valid()
      modifies this
      ensures Valid() && nextId == old(nextId)
      ensures !old(Owns(userId, id)) ==> resp == NotFound(NotFoundMessage) && notes == old(notes)
      ensures old(Owns(userId, id)) ==>
                resp == Ok(200, Some("Note deleted successfully"), ()) && notes == old(notes) - {id}
    {
      if !Owns(userId, id) {
        return NotFound(NotFoundMessage);
      }
      notes := notes - {id};
      resp := Ok(200, Some("Note deleted successfully"), ());
    }
  }
}
