/** The dashboard: the user's notes and four counters (notes, favourite
    notes, bookmarks, favourite bookmarks), set from fetched lists and kept
    up to date by hand after a create, a delete or an update. */
module DashboardPage {
  import opened Wrappers
  import opened ClientItems
  import opened ClientReply

  const NotesUrl := "http://localhost:5000/api/notes"
  const BookmarksUrl := "http://localhost:5000/api/bookmarks"

  class Dashboard {
    var notes: seq<Item>
    var notesTotal: int
    var notesFavorites: int
    var bookmarksTotal: int
    var bookmarksFavorites: int

    /** The note counters describe the shown list. */
    predicate Consistent()
      reads this
    {
      notesTotal == |notes| && notesFavorites == CountFavorites(notes)
    }

    /** The "Total Favorites" figure; in step with the list it is the number
        of favourite notes shown plus the favourite bookmarks. */
    function TotalFavorites(): (r: int)
      reads this
      ensures Consistent() ==> r == CountFavorites(notes) + bookmarksFavorites
      ensures Consistent() && bookmarksFavorites >= 0 ==> r >= 0
    {
      notesFavorites + bookmarksFavorites
    }

    constructor()
      ensures Consistent() && notes == []
      ensures bookmarksTotal == 0 && bookmarksFavorites == 0
    {
      notes, notesTotal, notesFavorites := [], 0, 0;
      bookmarksTotal, bookmarksFavorites := 0, 0;
    }

    /** The end of `fetchNotes`: a successful answer replaces the list and
        both note counters are recomputed from it. */
    method NotesLoaded(outcome: Outcome<seq<Item>>)
      modifies this
      ensures outcome.Answered? && outcome.reply.success && outcome.reply.data.Some? ==>
                notes == outcome.reply.data.value && Consistent()
      ensures !(outcome.Answered? && outcome.reply.success && outcome.reply.data.Some?) ==>
                notes == old(notes) && notesTotal == old(notesTotal) && notesFavorites == old(notesFavorites)
      ensures bookmarksTotal == old(bookmarksTotal) && bookmarksFavorites == old(bookmarksFavorites)
    {
      if outcome.Answered? && outcome.reply.success && outcome.reply.data.Some? {
        notes := outcome.reply.data.value;
        notesTotal := |notes|;
        notesFavorites := CountFavorites(notes);
      }
    }

    /** The end of `fetchBookmarksStats`: only the counters are kept. */
    method BookmarksLoaded(outcome: Outcome<seq<Item>>)
      modifies this
      ensures outcome.Answered? && outcome.reply.success && outcome.reply.data.Some? ==>
                bookmarksTotal == |outcome.reply.data.value|
                && bookmarksFavorites == CountFavorites(outcome.reply.data.value)
      ensures !(outcome.Answered? && outcome.reply.success && outcome.reply.data.Some?) ==>
                bookmarksTotal == old(bookmarksTotal) && bookmarksFavorites == old(bookmarksFavorites)
      ensures notes == old(notes) && notesTotal == old(notesTotal) && notesFavorites == old(notesFavorites)
    {
      if outcome.Answered? && outcome.reply.success && outcome.reply.data.Some? {
        bookmarksTotal := |outcome.reply.data.value|;
        bookmarksFavorites := CountFavorites(outcome.reply.data.value);
      }
    }

    /** `handleNoteCreated`: the note goes in front, the total grows by one
        and the favourites by one exactly when the note is a favourite; the
        bookmark counters are requested again. The counters stay in step with
        the list. */
    method NoteCreated(x: Item) returns (refetch: string)
      modifies this
      ensures notes == [x] + old(notes)
      ensures notesTotal == old(notesTotal) + 1
      ensures notesFavorites == old(notesFavorites) + (if x.isFavorite then 1 else 0)
      ensures old(Consistent()) ==> Consistent()
      ensures refetch == BookmarksUrl
      ensures bookmarksTotal == old(bookmarksTotal) && bookmarksFavorites == old(bookmarksFavorites)
    {
      CountFavoritesAppend([x], notes);
      notes := [x] + notes;
      notesTotal := notesTotal + 1;
      notesFavorites := notesFavorites + (if x.isFavorite then 1 else 0);
      refetch := BookmarksUrl;
    }

    /** `handleNoteDeleted`: the id leaves the list; the total drops by one
        whatever the list held, and the favourites by one exactly when the
        first note found with that id was a favourite. The counters stay in
        step when the id was shown once, and the total drifts below the list
        when it was not shown at all. */
    method NoteDeleted(id: string) returns (refetch: string)
      modifies this
      ensures notes == RemoveById(old(notes), id)
      ensures notesTotal == old(notesTotal) - 1
      ensures var found := FindById(old(notes), id);
              notesFavorites == old(notesFavorites) - (if found.Some? && found.value.isFavorite then 1 else 0)
      ensures old(Consistent()) && Occurrences(old(notes), id) == 1 ==> Consistent()
      ensures old(Consistent()) && Occurrences(old(notes), id) == 0 ==>
                notes == old(notes) && notesTotal == |notes| - 1
      ensures refetch == BookmarksUrl
      ensures bookmarksTotal == old(bookmarksTotal) && bookmarksFavorites == old(bookmarksFavorites)
    {
      var found := FindById(notes, id);
      DeleteCounters(notes, id);
      notes := RemoveById(notes, id);
      notesTotal := notesTotal - 1;
      notesFavorites := notesFavorites - (if found.Some? && found.value.isFavorite then 1 else 0);
      refetch := BookmarksUrl;
    }

    /** `handleNoteUpdated`: the matching notes become the updated one, the
        counters are left for the note list request that follows. */
    method NoteUpdated(x: Item) returns (refetch: string)
      modifies this
      ensures notes == ReplaceById(old(notes), x)
      ensures notesTotal == old(notesTotal) && notesFavorites == old(notesFavorites)
      ensures refetch == NotesUrl
      ensures bookmarksTotal == old(bookmarksTotal) && bookmarksFavorites == old(bookmarksFavorites)
    {
      notes := ReplaceById(notes, x);
      refetch := NotesUrl;
    }
  }

  /** What removing `id` does to the two note counters' sources: one shown
      record takes away one from the length and its own flag from the
      favourites; an id not shown changes nothing. */
  lemma DeleteCounters(notes: seq<Item>, id: string)
    ensures Occurrences(notes, id) == 1 ==>
              && |RemoveById(notes, id)| == |notes| - 1
              && CountFavorites(RemoveById(notes, id))
                 == CountFavorites(notes) - (if FindById(notes, id).value.isFavorite then 1 else 0)
    ensures Occurrences(notes, id) == 0 ==> RemoveById(notes, id) == notes
  {
    RemoveByIdLength(notes, id);
    if Occurrences(notes, id) == 1 {
      CountFavoritesRemoveUnique(notes, id);
    } else if Occurrences(notes, id) == 0 {
      RemoveAbsentId(notes, id);
    }
  }
}
