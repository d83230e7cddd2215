/** The favourites page: the favourite notes and the favourite bookmarks in
    two lists, each record deleted or un-favourited through the endpoint of
    its own kind and removed from its own list only. */
module FavoritesPage {
  import opened Wrappers
  import opened ClientItems
  import opened ClientReply
  import ListPage

  datatype Kind = NoteKind | BookmarkKind

  /** `${type}` in the page's texts. */
  function KindName(kind: Kind): string {
    match kind
    case NoteKind => "note"
    case BookmarkKind => "bookmark"
  }

  function Endpoint(kind: Kind): string {
    match kind
    case NoteKind => ListPage.NotesEndpoint
    case BookmarkKind => ListPage.BookmarksEndpoint
  }

  /** The literal list requests; they carry the same `favorite=true`
      parameter a list page sends for its favourites filter. */
  const NotesQuery := ListPage.NotesEndpoint + "?favorite=true"
  const BookmarksQuery := ListPage.BookmarksEndpoint + "?favorite=true"

  /** The record's own url: the endpoint of its kind, then its id. */
  function ItemUrl(kind: Kind, id: string): string {
    ListPage.ItemUrl(Endpoint(kind), id)
  }

  /** The alert a failed delete raises. */
  function DeleteAlert(kind: Kind): string {
    "Failed to delete " + KindName(kind) + ". Please try again."
  }

  class FavoritesView {
    var favoriteNotes: seq<Item>
    var favoriteBookmarks: seq<Item>
    var loading: bool
    var itemToDelete: Option<(Item, Kind)>
    var deleteModalOpen: bool
    var deleting: bool

    /** The list of one kind. */
    function ListOf(kind: Kind): seq<Item>
      reads this
    {
      if kind == NoteKind then favoriteNotes else favoriteBookmarks
    }

    /** The two counters in the header: the lengths of the two lists; both
        zero exactly when the empty-state panel is shown. */
    function Counts(): (r: (nat, nat))
      reads this
      ensures r.0 == |ListOf(NoteKind)| && r.1 == |ListOf(BookmarkKind)|
      ensures r == (0, 0) <==> favoriteNotes == [] && favoriteBookmarks == []
    {
      (|favoriteNotes|, |favoriteBookmarks|)
    }

    constructor()
      ensures favoriteNotes == [] && favoriteBookmarks == [] && loading
      ensures itemToDelete.None? && !deleteModalOpen && !deleting
    {
      favoriteNotes, favoriteBookmarks, loading := [], [], true;
      itemToDelete, deleteModalOpen, deleting := None, false, false;
    }

    /** The effect on mount: without a token the page leaves for the login
        page (the spinner stays); otherwise both lists are requested. */
    method Start(token: Option<string>) returns (requests: seq<string>)
      modifies this
      ensures token.None? || token.value == "" ==> requests == [] && loading == old(loading)
      ensures token.Some? && token.value != "" ==> requests == [NotesQuery, BookmarksQuery] && loading
      ensures favoriteNotes == old(favoriteNotes) && favoriteBookmarks == old(favoriteBookmarks)
      ensures itemToDelete == old(itemToDelete) && deleteModalOpen == old(deleteModalOpen)
      ensures deleting == old(deleting)
    {
      if token.None? || token.value == "" {
        return [];
      }
      loading := true;
      requests := [NotesQuery, BookmarksQuery];
    }

    /** The answer to one of the two list requests: a success replaces
        that kind's list and no other. */
    method Loaded(kind: Kind, outcome: Outcome<seq<Item>>)
      modifies this
      ensures outcome.Answered? && outcome.reply.success && outcome.reply.data.Some? ==>
                ListOf(kind) == outcome.reply.data.value
      ensures !(outcome.Answered? && outcome.reply.success && outcome.reply.data.Some?) ==>
                ListOf(kind) == old(ListOf(kind))
      ensures kind == NoteKind ==> favoriteBookmarks == old(favoriteBookmarks)
      ensures kind == BookmarkKind ==> favoriteNotes == old(favoriteNotes)
      ensures loading == old(loading) && itemToDelete == old(itemToDelete)
      ensures deleteModalOpen == old(deleteModalOpen) && deleting == old(deleting)
    {
      if outcome.Answered? && outcome.reply.success && outcome.reply.data.Some? {
        if kind == NoteKind {
          favoriteNotes := outcome.reply.data.value;
        } else {
          favoriteBookmarks := outcome.reply.data.value;
        }
      }
    }

    /** Both requests have settled: the spinner stops. */
    method AllLoaded()
      modifies this
      ensures !loading
      ensures favoriteNotes == old(favoriteNotes) && favoriteBookmarks == old(favoriteBookmarks)
      ensures itemToDelete == old(itemToDelete) && deleteModalOpen == old(deleteModalOpen)
      ensures deleting == old(deleting)
    {
      loading := false;
    }

    /** A card's delete button. */
    method AskDelete(x: Item, kind: Kind)
      modifies this
      ensures itemToDelete == Some((x, kind)) && deleteModalOpen
      ensures favoriteNotes == old(favoriteNotes) && favoriteBookmarks == old(favoriteBookmarks)
      ensures loading == old(loading) && deleting == old(deleting)
    {
      itemToDelete, deleteModalOpen := Some((x, kind)), true;
    }

    /** `handleDeleteCancel` */
    method CancelDelete()
      modifies this
      ensures itemToDelete.None? && !deleteModalOpen
      ensures favoriteNotes == old(favoriteNotes) && favoriteBookmarks == old(favoriteBookmarks)
      ensures loading == old(loading) && deleting == old(deleting)
    {
      itemToDelete, deleteModalOpen := None, false;
    }

    /** `handleDeleteConfirm` up to the request: the record's own url, chosen
        by its kind. Without a token the delete fails with the alert. */
    method ConfirmDelete(token: Option<string>) returns (request: Option<string>, alert: Option<string>)
      modifies this
      ensures itemToDelete.None? ==> request.None? && alert.None? && deleting == old(deleting)
      ensures request.Some? <==> itemToDelete.Some? && token.Some? && token.value != ""
      ensures request.Some? ==>
                request.value == ItemUrl(itemToDelete.value.1, itemToDelete.value.0.id)
                && deleting && alert.None?
      ensures itemToDelete.Some? && (token.None? || token.value == "") ==>
                alert == Some(DeleteAlert(itemToDelete.value.1)) && !deleting
      ensures itemToDelete == old(itemToDelete) && deleteModalOpen == old(deleteModalOpen)
      ensures favoriteNotes == old(favoriteNotes) && favoriteBookmarks == old(favoriteBookmarks)
      ensures loading == old(loading)
    {
      request, alert := None, None;
      if itemToDelete.None? {
        return;
      }
      deleting := true;
      if token.None? || token.value == "" {
        alert := Some(DeleteAlert(itemToDelete.value.1));
        deleting := false;
        return;
      }
      request := Some(ItemUrl(itemToDelete.value.1, itemToDelete.value.0.id));
    }

    /** The end of `handleDeleteConfirm` for the record `id` of `kind`: a
        success removes that id from the list of that kind only. */
    method DeleteDone(kind: Kind, id: string, outcome: Outcome<()>) returns (alert: Option<string>)
      modifies this
      ensures !deleting
      ensures alert.None? <==> outcome.Answered? && outcome.reply.success
      ensures alert.Some? ==> alert.value == DeleteAlert(kind)
      ensures alert.None? ==> ListOf(kind) == RemoveById(old(ListOf(kind)), id)
                              && itemToDelete.None? && !deleteModalOpen
      ensures alert.Some? ==> ListOf(kind) == old(ListOf(kind))
                              && itemToDelete == old(itemToDelete) && deleteModalOpen == old(deleteModalOpen)
      ensures kind == NoteKind ==> favoriteBookmarks == old(favoriteBookmarks)
      ensures kind == BookmarkKind ==> favoriteNotes == old(favoriteNotes)
      ensures loading == old(loading)
    {
      alert := None;
      if outcome.Answered? && outcome.reply.success {
        if kind == NoteKind {
          favoriteNotes := RemoveById(favoriteNotes, id);
        } else {
          favoriteBookmarks := RemoveById(favoriteBookmarks, id);
        }
        itemToDelete, deleteModalOpen := None, false;
      } else {
        alert := Some(DeleteAlert(kind));
      }
      deleting := false;
    }

    /** A card's star up to the request: the record's own url and the record
        with its flag negated. Nothing changes here. */
    method ToggleFavorite(x: Item, kind: Kind, token: Option<string>) returns (request: Option<(string, Item)>)
      ensures request.Some? <==> token.Some? && token.value != ""
      ensures request.Some? ==> request.value == (ItemUrl(kind, x.id), ToggleRequest(x))
    {
      if token.None? || token.value == "" {
        return None;
      }
      request := Some((ItemUrl(kind, x.id), ToggleRequest(x)));
    }

    /** The end of a star toggle for the record `x` as it was shown: a
        favourite that was un-favourited leaves its own list; a record that
        was not a favourite leaves both lists as they are. */
    method ToggleDone(x: Item, kind: Kind, outcome: Outcome<Item>)
      modifies this
      ensures outcome.Answered? && outcome.reply.success && x.isFavorite ==>
                ListOf(kind) == RemoveById(old(ListOf(kind)), x.id)
      ensures !(outcome.Answered? && outcome.reply.success && x.isFavorite) ==>
                ListOf(kind) == old(ListOf(kind))
      ensures kind == NoteKind ==> favoriteBookmarks == old(favoriteBookmarks)
      ensures kind == BookmarkKind ==> favoriteNotes == old(favoriteNotes)
      ensures loading == old(loading) && itemToDelete == old(itemToDelete)
      ensures deleteModalOpen == old(deleteModalOpen) && deleting == old(deleting)
    {
      if outcome.Answered? && outcome.reply.success && x.isFavorite {
        if kind == NoteKind {
          favoriteNotes := RemoveById(favoriteNotes, x.id);
        } else {
          favoriteBookmarks := RemoveById(favoriteBookmarks, x.id);
        }
      }
    }

    /** A detail modal's update callback: the record replaces the matching
        ones in the list of the modal's kind. */
    method DetailUpdated(kind: Kind, x: Item)
      modifies this
      ensures ListOf(kind) == ReplaceById(old(ListOf(kind)), x)
      ensures kind == NoteKind ==> favoriteBookmarks == old(favoriteBookmarks)
      ensures kind == BookmarkKind ==> favoriteNotes == old(favoriteNotes)
      ensures loading == old(loading) && itemToDelete == old(itemToDelete)
      ensures deleteModalOpen == old(deleteModalOpen) && deleting == old(deleting)
    {
      if kind == NoteKind {
        favoriteNotes := ReplaceById(favoriteNotes, x);
      } else {
        favoriteBookmarks := ReplaceById(favoriteBookmarks, x);
      }
    }

    /** A detail modal's delete callback. */
    method DetailDeleted(kind: Kind, id: string)
      modifies this
      ensures ListOf(kind) == RemoveById(old(ListOf(kind)), id)
      ensures kind == NoteKind ==> favoriteBookmarks == old(favoriteBookmarks)
      ensures kind == BookmarkKind ==> favoriteNotes == old(favoriteNotes)
      ensures loading == old(loading) && itemToDelete == old(itemToDelete)
      ensures deleteModalOpen == old(deleteModalOpen) && deleting == old(deleting)
    {
      if kind == NoteKind {
        favoriteNotes := RemoveById(favoriteNotes, id);
      } else {
        favoriteBookmarks := RemoveById(favoriteBookmarks, id);
      }
    }
  }

  /** Un-favouriting a record that occurs once in its list shortens that
      list by exactly one. */
  lemma UnfavoriteShortensByOne(items: seq<Item>, id: string)
    requires Occurrences(items, id) == 1
    ensures |RemoveById(items, id)| == |items| - 1
  {
    RemoveByIdLength(items, id);
  }
}
