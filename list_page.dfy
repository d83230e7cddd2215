/** The notes page and the bookmarks page: one list fetched with the current
    filters, the distinct sorted tags of what was fetched, the tag and
    favourite filters, and the local list updates after a create, a delete,
    a favourite toggle or an edit in the detail modal. The two pages differ
    only in their endpoint. */
module ListPage {
  import opened Wrappers
  import opened StringOrder
  import opened ClientItems
  import opened ClientReply
  import opened QueryString

  const NotesEndpoint := "http://localhost:5000/api/notes"
  const BookmarksEndpoint := "http://localhost:5000/api/bookmarks"

  /** A record's own url: the endpoint, '/', the id. */
  function ItemUrl(base: string, id: string): (r: string)
    ensures |r| == |base| + 1 + |id|
    ensures r[..|base|] == base && r[|base|..] == "/" + id
  {
    base + "/" + id
  }

  class ItemListPage {
    const base: string
    var items: seq<Item>
    var loading: bool
    var searchTerm: string
    var selectedTags: seq<string>
    var allTags: seq<string>
    var showFavoritesOnly: bool
    var itemToDelete: Option<Item>
    var deleteModalOpen: bool
    var deleting: bool

    /** The selection never repeats a tag, and the tag list is sorted and
        distinct. */
    predicate Valid()
      reads this
    {
      NoDuplicates(selectedTags) && StrictlyAscending(allTags)
    }

    /** The "Active filters" row is shown. */
    predicate HasFilters()
      reads this
    {
      searchTerm != "" || selectedTags != [] || showFavoritesOnly
    }

    /** The page as first rendered: the spinner, no filters. */
    constructor(base: string)
      ensures Valid() && this.base == base
      ensures items == [] && loading && allTags == [] && !HasFilters()
      ensures itemToDelete.None? && !deleteModalOpen && !deleting
    {
      this.base := base;
      items, loading := [], true;
      searchTerm, selectedTags, allTags, showFavoritesOnly := "", [], [], false;
      itemToDelete, deleteModalOpen, deleting := None, false, false;
    }

    /** `fetchNotes(search, tags, favoritesOnly)` up to the request. Without a
        token the page goes to the login page and the spinner stops. */
    method Fetch(search: string, tags: seq<string>, favoritesOnly: bool, token: Option<string>)
      returns (url: Option<string>)
      requires Valid()
      modifies this
      ensures Valid()
      ensures url.Some? <==> token.Some? && token.value != ""
      ensures url.Some? ==> url.value == UrlFor(base, search, tags, favoritesOnly) && loading == old(loading)
      ensures url.None? ==> !loading
      ensures items == old(items) && allTags == old(allTags) && searchTerm == old(searchTerm)
      ensures selectedTags == old(selectedTags) && showFavoritesOnly == old(showFavoritesOnly)
      ensures itemToDelete == old(itemToDelete) && deleteModalOpen == old(deleteModalOpen)
      ensures deleting == old(deleting)
    {
      if token.None? || token.value == "" {
        loading := false;
        return None;
      }
      var u := RequestUrl(base, search, tags, favoritesOnly);
      url := Some(u);
    }

    /** The end of a fetch: a successful answer replaces the list and
        recomputes the tag list; the spinner stops whatever happened. */
    method FetchDone(outcome: Outcome<seq<Item>>)
      requires Valid()
      modifies this
      ensures Valid() && !loading
      ensures outcome.Answered? && outcome.reply.success && outcome.reply.data.Some? ==>
                items == outcome.reply.data.value
                && forall t :: t in allTags <==> HasTag(items, t)
      ensures !(outcome.Answered? && outcome.reply.success && outcome.reply.data.Some?) ==>
                items == old(items) && allTags == old(allTags)
      ensures searchTerm == old(searchTerm) && selectedTags == old(selectedTags)
      ensures showFavoritesOnly == old(showFavoritesOnly)
      ensures itemToDelete == old(itemToDelete) && deleteModalOpen == old(deleteModalOpen)
      ensures deleting == old(deleting)
    {
      if outcome.Answered? && outcome.reply.success && outcome.reply.data.Some? {
        items := outcome.reply.data.value;
        allTags := CollectTags(items);
      }
      loading := false;
    }

    /** The search box. */
    method SetSearchTerm(value: string)
      modifies this
      ensures searchTerm == value
      ensures items == old(items) && loading == old(loading) && allTags == old(allTags)
      ensures selectedTags == old(selectedTags) && showFavoritesOnly == old(showFavoritesOnly)
      ensures itemToDelete == old(itemToDelete) && deleteModalOpen == old(deleteModalOpen)
      ensures deleting == old(deleting)
    {
      searchTerm := value;
    }

    /** `handleSearch`: refetch with the three current filters. */
    method Search(token: Option<string>) returns (url: Option<string>)
      requires Valid()
      modifies this
      ensures Valid()
      ensures url.Some? <==> token.Some? && token.value != ""
      ensures url.Some? ==> url.value == UrlFor(base, searchTerm, selectedTags, showFavoritesOnly) && loading
      ensures url.None? ==> !loading
      ensures items == old(items) && allTags == old(allTags) && searchTerm == old(searchTerm)
      ensures selectedTags == old(selectedTags) && showFavoritesOnly == old(showFavoritesOnly)
    {
      loading := true;
      url := Fetch(searchTerm, selectedTags, showFavoritesOnly, token);
    }

    /** `toggleTag`: the tag leaves the selection if it was in it and joins
        it at the end otherwise; the list is refetched with the new
        selection. */
    method ToggleTagFilter(tag: string, token: Option<string>) returns (url: Option<string>)
      requires Valid()
      modifies this
      ensures Valid()
      ensures selectedTags == ToggleTag(old(selectedTags), tag)
      ensures forall t :: t in selectedTags <==> (t in old(selectedTags)) != (t == tag)
      ensures url.Some? <==> token.Some? && token.value != ""
      ensures url.Some? ==> url.value == UrlFor(base, searchTerm, selectedTags, showFavoritesOnly) && loading
      ensures url.None? ==> !loading
      ensures items == old(items) && allTags == old(allTags) && searchTerm == old(searchTerm)
      ensures showFavoritesOnly == old(showFavoritesOnly)
    {
      ToggleTagKeepsNoDuplicates(selectedTags, tag);
      selectedTags := ToggleTag(selectedTags, tag);
      loading := true;
      url := Fetch(searchTerm, selectedTags, showFavoritesOnly, token);
    }

    /** `toggleFavoritesOnly`: flip the favourites filter and refetch. */
    method ToggleFavoritesOnly(token: Option<string>) returns (url: Option<string>)
      requires Valid()
      modifies this
      ensures Valid()
      ensures showFavoritesOnly == !old(showFavoritesOnly)
      ensures url.Some? <==> token.Some? && token.value != ""
      ensures url.Some? ==> url.value == UrlFor(base, searchTerm, selectedTags, showFavoritesOnly) && loading
      ensures url.None? ==> !loading
      ensures items == old(items) && allTags == old(allTags) && searchTerm == old(searchTerm)
      ensures selectedTags == old(selectedTags)
    {
      showFavoritesOnly := !showFavoritesOnly;
      loading := true;
      url := Fetch(searchTerm, selectedTags, showFavoritesOnly, token);
    }

    /** `clearFilters`: all three filters back to empty, then the plain
        endpoint is fetched. */
    method ClearFilters(token: Option<string>) returns (url: Option<string>)
      requires Valid()
      modifies this
      ensures Valid() && !HasFilters()
      ensures searchTerm == "" && selectedTags == [] && !showFavoritesOnly
      ensures url.Some? <==> token.Some? && token.value != ""
      ensures url.Some? ==> url.value == base && loading
      ensures url.None? ==> !loading
      ensures items == old(items) && allTags == old(allTags)
    {
      searchTerm, selectedTags, showFavoritesOnly := "", [], false;
      loading := true;
      url := Fetch("", [], false, token);
    }

    /** `handleNoteCreated`: the new record goes in front, then the list is
        refetched with the current filters. */
    method Created(x: Item, token: Option<string>) returns (url: Option<string>)
      requires Valid()
      modifies this
      ensures Valid()
      ensures items == [x] + old(items)
      ensures url.Some? <==> token.Some? && token.value != ""
      ensures url.Some? ==> url.value == UrlFor(base, searchTerm, selectedTags, showFavoritesOnly)
                            && loading == old(loading)
      ensures allTags == old(allTags) && searchTerm == old(searchTerm)
      ensures selectedTags == old(selectedTags) && showFavoritesOnly == old(showFavoritesOnly)
    {
      items := [x] + items;
      url := Fetch(searchTerm, selectedTags, showFavoritesOnly, token);
    }

    /** A card's delete button opens the confirmation for that record. */
    method AskDelete(x: Item)
      modifies this
      ensures itemToDelete == Some(x) && deleteModalOpen
      ensures items == old(items) && loading == old(loading) && allTags == old(allTags)
      ensures searchTerm == old(searchTerm) && selectedTags == old(selectedTags)
      ensures showFavoritesOnly == old(showFavoritesOnly) && deleting == old(deleting)
    {
      itemToDelete, deleteModalOpen := Some(x), true;
    }

    /** `handleDeleteCancel` */
    method CancelDelete()
      modifies this
      ensures itemToDelete.None? && !deleteModalOpen
      ensures items == old(items) && loading == old(loading) && allTags == old(allTags)
      ensures searchTerm == old(searchTerm) && selectedTags == old(selectedTags)
      ensures showFavoritesOnly == old(showFavoritesOnly) && deleting == old(deleting)
    {
      itemToDelete, deleteModalOpen := None, false;
    }

    /** `handleDeleteConfirm` up to the request: the url of the record asked
        about. Without a token the delete fails with the alert. */
    method ConfirmDelete(token: Option<string>) returns (request: Option<string>, alert: bool)
      modifies this
      ensures itemToDelete.None? ==> request.None? && !alert && deleting == old(deleting)
      ensures request.Some? <==> itemToDelete.Some? && token.Some? && token.value != ""
      ensures request.Some? ==> request.value == ItemUrl(base, itemToDelete.value.id) && deleting && !alert
      ensures itemToDelete.Some? && (token.None? || token.value == "") ==> alert && !deleting
      ensures itemToDelete == old(itemToDelete) && deleteModalOpen == old(deleteModalOpen)
      ensures items == old(items) && loading == old(loading) && allTags == old(allTags)
      ensures searchTerm == old(searchTerm) && selectedTags == old(selectedTags)
      ensures showFavoritesOnly == old(showFavoritesOnly)
    {
      request, alert := None, false;
      if itemToDelete.None? {
        return;
      }
      deleting := true;
      if token.None? || token.value == "" {
        alert := true;
        deleting := false;
        return;
      }
      request := Some(ItemUrl(base, itemToDelete.value.id));
    }

    /** The end of `handleDeleteConfirm` for record `id`: success removes
        every record with that id, keeping the others in order, and closes
        the confirmation; anything else raises the alert. */
    method DeleteDone(id: string, outcome: Outcome<()>) returns (alert: bool)
      requires Valid()
      modifies this
      ensures Valid() && !deleting
      ensures alert <==> !(outcome.Answered? && outcome.reply.success)
      ensures !alert ==> items == RemoveById(old(items), id) && itemToDelete.None? && !deleteModalOpen
      ensures !alert ==> forall x :: x in items <==> x in old(items) && x.id != id
      ensures alert ==> items == old(items) && itemToDelete == old(itemToDelete)
                        && deleteModalOpen == old(deleteModalOpen)
      ensures loading == old(loading) && allTags == old(allTags) && searchTerm == old(searchTerm)
      ensures selectedTags == old(selectedTags) && showFavoritesOnly == old(showFavoritesOnly)
    {
      alert := !(outcome.Answered? && outcome.reply.success);
      if !alert {
        items := RemoveById(items, id);
        itemToDelete, deleteModalOpen := None, false;
      }
      deleting := false;
    }

    /** A card's star, up to the request: the record's url and the record
        with its flag negated. Nothing changes here. */
    method ToggleFavorite(x: Item, token: Option<string>) returns (request: Option<(string, Item)>)
      ensures request.Some? <==> token.Some? && token.value != ""
      ensures request.Some? ==> request.value == (ItemUrl(base, x.id), ToggleRequest(x))
    {
      if token.None? || token.value == "" {
        return None;
      }
      request := Some((ItemUrl(base, x.id), ToggleRequest(x)));
    }

    /** The end of a card's toggle for record `id`: success negates the
        local flag of the matching records only. */
    method ToggleDone(id: string, outcome: Outcome<Item>)
      requires Valid()
      modifies this
      ensures Valid()
      ensures outcome.Answered? && outcome.reply.success ==> items == FlipFavorite(old(items), id)
      ensures !(outcome.Answered? && outcome.reply.success) ==> items == old(items)
      ensures loading == old(loading) && allTags == old(allTags) && searchTerm == old(searchTerm)
      ensures selectedTags == old(selectedTags) && showFavoritesOnly == old(showFavoritesOnly)
      ensures itemToDelete == old(itemToDelete) && deleteModalOpen == old(deleteModalOpen)
      ensures deleting == old(deleting)
    {
      if outcome.Answered? && outcome.reply.success {
        items := FlipFavorite(items, id);
      }
    }

    /** The detail modal's `onNoteUpdated`: the matching records become the
        updated one. */
    method DetailUpdated(x: Item)
      requires Valid()
      modifies this
      ensures Valid()
      ensures items == ReplaceById(old(items), x)
      ensures loading == old(loading) && allTags == old(allTags) && searchTerm == old(searchTerm)
      ensures selectedTags == old(selectedTags) && showFavoritesOnly == old(showFavoritesOnly)
      ensures itemToDelete == old(itemToDelete) && deleteModalOpen == old(deleteModalOpen)
      ensures deleting == old(deleting)
    {
      items := ReplaceById(items, x);
    }

    /** The detail modal's `onNoteDeleted`. */
    method DetailDeleted(id: string)
      requires Valid()
      modifies this
      ensures Valid()
      ensures items == RemoveById(old(items), id)
      ensures loading == old(loading) && allTags == old(allTags) && searchTerm == old(searchTerm)
      ensures selectedTags == old(selectedTags) && showFavoritesOnly == old(showFavoritesOnly)
      ensures itemToDelete == old(itemToDelete) && deleteModalOpen == old(deleteModalOpen)
      ensures deleting == old(deleting)
    {
      items := RemoveById(items, id);
    }
  }
}
