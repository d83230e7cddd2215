/** The list endpoints `getNotes` and `getBookmarks`: the query object they
    build from `q`, `tags` and `favorite`, the records it selects, and the
    `sort({ updatedAt: -1 })` of the result. */
module ListFilter {
  import opened Wrappers
  import opened Text

  type Id = nat
  type UserId = nat

  /** The query-string parameters; None when a parameter is absent. */
  datatype ListParams = ListParams(q: Option<string>, tags: Option<string>, favorite: Option<string>)

  /** The Mongo query object: `{ userId, $text?, tags: { $in }?, isFavorite? }`. */
  datatype Query = Query(userId: UserId, text: Option<string>, tagsIn: Option<seq<string>>,
                         isFavorite: Option<bool>)

  /** What a query looks at in a record: its owner, tags, favourite flag and
      the fields of its text index. */
  datatype RecordView = RecordView(userId: UserId, tags: seq<string>, isFavorite: bool,
                                   searchable: seq<string>)

  /** MongoDB's reading of the query object; `$text` is the given oracle
      `textMatches(search, fields)`, `$in` on an array field holds when
      some element is listed. */
  predicate Matches(v: RecordView, query: Query, textMatches: (string, seq<string>) -> bool) {
    && v.userId == query.userId
    && (query.text.Some? ==> textMatches(query.text.value, v.searchable))
    && (query.tagsIn.Some? ==> exists t :: t in v.tags && t in query.tagsIn.value)
    && (query.isFavorite.Some? ==> v.isFavorite == query.isFavorite.value)
  }

  /** Which records the caller asked for, stated on the parameters: the
      caller's own records, searched when `q` is non-empty, carrying one of
      the normalised comma-separated pieces of a non-empty `tags` (empty
      pieces included), and favourites only when `favorite` is exactly "true". */
  predicate Selected(userId: UserId, params: ListParams, v: RecordView,
                     textMatches: (string, seq<string>) -> bool) {
    && v.userId == userId
    && (params.q.Some? && params.q.value != "" ==> textMatches(params.q.value, v.searchable))
    && (params.tags.Some? && params.tags.value != "" ==>
          exists p :: p in Split(params.tags.value, ',') && Normalise(p) in v.tags)
    && (params.favorite == Some("true") ==> v.isFavorite)
  }

  /** `let query = { userId }` followed by the three conditional additions. */
  method BuildQuery(userId: UserId, params: ListParams) returns (query: Query)
    ensures query.userId == userId
    ensures query.text.Some? <==> params.q.Some? && params.q.value != ""
    ensures query.isFavorite.Some? <==> params.favorite == Some("true")
    ensures query.tagsIn.Some? <==> params.tags.Some? && params.tags.value != ""
    ensures query.tagsIn.Some? ==> params.tags.Some? && |query.tagsIn.value| == |Split(params.tags.value, ',')|
    ensures forall v, tm :: Matches(v, query, tm) <==> Selected(userId, params, v, tm)
  {
    query := Query(userId, None, None, None);
    if params.q.Some? && params.q.value != "" {
      query := query.(text := Some(params.q.value));
    }
    if params.tags.Some? && params.tags.value != "" {
      var pieces := Split(params.tags.value, ',');
      var tagArray := NormaliseAll(pieces);
      query := query.(tagsIn := Some(tagArray));
      forall v: RecordView
        ensures (exists t :: t in v.tags && t in tagArray) <==>
                (exists p :: p in pieces && Normalise(p) in v.tags)
      {
        InSomeNormalised(v.tags, pieces);
      }
    }
    if params.favorite == Some("true") {
      query := query.(isFavorite := Some(true));
    }
  }

  lemma InSomeNormalised(tags: seq<string>, pieces: seq<string>)
    ensures (exists t :: t in tags && t in NormaliseAll(pieces)) <==>
            (exists p :: p in pieces && Normalise(p) in tags)
  {
    if exists t :: t in tags && t in NormaliseAll(pieces) {
      var t :| t in tags && t in NormaliseAll(pieces);
      var k :| 0 <= k < |pieces| && NormaliseAll(pieces)[k] == t;
      assert pieces[k] in pieces;
    }
    if exists p :: p in pieces && Normalise(p) in tags {
      var p :| p in pieces && Normalise(p) in tags;
      var k :| 0 <= k < |pieces| && pieces[k] == p;
      assert NormaliseAll(pieces)[k] == Normalise(p);
    }
  }

  /** `ids` are in the order `sort({ updatedAt: -1 })` allows. */
  predicate SortedDesc<R>(ids: seq<Id>, records: map<Id, R>, stamp: R -> int)
    requires forall k :: 0 <= k < |ids| ==> ids[k] in records
  {
    forall a, b :: 0 <= a < b < |ids| ==> stamp(records[ids[a]]) >= stamp(records[ids[b]])
  }

  predicate Distinct(ids: seq<Id>) {
    forall a, b :: 0 <= a < b < |ids| ==> ids[a] != ids[b]
  }

  /** Inserts `id` in front of the first id with a smaller or equal stamp. */
  function InsertDesc<R>(ids: seq<Id>, id: Id, records: map<Id, R>, stamp: R -> int): (r: seq<Id>)
    requires id in records && forall k :: 0 <= k < |ids| ==> ids[k] in records
    requires SortedDesc(ids, records, stamp)
    ensures forall k :: 0 <= k < |r| ==> r[k] in records
    ensures multiset(r) == multiset(ids) + multiset{id}
    ensures SortedDesc(r, records, stamp)
  {
    if ids == [] || stamp(records[id]) >= stamp(records[ids[0]]) then
      InsertFront(ids, id, records, stamp);
      [id] + ids
    else
      TailSorted(ids, records, stamp);
      var rest := InsertDesc(ids[1..], id, records, stamp);
      HeadAboveRest(ids, id, rest, records, stamp);
      [ids[0]] + rest
  }

  lemma InsertFront<R>(ids: seq<Id>, id: Id, records: map<Id, R>, stamp: R -> int)
    requires id in records && forall k :: 0 <= k < |ids| ==> ids[k] in records
    requires SortedDesc(ids, records, stamp)
    requires ids == [] || stamp(records[id]) >= stamp(records[ids[0]])
    ensures forall k :: 0 <= k < |[id] + ids| ==> ([id] + ids)[k] in records
    ensures SortedDesc([id] + ids, records, stamp)
  {
    var r := [id] + ids;
    forall a, b | 0 <= a < b < |r| ensures stamp(records[r[a]]) >= stamp(records[r[b]]) {
      if a > 0 {
        assert r[a] == ids[a - 1] && r[b] == ids[b - 1];
      } else if b > 1 {
        assert r[b] == ids[b - 1];
      }
    }
  }

  lemma TailSorted<R>(ids: seq<Id>, records: map<Id, R>, stamp: R -> int)
    requires |ids| > 0 && forall k :: 0 <= k < |ids| ==> ids[k] in records
    requires SortedDesc(ids, records, stamp)
    ensures forall k :: 0 <= k < |ids[1..]| ==> ids[1..][k] in records
    ensures SortedDesc(ids[1..], records, stamp)
  {
    var t := ids[1..];
    forall a, b | 0 <= a < b < |t| ensures stamp(records[t[a]]) >= stamp(records[t[b]]) {
      assert t[a] == ids[a + 1] && t[b] == ids[b + 1];
    }
  }

  lemma HeadAboveRest<R>(ids: seq<Id>, id: Id, rest: seq<Id>, records: map<Id, R>, stamp: R -> int)
    requires id in records && |ids| > 0 && forall k :: 0 <= k < |ids| ==> ids[k] in records
    requires forall k :: 0 <= k < |rest| ==> rest[k] in records
    requires SortedDesc(ids, records, stamp)
    requires stamp(records[id]) < stamp(records[ids[0]])
    requires multiset(rest) == multiset(ids[1..]) + multiset{id}
    requires SortedDesc(rest, records, stamp)
    ensures forall k :: 0 <= k < |[ids[0]] + rest| ==> ([ids[0]] + rest)[k] in records
    ensures multiset([ids[0]] + rest) == multiset(ids) + multiset{id}
    ensures SortedDesc([ids[0]] + rest, records, stamp)
  {
    var r := [ids[0]] + rest;
    assert ids == [ids[0]] + ids[1..];
    forall a, b | 0 <= a < b < |r| ensures stamp(records[r[a]]) >= stamp(records[r[b]]) {
      if a == 0 {
        var x := rest[b - 1];
        assert x in multiset(rest);
        if x != id {
          assert x in multiset(ids[1..]);
          var k :| 0 <= k < |ids[1..]| && ids[1..][k] == x;
          assert ids[k + 1] == x;
        }
      } else {
        assert r[a] == rest[a - 1] && r[b] == rest[b - 1];
      }
    }
  }

  /** Distinct ids stay distinct when an id not among them is inserted. */
  lemma InsertKeepsDistinct<R>(ids: seq<Id>, id: Id, records: map<Id, R>, stamp: R -> int)
    requires id in records && forall k :: 0 <= k < |ids| ==> ids[k] in records
    requires SortedDesc(ids, records, stamp)
    requires Distinct(ids) && id !in ids
    ensures Distinct(InsertDesc(ids, id, records, stamp))
  {
    var r := InsertDesc(ids, id, records, stamp);
    forall a, b | 0 <= a < b < |r| ensures r[a] != r[b] {
      if r[a] == r[b] {
        var x := r[a];
        assert multiset(r)[x] >= 2 by {
          assert r == r[..a] + [x] + r[a + 1..b] + [x] + r[b + 1..];
        }
        if x != id {
          MultisetAtMostOne(ids, x);
        }
        assert false;
      }
    }
  }

  lemma {:induction false} MultisetAtMostOne(ids: seq<Id>, x: Id)
    requires Distinct(ids)
    ensures multiset(ids)[x] <= 1
  {
    if ids != [] {
      MultisetAtMostOne(ids[1..], x);
      assert ids == [ids[0]] + ids[1..];
      assert ids[0] !in ids[1..];
    }
  }

  /** `Model.find(query).sort({ updatedAt: -1 })`: the ids of every record
      the query accepts, each once, newest `updatedAt` first. */
  method FindSorted<R>(records: map<Id, R>, keep: R -> bool, stamp: R -> int) returns (ids: seq<Id>)
    ensures forall k :: 0 <= k < |ids| ==> ids[k] in records
    ensures forall id :: id in ids <==> id in records && keep(records[id])
    ensures Distinct(ids)
    ensures SortedDesc(ids, records, stamp)
  {
    ids := [];
    var remaining := records.Keys;
    while remaining != {}
      invariant remaining <= records.Keys
      invariant forall k :: 0 <= k < |ids| ==> ids[k] in records
      invariant forall id :: id in ids <==> id in records && id !in remaining && keep(records[id])
      invariant Distinct(ids)
      invariant SortedDesc(ids, records, stamp)
      decreases |remaining|
    {
      var id :| id in remaining;
      if keep(records[id]) {
        InsertKeepsDistinct(ids, id, records, stamp);
        var next := InsertDesc(ids, id, records, stamp);
        assert forall x :: x in next <==> x in multiset(next);
        assert forall x :: x in ids <==> x in multiset(ids);
        ids := next;
      }
      remaining := remaining - {id};
    }
  }

  /** The records a list answer holds, read off the ids `FindSorted`
      returns: each one kept, every kept record present, newest first. */
  lemma ListedRecords<R>(records: map<Id, R>, keep: R -> bool, stamp: R -> int, ids: seq<Id>, data: seq<R>)
    requires forall k :: 0 <= k < |ids| ==> ids[k] in records
    requires forall id :: id in ids <==> id in records && keep(records[id])
    requires SortedDesc(ids, records, stamp)
    requires |data| == |ids| && forall k :: 0 <= k < |ids| ==> data[k] == records[ids[k]]
    ensures forall k :: 0 <= k < |data| ==> keep(data[k])
    ensures forall id :: id in records && keep(records[id]) ==> records[id] in data
    ensures forall a, b :: 0 <= a < b < |data| ==> stamp(data[a]) >= stamp(data[b])
  {
    forall k | 0 <= k < |data| ensures keep(data[k]) {
      assert ids[k] in ids;
    }
    forall id | id in records && keep(records[id]) ensures records[id] in data {
      var k :| 0 <= k < |ids| && ids[k] == id;
      assert data[k] == records[id];
    }
  }
}
