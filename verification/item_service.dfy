/** ItemServiceImpl: item listings with their last and next bookings,
    search, creation, owner-only update and comments. */
module ItemService {
  import opened Common
  import opened Text
  import opened Seqs
  import opened Entities
  import opened Dtos
  import opened Storage
  import opened BookingQueries
  import opened BookingMapper
  import opened CommentMapper
  import opened ItemMapper
  import opened ItemUpdate
  import opened ItemRepository

  function EndOf(b: Booking): Time { b.end }

  /** The last-booking filter: already ended, or under way. */
  predicate IsLastCandidate(b: Booking, now: Time) {
    b.end < now || (b.start < now && b.end > now)
  }

  /** The next-booking filter: not yet started. */
  predicate IsNextCandidate(b: Booking, now: Time) {
    b.start > now
  }

  /** Among the last-booking candidates, the first one with the latest end. */
  function LastBooking(bookings: seq<Booking>, now: Time): (r: Option<Booking>)
    ensures r.None? <==> forall b :: b in bookings ==> !IsLastCandidate(b, now)
    ensures r.Some? ==> r.value in bookings && IsLastCandidate(r.value, now)
    ensures r.Some? ==> forall b :: b in bookings && IsLastCandidate(b, now) ==> b.end <= r.value.end
  {
    match MaxWhere(bookings, b => IsLastCandidate(b, now), EndOf)
    case None => None
    case Some(i) => Some(bookings[i])
  }

  /** Among the next-booking candidates, the first one with the earliest start. */
  function NextBooking(bookings: seq<Booking>, now: Time): (r: Option<Booking>)
    ensures r.None? <==> forall b :: b in bookings ==> !IsNextCandidate(b, now)
    ensures r.Some? ==> r.value in bookings && IsNextCandidate(r.value, now)
    ensures r.Some? ==> forall b :: b in bookings && IsNextCandidate(b, now) ==> r.value.start <= b.start
  {
    match MinWhere(bookings, b => IsNextCandidate(b, now), StartOf)
    case None => None
    case Some(i) => Some(bookings[i])
  }

  /** `getLastBooking`: nothing for a null list or when no booking has
      started; otherwise the rendering of a started booking that ends last. */
  function GetLastBooking(bookings: Option<seq<Booking>>, now: Time, fmt: Time -> string): (r: Option<LastBookingDto>)
    ensures r.Some? <==> bookings.Some? && exists b :: b in bookings.value && IsLastCandidate(b, now)
    ensures r.Some? ==>
              exists b :: b in bookings.value && IsLastCandidate(b, now) && r.value == MapToLastBookingDto(b, fmt)
                       && forall c :: c in bookings.value && IsLastCandidate(c, now) ==> c.end <= b.end
  {
    match bookings
    case None => None
    case Some(bs) =>
      match LastBooking(bs, now)
      case None => None
      case Some(b) => Some(MapToLastBookingDto(b, fmt))
  }

  /** `getNextBooking`: nothing for a null list or when no booking is still
      to come; otherwise the rendering of a coming booking that starts first. */
  function GetNextBooking(bookings: Option<seq<Booking>>, now: Time, fmt: Time -> string): (r: Option<LastBookingDto>)
    ensures r.Some? <==> bookings.Some? && exists b :: b in bookings.value && IsNextCandidate(b, now)
    ensures r.Some? ==>
              exists b :: b in bookings.value && IsNextCandidate(b, now) && r.value == MapToLastBookingDto(b, fmt)
                       && forall c :: c in bookings.value && IsNextCandidate(c, now) ==> b.start <= c.start
  {
    match bookings
    case None => None
    case Some(bs) =>
      match NextBooking(bs, now)
      case None => None
      case Some(b) => Some(MapToLastBookingDto(b, fmt))
  }

  /** With its times in order, no booking is both a last and a next candidate. */
  lemma LastAndNextExclusive(b: Booking, now: Time)
    requires b.start < b.end
    ensures !(IsLastCandidate(b, now) && IsNextCandidate(b, now))
  {
  }

  /** So when every booking's times are in order, the last and next bookings
      of one list are different bookings. */
  lemma LastAndNextDiffer(bookings: seq<Booking>, now: Time)
    requires forall b :: b in bookings ==> b.start < b.end
    ensures LastBooking(bookings, now).Some? && NextBooking(bookings, now).Some? ==>
              LastBooking(bookings, now).value != NextBooking(bookings, now).value
  {
    if LastBooking(bookings, now).Some? && NextBooking(bookings, now).Some? {
      LastAndNextExclusive(LastBooking(bookings, now).value, now);
    }
  }

  /** Nothing enforces that order: a booking that ends before it starts can
      be the last and the next booking at once. */
  lemma InvertedBookingIsLastAndNext()
    ensures var item := Item(1, Some(1), "drill", "", true, None, None, None);
            var b := Booking(Some(1), item, User(2, "b", "b@x"), Approved, 5, 1);
            LastBooking([b], 3) == Some(b) && NextBooking([b], 3) == Some(b)
  {
    var item := Item(1, Some(1), "drill", "", true, None, None, None);
    var b := Booking(Some(1), item, User(2, "b", "b@x"), Approved, 5, 1);
    assert IsLastCandidate(b, 3) && IsNextCandidate(b, 3);
  }

  /** Bookings of the item with id `k`. */
  function OfItem(k: int): Booking -> bool {
    (b: Booking) => b.item.id == k
  }

  /** The map from item id to that item's bookings, built in list order. */
  function GroupByItem(bookings: seq<Booking>): (m: map<int, seq<Booking>>)
    ensures forall k :: k in m ==> |m[k]| > 0
  {
    if |bookings| == 0 then map[]
    else
      var n := |bookings| - 1;
      var m := GroupByItem(bookings[..n]);
      var k := bookings[n].item.id;
      m[k := (if k in m then m[k] else []) + [bookings[n]]]
  }

  /** Each item's group is exactly its bookings, in their list order, and
      an item without bookings has no group. */
  lemma {:induction false} GroupByItemIsFilter(bookings: seq<Booking>, k: int)
    ensures k in GroupByItem(bookings) <==> Filter(bookings, OfItem(k)) != []
    ensures k in GroupByItem(bookings) ==> GroupByItem(bookings)[k] == Filter(bookings, OfItem(k))
  {
    if |bookings| > 0 {
      var n := |bookings| - 1;
      var prefix, b := bookings[..n], bookings[n];
      GroupByItemIsFilter(prefix, k);
      FilterConcat(prefix, [b], OfItem(k));
      assert prefix + [b] == bookings;
      var m := GroupByItem(prefix);
      assert GroupByItem(bookings) == m[b.item.id := (if b.item.id in m then m[b.item.id] else []) + [b]];
      if b.item.id == k {
        assert Filter([b], OfItem(k)) == [b];
      } else {
        assert Filter([b], OfItem(k)) == [];
      }
    }
  }

  /** `Map.get`: null for an absent key. */
  function Get(m: map<int, seq<Booking>>, k: int): Option<seq<Booking>> {
    if k in m then Some(m[k]) else None
  }

  /** The group lookup agrees with filtering for both renderings, including
      the null list of an item without bookings. */
  lemma GroupLookup(bookings: seq<Booking>, k: int, now: Time, fmt: Time -> string)
    ensures GetLastBooking(Get(GroupByItem(bookings), k), now, fmt)
         == GetLastBooking(Some(Filter(bookings, OfItem(k))), now, fmt)
    ensures GetNextBooking(Get(GroupByItem(bookings), k), now, fmt)
         == GetNextBooking(Some(Filter(bookings, OfItem(k))), now, fmt)
  {
    GroupByItemIsFilter(bookings, k);
  }

  /** The rendered comments on the item with id `itemId`. */
  function CommentDtosOf(comments: seq<Comment>, itemId: int, fmt: Time -> string): (r: set<CommentDto>)
    ensures forall c :: c in comments && c.itemId == itemId ==> MapToCommentDto(c, fmt) in r
    ensures forall d :: d in r ==> exists c :: c in comments && c.itemId == itemId && d == MapToCommentDto(c, fmt)
  {
    set c | c in comments && c.itemId == itemId :: MapToCommentDto(c, fmt)
  }

  /** `findAllByItemIdIn`: the comments on any of the listed items. */
  function CommentsOfItems(comments: seq<Comment>, ids: seq<int>): (r: seq<Comment>)
    ensures Selects(comments, r, (c: Comment) => c.itemId in ids)
  {
    Filter(comments, (c: Comment) => c.itemId in ids)
  }

  /** Picking one listed item's comments out of all the listed items'
      comments gives that item's comments. */
  lemma CommentsOfListedItem(comments: seq<Comment>, ids: seq<int>, itemId: int, fmt: Time -> string)
    requires itemId in ids
    ensures CommentDtosOf(CommentsOfItems(comments, ids), itemId, fmt) == CommentDtosOf(comments, itemId, fmt)
  {
    SelectsMembers(comments, CommentsOfItems(comments, ids), (c: Comment) => c.itemId in ids);
  }

  function ItemIds(items: seq<Item>): (r: seq<int>)
    ensures |r| == |items|
    ensures forall i :: 0 <= i < |items| ==> r[i] == items[i].id
  {
    seq(|items|, i requires 0 <= i < |items| => items[i].id)
  }

  /** One owner's item, rendered with its last and next bookings and comments. */
  function OwnerItemDto(it: Item, groups: map<int, seq<Booking>>, comments: seq<Comment>,
                        now: Time, fmt: Time -> string): ItemDto
  {
    MapToItemDto(it, GetLastBooking(Get(groups, it.id), now, fmt), GetNextBooking(Get(groups, it.id), now, fmt),
      CommentDtosOf(comments, it.id, fmt))
  }

  /** `getItemsByOwnerId`: one response per owned item, in table order; the
      last and next bookings are chosen among the item's APPROVED bookings. */
  function GetItemsByOwnerId(db: Db, ownerId: int, now: Time, fmt: Time -> string): (r: Result<seq<ItemDto>>)
    ensures r.Err? <==> FindUser(db.users, ownerId).None?
    ensures r.Err? ==> r.error == NotFound
    ensures r.Ok? ==>
              var items := FindAllByOwner(db.items, ownerId);
              var approved := ApprovedForItems(db.bookings, items, now);
              && |r.value| == |items|
              && forall i :: 0 <= i < |items| ==>
                   && r.value[i].id == items[i].id && r.value[i].name == items[i].name
                   && r.value[i].description == items[i].description
                   && r.value[i].available == items[i].available
                   && r.value[i].lastBooking == GetLastBooking(Some(Filter(approved, OfItem(items[i].id))), now, fmt)
                   && r.value[i].nextBooking == GetNextBooking(Some(Filter(approved, OfItem(items[i].id))), now, fmt)
                   && r.value[i].comments == CommentDtosOf(db.comments, items[i].id, fmt)
  {
    match FindUser(db.users, ownerId)
    case None => Err(NotFound)
    case Some(_) =>
      var items := FindAllByOwner(db.items, ownerId);
      var approved := ApprovedForItems(db.bookings, items, now);
      var ids := ItemIds(items);
      var comments := CommentsOfItems(db.comments, ids);
      var groups := GroupByItem(approved);
      var r := seq(|items|, i requires 0 <= i < |items| => OwnerItemDto(items[i], groups, comments, now, fmt));
      forall i | 0 <= i < |items|
        ensures r[i].lastBooking == GetLastBooking(Some(Filter(approved, OfItem(items[i].id))), now, fmt)
        ensures r[i].nextBooking == GetNextBooking(Some(Filter(approved, OfItem(items[i].id))), now, fmt)
        ensures r[i].comments == CommentDtosOf(db.comments, items[i].id, fmt)
      {
        GroupLookup(approved, items[i].id, now, fmt);
        assert ids[i] == items[i].id;
        CommentsOfListedItem(db.comments, ids, items[i].id, fmt);
      }
      Ok(r)
  }

  /** An owned item none of whose bookings is APPROVED is listed without a
      last or next booking. */
  lemma UnbookedItemHasNoLastOrNext(db: Db, ownerId: int, now: Time, fmt: Time -> string, i: nat)
    requires FindUser(db.users, ownerId).Some?
    requires i < |FindAllByOwner(db.items, ownerId)|
    requires forall b :: b in db.bookings && b.item.id == FindAllByOwner(db.items, ownerId)[i].id ==>
               b.state != Approved
    ensures GetItemsByOwnerId(db, ownerId, now, fmt).value[i].lastBooking.None?
    ensures GetItemsByOwnerId(db, ownerId, now, fmt).value[i].nextBooking.None?
  {
    var items := FindAllByOwner(db.items, ownerId);
    var approved := ApprovedForItems(db.bookings, items, now);
    var own := Filter(approved, OfItem(items[i].id));
    SelectsMembers(db.bookings, approved, b => AmongItems(b, items) && b.state == Approved);
    SelectsMembers(approved, own, OfItem(items[i].id));
    assert forall b :: b !in own;
  }

  /** `getItemById`: the item without last or next booking, with its comments. */
  function GetItemById(db: Db, itemId: int, fmt: Time -> string): (r: Result<ItemDto>)
    ensures r.Err? <==> FindItem(db.items, itemId).None?
    ensures r.Err? ==> r.error == NotFound
    ensures r.Ok? ==>
              var it := FindItem(db.items, itemId).value;
              && r.value.id == itemId && r.value.name == it.name && r.value.description == it.description
              && r.value.available == it.available
              && r.value.lastBooking.None? && r.value.nextBooking.None?
              && r.value.comments == CommentDtosOf(db.comments, itemId, fmt)
  {
    match FindItem(db.items, itemId)
    case None => Err(NotFound)
    case Some(it) => Ok(MapToItemDto(it, None, None, CommentDtosOf(db.comments, itemId, fmt)))
  }

  /** `getItemsByPattern`: a null or blank pattern finds nothing without a
      query; otherwise every available item matching it, bare. */
  function GetItemsByPattern(db: Db, pattern: Option<string>): (r: seq<ItemDto>)
    ensures pattern.None? || IsBlank(pattern.value) ==> r == []
    ensures pattern.Some? && !IsBlank(pattern.value) ==>
              var found := FindItemsByPattern(db.items, pattern.value);
              && |r| == |found|
              && forall i :: 0 <= i < |r| ==>
                   r[i].id == found[i].id && r[i].name == found[i].name && r[i].description == found[i].description
    ensures forall i :: 0 <= i < |r| ==>
              && pattern.Some? && r[i].available
              && (Contains(Lower(r[i].name), Lower(pattern.value))
                  || Contains(Lower(r[i].description), Lower(pattern.value)))
              && r[i].lastBooking.None? && r[i].nextBooking.None? && r[i].comments == {}
  {
    if pattern.None? || IsBlank(pattern.value) then []
    else
      var found := FindItemsByPattern(db.items, pattern.value);
      seq(|found|, i requires 0 <= i < |found| => MapToItemDto(found[i], None, None, {}))
  }

  /** A blank pattern does not match everything: it finds nothing. */
  lemma BlankPatternFindsNothing(db: Db, pattern: string)
    requires IsBlank(pattern)
    ensures GetItemsByPattern(db, Some(pattern)) == []
  {
  }

  /** `addItem`: the caller must exist, then the named request if any; the
      item is saved under a fresh id with the caller as owner. */
  function AddItem(db: Db, userId: int, req: NewItemRequest): (out: Reply<ItemDto>)
    requires db.Valid()
    ensures out.db.Valid()
    ensures out.result.Err? ==> out.db == db && out.result.error == NotFound
    ensures out.result.Err? <==>
              || FindUser(db.users, userId).None?
              || (req.requestId.Some? && FindRequest(db.requests, req.requestId.value).None?)
    ensures out.result.Ok? ==>
              var n := |db.items|;
              && out.db.(items := db.items, lastId := db.lastId) == db
              && |out.db.items| == n + 1 && out.db.items[..n] == db.items
              && (forall it :: it in db.items ==> it.id != out.db.lastId)
              && out.db.items[n] == Item(out.db.lastId, Some(userId), req.name, req.description, req.available,
                                         None, None, req.requestId)
              && out.result.value == ItemDto(out.db.lastId, req.name, req.description, req.available, None, None, {})
  {
    var item := MapToItem(req);
    match FindUser(db.users, userId)
    case None => Reply(Err(NotFound), db)
    case Some(_) =>
      if req.requestId.Some? && FindRequest(db.requests, req.requestId.value).None? then
        Reply(Err(NotFound), db)
      else
        var saved := item.(id := db.lastId + 1, owner := Some(userId), request := req.requestId);
        var db' := db.(items := db.items + [saved], lastId := db.lastId + 1);
        assert db'.items[..|db.items|] == db.items;
        Reply(Ok(MapToItemDto(saved, None, None, {})), db')
  }

  /** `updateItem`: only the owner may change an item, and only the fields
      the update carries change. */
  function UpdateItem(db: Db, userId: int, itemId: int, u: UpdateItemRequest): (out: Reply<ItemDto>)
    requires db.Valid()
    ensures out.db.Valid()
    ensures out.result.Err? ==> out.db == db
    ensures FindItem(db.items, itemId).None? <==> out.result == Err(NotFound)
    ensures FindItem(db.items, itemId).Some? ==>
              var it := FindItem(db.items, itemId).value;
              && (it.owner != Some(userId) <==> out.result == Err(Unacceptable))
              && (it.owner == Some(userId) ==>
                    var updated := UpdateItemFields(it, u);
                    && out.result == Ok(MapToItemDto(updated, None, None, {}))
                    && out.db.(items := db.items) == db
                    && |out.db.items| == |db.items|
                    && forall i :: 0 <= i < |db.items| ==>
                         out.db.items[i] == if db.items[i].id == itemId then updated else db.items[i])
  {
    match FindItem(db.items, itemId)
    case None => Reply(Err(NotFound), db)
    case Some(it) =>
      if it.owner != Some(userId) then Reply(Err(Unacceptable), db)
      else
        var updated := UpdateItemFields(it, u);
        Reply(Ok(MapToItemDto(updated, None, None, {})),
              db.(items := Replace(db.items, (x: Item) => x.id == itemId, updated)))
  }

  /** The update's effect on the stored row: carried fields replaced, the
      row's identity, owner, request and booking fields kept. */
  lemma UpdateItemChangesOnlyCarriedFields(db: Db, userId: int, itemId: int, u: UpdateItemRequest, i: nat)
    requires db.Valid()
    requires UpdateItem(db, userId, itemId, u).result.Ok?
    requires i < |db.items| && db.items[i].id == itemId
    ensures var row := UpdateItem(db, userId, itemId, u).db.items[i];
            var before := FindItem(db.items, itemId).value;
            && row.id == itemId && row.owner == Some(userId) && row.request == before.request
            && row.name == (if u.HasName() then u.name.value else before.name)
            && row.available == (if u.HasAvailable() then u.available.value else before.available)
            && row.description == (if u.HasDescription() then u.description.value else before.description)
            && row.lastBooking == before.lastBooking && row.nextBooking == before.nextBooking
  {
  }

  /** The author has a finished, APPROVED booking of the item. */
  predicate HasCompletedBooking(bookings: seq<Booking>, userId: int, itemId: int, now: Time) {
    exists b :: b in bookings && b.booker.id == userId && b.item.id == itemId && b.end < now && b.state == Approved
  }

  /** Searching the author's finished bookings of the item for an APPROVED
      one finds one exactly when a completed booking exists. */
  lemma CompletedBookingIsFound(bookings: seq<Booking>, userId: int, itemId: int, now: Time)
    ensures First(PastByBookerAndItem(bookings, userId, itemId, now), (b: Booking) => b.state == Approved).Some?
            <==> HasCompletedBooking(bookings, userId, itemId, now)
  {
    var past := PastByBookerAndItem(bookings, userId, itemId, now);
    SelectsMembers(bookings, past, b => BookedBy(b, userId) && b.item.id == itemId && IsPast(b, now));
  }

  /** `addComment`: the item, then the author must exist; the owner may not
      comment; any other author needs a completed APPROVED booking of it. */
  function AddComment(db: Db, req: NewCommentRequest, userId: int, itemId: int, now: Time,
                      fmt: Time -> string): (out: Reply<CommentDto>)
    requires db.Valid()
    ensures out.db.Valid()
    ensures out.result.Err? ==> out.db == db
    ensures FindItem(db.items, itemId).None? ==> out.result == Err(NotFound)
    ensures FindItem(db.items, itemId).Some? && FindUser(db.users, userId).None? ==> out.result == Err(NotFound)
    ensures FindItem(db.items, itemId).Some? && FindUser(db.users, userId).Some? ==>
              && (FindItem(db.items, itemId).value.owner == Some(userId) ==> out.result == Err(Unacceptable))
              && (FindItem(db.items, itemId).value.owner != Some(userId) ==>
                    (out.result == Err(Validation) <==> !HasCompletedBooking(db.bookings, userId, itemId, now)))
    ensures out.result.Ok? ==>
              && out.db.(comments := db.comments, lastId := db.lastId) == db
              && out.db.comments == db.comments + [Comment(Some(out.db.lastId), itemId,
                                                           FindUser(db.users, userId).value, req.text, now)]
              && (forall c :: c in db.comments ==> c.id != Some(out.db.lastId))
              && out.result.value == CommentDto(Some(out.db.lastId), FindUser(db.users, userId).value.name,
                                                req.text, fmt(now))
  {
    match FindItem(db.items, itemId)
    case None => Reply(Err(NotFound), db)
    case Some(it) =>
      match FindUser(db.users, userId)
      case None => Reply(Err(NotFound), db)
      case Some(author) =>
        if it.owner == Some(userId) then Reply(Err(Unacceptable), db)
        else
          CompletedBookingIsFound(db.bookings, userId, itemId, now);
          match First(PastByBookerAndItem(db.bookings, userId, itemId, now), (b: Booking) => b.state == Approved)
          case None => Reply(Err(Validation), db)
          case Some(_) =>
            var saved := MapToComment(req, author, itemId, now).(id := Some(db.lastId + 1));
            var db' := db.(comments := db.comments + [saved], lastId := db.lastId + 1);
            assert db'.Valid();
            Reply(Ok(MapToCommentDto(saved, fmt)), db')
  }

  /** The item's owner can never comment on it, whatever bookings exist. */
  lemma OwnerNeverComments(db: Db, req: NewCommentRequest, itemId: int, now: Time, fmt: Time -> string)
    requires db.Valid()
    requires FindItem(db.items, itemId).Some?
    ensures AddComment(db, req, FindItem(db.items, itemId).value.owner.value, itemId, now, fmt).result.Err?
  {
  }
}
