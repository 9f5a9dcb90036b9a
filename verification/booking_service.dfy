/** BookingServiceImpl: creating a booking (with the overlap check),
    reading one, approving or rejecting it, and the filtered lists for a
    booker and for an item owner. */
module BookingService {
  import opened Common
  import opened Seqs
  import opened Entities
  import opened Dtos
  import opened Storage
  import opened BookingQueries
  import opened BookingMapper

  /** The server-side list filter. OTHER stands for any constant the
      dispatch does not name (CANCELED, say): it falls to the default
      branch and lists every booking, as ALL does. */
  datatype StateFilter = ALL | CURRENT | PAST | FUTURE | WAITING | APPROVED | REJECTED | OTHER

  // ----- the overlap check -----

  /** `t.isAfter(b.start) && t.isBefore(b.end)`. */
  predicate StrictlyInside(t: Time, b: Booking) {
    b.start < t < b.end
  }

  /** The test applied to each candidate: the new start or the new end lies
      strictly inside the candidate's window. */
  predicate Clashes(b: Booking, start: Time, end: Time) {
    StrictlyInside(start, b) || StrictlyInside(end, b)
  }

  /** The bookings the overlap query returns for an item. */
  predicate IsOverlapCandidate(b: Booking, itemId: int, now: Time) {
    b.item.id == itemId && IsCurrentOrFuture(b, now) && b.state == Approved
  }

  /** `anyMatch` of Clashes over the candidates. */
  function AnyClash(cands: seq<Booking>, start: Time, end: Time): (clash: bool)
    ensures clash <==> exists b :: b in cands && Clashes(b, start, end)
  {
    if |cands| == 0 then false
    else Clashes(cands[0], start, end) || AnyClash(cands[1..], start, end)
  }

  lemma CandidatesOfItem(bookings: seq<Booking>, item: Item, now: Time)
    ensures forall b :: b in CurrentAndFutureForItems(bookings, [item], now)
                        <==> b in bookings && IsOverlapCandidate(b, item.id, now)
  {
    var cands := CurrentAndFutureForItems(bookings, [item], now);
    SelectsMembers(bookings, cands,
      b => AmongItems(b, [item]) && IsCurrentOrFuture(b, now) && b.state == Approved);
    forall b ensures AmongItems(b, [item]) <==> b.item.id == item.id {
      if b.item.id == item.id {
        assert [item][0].id == b.item.id;
      }
    }
  }

  /** Whether the overlap check rejects a window, stated over the whole table. */
  ghost predicate Overlapped(bookings: seq<Booking>, itemId: int, now: Time, start: Time, end: Time) {
    exists b :: b in bookings && IsOverlapCandidate(b, itemId, now) && Clashes(b, start, end)
  }

  // ----- addBooking -----

  /** The checks run in order: booker, item, availability, overlap. Each
      failure leaves the database as it was; success appends one WAITING
      booking under a fresh id and changes nothing else. */
  function AddBooking(db: Db, userId: int, req: NewBookingRequest, now: Time,
                      parse: string -> Time, fmt: Time -> string): (out: Reply<BookingDto>)
    requires db.Valid()
    ensures out.result.Err? ==> out.db == db
    ensures out.db.Valid()
    ensures FindUser(db.users, userId).None? ==> out.result == Err(NotFound)
    ensures FindUser(db.users, userId).Some? && FindItem(db.items, req.itemId).None? ==>
              out.result == Err(NotFound)
    ensures FindUser(db.users, userId).Some? && FindItem(db.items, req.itemId).Some? ==>
              var item := FindItem(db.items, req.itemId).value;
              && (!item.available ==> out.result == Err(Runtime))
              && (item.available ==>
                    ((out.result == Err(Unacceptable))
                     <==> Overlapped(db.bookings, item.id, now, parse(req.start), parse(req.end))))
    ensures out.result.Ok? <==>
              && FindUser(db.users, userId).Some?
              && FindItem(db.items, req.itemId).Some?
              && FindItem(db.items, req.itemId).value.available
              && !Overlapped(db.bookings, req.itemId, now, parse(req.start), parse(req.end))
    ensures out.result.Ok? ==>
              var n := |db.bookings|;
              && out.db.(bookings := db.bookings, lastId := db.lastId) == db
              && |out.db.bookings| == n + 1 && out.db.bookings[..n] == db.bookings
              && (forall b :: b in db.bookings ==> b.id != Some(out.db.lastId))
              && out.db.bookings[n] == Booking(Some(out.db.lastId), FindItem(db.items, req.itemId).value,
                                               FindUser(db.users, userId).value, Waiting,
                                               parse(req.start), parse(req.end))
              && out.result.value == MapToBookingDto(out.db.bookings[n], fmt)
  {
    match FindUser(db.users, userId)
    case None => Reply(Err(NotFound), db)
    case Some(user) =>
      match FindItem(db.items, req.itemId)
      case None => Reply(Err(NotFound), db)
      case Some(item) =>
        var booking := MapToBooking(req, item, user, parse);
        if !item.available then Reply(Err(Runtime), db)
        else
          var cands := CurrentAndFutureForItems(db.bookings, [item], now);
          CandidatesOfItem(db.bookings, item, now);
          if AnyClash(cands, booking.start, booking.end) then Reply(Err(Unacceptable), db)
          else
            var saved := booking.(id := Some(db.lastId + 1));
            var db' := db.(bookings := db.bookings + [saved], lastId := db.lastId + 1);
            assert db'.bookings[..|db.bookings|] == db.bookings;
            Reply(Ok(MapToBookingDto(saved, fmt)), db')
  }

  /** The availability check comes before the overlap query: an unavailable
      item is refused with a plain runtime error whatever is booked. */
  lemma UnavailableIgnoresBookings(db: Db, userId: int, req: NewBookingRequest, now: Time,
                                   parse: string -> Time, fmt: Time -> string, other: seq<Booking>)
    requires db.Valid() && db.(bookings := other).Valid()
    requires FindUser(db.users, userId).Some?
    requires FindItem(db.items, req.itemId).Some?
    requires !FindItem(db.items, req.itemId).value.available
    ensures AddBooking(db, userId, req, now, parse, fmt) == Reply(Err(Runtime), db)
    ensures AddBooking(db.(bookings := other), userId, req, now, parse, fmt).result == Err(Runtime)
  {
  }

  /** Open intervals that share a point: the symmetric overlap test. */
  predicate Intersects(b: Booking, start: Time, end: Time) {
    start < b.end && b.start < end
  }

  /** Whatever the one-sided test rejects really intersects the candidate. */
  lemma ClashImpliesIntersection(b: Booking, start: Time, end: Time)
    requires start < end
    ensures Clashes(b, start, end) ==> Intersects(b, start, end)
  {
  }

  /** The test is one-sided: a window that equals or encloses every booking
      of the table is never rejected, however the windows intersect. */
  lemma EnclosingWindowIsAccepted(db: Db, userId: int, req: NewBookingRequest, now: Time,
                                  parse: string -> Time, fmt: Time -> string)
    requires db.Valid()
    requires FindUser(db.users, userId).Some?
    requires FindItem(db.items, req.itemId).Some?
    requires FindItem(db.items, req.itemId).value.available
    requires forall c :: c in db.bookings ==> parse(req.start) <= c.start && c.end <= parse(req.end)
    ensures AddBooking(db, userId, req, now, parse, fmt).result.Ok?
  {
  }

  /** A concrete double booking: item 10 already has an APPROVED booking
      for [20, 40]; a request for exactly that window is accepted, and so is
      a request for [10, 50] that encloses it. */
  lemma DoubleBookingExample()
    ensures var owner := User(1, "owner", "o@x");
            var booker := User(2, "booker", "b@x");
            var item := Item(10, Some(1), "drill", "a drill", true, None, None, None);
            var taken := Booking(Some(3), item, booker, Approved, 20, 40);
            var db := Db([owner, booker], [item], [taken], [], [], 10);
            var same := NewBookingRequest(10, "20", "40");
            var wider := NewBookingRequest(10, "10", "50");
            var parse := (s: string) => if s == "10" then 10 else if s == "20" then 20
                                        else if s == "40" then 40 else 50;
            var fmt := (t: Time) => "";
            && IsOverlapCandidate(taken, 10, 0)
            && Intersects(taken, 20, 40) && Intersects(taken, 10, 50)
            && AddBooking(db, 2, same, 0, parse, fmt).result.Ok?
            && AddBooking(db, 2, wider, 0, parse, fmt).result.Ok?
  {
    var owner := User(1, "owner", "o@x");
    var booker := User(2, "booker", "b@x");
    var item := Item(10, Some(1), "drill", "a drill", true, None, None, None);
    var taken := Booking(Some(3), item, booker, Approved, 20, 40);
    var db := Db([owner, booker], [item], [taken], [], [], 10);
    var parse := (s: string) => if s == "10" then 10 else if s == "20" then 20
                                else if s == "40" then 40 else 50;
    assert FindUser(db.users, 2) == Some(booker) by {
      assert db.users[1] == booker;
    }
    assert FindItem(db.items, 10) == Some(item) by {
      assert db.items[0] == item;
    }
    assert parse("20") == 20 && parse("40") == 40 && parse("10") == 10 && parse("50") == 50;
    assert !Overlapped(db.bookings, 10, 0, 20, 40);
    assert !Overlapped(db.bookings, 10, 0, 10, 50);
  }

  // ----- getBookingById -----

  /** Only the booker and the item's owner may read a booking. */
  function GetBookingById(db: Db, userId: int, bookingId: int, fmt: Time -> string): (r: Result<BookingDto>)
    requires db.Valid()
    ensures r == Err(NotFound) <==> FindBooking(db.bookings, bookingId).None?
    ensures FindBooking(db.bookings, bookingId).Some? ==>
              var b := FindBooking(db.bookings, bookingId).value;
              && (r.Ok? <==> b.booker.id == userId || b.item.owner == Some(userId))
              && (r.Err? ==> r.error == Unacceptable)
    ensures r.Ok? ==> r.value.id == Some(bookingId)
    ensures r.Ok? ==> r.value.bookerId == userId || r.value.item.ownerId == userId
  {
    match FindBooking(db.bookings, bookingId)
    case None => Err(NotFound)
    case Some(b) =>
      if !(b.booker.id == userId || b.item.owner == Some(userId)) then Err(Unacceptable)
      else Ok(MapToBookingDto(b, fmt))
  }

  // ----- approveBooking -----

  function Decision(approved: bool): State {
    if approved then Approved else Rejected
  }

  /** Ownership is checked before the state; only a WAITING booking moves,
      to APPROVED or REJECTED, and every stored row with its id is replaced. */
  function ApproveBooking(db: Db, userId: int, bookingId: int, approved: bool,
                          fmt: Time -> string): (out: Reply<BookingDto>)
    requires db.Valid()
    ensures out.result.Err? ==> out.db == db
    ensures out.db.Valid()
    ensures FindBooking(db.bookings, bookingId).None? ==> out.result == Err(NotFound)
    ensures FindBooking(db.bookings, bookingId).Some? ==>
              var b := FindBooking(db.bookings, bookingId).value;
              && (b.item.owner != Some(userId) ==> out.result == Err(Unacceptable))
              && (b.item.owner == Some(userId) && b.state != Waiting ==> out.result == Err(Validation))
              && (b.item.owner == Some(userId) && b.state == Waiting ==>
                    && out.result.Ok?
                    && out.result.value.status == Decision(approved)
                    && out.result.value.id == Some(bookingId)
                    && out.db.(bookings := db.bookings) == db
                    && |out.db.bookings| == |db.bookings|
                    && forall i :: 0 <= i < |db.bookings| ==>
                         out.db.bookings[i] == if db.bookings[i].id == Some(bookingId)
                                               then b.(state := Decision(approved))
                                               else db.bookings[i])
  {
    match FindBooking(db.bookings, bookingId)
    case None => Reply(Err(NotFound), db)
    case Some(b) =>
      if b.item.owner != Some(userId) then Reply(Err(Unacceptable), db)
      else if b.state != Waiting then Reply(Err(Validation), db)
      else
        var b' := b.(state := Decision(approved));
        var rows := Replace(db.bookings, (x: Booking) => x.id == Some(bookingId), b');
        assert forall x :: x in rows ==> x == b' || x in db.bookings;
        Reply(Ok(MapToBookingDto(b', fmt)), db.(bookings := rows))
  }

  /** A booking is decided once: approving or rejecting it again fails. */
  lemma {:induction false} SecondApprovalFails(db: Db, userId: int, bookingId: int,
                                               first: bool, second: bool, fmt: Time -> string)
    requires db.Valid()
    requires ApproveBooking(db, userId, bookingId, first, fmt).result.Ok?
    ensures var db' := ApproveBooking(db, userId, bookingId, first, fmt).db;
            ApproveBooking(db', userId, bookingId, second, fmt).result == Err(Validation)
  {
    var b := FindBooking(db.bookings, bookingId).value;
    var db' := ApproveBooking(db, userId, bookingId, first, fmt).db;
    var found := FindBooking(db'.bookings, bookingId);
    var k :| 0 <= k < |db.bookings| && db.bookings[k] == b;
    assert db'.bookings[k] == b.(state := Decision(first));
    assert found.Some?;
    var j :| 0 <= j < |db'.bookings| && db'.bookings[j] == found.value;
    assert found.value == b.(state := Decision(first));
  }

  // ----- the lists -----

  /** What each filter keeps; the time filters ignore the state and the
      state filters ignore the time. */
  predicate Matches(f: StateFilter, b: Booking, now: Time) {
    match f
    case ALL | OTHER => true
    case CURRENT => IsCurrent(b, now)
    case PAST => IsPast(b, now)
    case FUTURE => IsFuture(b, now)
    case WAITING => b.state == Waiting
    case APPROVED => b.state == Approved
    case REJECTED => b.state == Rejected
  }

  /** The dispatch of getAllBookingsByUser. */
  function BookerBookings(bookings: seq<Booking>, userId: int, f: StateFilter, now: Time): (r: seq<Booking>)
    ensures Selects(bookings, r, b => BookedBy(b, userId) && Matches(f, b, now))
    ensures SortedDesc(r, StartOf)
  {
    match f
    case ALL | OTHER =>
      var r := AllByBooker(bookings, userId);
      SelectsCongruent(bookings, r, b => BookedBy(b, userId),
        b => BookedBy(b, userId) && Matches(f, b, now));
      r
    case CURRENT =>
      var r := CurrentByBooker(bookings, userId, now, now);
      SelectsCongruent(bookings, r, b => BookedBy(b, userId) && b.start < now && b.end > now,
        b => BookedBy(b, userId) && Matches(f, b, now));
      r
    case PAST =>
      var r := PastByBooker(bookings, userId, now);
      SelectsCongruent(bookings, r, b => BookedBy(b, userId) && IsPast(b, now),
        b => BookedBy(b, userId) && Matches(f, b, now));
      r
    case FUTURE =>
      var r := FutureByBooker(bookings, userId, now);
      SelectsCongruent(bookings, r, b => BookedBy(b, userId) && IsFuture(b, now),
        b => BookedBy(b, userId) && Matches(f, b, now));
      r
    case WAITING =>
      var r := StateByBooker(bookings, userId, Waiting);
      SelectsCongruent(bookings, r, b => BookedBy(b, userId) && b.state == Waiting,
        b => BookedBy(b, userId) && Matches(f, b, now));
      r
    case APPROVED =>
      var r := StateByBooker(bookings, userId, Approved);
      SelectsCongruent(bookings, r, b => BookedBy(b, userId) && b.state == Approved,
        b => BookedBy(b, userId) && Matches(f, b, now));
      r
    case REJECTED =>
      var r := StateByBooker(bookings, userId, Rejected);
      SelectsCongruent(bookings, r, b => BookedBy(b, userId) && b.state == Rejected,
        b => BookedBy(b, userId) && Matches(f, b, now));
      r
  }

  /** The dispatch of getAllBookingByOwner. */
  function OwnerBookings(bookings: seq<Booking>, ownerId: int, f: StateFilter, now: Time): (r: seq<Booking>)
    ensures Selects(bookings, r, b => OwnedBy(b, ownerId) && Matches(f, b, now))
    ensures SortedDesc(r, StartOf)
  {
    match f
    case ALL | OTHER =>
      var r := AllByOwner(bookings, ownerId);
      SelectsCongruent(bookings, r, b => OwnedBy(b, ownerId),
        b => OwnedBy(b, ownerId) && Matches(f, b, now));
      r
    case CURRENT =>
      var r := CurrentByOwner(bookings, ownerId, now);
      SelectsCongruent(bookings, r, b => OwnedBy(b, ownerId) && IsCurrent(b, now),
        b => OwnedBy(b, ownerId) && Matches(f, b, now));
      r
    case PAST =>
      var r := PastByOwner(bookings, ownerId, now);
      SelectsCongruent(bookings, r, b => OwnedBy(b, ownerId) && IsPast(b, now),
        b => OwnedBy(b, ownerId) && Matches(f, b, now));
      r
    case FUTURE =>
      var r := FutureByOwner(bookings, ownerId, now);
      SelectsCongruent(bookings, r, b => OwnedBy(b, ownerId) && IsFuture(b, now),
        b => OwnedBy(b, ownerId) && Matches(f, b, now));
      r
    case WAITING =>
      var r := StateByOwner(bookings, ownerId, Waiting);
      SelectsCongruent(bookings, r, b => OwnedBy(b, ownerId) && b.state == Waiting,
        b => OwnedBy(b, ownerId) && Matches(f, b, now));
      r
    case APPROVED =>
      var r := StateByOwner(bookings, ownerId, Approved);
      SelectsCongruent(bookings, r, b => OwnedBy(b, ownerId) && b.state == Approved,
        b => OwnedBy(b, ownerId) && Matches(f, b, now));
      r
    case REJECTED =>
      var r := StateByOwner(bookings, ownerId, Rejected);
      SelectsCongruent(bookings, r, b => OwnedBy(b, ownerId) && b.state == Rejected,
        b => OwnedBy(b, ownerId) && Matches(f, b, now));
      r
  }

  /** The default branch: a filter the dispatch does not name lists the
      same bookings as ALL, for the booker and for the owner. */
  lemma UnnamedFilterListsAll(bookings: seq<Booking>, userId: int, now: Time)
    ensures BookerBookings(bookings, userId, OTHER, now) == AllByBooker(bookings, userId)
    ensures OwnerBookings(bookings, userId, OTHER, now) == AllByOwner(bookings, userId)
  {
  }

  /** Every row a query lists is a stored booking, so its item has an owner. */
  lemma ListedRowsAreOwned(db: Db, r: seq<Booking>, p: Booking -> bool)
    requires db.Valid()
    requires Selects(db.bookings, r, p)
    ensures forall i :: 0 <= i < |r| ==> r[i] in db.bookings && r[i].item.owner.Some?
  {
    SelectsMembers(db.bookings, r, p);
  }

  /** `stream().map(BookingMapper::mapToBookingDto).toList()`. */
  function MapDtos(rows: seq<Booking>, fmt: Time -> string): (r: seq<BookingDto>)
    requires forall i :: 0 <= i < |rows| ==> rows[i].item.owner.Some?
    ensures |r| == |rows|
    ensures forall i :: 0 <= i < |rows| ==> r[i] == MapToBookingDto(rows[i], fmt)
  {
    seq(|rows|, i requires 0 <= i < |rows| => MapToBookingDto(rows[i], fmt))
  }

  function GetAllBookingsByUser(db: Db, userId: int, f: StateFilter, now: Time,
                                fmt: Time -> string): (r: Result<seq<BookingDto>>)
    requires db.Valid()
    ensures r.Err? <==> FindUser(db.users, userId).None?
    ensures r.Err? ==> r.error == NotFound
    ensures r.Ok? ==>
              var rows := BookerBookings(db.bookings, userId, f, now);
              && |r.value| == |rows|
              && forall i :: 0 <= i < |rows| ==>
                   rows[i].item.owner.Some? && r.value[i] == MapToBookingDto(rows[i], fmt)
  {
    match FindUser(db.users, userId)
    case None => Err(NotFound)
    case Some(_) =>
      var rows := BookerBookings(db.bookings, userId, f, now);
      ListedRowsAreOwned(db, rows, b => BookedBy(b, userId) && Matches(f, b, now));
      Ok(MapDtos(rows, fmt))
  }

  function GetAllBookingsByOwner(db: Db, ownerId: int, f: StateFilter, now: Time,
                                 fmt: Time -> string): (r: Result<seq<BookingDto>>)
    requires db.Valid()
    ensures r.Err? <==> FindUser(db.users, ownerId).None?
    ensures r.Err? ==> r.error == NotFound
    ensures r.Ok? ==>
              var rows := OwnerBookings(db.bookings, ownerId, f, now);
              && |r.value| == |rows|
              && forall i :: 0 <= i < |rows| ==>
                   rows[i].item.owner.Some? && r.value[i] == MapToBookingDto(rows[i], fmt)
  {
    match FindUser(db.users, ownerId)
    case None => Err(NotFound)
    case Some(_) =>
      var rows := OwnerBookings(db.bookings, ownerId, f, now);
      ListedRowsAreOwned(db, rows, b => OwnedBy(b, ownerId) && Matches(f, b, now));
      Ok(MapDtos(rows, fmt))
  }
}
