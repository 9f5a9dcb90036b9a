/** The booking repository's derived and JPQL queries, each a filter of the
    bookings table followed by a sort on the start time. The database gives
    no order among equal start times, so each result is specified as a
    sorted permutation of the matching rows. */
module BookingQueries {
  import opened Common
  import opened Seqs
  import opened Entities

  function StartOf(b: Booking): Time { b.start }

  predicate BookedBy(b: Booking, userId: int) { b.booker.id == userId }

  /** `booking.item.owner.id = ownerId`. */
  predicate OwnedBy(b: Booking, ownerId: int) { b.item.owner == Some(ownerId) }

  predicate IsPast(b: Booking, now: Time) { b.end < now }

  predicate IsFuture(b: Booking, now: Time) { b.start > now }

  /** Both bounds strict. */
  predicate IsCurrent(b: Booking, now: Time) { b.start < now && b.end > now }

  /** `booking.item in items`: entities compare by id. */
  predicate AmongItems(b: Booking, items: seq<Item>) {
    exists i :: 0 <= i < |items| && items[i].id == b.item.id
  }

  /** Not yet started, or started and not yet ended. */
  predicate IsCurrentOrFuture(b: Booking, now: Time) {
    b.start >= now || (b.start < now && b.end > now)
  }

  // ----- by booker -----

  function AllByBooker(s: seq<Booking>, userId: int): (r: seq<Booking>)
    ensures Selects(s, r, b => BookedBy(b, userId))
    ensures SortedDesc(r, StartOf)
  {
    SortDesc(Filter(s, b => BookedBy(b, userId)), StartOf)
  }

  function PastByBooker(s: seq<Booking>, userId: int, now: Time): (r: seq<Booking>)
    ensures Selects(s, r, b => BookedBy(b, userId) && IsPast(b, now))
    ensures SortedDesc(r, StartOf)
  {
    SortDesc(Filter(s, b => BookedBy(b, userId) && IsPast(b, now)), StartOf)
  }

  function PastByBookerAndItem(s: seq<Booking>, userId: int, itemId: int, now: Time): (r: seq<Booking>)
    ensures Selects(s, r, b => BookedBy(b, userId) && b.item.id == itemId && IsPast(b, now))
    ensures SortedDesc(r, StartOf)
  {
    SortDesc(Filter(s, b => BookedBy(b, userId) && b.item.id == itemId && IsPast(b, now)), StartOf)
  }

  function FutureByBooker(s: seq<Booking>, userId: int, now: Time): (r: seq<Booking>)
    ensures Selects(s, r, b => BookedBy(b, userId) && IsFuture(b, now))
    ensures SortedDesc(r, StartOf)
  {
    SortDesc(Filter(s, b => BookedBy(b, userId) && IsFuture(b, now)), StartOf)
  }

  /** The derived query takes two timestamps: start before the first, end after the second. */
  function CurrentByBooker(s: seq<Booking>, userId: int, now: Time, now2: Time): (r: seq<Booking>)
    ensures Selects(s, r, b => BookedBy(b, userId) && b.start < now && b.end > now2)
    ensures SortedDesc(r, StartOf)
  {
    SortDesc(Filter(s, b => BookedBy(b, userId) && b.start < now && b.end > now2), StartOf)
  }

  function StateByBooker(s: seq<Booking>, userId: int, state: State): (r: seq<Booking>)
    ensures Selects(s, r, b => BookedBy(b, userId) && b.state == state)
    ensures SortedDesc(r, StartOf)
  {
    SortDesc(Filter(s, b => BookedBy(b, userId) && b.state == state), StartOf)
  }

  // ----- by item owner -----

  function PastByOwner(s: seq<Booking>, ownerId: int, now: Time): (r: seq<Booking>)
    ensures Selects(s, r, b => OwnedBy(b, ownerId) && IsPast(b, now))
    ensures SortedDesc(r, StartOf)
  {
    SortDesc(Filter(s, b => OwnedBy(b, ownerId) && IsPast(b, now)), StartOf)
  }

  function FutureByOwner(s: seq<Booking>, ownerId: int, now: Time): (r: seq<Booking>)
    ensures Selects(s, r, b => OwnedBy(b, ownerId) && IsFuture(b, now))
    ensures SortedDesc(r, StartOf)
  {
    SortDesc(Filter(s, b => OwnedBy(b, ownerId) && IsFuture(b, now)), StartOf)
  }

  function CurrentByOwner(s: seq<Booking>, ownerId: int, now: Time): (r: seq<Booking>)
    ensures Selects(s, r, b => OwnedBy(b, ownerId) && IsCurrent(b, now))
    ensures SortedDesc(r, StartOf)
  {
    SortDesc(Filter(s, b => OwnedBy(b, ownerId) && IsCurrent(b, now)), StartOf)
  }

  function StateByOwner(s: seq<Booking>, ownerId: int, state: State): (r: seq<Booking>)
    ensures Selects(s, r, b => OwnedBy(b, ownerId) && b.state == state)
    ensures SortedDesc(r, StartOf)
  {
    SortDesc(Filter(s, b => OwnedBy(b, ownerId) && b.state == state), StartOf)
  }

  function AllByOwner(s: seq<Booking>, ownerId: int): (r: seq<Booking>)
    ensures Selects(s, r, b => OwnedBy(b, ownerId))
    ensures SortedDesc(r, StartOf)
  {
    SortDesc(Filter(s, b => OwnedBy(b, ownerId)), StartOf)
  }

  // ----- by items -----

  /** The overlap candidates: APPROVED bookings of the items that are
      current or still to come, earliest start first. */
  function CurrentAndFutureForItems(s: seq<Booking>, items: seq<Item>, now: Time): (r: seq<Booking>)
    ensures Selects(s, r, b => AmongItems(b, items) && IsCurrentOrFuture(b, now) && b.state == Approved)
    ensures SortedAsc(r, StartOf)
  {
    SortAsc(Filter(s, b => AmongItems(b, items) && IsCurrentOrFuture(b, now) && b.state == Approved), StartOf)
  }

  /** findAllBookings: every APPROVED booking of the items, earliest start
      first. The timestamp parameter takes no part in the query. */
  function ApprovedForItems(s: seq<Booking>, items: seq<Item>, now: Time): (r: seq<Booking>)
    ensures Selects(s, r, b => AmongItems(b, items) && b.state == Approved)
    ensures SortedAsc(r, StartOf)
  {
    SortAsc(Filter(s, b => AmongItems(b, items) && b.state == Approved), StartOf)
  }

  lemma ApprovedForItemsIgnoresNow(s: seq<Booking>, items: seq<Item>, t1: Time, t2: Time)
    ensures ApprovedForItems(s, items, t1) == ApprovedForItems(s, items, t2)
  {
  }

  /** Under the overlap query's window, a booking that has ended is never a candidate. */
  lemma {:induction false} CandidatesHaveNotEnded(s: seq<Booking>, items: seq<Item>, now: Time, b: Booking)
    requires b in CurrentAndFutureForItems(s, items, now)
    requires b.start <= b.end
    ensures b.end >= now
    ensures b.state == Approved && b in s
  {
    SelectsMembers(s, CurrentAndFutureForItems(s, items, now),
      b => AmongItems(b, items) && IsCurrentOrFuture(b, now) && b.state == Approved);
  }
}
