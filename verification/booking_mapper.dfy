/** BookingMapper: building a booking from a request and rendering bookings
    as responses. The ISO date-time formatter is a parameter: `parse` for
    reading request strings, `fmt` for writing response strings. */
module BookingMapper {
  import opened Common
  import opened Entities
  import opened Dtos

  /** A fresh, unsaved, WAITING booking of `item` by `user`. Nothing relates
      the two timestamps: an end before the start is carried as it is. */
  function MapToBooking(req: NewBookingRequest, item: Item, user: User, parse: string -> Time): (b: Booking)
    ensures b.id.None? && b.state == Waiting
    ensures b.item == item && b.booker == user
    ensures b.start == parse(req.start) && b.end == parse(req.end)
  {
    Booking(None, item, user, Waiting, parse(req.start), parse(req.end))
  }

  /** Reads the item's owner, so the owner reference must be set. */
  function MapToBookingDto(b: Booking, fmt: Time -> string): (d: BookingDto)
    requires b.item.owner.Some?
    ensures d.id == b.id && d.bookerId == b.booker.id && d.status == b.state
    ensures d.item == ItemAnswer(b.item.id, b.item.name, b.item.owner.value)
    ensures d.start == fmt(b.start) && d.end == fmt(b.end)
  {
    BookingDto(b.id, ItemAnswer(b.item.id, b.item.name, b.item.owner.value), b.booker.id, b.state,
      fmt(b.start), fmt(b.end))
  }

  function MapToLastBookingDto(b: Booking, fmt: Time -> string): (d: LastBookingDto)
    ensures d.id == b.id && d.bookerId == b.booker.id
    ensures d.start == fmt(b.start) && d.end == fmt(b.end)
  {
    LastBookingDto(b.id, b.booker.id, fmt(b.start), fmt(b.end))
  }

  /** The short form agrees with the full form on every field they share. */
  lemma LastDtoAgreesWithBookingDto(b: Booking, fmt: Time -> string)
    requires b.item.owner.Some?
    ensures var full := MapToBookingDto(b, fmt);
            var short := MapToLastBookingDto(b, fmt);
            short == LastBookingDto(full.id, full.bookerId, full.start, full.end)
  {
  }

  /** A booking built from a request renders back with the request's item,
      the caller as booker, WAITING, and the request's times as formatted. */
  lemma NewBookingRendersRequest(req: NewBookingRequest, item: Item, user: User,
                                 parse: string -> Time, fmt: Time -> string)
    requires item.owner.Some?
    requires item.id == req.itemId
    ensures var d := MapToBookingDto(MapToBooking(req, item, user, parse), fmt);
            && d.item.id == req.itemId && d.bookerId == user.id && d.status == Waiting
            && d.start == fmt(parse(req.start)) && d.end == fmt(parse(req.end))
  {
  }
}
