/** ItemMapper: building an item from a request, rendering it, and applying
    a partial update. */
module ItemMapper {
  import opened Common
  import opened Entities
  import opened Dtos
  import opened ItemUpdate
  import BookingMapper

  /** A fresh item: id still 0, no owner and no request yet; the service
      sets those. */
  function MapToItem(req: NewItemRequest): (it: Item)
    ensures it.id == 0 && it.owner.None? && it.request.None?
    ensures it.name == req.name && it.description == req.description && it.available == req.available
    ensures it.lastBooking.None? && it.nextBooking.None?
  {
    Item(0, None, req.name, req.description, req.available, None, None, None)
  }

  function MapToItemDto(it: Item, last: Option<LastBookingDto>, next: Option<LastBookingDto>,
                        comments: set<CommentDto>): (d: ItemDto)
    ensures d.id == it.id && d.name == it.name && d.description == it.description
    ensures d.available == it.available
    ensures d.lastBooking == last && d.nextBooking == next && d.comments == comments
  {
    ItemDto(it.id, it.name, it.description, it.available, last, next, comments)
  }

  /** Reads the owner, so the owner reference must be set. */
  function MapToItemDtoShort(it: Item): (d: ItemAnswer)
    requires it.owner.Some?
    ensures d.id == it.id && d.name == it.name && d.ownerId == it.owner.value
  {
    ItemAnswer(it.id, it.name, it.owner.value)
  }

  /** The item inside a booking response is the item's short form. */
  lemma BookingDtoCarriesShortItem(b: Booking, fmt: Time -> string)
    requires b.item.owner.Some?
    ensures BookingMapper.MapToBookingDto(b, fmt).item == MapToItemDtoShort(b.item)
  {
  }

  /** The fields the update carries replace the item's; nothing else moves. */
  function UpdateItemFields(it: Item, u: UpdateItemRequest): (r: Item)
    ensures r.name == (if u.HasName() then u.name.value else it.name)
    ensures r.description == (if u.HasDescription() then u.description.value else it.description)
    ensures r.available == (if u.HasAvailable() then u.available.value else it.available)
    ensures r.id == it.id && r.owner == it.owner && r.request == it.request
    ensures r.lastBooking == it.lastBooking && r.nextBooking == it.nextBooking
  {
    var a := if u.HasName() then it.(name := u.name.value) else it;
    var b := if u.HasDescription() then a.(description := u.description.value) else a;
    if u.HasAvailable() then b.(available := u.available.value) else b
  }

  /** Each field changes only when the update carries it. */
  lemma FieldChangesNeedPresence(it: Item, u: UpdateItemRequest)
    ensures UpdateItemFields(it, u).name != it.name ==> u.HasName()
    ensures UpdateItemFields(it, u).description != it.description ==> u.HasDescription()
    ensures UpdateItemFields(it, u).available != it.available ==> u.HasAvailable()
  {
  }

  /** An update that carries nothing leaves the item as it was. */
  lemma EmptyUpdateIsIdentity(it: Item, u: UpdateItemRequest)
    requires !u.HasName() && !u.HasDescription() && !u.HasAvailable()
    ensures UpdateItemFields(it, u) == it
  {
  }

  /** Applying the same update twice is applying it once. */
  lemma UpdateIsIdempotent(it: Item, u: UpdateItemRequest)
    ensures UpdateItemFields(UpdateItemFields(it, u), u) == UpdateItemFields(it, u)
  {
  }

  /** An update that carries every field determines those fields whatever
      the item held before. */
  lemma FullUpdateForgetsOldValues(a: Item, b: Item, u: UpdateItemRequest)
    requires u.HasName() && u.HasDescription() && u.HasAvailable()
    requires a.id == b.id && a.owner == b.owner && a.request == b.request
    requires a.lastBooking == b.lastBooking && a.nextBooking == b.nextBooking
    ensures UpdateItemFields(a, u) == UpdateItemFields(b, u)
  {
  }

  /** A new item renders back as the request's fields under id 0, with no
      bookings and no comments. */
  lemma NewItemRendersRequest(req: NewItemRequest)
    ensures MapToItemDto(MapToItem(req), None, None, {})
         == ItemDto(0, req.name, req.description, req.available, None, None, {})
  {
  }
}
