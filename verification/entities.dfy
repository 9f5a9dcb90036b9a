/** The persistent entities, as values. References between entities are
    either embedded (a booking carries its item and booker) or kept as ids
    (an item carries its owner's id and its request's id). */
module Entities {
  import opened Common

  /** BookingState. CANCELED is declared, but no operation moves a booking into it. */
  datatype State = Waiting | Approved | Rejected | Canceled

  /** `id` is a primitive long: 0 until the store assigns one. */
  datatype User = User(id: int, name: string, email: string)

  /** `owner` is the owner's id, None while the reference is still null;
      `request` is the id of the request the item answers. `lastBooking` and
      `nextBooking` are transient fields the stores always leave empty. */
  datatype Item = Item(
    id: int,
    owner: Option<int>,
    name: string,
    description: string,
    available: bool,
    lastBooking: Option<Booking>,
    nextBooking: Option<Booking>,
    request: Option<int>)

  /** `id` is a boxed Long: None until the booking is saved. */
  datatype Booking = Booking(
    id: Option<int>,
    item: Item,
    booker: User,
    state: State,
    start: Time,
    end: Time)

  datatype ItemRequest = ItemRequest(
    id: Option<int>,
    requestor: User,
    description: string,
    created: Time)

  datatype Comment = Comment(
    id: Option<int>,
    itemId: int,
    author: User,
    text: string,
    created: Time)
}
