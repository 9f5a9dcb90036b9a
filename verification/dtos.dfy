/** The request and response shapes the services take and return, as field
    lists. Timestamps in responses are strings produced by a formatter. */
module Dtos {
  import opened Common
  import opened Entities

  /** ItemDtoAnswer: the short form of an item. */
  datatype ItemAnswer = ItemAnswer(id: int, name: string, ownerId: int)

  datatype LastBookingDto = LastBookingDto(id: Option<int>, bookerId: int, start: string, end: string)

  datatype BookingDto = BookingDto(
    id: Option<int>,
    item: ItemAnswer,
    bookerId: int,
    status: State,
    start: string,
    end: string)

  datatype CommentDto = CommentDto(id: Option<int>, authorName: string, text: string, created: string)

  datatype ItemDto = ItemDto(
    id: int,
    name: string,
    description: string,
    available: bool,
    lastBooking: Option<LastBookingDto>,
    nextBooking: Option<LastBookingDto>,
    comments: set<CommentDto>)

  datatype UserDto = UserDto(id: int, name: string, email: string)

  /** `items` is None when the service passes a null answer set. */
  datatype ItemRequestDto = ItemRequestDto(
    id: Option<int>,
    requestor: UserDto,
    description: string,
    created: string,
    items: Option<set<ItemAnswer>>)

  datatype NewBookingRequest = NewBookingRequest(itemId: int, start: string, end: string)

  datatype NewItemRequest = NewItemRequest(
    name: string,
    description: string,
    available: bool,
    requestId: Option<int>)

  datatype NewCommentRequest = NewCommentRequest(text: string)

  datatype NewUserRequest = NewUserRequest(name: string, email: string)

  /** The body of a new item request ("I am looking for ..."). */
  datatype NewWishRequest = NewWishRequest(description: string)
}
