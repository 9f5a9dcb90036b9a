/** ItemRequestMapper: a new item request from its body, and its response form. */
module RequestMapper {
  import opened Common
  import opened Entities
  import opened Dtos
  import opened UserMapper

  /** An unsaved request by `requestor`, created at `now`. */
  function MapToItemRequest(req: NewWishRequest, requestor: User, now: Time): (q: ItemRequest)
    ensures q.id.None? && q.requestor == requestor && q.description == req.description && q.created == now
  {
    ItemRequest(None, requestor, req.description, now)
  }

  /** The answers are passed through as given, a null set included. */
  function MapToItemRequestDto(q: ItemRequest, answers: Option<set<ItemAnswer>>, fmt: Time -> string): (d: ItemRequestDto)
    ensures d.id == q.id && d.requestor == MapToUserDto(q.requestor)
    ensures d.description == q.description && d.created == fmt(q.created) && d.items == answers
  {
    ItemRequestDto(q.id, MapToUserDto(q.requestor), q.description, fmt(q.created), answers)
  }

  /** A new request renders back with the requestor, the request's
      description, the formatted creation time and the answers given. */
  lemma NewRequestRendersRequest(req: NewWishRequest, requestor: User, now: Time,
                                 answers: Option<set<ItemAnswer>>, fmt: Time -> string)
    ensures MapToItemRequestDto(MapToItemRequest(req, requestor, now), answers, fmt)
         == ItemRequestDto(None, MapToUserDto(requestor), req.description, fmt(now), answers)
  {
  }
}
