# ShareIt decision rules in Dafny

ShareIt is a service where people lend things to each other. Users list items. Other users book an item for a time window, and the owner approves or rejects the booking. A user who has finished a booking may leave a comment. Users can also post a request for an item that nobody offers yet, and owners answer it by listing items against it.

This project models the rules behind those operations as pure functions over immutable values:

- the booking engine: creation with the overlap check, reading, the WAITING → APPROVED/REJECTED decision, and the filtered lists;
- the booking repository's queries;
- the item service: last and next booking, grouping by item, search, creation, owner-only update and comment eligibility;
- the item and user mappers and the partial-update requests;
- the in-memory item and user stores, modelled as a map plus a counter;
- the item-request service and its answer sets;
- the gateway's case-insensitive filter lookup.

## How it is modelled

- **Database.** The relational database is a record `Storage.Db`. It holds one sequence per table, in storage order, and the last identity value handed out.
- **Saving.** A `save` of a new row appends it under `lastId + 1`. A `save` of an existing row replaces every row with that id.
- **Service calls.** A call takes the database and returns a `Reply`: the result and the database after the call.
- **Errors.** A failure is `Err(e)`, where `e` is one of `NotFound`, `Unacceptable`, `Validation`, `Duplicate` or `Runtime`. Each is one of the exception families the services throw.
- **Time.**
  - `LocalDateTime` is an integer `Time`.
  - The clock (`LocalDateTime.now()`) is a parameter `now`.
  - The ISO date-time formatter is two function parameters: `parse` turns request strings into times and `fmt` turns times into response strings.
- **Queries.**
  - Every repository query is a filter followed by a sort on the start time.
  - Its contract is stated with `Seqs.Selects`: the result is a permutation of exactly the rows the predicate accepts, with multiplicities.
  - Its ordering is stated with `SortedAsc`/`SortedDesc`.
  - The database fixes no order among equal start times, and neither does the model.
- **Entity references.**
  - A booking embeds a value copy of its item and booker.
  - An item refers to its owner and to the request it answers by id.
  - A comment refers to its item by id.
- **In-memory stores.** The two stores are records: a map, a counter and, for users, the set of registered emails.

## Model

| member | source | states |
|---|---|---|
| Seqs.MaxWhere | src/main/java/ru/practicum/shareit/item/ItemServiceImpl.java:159-162 | `filter(p).max(comparing(key))`: nothing iff no element is accepted; otherwise an accepted element whose key is maximal, and the first such one |
| Seqs.MinWhere | src/main/java/ru/practicum/shareit/item/ItemServiceImpl.java:173-175 | `filter(p).min(comparing(key))`: nothing iff no element is accepted; otherwise the first accepted element whose key is minimal |
| Text.UpperAndLowerSearchAgree | server/src/main/java/ru/practicum/shareit/item/ItemRepository.java:18-19 | searching upper-cased text for an upper-cased pattern finds an occurrence iff searching the lower-cased forms does |
| BookingQueries.AllByBooker | src/main/java/ru/practicum/shareit/booking/BookingRepository.java:14 | exactly the booker's bookings, latest start first |
| BookingQueries.PastByBooker | src/main/java/ru/practicum/shareit/booking/BookingRepository.java:17 | exactly the booker's bookings with end < now, latest start first |
| BookingQueries.PastByBookerAndItem | src/main/java/ru/practicum/shareit/booking/BookingRepository.java:19 | exactly the booker's bookings of the item with end < now, latest start first |
| BookingQueries.FutureByBooker | src/main/java/ru/practicum/shareit/booking/BookingRepository.java:22 | exactly the booker's bookings with start > now, latest start first |
| BookingQueries.CurrentByBooker | src/main/java/ru/practicum/shareit/booking/BookingRepository.java:25 | exactly the booker's bookings with start before the first timestamp and end after the second, latest start first |
| BookingQueries.StateByBooker | src/main/java/ru/practicum/shareit/booking/BookingRepository.java:28 | exactly the booker's bookings in the given state, latest start first |
| BookingQueries.PastByOwner | src/main/java/ru/practicum/shareit/booking/BookingRepository.java:30-35 | exactly the bookings of the owner's items with end < now, latest start first |
| BookingQueries.FutureByOwner | src/main/java/ru/practicum/shareit/booking/BookingRepository.java:37-42 | exactly the bookings of the owner's items with start > now, latest start first |
| BookingQueries.CurrentByOwner | src/main/java/ru/practicum/shareit/booking/BookingRepository.java:44-50 | exactly the bookings of the owner's items with start < now < end, both strict, latest start first |
| BookingQueries.StateByOwner | src/main/java/ru/practicum/shareit/booking/BookingRepository.java:52-57 | exactly the bookings of the owner's items in the given state, latest start first |
| BookingQueries.AllByOwner | src/main/java/ru/practicum/shareit/booking/BookingRepository.java:60 | exactly the bookings of the owner's items, latest start first |
| BookingQueries.CurrentAndFutureForItems | src/main/java/ru/practicum/shareit/booking/BookingRepository.java:62-70 | exactly the APPROVED bookings of the listed items that start at or after now or are under way, earliest start first |
| BookingQueries.CandidatesHaveNotEnded | src/main/java/ru/practicum/shareit/booking/BookingRepository.java:62-70 | an overlap candidate with its times in order has not ended, is APPROVED and is a stored booking |
| BookingQueries.ApprovedForItems | src/main/java/ru/practicum/shareit/booking/BookingRepository.java:78-83 | exactly the APPROVED bookings of the listed items, earliest start first |
| BookingQueries.ApprovedForItemsIgnoresNow | src/main/java/ru/practicum/shareit/booking/BookingRepository.java:78-83 | the timestamp argument does not change the result |
| BookingMapper.MapToBooking | server/src/main/java/ru/practicum/shareit/booking/BookingMapper.java:20-33 | an unsaved WAITING booking of the given item by the given user, with the parsed request times; nothing orders start and end |
| BookingMapper.MapToBookingDto | server/src/main/java/ru/practicum/shareit/booking/BookingMapper.java:35-45 | carries the booking id, the item's id, name and owner id, the booker id and the state unchanged; formats both times |
| BookingMapper.MapToLastBookingDto | server/src/main/java/ru/practicum/shareit/booking/BookingMapper.java:47-55 | carries the booking id and booker id; formats both times |
| BookingMapper.LastDtoAgreesWithBookingDto | server/src/main/java/ru/practicum/shareit/booking/BookingMapper.java:35-55 | the short form equals the full form on every shared field |
| BookingMapper.NewBookingRendersRequest | server/src/main/java/ru/practicum/shareit/booking/BookingMapper.java:20-45 | a booking built from a request renders back with the request's item, the caller as booker, WAITING, and the request's times |
| BookingService.AnyClash | server/src/main/java/ru/practicum/shareit/booking/BookingServiceImpl.java:152-154 | true iff some candidate has the new start or the new end strictly inside its window |
| BookingService.CandidatesOfItem | server/src/main/java/ru/practicum/shareit/booking/BookingServiceImpl.java:145-148 | the candidates queried for the single item are exactly the table's APPROVED current-or-future bookings of that item |
| BookingService.AddBooking | server/src/main/java/ru/practicum/shareit/booking/BookingServiceImpl.java:28-39 | the checks run in order: booker, then item (NotFound), then availability (Runtime), then overlap (Unacceptable iff some candidate clashes). A failure leaves the database unchanged. Success appends exactly one WAITING booking by the caller, for the item and times, under a fresh id |
| BookingService.UnavailableIgnoresBookings | server/src/main/java/ru/practicum/shareit/booking/BookingServiceImpl.java:35-37 | an unavailable item gets a Runtime error whatever the bookings table holds, and nothing is saved |
| BookingService.ClashImpliesIntersection | server/src/main/java/ru/practicum/shareit/booking/BookingServiceImpl.java:152-154 | when start < end, a window the one-sided test rejects does intersect the candidate |
| BookingService.EnclosingWindowIsAccepted | server/src/main/java/ru/practicum/shareit/booking/BookingServiceImpl.java:152-154 | a window that equals or encloses every stored booking is accepted |
| BookingService.DoubleBookingExample | server/src/main/java/ru/practicum/shareit/booking/BookingServiceImpl.java:145-158 | an APPROVED booking [20, 40] does not block a new booking of exactly [20, 40] or of [10, 50] |
| BookingService.GetBookingById | server/src/main/java/ru/practicum/shareit/booking/BookingServiceImpl.java:41-48 | NotFound iff the booking is missing. Otherwise Ok iff the caller is the booker or the item's owner; anyone else gets Unacceptable |
| BookingService.ApproveBooking | server/src/main/java/ru/practicum/shareit/booking/BookingServiceImpl.java:50-61 | NotFound; a non-owner gets Unacceptable before the state is looked at; a state other than WAITING gives Validation. Otherwise the state becomes APPROVED or REJECTED on the rows with that id, and nothing else changes |
| BookingService.SecondApprovalFails | server/src/main/java/ru/practicum/shareit/booking/BookingServiceImpl.java:55-58 | after one successful decision, any further decision on the booking gives Validation |
| BookingService.BookerBookings | server/src/main/java/ru/practicum/shareit/booking/BookingServiceImpl.java:67-85 | for every filter: exactly the caller's bookings the filter accepts (a time window for CURRENT/PAST/FUTURE, a state for WAITING/APPROVED/REJECTED, all for ALL and for any other constant), latest start first |
| BookingService.OwnerBookings | server/src/main/java/ru/practicum/shareit/booking/BookingServiceImpl.java:95-112 | the same for the bookings of the owner's items |
| BookingService.UnnamedFilterListsAll | server/src/main/java/ru/practicum/shareit/booking/BookingServiceImpl.java:78-83 | a constant the dispatch does not name falls to the default branch and lists the same bookings as ALL, for the booker and for the owner (lines 105-110) |
| BookingService.GetAllBookingsByUser | server/src/main/java/ru/practicum/shareit/booking/BookingServiceImpl.java:63-89 | NotFound iff the user is missing; otherwise one response per listed booking, in list order |
| BookingService.GetAllBookingsByOwner | server/src/main/java/ru/practicum/shareit/booking/BookingServiceImpl.java:91-116 | NotFound iff the owner is missing; otherwise one response per listed booking, in list order |
| GatewayFilter.ValuesListsEveryConstant | gateway/src/main/java/ru/practicum/shareit/booking/dto/BookingStateFilter.java:6 | every constant appears in `values()` |
| GatewayFilter.From | gateway/src/main/java/ru/practicum/shareit/booking/dto/BookingStateFilter.java:8-15 | a constant is returned only when its name equals the argument ignoring case. Nothing is returned iff the argument is null or no name matches |
| GatewayFilter.NamesDistinctIgnoringCase | gateway/src/main/java/ru/practicum/shareit/booking/dto/BookingStateFilter.java:6 | two constants' names are equal ignoring case iff they are the same constant |
| GatewayFilter.FromIsExact | gateway/src/main/java/ru/practicum/shareit/booking/dto/BookingStateFilter.java:8-13 | `from(s)` is constant `f` iff `f`'s name equals `s` ignoring case |
| GatewayFilter.FromNameRoundTrip | gateway/src/main/java/ru/practicum/shareit/booking/dto/BookingStateFilter.java:8-13 | every constant's name, as written or lower-cased, parses back to the constant |
| GatewayFilter.TimeWindowsDoNotParse | gateway/src/main/java/ru/practicum/shareit/booking/dto/BookingStateFilter.java:6-15 | "CURRENT", "PAST" and "FUTURE" parse to nothing |
| ItemUpdate.PresentTextIsVisible | server/src/main/java/ru/practicum/shareit/item/dto/UpdateItemRequest.java:13-19 | a name or description counts as present iff it is not null and holds a non-white-space character |
| ItemUpdate.FalseIsPresent | server/src/main/java/ru/practicum/shareit/item/dto/UpdateItemRequest.java:21-23 | an explicit `false` counts as a present availability |
| ItemMapper.MapToItem | src/main/java/ru/practicum/shareit/item/ItemMapper.java:14-20 | copies name, description and availability; id 0, no owner, no request |
| ItemMapper.MapToItemDto | src/main/java/ru/practicum/shareit/item/ItemMapper.java:22-32 | copies id, name, description and availability, and carries the given last, next and comments |
| ItemMapper.MapToItemDtoShort | src/main/java/ru/practicum/shareit/item/ItemMapper.java:34-39 | exactly the item's id, name and owner id |
| ItemMapper.NewItemRendersRequest | src/main/java/ru/practicum/shareit/item/ItemMapper.java:14-32 | a new item renders back as the request's fields under id 0, with no bookings or comments |
| ItemMapper.BookingDtoCarriesShortItem | src/main/java/ru/practicum/shareit/item/ItemMapper.java:34-39 | the item inside a booking response is the item's short form |
| ItemMapper.UpdateItemFields | src/main/java/ru/practicum/shareit/item/ItemMapper.java:41-51 | each field takes the update's value iff the update carries it. Id, owner, request and the booking fields are kept |
| ItemMapper.FieldChangesNeedPresence | src/main/java/ru/practicum/shareit/item/ItemMapper.java:41-51 | a field that changed was carried by the update |
| ItemMapper.EmptyUpdateIsIdentity | src/main/java/ru/practicum/shareit/item/ItemMapper.java:41-51 | an update that carries nothing leaves the item unchanged |
| ItemMapper.UpdateIsIdempotent | src/main/java/ru/practicum/shareit/item/ItemMapper.java:41-51 | applying an update twice equals applying it once |
| ItemMapper.FullUpdateForgetsOldValues | src/main/java/ru/practicum/shareit/item/ItemMapper.java:41-51 | an update carrying every field gives the same result for any two items with the same identity |
| ItemRepository.FindAllByOwner | server/src/main/java/ru/practicum/shareit/item/ItemRepository.java:13 | exactly the items owned by the user, each as often as it is stored; the query fixes no order |
| ItemRepository.FindItemsByPattern | server/src/main/java/ru/practicum/shareit/item/ItemRepository.java:15-20 | exactly the available items whose name or description contains the pattern ignoring case |
| ItemRepository.UnavailableIsNeverFound | server/src/main/java/ru/practicum/shareit/item/ItemRepository.java:17 | an unavailable item is never a result, however well it matches |
| ItemRepository.VerbatimNameIsFound | server/src/main/java/ru/practicum/shareit/item/ItemRepository.java:15-20 | a stored available item whose name contains the pattern verbatim is found |
| ItemRepository.FindAllByItemRequestId | server/src/main/java/ru/practicum/shareit/item/ItemRepository.java:23-27 | exactly the available items whose request id is in the list |
| ItemMemoryStore.Snapshot | src/main/java/ru/practicum/shareit/item/ItemInMemoryStorage.java:32-33 | the stored copy keeps id, owner, name, description and availability, and never carries a last or next booking |
| ItemMemoryStore.FindItemById | src/main/java/ru/practicum/shareit/item/ItemInMemoryStorage.java:16-20 | the id must be present. The result is a copy with the same id, owner, name, description and availability and no bookings |
| ItemMemoryStore.AddItem | src/main/java/ru/practicum/shareit/item/ItemInMemoryStorage.java:29-35 | the item gets id counter + 1 and is stored under it; every other entry is unchanged |
| ItemMemoryStore.UpdateItem | src/main/java/ru/practicum/shareit/item/ItemInMemoryStorage.java:37-42 | only the entry at the item's id is overwritten; the counter and every other entry are unchanged |
| ItemMemoryStore.AddItemKeepsValid | src/main/java/ru/practicum/shareit/item/ItemInMemoryStorage.java:29-35 | a new id never lands on an existing entry; the store stays valid and gains exactly that key |
| ItemMemoryStore.IdsIncrease | src/main/java/ru/practicum/shareit/item/ItemInMemoryStorage.java:54-56 | consecutive additions hand out strictly increasing ids |
| ItemMemoryStore.UpdateItemKeepsValid | src/main/java/ru/practicum/shareit/item/ItemInMemoryStorage.java:37-42 | updating an existing entry keeps the store valid and its key set |
| ItemMemoryStore.AddThenFind | src/main/java/ru/practicum/shareit/item/ItemInMemoryStorage.java:16-35 | what was added reads back as its stored copy |
| ItemMemoryStore.FindAllItemsByUserId | src/main/java/ru/practicum/shareit/item/ItemInMemoryStorage.java:22-27 | the result holds exactly the stored items owned by the user |
| ItemMemoryStore.FindItemsByPattern | src/main/java/ru/practicum/shareit/item/ItemInMemoryStorage.java:45-52 | the result holds exactly the stored available items whose lower-cased name or description contains the lower-cased pattern |
| ItemMemoryStore.SearchesAgree | src/main/java/ru/practicum/shareit/item/ItemInMemoryStorage.java:45-52 | the in-memory search condition accepts an item iff the database search condition does |
| ItemService.LastBooking | src/main/java/ru/practicum/shareit/item/ItemServiceImpl.java:159-162 | nothing iff no booking has ended or is under way; otherwise such a booking whose end is latest |
| ItemService.NextBooking | src/main/java/ru/practicum/shareit/item/ItemServiceImpl.java:173-175 | nothing iff no booking starts after now; otherwise such a booking whose start is earliest |
| ItemService.GetLastBooking | src/main/java/ru/practicum/shareit/item/ItemServiceImpl.java:155-167 | nothing for a null list or when no booking qualifies; otherwise the rendering of a qualifying booking with the latest end |
| ItemService.GetNextBooking | src/main/java/ru/practicum/shareit/item/ItemServiceImpl.java:169-180 | nothing for a null list or when no booking is still to come; otherwise the rendering of a coming booking with the earliest start |
| ItemService.LastAndNextExclusive | src/main/java/ru/practicum/shareit/item/ItemServiceImpl.java:159-175 | a booking with start < end is never both a last and a next candidate |
| ItemService.LastAndNextDiffer | src/main/java/ru/practicum/shareit/item/ItemServiceImpl.java:155-180 | when every booking has start < end, the last and next bookings of a list differ |
| ItemService.InvertedBookingIsLastAndNext | src/main/java/ru/practicum/shareit/item/ItemServiceImpl.java:155-180 | a booking that ends before it starts can be both the last and the next booking |
| ItemService.GroupByItemIsFilter | src/main/java/ru/practicum/shareit/item/ItemServiceImpl.java:56-64 | an item has a group iff it has a booking in the list, and its group is exactly its bookings in list order |
| ItemService.GroupLookup | src/main/java/ru/practicum/shareit/item/ItemServiceImpl.java:66-69 | looking an item up in the groups, a missing group included, gives the same last and next booking as filtering the list |
| ItemService.CommentDtosOf | src/main/java/ru/practicum/shareit/item/ItemServiceImpl.java:182-187 | exactly the renderings of the comments on the item |
| ItemService.CommentsOfItems | src/main/java/ru/practicum/shareit/item/ItemServiceImpl.java:54 | exactly the comments on any of the listed items |
| ItemService.CommentsOfListedItem | src/main/java/ru/practicum/shareit/item/ItemServiceImpl.java:54-69 | taking one listed item's comments out of all listed items' comments gives that item's comments |
| ItemService.GetItemsByOwnerId | src/main/java/ru/practicum/shareit/item/ItemServiceImpl.java:47-71 | NotFound iff the owner is missing. Otherwise one response per owned item, in table order, with the last and next booking among that item's APPROVED bookings and its comments |
| ItemService.UnbookedItemHasNoLastOrNext | src/main/java/ru/practicum/shareit/item/ItemServiceImpl.java:66-69 | an owned item without APPROVED bookings is listed with no last and no next booking |
| ItemService.GetItemById | src/main/java/ru/practicum/shareit/item/ItemServiceImpl.java:38-45 | NotFound iff the item is missing; otherwise the item with its comments and no last or next booking |
| ItemService.GetItemsByPattern | src/main/java/ru/practicum/shareit/item/ItemServiceImpl.java:73-82 | a null or blank pattern gives nothing. Otherwise one bare response per search result, in order. Each result is available and contains the pattern ignoring case |
| ItemService.BlankPatternFindsNothing | src/main/java/ru/practicum/shareit/item/ItemServiceImpl.java:75-76 | a blank pattern finds nothing rather than everything |
| ItemService.AddItem | src/main/java/ru/practicum/shareit/item/ItemServiceImpl.java:84-97 | NotFound iff the user is missing or a given request id is unknown, and then nothing is saved. Otherwise exactly one item is appended under a fresh id, owned by the caller and answering the given request |
| ItemService.UpdateItem | src/main/java/ru/practicum/shareit/item/ItemServiceImpl.java:99-110 | NotFound iff the item is missing; Unacceptable iff the caller is not the owner, and nothing is saved. Otherwise the updated item replaces the rows with its id |
| ItemService.UpdateItemChangesOnlyCarriedFields | src/main/java/ru/practicum/shareit/item/ItemServiceImpl.java:108-109 | the saved row keeps id, owner, request and the last and next booking fields; name, description and availability each take the update's value iff it carries them, and keep the stored value otherwise |
| ItemService.CompletedBookingIsFound | src/main/java/ru/practicum/shareit/item/ItemServiceImpl.java:121-125 | searching the author's finished bookings of the item finds an APPROVED one iff a completed APPROVED booking exists |
| ItemService.AddComment | src/main/java/ru/practicum/shareit/item/ItemServiceImpl.java:112-129 | the item, then the author must exist (NotFound). The owner gets Unacceptable. Anyone else gets Validation iff they have no completed APPROVED booking of the item. Failures save nothing; success appends exactly the new comment |
| ItemService.OwnerNeverComments | src/main/java/ru/practicum/shareit/item/ItemServiceImpl.java:118-120 | the owner can never comment on their item, whatever bookings exist |
| CommentMapper.MapToComment | server/src/main/java/ru/practicum/shareit/item/CommentMapper.java:17-25 | an unsaved comment by the author on the item, with the request's text, created now |
| CommentMapper.MapToCommentDto | server/src/main/java/ru/practicum/shareit/item/CommentMapper.java:27-34 | carries the id, the author's name and the text, and formats the creation time |
| CommentMapper.NewCommentRendersRequest | server/src/main/java/ru/practicum/shareit/item/CommentMapper.java:17-34 | a new comment renders back with the author's name, the request's text and the formatted time |
| RequestMapper.MapToItemRequest | server/src/main/java/ru/practicum/shareit/request/ItemRequestMapper.java:22-28 | an unsaved request by the requestor with the body's description, created now |
| RequestMapper.MapToItemRequestDto | server/src/main/java/ru/practicum/shareit/request/ItemRequestMapper.java:30-38 | carries the id, description and requestor, formats the creation time, and passes the answer set through, a null one included |
| RequestMapper.NewRequestRendersRequest | server/src/main/java/ru/practicum/shareit/request/ItemRequestMapper.java:22-38 | a new request renders back with its requestor, description, time and the given answers |
| RequestService.RequestsOf | server/src/main/java/ru/practicum/shareit/request/ItemRequestServiceImpl.java:41 | exactly the user's requests, newest first |
| RequestService.RequestsOfOthers | server/src/main/java/ru/practicum/shareit/request/ItemRequestServiceImpl.java:53 | exactly the other users' requests, newest first |
| RequestService.GroupAnswersIsGrouping | server/src/main/java/ru/practicum/shareit/request/ItemRequestServiceImpl.java:71-78 | a request id is a key iff some answer names it, and its set is exactly the short forms of the answers naming it |
| RequestService.AnswersAreStored | server/src/main/java/ru/practicum/shareit/request/ItemRequestServiceImpl.java:68-69 | the repository's answers are exactly the stored items answering one of the requests, each with an owner and a request |
| RequestService.ListedAnswersAreStored | server/src/main/java/ru/practicum/shareit/request/ItemRequestServiceImpl.java:69-77 | every answer grouped under a request is an available stored item answering it |
| RequestService.StoredAnswersAreListed | server/src/main/java/ru/practicum/shareit/request/ItemRequestServiceImpl.java:69-77 | every available stored item answering a listed request is grouped under it |
| RequestService.AnswersByRequests | server/src/main/java/ru/practicum/shareit/request/ItemRequestServiceImpl.java:66-80 | for each listed request, the map lookup gives the set of its available answers, or null when there are none |
| RequestService.NoAvailableAnswerIsNull | server/src/main/java/ru/practicum/shareit/request/ItemRequestServiceImpl.java:62-63 | a request's answer set is null iff no stored item is available and answers it |
| RequestService.AddRequest | server/src/main/java/ru/practicum/shareit/request/ItemRequestServiceImpl.java:29-36 | NotFound iff the user is missing. Otherwise exactly one request is appended under a fresh id and returned with an empty answer set |
| RequestService.GetRequestsByRequestor | server/src/main/java/ru/practicum/shareit/request/ItemRequestServiceImpl.java:38-48 | NotFound iff the user is missing; otherwise one response per own request, newest first, each with its available answers or null |
| RequestService.GetAll | server/src/main/java/ru/practicum/shareit/request/ItemRequestServiceImpl.java:50-56 | NotFound iff the user is missing; otherwise one response per other user's request, newest first, each with an empty answer set |
| RequestService.GetRequest | server/src/main/java/ru/practicum/shareit/request/ItemRequestServiceImpl.java:58-64 | NotFound iff the user or the request is missing; otherwise the request with its available answers, or null when there are none |
| UserUpdate.AnyVisibleEmailIsPresent | server/src/main/java/ru/practicum/shareit/user/dto/UpdateUserRequest.java:16-18 | any email with a non-white-space character counts as present; its format is not checked |
| UserUpdate.BlankEmailIsAbsent | server/src/main/java/ru/practicum/shareit/user/dto/UpdateUserRequest.java:16-18 | every email that is empty or white space only is absent |
| UserMapper.BlankEmailKeepsStored | server/src/main/java/ru/practicum/shareit/user/UserMapper.java:24-31 | an update whose email is empty or white space only keeps the stored email and the id |
| UserMapper.MapToUser | server/src/main/java/ru/practicum/shareit/user/UserMapper.java:13-18 | copies name and email and leaves the id at 0 |
| UserMapper.MapToUserDto | server/src/main/java/ru/practicum/shareit/user/UserMapper.java:20-22 | carries id, name and email |
| UserMapper.UserDtoIsLossless | server/src/main/java/ru/practicum/shareit/user/UserMapper.java:20-22 | two users render equally iff they are equal |
| UserMapper.NewUserRendersRequest | server/src/main/java/ru/practicum/shareit/user/UserMapper.java:13-22 | a new user renders as the request's name and email under id 0 |
| UserMapper.UpdateUserFields | server/src/main/java/ru/practicum/shareit/user/UserMapper.java:24-31 | name and email each take the update's value iff it carries them; the id is kept |
| UserMapper.EmptyUserUpdateIsIdentity | server/src/main/java/ru/practicum/shareit/user/UserMapper.java:24-31 | an update that carries nothing leaves the user unchanged |
| UserMapper.UserUpdateIsIdempotent | server/src/main/java/ru/practicum/shareit/user/UserMapper.java:24-31 | applying an update twice equals applying it once |
| UserMapper.UserFieldChangesNeedPresence | server/src/main/java/ru/practicum/shareit/user/UserMapper.java:24-31 | a field that changed was carried by the update |
| UserService.GetAllUsers | src/main/java/ru/practicum/shareit/user/UserServiceImpl.java:26-32 | one response per stored user, same count and order, each with the user's id, name and email |
| UserService.FindUserById | src/main/java/ru/practicum/shareit/user/UserServiceImpl.java:34-39 | NotFound iff no stored user has the id; otherwise that user's response, which is among the listed ones |
| UserService.SaveUser | src/main/java/ru/practicum/shareit/user/UserServiceImpl.java:41-47 | exactly one user is appended under a fresh id with the request's name and email, and rendered back |
| UserService.UpdateUser | src/main/java/ru/practicum/shareit/user/UserServiceImpl.java:49-56 | NotFound iff the user is missing, and then nothing is written. Otherwise the updated user replaces the rows with its id and is returned |
| UserService.DeleteUserById | src/main/java/ru/practicum/shareit/user/UserServiceImpl.java:58-64 | NotFound iff the user is missing, and then nothing is written. Otherwise exactly the rows with that id go, and the rest stay in order |
| UserService.DeletedUserIsNotFound | src/main/java/ru/practicum/shareit/user/UserServiceImpl.java:58-64 | after a deletion, finding the user gives NotFound |
| UserService.SavedUserIsFound | src/main/java/ru/practicum/shareit/user/UserServiceImpl.java:41-47 | a saved user is found under the id it was given |
| UserMemoryStore.FindAllUsers | src/main/java/ru/practicum/shareit/user/UserInMemoryStorage.java:17-20 | exactly the stored users |
| UserMemoryStore.FindUserById | src/main/java/ru/practicum/shareit/user/UserInMemoryStorage.java:22-30 | nothing iff the id is absent; otherwise a copy with equal id, name and email |
| UserMemoryStore.AddUser | src/main/java/ru/practicum/shareit/user/UserInMemoryStorage.java:32-43 | Duplicate iff the email is registered, and then nothing changes. Otherwise the user gets id counter + 1, is stored under it, and the email is registered |
| UserMemoryStore.UpdateUser | src/main/java/ru/practicum/shareit/user/UserInMemoryStorage.java:45-56 | the id must be present. Keeping the email always succeeds; moving to a registered email gives Duplicate and changes nothing. Otherwise only that entry is overwritten, and a new email is registered without releasing the old one |
| UserMemoryStore.DeleteUserById | src/main/java/ru/practicum/shareit/user/UserInMemoryStorage.java:58-61 | true iff the id was present; only that entry goes; the emails and the counter stay |
| UserMemoryStore.AddUserKeepsInvariants | src/main/java/ru/practicum/shareit/user/UserInMemoryStorage.java:32-43 | adding keeps the store valid and emails unique, and never reuses an id |
| UserMemoryStore.UpdateUserKeepsInvariants | src/main/java/ru/practicum/shareit/user/UserInMemoryStorage.java:45-56 | updating keeps the store valid and emails unique |
| UserMemoryStore.UserIdsIncrease | src/main/java/ru/practicum/shareit/user/UserInMemoryStorage.java:63-65 | consecutive successful additions hand out strictly increasing ids |
| UserMemoryStore.EmailsOnlyGrow | src/main/java/ru/practicum/shareit/user/UserInMemoryStorage.java:32-61 | no operation removes a registered email |
| UserMemoryStore.DeletedEmailStaysReserved | src/main/java/ru/practicum/shareit/user/UserInMemoryStorage.java:58-61 | a deleted user's email cannot be registered again |
| UserMemoryStore.ReplacedEmailStaysReserved | src/main/java/ru/practicum/shareit/user/UserInMemoryStorage.java:46-54 | an email given up in an update cannot be registered again |
| UserMemoryStore.AddThenFindUser | src/main/java/ru/practicum/shareit/user/UserInMemoryStorage.java:22-37 | what was added reads back under its new id |

## Left out

- HTTP controllers, the gateway clients and the exception handlers: they only route requests and map error kinds to statuses. The error kinds are kept as `Common.Error`.
- Bean Validation annotations on the request bodies. The bodies are plain field lists, so a missing field of a new item or booking is not modelled.
- JPA mechanics: lazy loading, id-based `equals`, and transactions.
  - Entities are values. A booking keeps the copy of its item and booker taken when it was saved, so a later update of the item or user does not reach it.
  - All tables share one identity counter. Only the freshness of each new id is claimed.
  - Foreign-key constraints on delete are not modelled, and neither is the database's unique email column.
- SQL `LIKE` wildcards (`%`, `_` inside a pattern): search is plain substring containment.
- Case mapping outside ASCII: `toLowerCase`, `toUpperCase`, `UPPER` and `equalsIgnoreCase` fold only the letters A-Z.
- Time:
  - Several operations read the clock more than once. The model reads it once per call, as `now`. The sites are:
    - `getLastBooking` at `ItemServiceImpl.java:160-161`;
    - `getAllBookingsByUser` at `BookingServiceImpl.java:69-70`;
    - `addComment` at `ItemServiceImpl.java:121` and again in `CommentMapper.mapToComment` (`CommentMapper.java:23`);
    - `getItemsByOwnerId` at `ItemServiceImpl.java:52` and again in `getLastBooking` (:160-161) and `getNextBooking` (:174).
  - Malformed date strings are not modelled: `parse` is total.
- `getCommentDtos` keeps the comments whose item is the same object (`ItemServiceImpl.java:184`). Under JPA's session cache that is the comment's item. The model compares item ids.
- The race between the overlap check and the save in `addBooking`. There is no concurrency in the model.
- The unused `findTop1…` queries at `BookingRepository.java:73` and `:76`.
- The server's own `BookingStateFilter` enum is not part of this model. The model names the constants `BookingServiceImpl` tests for (ALL, CURRENT, PAST, FUTURE, WAITING, APPROVED, REJECTED) and folds every other constant, such as the CANCELED the gateway accepts and forwards, into one constant `OTHER`, which takes the default branch.
- HashMap iteration order.
  - `UserMemoryStore.FindAllUsers` returns a set, and the two `ItemMemoryStore` searches state membership only.
- The item in the `src/` snapshot has no request field, so the in-memory item store keeps none.
- Logging.
