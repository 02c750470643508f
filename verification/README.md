# ShareIt core in Dafny

A model of the server core of ShareIt, a service where users list items,
book other users' items for a time range, comment on items they have booked,
and post requests for items nobody has listed yet; and of the gateway checks
that stand in front of the booking endpoints.

The model is functional. Every store (users, items, bookings, comments, item
requests) is a sequence of immutable records. Every operation is a pure
function that takes the stores it reads and an explicit instant `now`, and
returns either an error kind (`NotFound`, `Forbidden`, `BadRequest`,
`Conflict`, `IllegalArgument`) or its value together with the new store. An
error carries no store, so a failed call changes nothing. Timestamps and
identifiers are integers; a new identifier is one more than the largest
stored one, which is distinct from every stored identifier.

Modules follow the source components:

- `Common`, `Sorting`, `Paging`: error kinds, `Option`/`Result`, filtering,
  fresh identifiers, a stable sort by a descending key, and page slicing
  (`PageRequest.of(from / size, size)`).
- `Model`: the records (user, item, booking, comment, item request), their
  projections, and the by-id lookups and saves of the stores.
- `BookingRepository`: each derived booking query is a constructor of
  `BookingQuery`; `Matches` is its row condition; `FindAll` filters and sorts
  by start, latest first; `Find` cuts out one page.
- `BookingService`: create, approve/reject, read one, and the booker's and
  owner's listings by state.
- `ItemService`: create, partial update, item views with last/next booking and
  comments, the owner's item list, search, and commenting.
- `UserService`: the user registry with unique e-mails.
- `ItemRequestRepository`, `ItemRequestService`: item requests with the
  items that answer them.
- `BookingGateway`: the create-body constraints, the listing parameter
  checks and defaults, and how they relate to the server's own checks.
- `Scenarios`: concrete stores at a fixed instant with the outcomes the
  booking service's integration tests expect of them.

The owner's CURRENT listing query bounds both ends of the booking (start
before now and end after now), exactly like the booker's
(`BookingRepository.OwnerCurrentBoundsEnd`).

## Model

| member | source | states |
|---|---|---|
| Paging.PageOf | shareit-server/src/main/java/ru/practicum/shareit/booking/BookingServiceImpl.java:99 | the page holding element `from` has the requested size and starts at the largest multiple of `size` not above `from`, so `from` is rounded down |
| BookingRepository.FindAll | src/main/java/ru/practicum/shareit/booking/BookingRepository.java:15-58 | a query returns exactly the stored rows meeting its condition, each as often as stored, ordered by start with the latest first |
| BookingRepository.Find | src/main/java/ru/practicum/shareit/booking/BookingRepository.java:15-46 | a paged query returns at most `size` rows, each stored and matching, sorted, and they are the contiguous window of the full ordered result at the page offset |
| BookingRepository.FindUnordered | src/main/java/ru/practicum/shareit/booking/BookingRepository.java:52 | the item/booker/ended query returns exactly the stored rows of that item and booker that ended before the instant, with no status condition |
| BookingRepository.SideQueriesSelectTheirSide | src/main/java/ru/practicum/shareit/booking/BookingRepository.java:15-46 | booker queries return only the booker's bookings, owner queries only bookings of the owner's items |
| BookingRepository.StrictTimeBounds | src/main/java/ru/practicum/shareit/booking/BookingRepository.java:17-35 | time bounds are strict: a booking ending exactly at t is not "end before t", one starting exactly at t is neither "start after" nor "start before" t |
| BookingRepository.OwnerCurrentBoundsEnd | src/main/java/ru/practicum/shareit/booking/BookingRepository.java:41-46 | the owner's CURRENT query has the same time condition as the booker's and requires end after t |
| BookingService.ParseState | shareit-server/src/main/java/ru/practicum/shareit/booking/BookingServiceImpl.java:104-128 | a state is recognised exactly when its upper-cased form is one of the six keywords, and then names that keyword's state |
| BookingService.ParseKeyword | shareit-server/src/main/java/ru/practicum/shareit/booking/BookingServiceImpl.java:104-125 | every keyword is recognised as its own state |
| BookingService.QueriesMeanStates | shareit-server/src/main/java/ru/practicum/shareit/booking/BookingServiceImpl.java:104-166 | the query chosen for each state selects exactly the party's bookings in that state: CURRENT start < now < end, PAST end < now, FUTURE start > now, WAITING and REJECTED by status |
| BookingService.TimeStatesDisjoint | shareit-server/src/main/java/ru/practicum/shareit/booking/BookingServiceImpl.java:102-117 | with one instant per call, no booking is both CURRENT and PAST or CURRENT and FUTURE, and a booking ending or starting exactly at now is in neither |
| BookingService.Create | shareit-server/src/main/java/ru/practicum/shareit/booking/BookingServiceImpl.java:37-55 | the first failing check decides the error, in the order missing start, end or item id, unknown user, unknown item, unavailable, own item, empty range, past start; success appends exactly one WAITING booking of the caller for the item and range, with a fresh id |
| BookingService.CheckCreation | shareit-server/src/main/java/ru/practicum/shareit/booking/BookingServiceImpl.java:188-205 | a found item and booker pass exactly when the item is available, the booker is not its owner, start is before end and start is not before now; the first failing check gives BadRequest, Forbidden, BadRequest, BadRequest respectively |
| BookingService.CreateKeepsIdsUnique | shareit-server/src/main/java/ru/practicum/shareit/booking/BookingServiceImpl.java:44-51 | creating a booking keeps booking ids unique |
| BookingService.UpdateStatus | shareit-server/src/main/java/ru/practicum/shareit/booking/BookingServiceImpl.java:57-79 | unknown caller Forbidden, unknown booking NotFound, non-owner Forbidden, decided booking BadRequest; otherwise only that booking's status changes, to APPROVED or REJECTED |
| BookingService.UpdateStatusIsOneShot | shareit-server/src/main/java/ru/practicum/shareit/booking/BookingServiceImpl.java:70-75 | a second decision on the same booking fails with BadRequest and the stored booking keeps the first decision |
| BookingService.GetById | shareit-server/src/main/java/ru/practicum/shareit/booking/BookingServiceImpl.java:81-92 | unknown user or booking NotFound; succeeds exactly for the booker or the item owner, Forbidden for anyone else |
| Paging.ValidatePagination | shareit-server/src/main/java/ru/practicum/shareit/booking/BookingServiceImpl.java:207-214 | a negative from or a non-positive size is refused with the caller's error kind, anything else passes; the booking listings refuse with BadRequest, the item-request listing (ItemRequestServiceImpl.java lines 120-127) and the gateway (BookingGatewayController.java lines 70-77) with IllegalArgument |
| BookingService.ListBookings | shareit-server/src/main/java/ru/practicum/shareit/booking/BookingServiceImpl.java:94-174 | page parameters are checked before the user and the state after; a result has at most size bookings, all of the party and in the state, latest start first, and is the page window of the full ordered result |
| BookingService.GetAllByBooker | shareit-server/src/main/java/ru/practicum/shareit/booking/BookingServiceImpl.java:94-133 | the booker listing returns only the caller's own bookings |
| BookingService.GetAllByOwner | shareit-server/src/main/java/ru/practicum/shareit/booking/BookingServiceImpl.java:135-174 | the owner listing returns only bookings of the caller's items |
| BookingService.ListingIsComplete | shareit-server/src/main/java/ru/practicum/shareit/booking/BookingServiceImpl.java:99-128 | the unpaged listing holds every booking of the party in the state, as often as stored, and nothing else |
| ItemService.Create | src/main/java/ru/practicum/shareit/item/ItemServiceImpl.java:38-46 | unknown owner NotFound; a known owner always succeeds, and exactly one item is appended with the given fields, the caller as owner and a fresh id |
| ItemService.CreatedItemIsOwnedByCaller | src/main/java/ru/practicum/shareit/item/ItemServiceImpl.java:38-66 | a created item is found under the returned id, owned by the caller, who may then update it |
| ItemService.Update | src/main/java/ru/practicum/shareit/item/ItemServiceImpl.java:48-66 | unknown item NotFound, non-owner Forbidden; name, description and availability change only where supplied; id, owner and request never change; other rows stay |
| ItemService.EmptyPatchChangesNothing | src/main/java/ru/practicum/shareit/item/ItemServiceImpl.java:54-64 | an update supplying no field returns the item unchanged |
| ItemService.FirstOf | src/main/java/ru/practicum/shareit/item/ItemServiceImpl.java:140 | a page of size one of a latest-first query holds a matching booking with the greatest start, and is empty exactly when nothing matches |
| ItemService.LastBooking | src/main/java/ru/practicum/shareit/item/ItemServiceImpl.java:138-146 | the last booking is a booking of the item that ended before now with the greatest start, absent exactly when none ended |
| ItemService.NextBooking | src/main/java/ru/practicum/shareit/item/ItemServiceImpl.java:148-152 | the next booking is a booking of the item starting after now with the greatest start, absent exactly when none starts later |
| ItemService.NextBookingIsNotTheSoonest | src/main/java/ru/practicum/shareit/item/ItemServiceImpl.java:140-152 | with two future bookings starting at different times, the next booking shown is never the sooner one |
| ItemService.CommentsOn | src/main/java/ru/practicum/shareit/item/ItemServiceImpl.java:165 | the comment query returns every stored comment on the item, each as often as it is stored, and nothing else |
| ItemService.CommentsFor | src/main/java/ru/practicum/shareit/item/ItemServiceImpl.java:164-169 | an item's comments are the stored comments on that item projected one by one, one entry per stored comment |
| ItemService.GetById | src/main/java/ru/practicum/shareit/item/ItemServiceImpl.java:68-79 | unknown item NotFound; last and next bookings are attached only for the owner, the comments for every caller |
| ItemService.CommentsOnItems | src/main/java/ru/practicum/shareit/item/ItemServiceImpl.java:173 | the batched comment query returns every stored comment on one of the listed items, each as often as it is stored, and nothing else |
| ItemService.CommentsByItem | src/main/java/ru/practicum/shareit/item/ItemServiceImpl.java:171-179 | one batched query for the listed items' comments, grouped by item: an entry exactly for the listed items that have comments |
| ItemService.GroupedCommentsMatchSingle | src/main/java/ru/practicum/shareit/item/ItemServiceImpl.java:171-183 | for a listed item, the lookup in the grouped batch with an empty default gives the same comments as the single-item query |
| ItemService.OwnedItems | src/main/java/ru/practicum/shareit/item/ItemServiceImpl.java:84 | the owner's items are exactly the stored items with that owner, each once per stored copy, in ascending id order |
| ItemService.OwnedViews | src/main/java/ru/practicum/shareit/item/ItemServiceImpl.java:85-93 | one view per owned item, in order, each with its booking information and its own comments |
| ItemService.GetAllByUser | src/main/java/ru/practicum/shareit/item/ItemServiceImpl.java:81-95 | unknown user NotFound; otherwise one entry per owned item in id order, each with last/next booking and exactly its comments, empty when it has none |
| ItemService.Search | src/main/java/ru/practicum/shareit/item/ItemServiceImpl.java:97-106 | a missing or blank text gives an empty list; otherwise the query's items are projected in order |
| ItemService.BlankSearchFindsNothing | src/main/java/ru/practicum/shareit/item/ItemServiceImpl.java:97-106 | a search is empty exactly when the text is blank or the query found nothing; whitespace-only text finds nothing whatever the query would return; any other text shows every found item |
| ItemService.MayCommentMeansEndedBooking | src/main/java/ru/practicum/shareit/item/ItemServiceImpl.java:186-193 | a user may comment exactly when a booking of theirs on the item ended before now, whatever its status |
| ItemService.AddComment | src/main/java/ru/practicum/shareit/item/ItemServiceImpl.java:108-126 | unknown user or item NotFound; success exactly when the caller has an ended booking of the item, else BadRequest; success appends one comment with the text, author, item, now and a fresh id |
| UserService.Create | src/main/java/ru/practicum/shareit/user/UserServiceImpl.java:22-30 | Conflict exactly when the e-mail is already stored; a free e-mail always succeeds, and exactly one user is appended with the given name and e-mail and a fresh id |
| UserService.Update | src/main/java/ru/practicum/shareit/user/UserServiceImpl.java:32-52 | unknown user NotFound; Conflict only when a supplied e-mail differs from the current one and is taken; name and e-mail change only where supplied; other rows stay |
| UserService.OwnEmailNeverConflicts | src/main/java/ru/practicum/shareit/user/UserServiceImpl.java:38-40 | re-submitting one's own e-mail always succeeds |
| UserService.GetById | src/main/java/ru/practicum/shareit/user/UserServiceImpl.java:54-59 | succeeds exactly for a stored id, with that user; NotFound otherwise |
| UserService.GetAll | src/main/java/ru/practicum/shareit/user/UserServiceImpl.java:60-65 | the listing holds every stored user, each as often as it is stored; no order is promised |
| UserService.Delete | src/main/java/ru/practicum/shareit/user/UserServiceImpl.java:68-76 | unknown id NotFound; a stored id always succeeds, and the store keeps exactly the other users, each as often as before |
| UserService.DeleteThenGetIsNotFound | src/main/java/ru/practicum/shareit/user/UserServiceImpl.java:54-76 | after a successful delete the user reads as NotFound |
| UserService.CreateKeepsWellFormed | src/main/java/ru/practicum/shareit/user/UserServiceImpl.java:22-30 | a successful create keeps ids and e-mails unique |
| UserService.UpdateKeepsWellFormed | src/main/java/ru/practicum/shareit/user/UserServiceImpl.java:32-52 | a successful update keeps ids and e-mails unique |
| UserService.DeleteKeepsWellFormed | src/main/java/ru/practicum/shareit/user/UserServiceImpl.java:68-76 | a successful delete keeps ids and e-mails unique |
| ItemRequestRepository.FindByRequester | server/src/main/java/ru/practicum/shareit/request/ItemRequestRepository.java:14 | own requests are exactly the stored requests of the requester, as often as stored, newest first |
| ItemRequestRepository.FindAllOfOthers | server/src/main/java/ru/practicum/shareit/request/ItemRequestRepository.java:16 | other users' requests are exactly the stored requests of other requesters, never the caller's, newest first |
| ItemRequestRepository.FindOthers | server/src/main/java/ru/practicum/shareit/request/ItemRequestRepository.java:16-17 | a page of other users' requests has at most size rows, newest first, and is the page window of the full ordered result |
| ItemRequestRepository.OwnAndOthersPartition | server/src/main/java/ru/practicum/shareit/request/ItemRequestRepository.java:14-17 | together the two queries return the whole store, each request in exactly one of them |
| Model.ToItemDto | shareit-server/src/main/java/ru/practicum/shareit/request/ItemRequestServiceImpl.java:110-118 | the item dto carries the item's id, name, description, availability and request id |
| Model.ItemDtoForgetsOnlyOwner | shareit-server/src/main/java/ru/practicum/shareit/request/ItemRequestServiceImpl.java:110-118 | two items give the same item dto exactly when they differ at most in their owner |
| ItemRequestService.ItemsAnswering | shareit-server/src/main/java/ru/practicum/shareit/request/ItemRequestServiceImpl.java:80 | the item query returns every stored item naming the request, each as often as it is stored, and nothing else |
| ItemRequestService.ItemsFor | shareit-server/src/main/java/ru/practicum/shareit/request/ItemRequestServiceImpl.java:78-83 | a request's items are the stored items naming that request projected one by one, one entry per stored item |
| ItemRequestService.ItemsAnsweringAny | shareit-server/src/main/java/ru/practicum/shareit/request/ItemRequestServiceImpl.java:94-95 | the batched item query returns every stored item answering one of the listed requests, each as often as it is stored, and nothing else |
| ItemRequestService.ItemsByRequest | shareit-server/src/main/java/ru/practicum/shareit/request/ItemRequestServiceImpl.java:94-96 | one batched query for the listed requests' items, grouped by request: an entry exactly for the listed requests that have items |
| ItemRequestService.GroupedItemsMatchSingle | shareit-server/src/main/java/ru/practicum/shareit/request/ItemRequestServiceImpl.java:94-104 | for a listed request, the lookup in the grouped batch with an empty default gives the same items as the single-request query |
| ItemRequestService.ToDtosWithItems | shareit-server/src/main/java/ru/practicum/shareit/request/ItemRequestServiceImpl.java:85-108 | the batch conversion has the input's length and order and shows each request exactly as the single conversion does; empty in, empty out |
| ItemRequestService.Create | shareit-server/src/main/java/ru/practicum/shareit/request/ItemRequestServiceImpl.java:35-49 | unknown user NotFound; a known user always succeeds, and exactly one request is appended with the caller as requester, the description, now and a fresh id |
| ItemRequestService.NewRequestHasNoItems | shareit-server/src/main/java/ru/practicum/shareit/request/ItemRequestServiceImpl.java:37-49 | when every item names an existing request, a new request is returned with no items |
| ItemRequestService.CreateThenGetById | shareit-server/src/main/java/ru/practicum/shareit/request/ItemRequestServiceImpl.java:37-76 | a created request reads back by id exactly as it was returned |
| ItemRequestService.GetOwnRequests | shareit-server/src/main/java/ru/practicum/shareit/request/ItemRequestServiceImpl.java:51-56 | unknown user NotFound; a known user always succeeds, and every own request is shown with its items, newest first, and only own requests |
| ItemRequestService.OwnRequestsShown | shareit-server/src/main/java/ru/practicum/shareit/request/ItemRequestServiceImpl.java:51-56 | the own-requests listing shows each own request in order, newest first, and covers them all |
| ItemRequestService.DtosKeepOrder | shareit-server/src/main/java/ru/practicum/shareit/request/ItemRequestServiceImpl.java:98-107 | the conversion keeps the newest-first order of its input |
| ItemRequestService.DtosCoverRequests | shareit-server/src/main/java/ru/practicum/shareit/request/ItemRequestServiceImpl.java:98-107 | every converted request appears in the result |
| ItemRequestService.GetOtherUsersRequests | shareit-server/src/main/java/ru/practicum/shareit/request/ItemRequestServiceImpl.java:58-67 | the user is checked before the page parameters (NotFound, then IllegalArgument); a result is the page from / size of other users' requests, newest first, none of the caller's |
| ItemRequestService.OthersPageShown | shareit-server/src/main/java/ru/practicum/shareit/request/ItemRequestServiceImpl.java:58-67 | the shown page is the window of other users' requests at the page offset, newest first |
| ItemRequestService.GetById | shareit-server/src/main/java/ru/practicum/shareit/request/ItemRequestServiceImpl.java:69-76 | unknown user or request NotFound; otherwise the stored request with exactly the items naming it |
| BookingGateway.Create | shareit-gateway/src/main/java/ru/practicum/shareit/booking/dto/BookingRequestDto.java:14-25 | a create body passes exactly when item id, start and end are present and start and end lie strictly after now; a passing body is forwarded unchanged |
| BookingGateway.InvertedRangePassesGateway | shareit-gateway/src/main/java/ru/practicum/shareit/booking/dto/BookingRequestDto.java:14-25 | a body whose end precedes its start, both in the future, passes the gateway |
| BookingGateway.InvertedRangeRejectedByServer | shareit-server/src/main/java/ru/practicum/shareit/booking/BookingServiceImpl.java:197-200 | such a body is then refused by the server as BadRequest |
| BookingGateway.AcceptedRangePassesServer | shareit-server/src/main/java/ru/practicum/shareit/booking/BookingServiceImpl.java:188-205 | a body the gateway accepts with start before end passes every time check of the server at the same instant |
| BookingGateway.ValidateState | gateway/src/main/java/ru/practicum/shareit/booking/BookingGatewayController.java:79-83 | a state passes exactly when it equals one of the six keywords ignoring ASCII case; otherwise IllegalArgument |
| BookingGateway.List | gateway/src/main/java/ru/practicum/shareit/booking/BookingGatewayController.java:42-68 | missing parameters, and an empty state, become ALL, 0 and 10; bad page parameters and then a bad state are refused; only an accepted call is forwarded, with the parameters as given |
| BookingGateway.GetAllByBooker | gateway/src/main/java/ru/practicum/shareit/booking/BookingGatewayController.java:42-54 | the booker listing is checked and forwarded exactly as `List` does for the booker side (defaults, IllegalArgument refusals, parameters forwarded as given); it is forwarded exactly when the owner listing with the same parameters would be |
| BookingGateway.GetAllByOwner | gateway/src/main/java/ru/practicum/shareit/booking/BookingGatewayController.java:56-68 | the owner listing is checked and forwarded exactly as `List` does for the owner side (defaults, IllegalArgument refusals, parameters forwarded as given); it is forwarded exactly when the booker listing with the same parameters would be |
| BookingGateway.DefaultsAreFirstPageOfAll | gateway/src/main/java/ru/practicum/shareit/booking/BookingGatewayController.java:45-47 | a listing with no parameters, or with only an empty state, is forwarded as state ALL, from 0, size 10 |
| BookingGateway.GatewayAndServerAgreeOnStates | gateway/src/main/java/ru/practicum/shareit/booking/BookingGatewayController.java:79-83 | the gateway's state check and the server's state parser accept exactly the same strings |
| BookingGateway.ForwardedListingPassesServerChecks | gateway/src/main/java/ru/practicum/shareit/booking/BookingGatewayController.java:50-53 | a forwarded listing passes the server's page and state checks, so the server can only refuse it for an unknown user |
| Scenarios.BookerListingPastAndFuture | server/src/test/java/ru/practicum/shareit/integration/BookingServiceIntegrationTest.java:197-206 | with one booking that ended yesterday and one that starts tomorrow, the booker's ALL listing returns exactly the future booking and then the past one |
| Scenarios.CurrentBookingIsOnlyCurrent | server/src/test/java/ru/practicum/shareit/integration/BookingServiceIntegrationTest.java:208-215 | a booking running across the current instant is the booker's only CURRENT booking and is in neither PAST nor FUTURE |
| Scenarios.ApproveOnce | server/src/test/java/ru/practicum/shareit/integration/BookingServiceIntegrationTest.java:114-128 | the owner's approval of a WAITING booking returns and stores it as APPROVED; a second decision on it is refused with BadRequest |
| Scenarios.OwnerCannotBookOwnItem | server/src/test/java/ru/practicum/shareit/integration/BookingServiceIntegrationTest.java:87-97 | the owner asking to book their own available item is refused with Forbidden |
| Scenarios.StrangerCannotReadBooking | server/src/test/java/ru/practicum/shareit/integration/BookingServiceIntegrationTest.java:182-195 | a third user reading a booking between the owner and the booker is refused with Forbidden |

## Left out

- HTTP: controllers, header binding, the gateway's HTTP clients and the exception-to-status mapping are not modelled; errors are the `ErrorKind` values. The gateway's update-status and read-one endpoints forward without checks and are not modelled.
- Empty numeric parameters: `from` and `size` arrive at the gateway as optional integers; a missing or empty value is `None` and takes the default, and a non-numeric value (a binding error) is not modelled.
- The clock: every operation takes `now` as a parameter, read once per call.
- BookingGateway.AcceptedRangePassesServer: assumes the gateway and the server read the same instant; in the running system the server's clock reads later, so a start just after the gateway's instant can still be in the past for the server.
- BookingService.ParseState: upper-cases ASCII letters only. The server's `toUpperCase` also folds some non-ASCII letters (dotless i, long s) into keyword letters and depends on the default locale; those strings are not modelled.
- BookingGateway.GatewayAndServerAgreeOnStates: holds for the ASCII upper-casing above; with the server's full Unicode upper-casing a string such as one spelling WAITING with dotless i would pass the server but not the gateway.
- Persistence: JPA, transactions and query derivation are replaced by filter, stable sort and slice over sequences. Database constraints (non-null columns, the unique e-mail index, foreign keys) are not modelled, so deleting a user who owns items or bookings simply removes the user.
- Identifier generation: a new id is one more than the largest id currently stored. An identity column never hands out an id again, but this scheme does once the row with the largest id is deleted: after `UserService.Delete` of the newest user, the next `UserService.Create` gets the deleted id and, since items and bookings are not cascaded, inherits the deleted user's items and bookings. The model does not carry a separate id counter.
- ItemService.Create: an id supplied in the body is ignored; the store assigns a fresh one.
- The text-search query over item names and descriptions is not shown; `ItemService.Search` takes the rows it returned as a parameter.
- Ties in the ordered queries: rows with equal start (bookings) or equal creation time (requests) keep their store order, a fixed tie order that `BookingRepository.Find` and `ItemRequestRepository.FindOthers` rely on for their page windows. The database leaves such ties unspecified and may break them differently on each page query.
- Order of the unordered queries: the comment and item lookups by item or request (single and batched) carry no ORDER BY, and the model returns their rows in store order. `ItemService.GroupedCommentsMatchSingle` and `ItemRequestService.GroupedItemsMatchSingle` rely on both lookups using that same order; the database promises no order, so in the program the two lists may differ in order.
- Records hold copies of the records they reference; an item or user update does not rewrite the copies inside stored bookings and comments.
- The owner's item list is collected into an id-keyed map before comments are attached; with unique item ids this is the list itself, and duplicate ids are not modelled.
- Bean-validation of user, item, comment and item-request bodies (not blank, e-mail format) is not modelled; names, texts and e-mails are plain strings.
- Java integer widths and overflow are not modelled; identifiers, instants and page parameters are unbounded integers.
- The CANCELED status exists but no operation sets it.
- Concurrency: racing approvals and racing creates are not modelled.
- The booking, comment and item-request records carry only the fields the services read; other columns and the JPA mappings are not modelled.
