/** The persistent records of the sharing service and the projections the
    services hand back. Timestamps are integers on one clock; identifiers are
    integers. A record holds the records it references (a booking holds its
    item and booker, an item holds its owner), as the entity graph does. */
module Model {
  import opened Common

  /** A registered user; the e-mail is unique across users. */
  datatype User = User(id: int, name: string, email: string)

  /** A listed item. `requestId` names the item request it answers, if any. */
  datatype Item = Item(
    id: int,
    name: string,
    description: string,
    available: bool,
    owner: User,
    requestId: Option<int>)

  /** Booking status. Only Waiting -> Approved and Waiting -> Rejected are
      reachable through the services; Canceled has no transition into it. */
  datatype BookingStatus = Waiting | Approved | Rejected | Canceled

  /** A request by `booker` to use `item` from `start` to `end`. */
  datatype Booking = Booking(
    id: int,
    start: int,
    end: int,
    item: Item,
    booker: User,
    status: BookingStatus)

  /** A comment left on an item by a user who has booked it. */
  datatype Comment = Comment(id: int, text: string, item: Item, author: User, created: int)

  /** A request for an item nobody has listed yet. */
  datatype ItemRequest = ItemRequest(id: int, description: string, requester: User, created: int)

  /** The item projection: every field except the owner. */
  datatype ItemDto = ItemDto(
    id: int,
    name: string,
    description: string,
    available: bool,
    requestId: Option<int>)

  /** The short booking form attached to an item as last/next booking. */
  datatype BookingShort = BookingShort(id: int, bookerId: int, start: int, end: int)

  /** The comment projection: the author is shown by name. */
  datatype CommentDto = CommentDto(id: int, text: string, authorName: string, created: int)

  function ToItemDto(item: Item): (d: ItemDto)
    ensures d.id == item.id && d.name == item.name && d.description == item.description
    ensures d.available == item.available && d.requestId == item.requestId
  {
    ItemDto(item.id, item.name, item.description, item.available, item.requestId)
  }

  /** The projection forgets the owner and nothing else: two items have the
      same dto exactly when they differ at most in their owner. */
  lemma ItemDtoForgetsOnlyOwner(a: Item, b: Item)
    ensures ToItemDto(a) == ToItemDto(b) <==> a.(owner := b.owner) == b
  {
  }

  function ToBookingShort(b: Booking): (s: BookingShort)
    ensures s.id == b.id && s.bookerId == b.booker.id && s.start == b.start && s.end == b.end
  {
    BookingShort(b.id, b.booker.id, b.start, b.end)
  }

  function ToCommentDto(c: Comment): (d: CommentDto)
    ensures d.id == c.id && d.text == c.text && d.authorName == c.author.name && d.created == c.created
  {
    CommentDto(c.id, c.text, c.author.name, c.created)
  }

  // Identifier and ordering keys, passed to the generic store helpers.
  function UserId(u: User): int { u.id }
  function ItemId(i: Item): int { i.id }
  function BookingId(b: Booking): int { b.id }
  function CommentId(c: Comment): int { c.id }
  function RequestId(r: ItemRequest): int { r.id }
  function StartOf(b: Booking): int { b.start }
  function CreatedOf(r: ItemRequest): int { r.created }
  /** Key under which a descending sort puts the smallest id first. */
  function NegatedItemId(i: Item): int { -i.id }

  /** The user with identifier `id`, if the store holds one. */
  function FindUser(users: seq<User>, id: int): (r: Option<User>)
    ensures r.Some? ==> r.value in users && r.value.id == id
    ensures r.None? <==> forall u :: u in users ==> u.id != id
  {
    if |users| == 0 then None
    else if users[0].id == id then Some(users[0])
    else FindUser(users[1..], id)
  }

  /** The item with identifier `id`, if the store holds one. */
  function FindItem(items: seq<Item>, id: int): (r: Option<Item>)
    ensures r.Some? ==> r.value in items && r.value.id == id
    ensures r.None? <==> forall i :: i in items ==> i.id != id
  {
    if |items| == 0 then None
    else if items[0].id == id then Some(items[0])
    else FindItem(items[1..], id)
  }

  /** The booking with identifier `id`, if the store holds one. */
  function FindBooking(bookings: seq<Booking>, id: int): (r: Option<Booking>)
    ensures r.Some? ==> r.value in bookings && r.value.id == id
    ensures r.None? <==> forall b :: b in bookings ==> b.id != id
  {
    if |bookings| == 0 then None
    else if bookings[0].id == id then Some(bookings[0])
    else FindBooking(bookings[1..], id)
  }

  /** The item request with identifier `id`, if the store holds one. */
  function FindRequest(requests: seq<ItemRequest>, id: int): (r: Option<ItemRequest>)
    ensures r.Some? ==> r.value in requests && r.value.id == id
    ensures r.None? <==> forall q :: q in requests ==> q.id != id
  {
    if |requests| == 0 then None
    else if requests[0].id == id then Some(requests[0])
    else FindRequest(requests[1..], id)
  }

  /** Saving a record whose id is already stored replaces every row with
      that id; every other row stays as it was. */
  function Save<T>(rows: seq<T>, x: T, id: T -> int): (r: seq<T>)
    ensures |r| == |rows|
    ensures forall i :: 0 <= i < |r| && id(rows[i]) != id(x) ==> r[i] == rows[i]
    ensures forall i :: 0 <= i < |r| && id(rows[i]) == id(x) ==> r[i] == x
  {
    if |rows| == 0 then []
    else [if id(rows[0]) == id(x) then x else rows[0]] + Save(rows[1..], x, id)
  }
}
