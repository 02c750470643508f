/** Item operations: the owner's partial update, item views with their last
    and next bookings and comments, search, and commenting after a booking
    has ended. */
module ItemService {
  import opened Common
  import opened Model
  import opened Sorting
  import opened Paging
  import opened BookingRepository

  /** A partial update; a missing (null) field leaves the stored value. */
  datatype ItemPatch = ItemPatch(name: Option<string>, description: Option<string>, available: Option<bool>)

  /** An item as shown with its booking information and comments. */
  datatype ItemWithBookings = ItemWithBookings(
    id: int,
    name: string,
    description: string,
    available: bool,
    requestId: Option<int>,
    lastBooking: Option<BookingShort>,
    nextBooking: Option<BookingShort>,
    comments: seq<CommentDto>)

  /** The owner changes the fields the patch supplies; id, owner and request
      stay. An unknown item is NotFound, anyone but the owner Forbidden. */
  function Update(items: seq<Item>, userId: int, itemId: int, patch: ItemPatch): (r: Result<(Item, seq<Item>)>)
    ensures FindItem(items, itemId).None? ==> r == Err(NotFound)
    ensures FindItem(items, itemId).Some? && FindItem(items, itemId).value.owner.id != userId ==> r == Err(Forbidden)
    ensures FindItem(items, itemId).Some? && FindItem(items, itemId).value.owner.id == userId ==> r.Ok?
    ensures r.Ok? ==>
              var (it, store) := r.value;
              var prior := FindItem(items, itemId).value;
              && it.id == prior.id && it.owner == prior.owner && it.requestId == prior.requestId
              && (patch.name.Some? ==> it.name == patch.name.value)
              && (patch.name.None? ==> it.name == prior.name)
              && (patch.description.Some? ==> it.description == patch.description.value)
              && (patch.description.None? ==> it.description == prior.description)
              && (patch.available.Some? ==> it.available == patch.available.value)
              && (patch.available.None? ==> it.available == prior.available)
              && |store| == |items|
              && (forall i :: 0 <= i < |store| && items[i].id != itemId ==> store[i] == items[i])
              && (forall i :: 0 <= i < |store| && items[i].id == itemId ==> store[i] == it)
  {
    var found := FindItem(items, itemId);
    if found.None? then Err(NotFound)
    else if found.value.owner.id != userId then Err(Forbidden)
    else
      var prior := found.value;
      var it := prior.(
        name := if patch.name.Some? then patch.name.value else prior.name,
        description := if patch.description.Some? then patch.description.value else prior.description,
        available := if patch.available.Some? then patch.available.value else prior.available);
      Ok((it, Save(items, it, ItemId)))
  }

  /** Updating with an empty patch changes nothing. */
  lemma EmptyPatchChangesNothing(items: seq<Item>, userId: int, itemId: int)
    requires Update(items, userId, itemId, ItemPatch(None, None, None)).Ok?
    ensures Update(items, userId, itemId, ItemPatch(None, None, None)).value.0 == FindItem(items, itemId).value
  {
  }

  /** Lists a new item owned by `userId`, with the fields of `dto` and a fresh
      identifier. An unknown owner is NotFound. */
  function Create(users: seq<User>, items: seq<Item>, userId: int, dto: ItemDto): (r: Result<(ItemDto, seq<Item>)>)
    ensures FindUser(users, userId).None? <==> r == Err(NotFound)
    ensures FindUser(users, userId).Some? ==> r.Ok?
    ensures r.Ok? ==>
              var (d, store) := r.value;
              && |store| == |items| + 1
              && store[..|items|] == items
              && var it := store[|items|];
              && Some(it.owner) == FindUser(users, userId)
              && it.name == dto.name && it.description == dto.description
              && it.available == dto.available && it.requestId == dto.requestId
              && (forall x :: x in items ==> x.id != it.id)
              && d == ToItemDto(it)
  {
    var owner := FindUser(users, userId);
    if owner.None? then Err(NotFound)
    else
      var it := Item(FreshId(items, ItemId), dto.name, dto.description, dto.available, owner.value, dto.requestId);
      Ok((ToItemDto(it), items + [it]))
  }

  /** A created item can be found under the returned id, and its owner may
      then update it. */
  lemma {:induction false} CreatedItemIsOwnedByCaller(users: seq<User>, items: seq<Item>, userId: int,
                                                      dto: ItemDto, patch: ItemPatch)
    requires Create(users, items, userId, dto).Ok?
    ensures var (d, store) := Create(users, items, userId, dto).value;
            && FindItem(store, d.id).Some?
            && FindItem(store, d.id).value.owner.id == userId
            && Update(store, userId, d.id, patch).Ok?
  {
    var (d, store) := Create(users, items, userId, dto).value;
    var it := store[|items|];
    assert store == items + [it];
    assert it in store;
    assert forall x :: x in store && x.id == d.id ==> x == it;
  }

  /** The first row of a query ordered by start, latest first (a page of
      size one), if there is one. */
  function FirstOf(bookings: seq<Booking>, q: BookingQuery): (r: Option<Booking>)
    ensures r.None? <==> forall b :: b in bookings ==> !Matches(b, q)
    ensures r.Some? ==> r.value in bookings && Matches(r.value, q)
    ensures r.Some? ==> forall b :: b in bookings && Matches(b, q) ==> b.start <= r.value.start
  {
    var page := Find(bookings, q, PageRequest(0, 1));
    var all := FindAll(bookings, q);
    if |page| == 0 then None
    else
      assert page[0] == all[0];
      forall b | b in bookings && Matches(b, q)
        ensures b.start <= page[0].start
      {
        assert b in all;
        HeadIsLargest(all, StartOf, b);
      }
      Some(page[0])
  }

  /** The last booking: among the item's bookings that have ended before
      `now`, one with the greatest start. */
  function LastBooking(bookings: seq<Booking>, itemId: int, now: int): (r: Option<Booking>)
    ensures r.None? <==> forall b :: b in bookings && b.item.id == itemId ==> b.end >= now
    ensures r.Some? ==> r.value in bookings && r.value.item.id == itemId && r.value.end < now
    ensures r.Some? ==> forall b :: b in bookings && b.item.id == itemId && b.end < now ==> b.start <= r.value.start
  {
    var q := ItemEndBefore(itemId, now);
    assert forall b :: Matches(b, q) <==> b.item.id == itemId && b.end < now;
    FirstOf(bookings, q)
  }

  /** The next booking: among the item's bookings that start after `now`,
      one with the GREATEST start -- the query sorts latest first, so this is
      the furthest future booking, not the soonest. */
  function NextBooking(bookings: seq<Booking>, itemId: int, now: int): (r: Option<Booking>)
    ensures r.None? <==> forall b :: b in bookings && b.item.id == itemId ==> b.start <= now
    ensures r.Some? ==> r.value in bookings && r.value.item.id == itemId && r.value.start > now
    ensures r.Some? ==> forall b :: b in bookings && b.item.id == itemId && b.start > now ==> b.start <= r.value.start
  {
    var q := ItemStartAfter(itemId, now);
    assert forall b :: Matches(b, q) <==> b.item.id == itemId && b.start > now;
    FirstOf(bookings, q)
  }

  /** Whenever two future bookings of an item start at different times, the
      next booking is not the sooner one. */
  lemma NextBookingIsNotTheSoonest(bookings: seq<Booking>, itemId: int, now: int, soon: Booking, later: Booking)
    requires soon in bookings && later in bookings
    requires soon.item.id == itemId && later.item.id == itemId
    requires now < soon.start < later.start
    ensures NextBooking(bookings, itemId, now).Some?
    ensures NextBooking(bookings, itemId, now) != Some(soon)
  {
  }

  function ShortOf(b: Option<Booking>): Option<BookingShort> {
    if b.Some? then Some(ToBookingShort(b.value)) else None
  }

  /** The row condition of findByItemId. */
  function OnItem(itemId: int): Comment -> bool {
    (c: Comment) => c.item.id == itemId
  }

  /** The row condition of findByItemIdIn. */
  function OnAnyItem(itemIds: set<int>): Comment -> bool {
    (c: Comment) => c.item.id in itemIds
  }

  /** findByItemId: every stored comment on item `itemId`, each as often
      as it is stored, in store order. */
  function CommentsOn(comments: seq<Comment>, itemId: int): (r: seq<Comment>)
    ensures forall i :: 0 <= i < |r| ==> r[i].item.id == itemId
    ensures forall c :: c in r <==> c in comments && c.item.id == itemId
    ensures forall c :: multiset(r)[c] == if c.item.id == itemId then multiset(comments)[c] else 0
  {
    Filter(comments, OnItem(itemId))
  }

  /** findByItemIdIn: every stored comment on one of the items `itemIds`,
      each as often as it is stored, in store order. */
  function CommentsOnItems(comments: seq<Comment>, itemIds: set<int>): (r: seq<Comment>)
    ensures forall c :: c in r <==> c in comments && c.item.id in itemIds
    ensures forall c :: multiset(r)[c] == if c.item.id in itemIds then multiset(comments)[c] else 0
  {
    Filter(comments, OnAnyItem(itemIds))
  }

  /** The comments on item `itemId`, projected one by one: one entry per
      stored comment on the item. */
  function CommentsFor(comments: seq<Comment>, itemId: int): (r: seq<CommentDto>)
    ensures |r| == |CommentsOn(comments, itemId)|
    ensures forall i :: 0 <= i < |r| ==> r[i] == ToCommentDto(CommentsOn(comments, itemId)[i])
    ensures forall d :: d in r <==> exists c :: c in comments && c.item.id == itemId && ToCommentDto(c) == d
  {
    Project(CommentsOn(comments, itemId), ToCommentDto)
  }

  /** An item as seen without booking information. */
  function View(item: Item, comments: seq<CommentDto>): ItemWithBookings {
    ItemWithBookings(item.id, item.name, item.description, item.available, item.requestId, None, None, comments)
  }

  /** An item with its last and next bookings. */
  function WithBookingInfo(v: ItemWithBookings, bookings: seq<Booking>, now: int): ItemWithBookings {
    v.(lastBooking := ShortOf(LastBooking(bookings, v.id, now)),
       nextBooking := ShortOf(NextBooking(bookings, v.id, now)))
  }

  /** One item. Booking information is attached only for the owner; the
      comments for everyone. The caller is not looked up. */
  function GetById(items: seq<Item>, bookings: seq<Booking>, comments: seq<Comment>,
                   userId: int, itemId: int, now: int): (r: Result<ItemWithBookings>)
    ensures FindItem(items, itemId).None? ==> r == Err(NotFound)
    ensures FindItem(items, itemId).Some? ==> r.Ok?
    ensures r.Ok? ==>
              var item := FindItem(items, itemId).value;
              var v := r.value;
              && v.id == item.id && v.name == item.name && v.description == item.description
              && v.available == item.available && v.requestId == item.requestId
              && v.comments == CommentsFor(comments, itemId)
              && (item.owner.id == userId ==>
                    v.lastBooking == ShortOf(LastBooking(bookings, itemId, now))
                    && v.nextBooking == ShortOf(NextBooking(bookings, itemId, now)))
              && (item.owner.id != userId ==> v.lastBooking.None? && v.nextBooking.None?)
  {
    var found := FindItem(items, itemId);
    if found.None? then Err(NotFound)
    else
      var item := found.value;
      var v := View(item, []);
      var v := if item.owner.id == userId then WithBookingInfo(v, bookings, now) else v;
      Ok(v.(comments := CommentsFor(comments, item.id)))
  }

  /** One batched query for the comments of all the given items, grouped by
      item id and projected; an item without comments has no entry. */
  function CommentsByItem(comments: seq<Comment>, itemIds: set<int>): (m: map<int, seq<CommentDto>>)
    ensures forall id :: id in m <==> id in itemIds && exists c :: c in comments && c.item.id == id
  {
    var batch := CommentsOnItems(comments, itemIds);
    map id | id in itemIds && (exists c :: c in batch && c.item.id == id) :: CommentsFor(batch, id)
  }

  /** Looking an item up in the grouped batch, with an empty list as the
      default, gives the same comments as the single-item query. */
  lemma {:induction false} GroupedCommentsMatchSingle(comments: seq<Comment>, itemIds: set<int>, id: int)
    requires id in itemIds
    ensures GetOrDefault(CommentsByItem(comments, itemIds), id, []) == CommentsFor(comments, id)
  {
    var batch := CommentsOnItems(comments, itemIds);
    FilterOfFilter(comments, OnAnyItem(itemIds), OnItem(id));
    assert CommentsOn(batch, id) == CommentsOn(comments, id);
  }

  /** The items the user owns, by ascending id. */
  function OwnedItems(items: seq<Item>, userId: int): (r: seq<Item>)
    ensures forall it :: it in r <==> it in items && it.owner.id == userId
    ensures forall it :: multiset(r)[it] == if it.owner.id == userId then multiset(items)[it] else 0
    ensures forall i, j :: 0 <= i < j < |r| ==> r[i].id <= r[j].id
  {
    var mine := Filter(items, (it: Item) => it.owner.id == userId);
    var r := SortDesc(mine, NegatedItemId);
    SameMultisetSameElements(r, mine);
    assert forall i, j :: 0 <= i < j < |r| ==> NegatedItemId(r[i]) >= NegatedItemId(r[j]);
    r
  }

  /** The views of the owned items: booking information for each, and the
      comments looked up in the grouped comments of all of them. */
  function OwnedViews(owned: seq<Item>, bookings: seq<Booking>, comments: seq<Comment>, now: int)
    : (r: seq<ItemWithBookings>)
    ensures |r| == |owned|
    ensures forall i :: 0 <= i < |r| ==>
              r[i] == WithBookingInfo(View(owned[i], CommentsFor(comments, owned[i].id)), bookings, now)
  {
    var ids := set i | 0 <= i < |owned| :: owned[i].id;
    var grouped := CommentsByItem(comments, ids);
    var r := seq(|owned|, i requires 0 <= i < |owned| =>
                   WithBookingInfo(View(owned[i], GetOrDefault(grouped, owned[i].id, [])), bookings, now));
    forall i | 0 <= i < |owned|
      ensures GetOrDefault(grouped, owned[i].id, []) == CommentsFor(comments, owned[i].id)
    {
      GroupedCommentsMatchSingle(comments, ids, owned[i].id);
    }
    r
  }

  /** All items of a user, by id, each with booking information and its
      comments (an empty list when it has none). */
  function GetAllByUser(users: seq<User>, items: seq<Item>, bookings: seq<Booking>, comments: seq<Comment>,
                        userId: int, now: int): (r: Result<seq<ItemWithBookings>>)
    ensures FindUser(users, userId).None? ==> r == Err(NotFound)
    ensures FindUser(users, userId).Some? ==> r.Ok?
    ensures r.Ok? ==>
              var owned := OwnedItems(items, userId);
              && |r.value| == |owned|
              && forall i :: 0 <= i < |r.value| ==>
                   var v := r.value[i];
                   && v.id == owned[i].id && v.name == owned[i].name && v.description == owned[i].description
                   && v.available == owned[i].available && v.requestId == owned[i].requestId
                   && v.lastBooking == ShortOf(LastBooking(bookings, v.id, now))
                   && v.nextBooking == ShortOf(NextBooking(bookings, v.id, now))
                   && v.comments == CommentsFor(comments, v.id)
  {
    if FindUser(users, userId).None? then Err(NotFound)
    else Ok(OwnedViews(OwnedItems(items, userId), bookings, comments, now))
  }

  /** Java's Character.isWhitespace: the Unicode space, line and paragraph
      separators other than the no-break spaces, and the ASCII controls
      TAB, LF, VT, FF, CR and FS, GS, RS, US. */
  predicate IsWhitespace(c: char) {
    var n := c as int;
    || n == 0x20 || (0x09 <= n <= 0x0D) || (0x1C <= n <= 0x1F)
    || n == 0x1680 || (0x2000 <= n <= 0x2006) || (0x2008 <= n <= 0x200A)
    || n == 0x2028 || n == 0x2029 || n == 0x205F || n == 0x3000
  }

  /** String.isBlank: empty or whitespace only. */
  predicate IsBlank(s: string) {
    forall i :: 0 <= i < |s| ==> IsWhitespace(s[i])
  }

  /** Search: a missing or blank text gives an empty list without running
      the store's text query; otherwise the items the store's text query
      returned (`found`) are projected in order. */
  function Search(text: Option<string>, found: seq<Item>): (r: seq<ItemDto>)
    ensures text.None? || IsBlank(text.value) ==> r == []
    ensures text.Some? && !IsBlank(text.value) ==>
              |r| == |found| && forall i :: 0 <= i < |r| ==> r[i] == ToItemDto(found[i])
  {
    if text.None? || IsBlank(text.value) then []
    else Project(found, ToItemDto)
  }

  /** Whitespace-only text finds nothing, whatever the store's text query
      would return; any other text shows every item the query found. */
  lemma {:induction false} BlankSearchFindsNothing(text: string, found: seq<Item>, it: Item)
    ensures Search(Some(text), found) == [] <==> IsBlank(text) || found == []
    ensures Search(Some(" \t\n"), found) == []
    ensures !IsBlank(text) && it in found ==> ToItemDto(it) in Search(Some(text), found)
  {
    var blank := " \t\n";
    assert IsWhitespace(blank[0]) && IsWhitespace(blank[1]) && IsWhitespace(blank[2]);
    assert IsBlank(blank);
  }

  /** A user may comment on an item when some booking of theirs on it ended
      before `now`, whatever its status. */
  predicate MayComment(bookings: seq<Booking>, userId: int, itemId: int, now: int) {
    |FindUnordered(bookings, ItemBookerEndBefore(itemId, userId, now))| > 0
  }

  lemma MayCommentMeansEndedBooking(bookings: seq<Booking>, userId: int, itemId: int, now: int)
    ensures MayComment(bookings, userId, itemId, now) <==>
            exists b :: b in bookings && b.item.id == itemId && b.booker.id == userId && b.end < now
  {
    var found := FindUnordered(bookings, ItemBookerEndBefore(itemId, userId, now));
    if |found| > 0 {
      assert found[0] in found;
    }
  }

  /** Adds a comment: the author and the item must exist and the author must
      have a booking of the item that ended before `now`. */
  function AddComment(users: seq<User>, items: seq<Item>, bookings: seq<Booking>, comments: seq<Comment>,
                      userId: int, itemId: int, text: string, now: int): (r: Result<(CommentDto, seq<Comment>)>)
    ensures FindUser(users, userId).None? ==> r == Err(NotFound)
    ensures FindUser(users, userId).Some? && FindItem(items, itemId).None? ==> r == Err(NotFound)
    ensures FindUser(users, userId).Some? && FindItem(items, itemId).Some? ==>
              ((exists b :: b in bookings && b.item.id == itemId && b.booker.id == userId && b.end < now)
               <==> r.Ok?)
    ensures FindUser(users, userId).Some? && FindItem(items, itemId).Some? && r.Err? ==> r.error == BadRequest
    ensures r.Ok? ==>
              var (d, store) := r.value;
              exists c ::
                && store == comments + [c]
                && c.text == text && c.created == now
                && Some(c.author) == FindUser(users, userId)
                && Some(c.item) == FindItem(items, itemId)
                && (forall x :: x in comments ==> x.id != c.id)
                && d == ToCommentDto(c)
  {
    var author := FindUser(users, userId);
    if author.None? then Err(NotFound)
    else
      var item := FindItem(items, itemId);
      if item.None? then Err(NotFound)
      else
        MayCommentMeansEndedBooking(bookings, userId, itemId, now);
        if !MayComment(bookings, userId, itemId, now) then Err(BadRequest)
        else
          var c := Comment(FreshId(comments, CommentId), text, item.value, author.value, now);
          Ok((ToCommentDto(c), comments + [c]))
  }
}
