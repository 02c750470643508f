/** The booking lifecycle: creating a booking, the owner's one-shot approval
    or rejection, reading one booking, and the booker's and owner's listings
    by state. Each operation takes the stores it reads and an explicit `now`,
    and returns an error kind or its value together with the new booking
    store. An error carries no store, so a failed call changes nothing. */
module BookingService {
  import opened Common
  import opened Model
  import opened Sorting
  import opened Paging
  import opened BookingRepository

  /** The body of a create call; each field may be missing (null). */
  datatype BookingRequestDto = BookingRequestDto(itemId: Option<int>, start: Option<int>, end: Option<int>)

  /** The listing states accepted by the booker and owner listings. */
  datatype ListingState =
    | AllBookings
    | CurrentBookings
    | PastBookings
    | FutureBookings
    | WaitingBookings
    | RejectedBookings

  /** The keyword of each state, as callers spell it in upper case. */
  function Keyword(st: ListingState): string {
    match st
    case AllBookings => "ALL"
    case CurrentBookings => "CURRENT"
    case PastBookings => "PAST"
    case FutureBookings => "FUTURE"
    case WaitingBookings => "WAITING"
    case RejectedBookings => "REJECTED"
  }

  /** Upper-casing of the ASCII letters; every other character is kept. */
  function UpperAscii(c: char): char {
    if 'a' <= c <= 'z' then (c as int - 32) as char else c
  }

  function ToUpperAscii(s: string): string {
    seq(|s|, i requires 0 <= i < |s| => UpperAscii(s[i]))
  }

  /** The state named by `state`, compared after upper-casing. */
  function ParseState(state: string): (r: Option<ListingState>)
    ensures r.Some? ==> Keyword(r.value) == ToUpperAscii(state)
    ensures r.None? ==> forall st :: Keyword(st) != ToUpperAscii(state)
  {
    var u := ToUpperAscii(state);
    if u == "ALL" then Some(AllBookings)
    else if u == "CURRENT" then Some(CurrentBookings)
    else if u == "PAST" then Some(PastBookings)
    else if u == "FUTURE" then Some(FutureBookings)
    else if u == "WAITING" then Some(WaitingBookings)
    else if u == "REJECTED" then Some(RejectedBookings)
    else None
  }

  /** Every keyword names its own state. */
  lemma {:induction false} ParseKeyword(st: ListingState)
    ensures ParseState(Keyword(st)) == Some(st)
  {
    var k := Keyword(st);
    assert ToUpperAscii(k) == k;
  }

  /** What each state means for one booking at instant `now`: the time
      states compare strictly against `now`, the status states compare the
      status. */
  predicate InState(b: Booking, st: ListingState, now: int) {
    match st
    case AllBookings => true
    case CurrentBookings => b.start < now < b.end
    case PastBookings => b.end < now
    case FutureBookings => b.start > now
    case WaitingBookings => b.status == Waiting
    case RejectedBookings => b.status == Rejected
  }

  /** The repository query a booker listing in state `st` runs. */
  function BookerQuery(st: ListingState, userId: int, now: int): BookingQuery {
    match st
    case AllBookings => BookerAll(userId)
    case CurrentBookings => BookerStartBeforeEndAfter(userId, now, now)
    case PastBookings => BookerEndBefore(userId, now)
    case FutureBookings => BookerStartAfter(userId, now)
    case WaitingBookings => BookerStatus(userId, Waiting)
    case RejectedBookings => BookerStatus(userId, Rejected)
  }

  /** The repository query an owner listing in state `st` runs. */
  function OwnerQuery(st: ListingState, userId: int, now: int): BookingQuery {
    match st
    case AllBookings => OwnerAll(userId)
    case CurrentBookings => OwnerCurrent(userId, now)
    case PastBookings => OwnerEndBefore(userId, now)
    case FutureBookings => OwnerStartAfter(userId, now)
    case WaitingBookings => OwnerStatus(userId, Waiting)
    case RejectedBookings => OwnerStatus(userId, Rejected)
  }

  /** The query chosen for each state selects exactly the booker's (the
      owner's) bookings in that state. */
  lemma QueriesMeanStates(b: Booking, st: ListingState, userId: int, now: int)
    ensures Matches(b, BookerQuery(st, userId, now)) <==> b.booker.id == userId && InState(b, st, now)
    ensures Matches(b, OwnerQuery(st, userId, now)) <==> b.item.owner.id == userId && InState(b, st, now)
  {
  }

  /** Current, past and future never overlap for a booking that starts
      before it ends, and a booking starting or ending exactly at `now` is in
      none of the states it touches. */
  lemma TimeStatesDisjoint(b: Booking, now: int)
    ensures !(InState(b, CurrentBookings, now) && InState(b, PastBookings, now))
    ensures !(InState(b, CurrentBookings, now) && InState(b, FutureBookings, now))
    ensures b.start < b.end ==> !(InState(b, PastBookings, now) && InState(b, FutureBookings, now))
    ensures b.end == now ==> !InState(b, PastBookings, now) && !InState(b, CurrentBookings, now)
    ensures b.start == now ==> !InState(b, FutureBookings, now) && !InState(b, CurrentBookings, now)
  {
  }

  predicate HasAllFields(req: BookingRequestDto) {
    req.start.Some? && req.end.Some? && req.itemId.Some?
  }

  /** Creates a WAITING booking of item `req.itemId` for user `userId`. The
      checks run in a fixed order and the first one that fails decides the
      error. */
  function Create(users: seq<User>, items: seq<Item>, bookings: seq<Booking>,
                  userId: int, req: BookingRequestDto, now: int): (r: Result<(Booking, seq<Booking>)>)
    // 1. a missing start, end or item id
    ensures !HasAllFields(req) ==> r == Err(BadRequest)
    // 2. an unknown user
    ensures HasAllFields(req) && FindUser(users, userId).None? ==> r == Err(NotFound)
    // 3. an unknown item
    ensures HasAllFields(req) && FindUser(users, userId).Some? && FindItem(items, req.itemId.value).None?
            ==> r == Err(NotFound)
    ensures HasAllFields(req) && FindUser(users, userId).Some? && FindItem(items, req.itemId.value).Some? ==>
              var item := FindItem(items, req.itemId.value).value;
              // 4. the item is not available
              && (!item.available ==> r == Err(BadRequest))
              // 5. the owner books their own item
              && (item.available && item.owner.id == userId ==> r == Err(Forbidden))
              // 6. the range is empty or inverted
              && (item.available && item.owner.id != userId && req.start.value >= req.end.value
                  ==> r == Err(BadRequest))
              // 7. the start lies in the past
              && ((item.available && item.owner.id != userId && req.start.value < req.end.value
                   && req.start.value < now) ==> r == Err(BadRequest))
              // otherwise the booking is created
              && ((item.available && item.owner.id != userId && req.start.value < req.end.value
                   && now <= req.start.value) ==> r.Ok?)
    ensures r.Ok? ==>
              var (b, store) := r.value;
              && store == bookings + [b]
              && b.status == Waiting
              && Some(b.booker) == FindUser(users, userId)
              && Some(b.item) == FindItem(items, req.itemId.value)
              && req.start == Some(b.start) && req.end == Some(b.end)
              && b.start < b.end && now <= b.start
              && b.item.available && b.booker.id != b.item.owner.id
              && forall x :: x in bookings ==> x.id != b.id
  {
    if !HasAllFields(req) then Err(BadRequest)
    else
      var user := FindUser(users, userId);
      if user.None? then Err(NotFound)
      else
        var item := FindItem(items, req.itemId.value);
        if item.None? then Err(NotFound)
        else
          var it := item.value;
          var start := req.start.value;
          var end := req.end.value;
          var refused := CheckCreation(it, user.value.id, start, end, now);
          if refused.Some? then Err(refused.value)
          else
            var b := Booking(FreshId(bookings, BookingId), start, end, it, user.value, Waiting);
            Ok((b, bookings + [b]))
  }

  /** The checks on a found item and booker, in order: the item must be
      available, the booker must not own it, the range must be non-empty and
      must not start in the past. The first failing check gives the error. */
  function CheckCreation(item: Item, bookerId: int, start: int, end: int, now: int): (r: Option<ErrorKind>)
    ensures r.None? <==> item.available && item.owner.id != bookerId && start < end && now <= start
    ensures !item.available ==> r == Some(BadRequest)
    ensures item.available && item.owner.id == bookerId ==> r == Some(Forbidden)
    ensures item.available && item.owner.id != bookerId && start >= end ==> r == Some(BadRequest)
    ensures item.available && item.owner.id != bookerId && start < end && start < now ==> r == Some(BadRequest)
  {
    if !item.available then Some(BadRequest)
    else if item.owner.id == bookerId then Some(Forbidden)
    else if start > end || start == end then Some(BadRequest)
    else if start < now then Some(BadRequest)
    else None
  }

  /** Creating a booking keeps booking identifiers unique. */
  lemma CreateKeepsIdsUnique(users: seq<User>, items: seq<Item>, bookings: seq<Booking>,
                             userId: int, req: BookingRequestDto, now: int)
    requires UniqueIds(bookings, BookingId)
    requires Create(users, items, bookings, userId, req, now).Ok?
    ensures UniqueIds(Create(users, items, bookings, userId, req, now).value.1, BookingId)
  {
    var (b, store) := Create(users, items, bookings, userId, req, now).value;
    AppendFreshKeepsUnique(bookings, BookingId, b);
  }

  function Decision(approved: bool): BookingStatus {
    if approved then Approved else Rejected
  }

  /** The item's owner approves or rejects a WAITING booking. The checks run
      in a fixed order; an unknown caller is reported as Forbidden. */
  function UpdateStatus(users: seq<User>, bookings: seq<Booking>, userId: int, bookingId: int,
                        approved: bool): (r: Result<(Booking, seq<Booking>)>)
    ensures FindUser(users, userId).None? ==> r == Err(Forbidden)
    ensures FindUser(users, userId).Some? && FindBooking(bookings, bookingId).None? ==> r == Err(NotFound)
    ensures FindUser(users, userId).Some? && FindBooking(bookings, bookingId).Some? ==>
              var prior := FindBooking(bookings, bookingId).value;
              && (prior.item.owner.id != userId ==> r == Err(Forbidden))
              && (prior.item.owner.id == userId && prior.status != Waiting ==> r == Err(BadRequest))
              && (prior.item.owner.id == userId && prior.status == Waiting ==> r.Ok?)
    ensures r.Ok? ==>
              var (b, store) := r.value;
              var prior := FindBooking(bookings, bookingId).value;
              && prior.status == Waiting
              && prior.item.owner.id == userId
              && b == prior.(status := if approved then Approved else Rejected)
              && |store| == |bookings|
              && (forall i :: 0 <= i < |store| && bookings[i].id != bookingId ==> store[i] == bookings[i])
              && (forall i :: 0 <= i < |store| && bookings[i].id == bookingId ==> store[i] == b)
  {
    if FindUser(users, userId).None? then Err(Forbidden)
    else
      var found := FindBooking(bookings, bookingId);
      if found.None? then Err(NotFound)
      else
        var booking := found.value;
        if booking.item.owner.id != userId then Err(Forbidden)
        else if booking.status != Waiting then Err(BadRequest)
        else
          var updated := booking.(status := Decision(approved));
          Ok((updated, Save(bookings, updated, BookingId)))
  }

  /** The decision is made once: after a successful approval or rejection,
      any further call on the same booking by the owner fails with
      BadRequest, so the decided status stays. */
  lemma {:induction false} UpdateStatusIsOneShot(users: seq<User>, bookings: seq<Booking>, userId: int,
                                                 bookingId: int, approved: bool, again: bool)
    requires UpdateStatus(users, bookings, userId, bookingId, approved).Ok?
    ensures var (b, store) := UpdateStatus(users, bookings, userId, bookingId, approved).value;
            && FindBooking(store, bookingId) == Some(b)
            && UpdateStatus(users, store, userId, bookingId, again) == Err(BadRequest)
  {
    var (b, store) := UpdateStatus(users, bookings, userId, bookingId, approved).value;
    var found := FindBooking(store, bookingId);
    assert found.Some? by {
      var prior := FindBooking(bookings, bookingId).value;
      var k :| 0 <= k < |bookings| && bookings[k] == prior;
      assert store[k] == b;
    }
    var k :| 0 <= k < |store| && store[k] == found.value;
    assert bookings[k].id == bookingId;
    assert found.value == b;
  }

  /** Reads one booking; only its booker and its item's owner may. */
  function GetById(users: seq<User>, bookings: seq<Booking>, userId: int, bookingId: int): (r: Result<Booking>)
    ensures FindUser(users, userId).None? ==> r == Err(NotFound)
    ensures FindUser(users, userId).Some? && FindBooking(bookings, bookingId).None? ==> r == Err(NotFound)
    ensures FindUser(users, userId).Some? && FindBooking(bookings, bookingId).Some? ==>
              var b := FindBooking(bookings, bookingId).value;
              (b.booker.id == userId || b.item.owner.id == userId ==> r == Ok(b))
              && (b.booker.id != userId && b.item.owner.id != userId ==> r == Err(Forbidden))
    ensures r.Ok? ==> r.value in bookings && r.value.id == bookingId
                      && (r.value.booker.id == userId || r.value.item.owner.id == userId)
  {
    if FindUser(users, userId).None? then Err(NotFound)
    else
      var found := FindBooking(bookings, bookingId);
      if found.None? then Err(NotFound)
      else if found.value.booker.id != userId && found.value.item.owner.id != userId then Err(Forbidden)
      else Ok(found.value)
  }

  /** Which side of the booking a listing is for. */
  datatype Side = BookerSide | OwnerSide

  function QueryFor(side: Side, st: ListingState, userId: int, now: int): BookingQuery {
    match side
    case BookerSide => BookerQuery(st, userId, now)
    case OwnerSide => OwnerQuery(st, userId, now)
  }

  /** The party of `b` a listing for `side` is about. */
  function PartyOf(side: Side, b: Booking): int {
    match side
    case BookerSide => b.booker.id
    case OwnerSide => b.item.owner.id
  }

  /** The common body of the booker and owner listings: pagination first,
      then the user, then the state; the page is number from / size, sorted
      by start with the latest first, and one `now` serves every state. */
  function ListBookings(side: Side, users: seq<User>, bookings: seq<Booking>, userId: int,
                        state: string, from: int, size: int, now: int): (r: Result<seq<Booking>>)
    ensures from < 0 || size <= 0 ==> r == Err(BadRequest)
    ensures from >= 0 && size > 0 && FindUser(users, userId).None? ==> r == Err(NotFound)
    ensures from >= 0 && size > 0 && FindUser(users, userId).Some? && ParseState(state).None?
            ==> r == Err(BadRequest)
    ensures r.Ok? <==> from >= 0 && size > 0 && FindUser(users, userId).Some? && ParseState(state).Some?
    ensures r.Ok? ==>
              var st := ParseState(state).value;
              && |r.value| <= size
              && DescendingBy(r.value, StartOf)
              && forall i :: 0 <= i < |r.value| ==>
                   && r.value[i] in bookings
                   && PartyOf(side, r.value[i]) == userId
                   && InState(r.value[i], st, now)
    ensures r.Ok? ==>
              var all := FindAll(bookings, QueryFor(side, ParseState(state).value, userId, now));
              var page := PageOf(from, size);
              && |r.value| == (if page.Offset() >= |all| then 0 else Min(size, |all| - page.Offset()))
              && forall i :: 0 <= i < |r.value| ==> r.value[i] == all[page.Offset() + i]
  {
    var bad := ValidatePagination(from, size, BadRequest);
    if bad.Some? then Err(bad.value)
    else if FindUser(users, userId).None? then Err(NotFound)
    else
      var page := PageOf(from, size);
      var st := ParseState(state);
      if st.None? then Err(BadRequest)
      else
        var q := QueryFor(side, st.value, userId, now);
        var rows := Find(bookings, q, page);
        assert forall i :: 0 <= i < |rows| ==> Matches(rows[i], q);
        forall b | Matches(b, q)
          ensures PartyOf(side, b) == userId && InState(b, st.value, now)
        {
          QueriesMeanStates(b, st.value, userId, now);
        }
        Ok(rows)
  }

  /** getAllByBooker: the caller's own bookings in the given state. */
  function GetAllByBooker(users: seq<User>, bookings: seq<Booking>, userId: int,
                          state: string, from: int, size: int, now: int): (r: Result<seq<Booking>>)
    ensures r == ListBookings(BookerSide, users, bookings, userId, state, from, size, now)
    ensures r.Ok? ==> forall i :: 0 <= i < |r.value| ==> r.value[i].booker.id == userId
  {
    ListBookings(BookerSide, users, bookings, userId, state, from, size, now)
  }

  /** getAllByOwner: the bookings of the caller's items in the given state. */
  function GetAllByOwner(users: seq<User>, bookings: seq<Booking>, userId: int,
                         state: string, from: int, size: int, now: int): (r: Result<seq<Booking>>)
    ensures r == ListBookings(OwnerSide, users, bookings, userId, state, from, size, now)
    ensures r.Ok? ==> forall i :: 0 <= i < |r.value| ==> r.value[i].item.owner.id == userId
  {
    ListBookings(OwnerSide, users, bookings, userId, state, from, size, now)
  }

  /** The full (unpaged) result of a listing holds every booking of the
      party in that state, as often as the store holds it, and nothing else. */
  lemma {:induction false} ListingIsComplete(side: Side, bookings: seq<Booking>, st: ListingState,
                                             userId: int, now: int, b: Booking)
    ensures var all := FindAll(bookings, QueryFor(side, st, userId, now));
            && (b in all <==> b in bookings && PartyOf(side, b) == userId && InState(b, st, now))
            && multiset(all)[b] == if PartyOf(side, b) == userId && InState(b, st, now)
                                   then multiset(bookings)[b] else 0
  {
    QueriesMeanStates(b, st, userId, now);
  }
}
