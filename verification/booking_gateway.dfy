/** The gateway in front of the booking endpoints: it fills in defaults,
    validates a create body and the listing parameters, and forwards what it
    accepts to the server unchanged. */
module BookingGateway {
  import opened Common
  import opened Model
  import opened Paging
  import opened BookingService

  // ---------------------------------------------------------------------
  // Creating a booking
  // ---------------------------------------------------------------------

  /** The bean-validation constraints of the create body: every field is
      present and both instants lie strictly after `now`. Nothing relates
      start to end. */
  predicate ValidCreateBody(req: BookingRequestDto, now: int) {
    && req.itemId.Some?
    && req.start.Some? && req.start.value > now
    && req.end.Some? && req.end.value > now
  }

  /** The create endpoint: an invalid body is a bad request; a valid one is
      forwarded as it came. */
  function Create(req: BookingRequestDto, now: int): (r: Result<BookingRequestDto>)
    ensures r.Ok? <==> ValidCreateBody(req, now)
    ensures r.Ok? ==> r.value == req
    ensures r.Err? ==> r.error == BadRequest
  {
    if ValidCreateBody(req, now) then Ok(req) else Err(BadRequest)
  }

  /** A body whose end precedes its start passes the gateway. */
  lemma InvertedRangePassesGateway(itemId: int, now: int)
    ensures Create(BookingRequestDto(Some(itemId), Some(now + 2), Some(now + 1)), now).Ok?
  {
  }

  /** ... and the server then refuses it as a bad request, once the user and
      an available item of somebody else have been found. */
  lemma {:induction false} InvertedRangeRejectedByServer(users: seq<User>, items: seq<Item>, bookings: seq<Booking>,
                                                         userId: int, req: BookingRequestDto, now: int)
    requires Create(req, now).Ok?
    requires req.end.value <= req.start.value
    requires FindUser(users, userId).Some?
    requires FindItem(items, req.itemId.value).Some?
    requires FindItem(items, req.itemId.value).value.available
    requires FindItem(items, req.itemId.value).value.owner.id != userId
    ensures BookingService.Create(users, items, bookings, userId, req, now) == Err(BadRequest)
  {
    assert HasAllFields(req);
  }

  /** With both sides reading the same instant, a body the gateway accepts
      with start before end passes every time check of the server: the
      server's outcome is then decided by the user and the item alone. */
  lemma {:induction false} AcceptedRangePassesServer(users: seq<User>, items: seq<Item>, bookings: seq<Booking>,
                                                     userId: int, req: BookingRequestDto, now: int)
    requires Create(req, now).Ok?
    requires req.start.value < req.end.value
    requires FindUser(users, userId).Some?
    requires FindItem(items, req.itemId.value).Some?
    requires FindItem(items, req.itemId.value).value.available
    requires FindItem(items, req.itemId.value).value.owner.id != userId
    ensures BookingService.Create(users, items, bookings, userId, req, now).Ok?
  {
    assert HasAllFields(req);
    assert now <= req.start.value;
  }

  // ---------------------------------------------------------------------
  // Listings
  // ---------------------------------------------------------------------

  /** Case-insensitive equality of the regular-expression matcher without
      the Unicode-case flag: only ASCII letters fold. */
  predicate EqualsIgnoreAsciiCase(a: string, b: string) {
    |a| == |b| && forall i :: 0 <= i < |a| ==> UpperAscii(a[i]) == UpperAscii(b[i])
  }

  /** `state` matches one of the six keywords in any ASCII case. */
  predicate StateAccepted(state: string) {
    exists st: ListingState :: EqualsIgnoreAsciiCase(state, Keyword(st))
  }

  function ValidateState(state: string): (r: Option<ErrorKind>)
    ensures r.None? <==> StateAccepted(state)
    ensures r.Some? ==> r.value == IllegalArgument
  {
    if EqualsIgnoreAsciiCase(state, "ALL") || EqualsIgnoreAsciiCase(state, "CURRENT")
       || EqualsIgnoreAsciiCase(state, "PAST") || EqualsIgnoreAsciiCase(state, "FUTURE")
       || EqualsIgnoreAsciiCase(state, "WAITING") || EqualsIgnoreAsciiCase(state, "REJECTED")
    then
      assert Keyword(AllBookings) == "ALL" && Keyword(CurrentBookings) == "CURRENT"
             && Keyword(PastBookings) == "PAST" && Keyword(FutureBookings) == "FUTURE"
             && Keyword(WaitingBookings) == "WAITING" && Keyword(RejectedBookings) == "REJECTED";
      None
    else
      assert forall st: ListingState :: !EqualsIgnoreAsciiCase(state, Keyword(st));
      Some(IllegalArgument)
  }

  const DefaultState: string := "ALL"
  const DefaultFrom: int := 0
  const DefaultSize: int := 10

  function OrDefault<T>(o: Option<T>, d: T): T {
    if o.Some? then o.value else d
  }

  /** The state parameter after Spring's `defaultValue`: a missing or empty
      value becomes ALL. (A missing or empty `from` or `size` is `None`.) */
  function StateOrDefault(state: Option<string>): (s: string)
    ensures state.None? || state.value == "" ==> s == DefaultState
    ensures state.Some? && state.value != "" ==> s == state.value
  {
    if state.None? || state.value == "" then DefaultState else state.value
  }

  /** The listing call the gateway forwards to the server. */
  datatype ForwardedListing = ForwardedListing(side: Side, userId: int, state: string, from: int, size: int)

  /** The booker and owner listings: defaults for missing or empty parameters, then
      the page check, then the state check; an accepted call is forwarded
      with the parameters as given. */
  function List(side: Side, userId: int, state: Option<string>, from: Option<int>, size: Option<int>)
    : (r: Result<ForwardedListing>)
    ensures var s := if state.None? || state.value == "" then "ALL" else state.value;
            var f := OrDefault(from, DefaultFrom);
            var z := OrDefault(size, DefaultSize);
            && ((f < 0 || z <= 0) ==> r == Err(IllegalArgument))
            && ((f >= 0 && z > 0 && !StateAccepted(s)) ==> r == Err(IllegalArgument))
            && ((f >= 0 && z > 0 && StateAccepted(s)) ==> r == Ok(ForwardedListing(side, userId, s, f, z)))
  {
    var s := StateOrDefault(state);
    var f := OrDefault(from, DefaultFrom);
    var z := OrDefault(size, DefaultSize);
    var bad := ValidatePagination(f, z, IllegalArgument);
    if bad.Some? then Err(bad.value)
    else
      var badState := ValidateState(s);
      if badState.Some? then Err(badState.value)
      else Ok(ForwardedListing(side, userId, s, f, z))
  }

  function GetAllByBooker(userId: int, state: Option<string>, from: Option<int>, size: Option<int>)
    : (r: Result<ForwardedListing>)
    ensures r == List(BookerSide, userId, state, from, size)
    ensures r.Ok? ==> r.value.side == BookerSide && r.value.userId == userId
    ensures r.Ok? <==> List(OwnerSide, userId, state, from, size).Ok?
  {
    List(BookerSide, userId, state, from, size)
  }

  function GetAllByOwner(userId: int, state: Option<string>, from: Option<int>, size: Option<int>)
    : (r: Result<ForwardedListing>)
    ensures r == List(OwnerSide, userId, state, from, size)
    ensures r.Ok? ==> r.value.side == OwnerSide && r.value.userId == userId
    ensures r.Ok? <==> List(BookerSide, userId, state, from, size).Ok?
  {
    List(OwnerSide, userId, state, from, size)
  }

  /** With no parameters at all, the listing asks for the first ten bookings
      in every state. */
  lemma DefaultsAreFirstPageOfAll(side: Side, userId: int)
    ensures List(side, userId, None, None, None) == Ok(ForwardedListing(side, userId, "ALL", 0, 10))
    ensures List(side, userId, Some(""), None, None) == Ok(ForwardedListing(side, userId, "ALL", 0, 10))
  {
    assert EqualsIgnoreAsciiCase("ALL", Keyword(AllBookings));
  }

  /** For a keyword in upper case, ASCII-case-insensitive equality is
      equality after upper-casing. */
  lemma {:induction false} IgnoreCaseMeansUpperEqual(s: string, st: ListingState)
    ensures EqualsIgnoreAsciiCase(s, Keyword(st)) <==> ToUpperAscii(s) == Keyword(st)
  {
    var k := Keyword(st);
    assert forall i :: 0 <= i < |k| ==> UpperAscii(k[i]) == k[i];
    if ToUpperAscii(s) == k {
      assert forall i :: 0 <= i < |s| ==> UpperAscii(s[i]) == ToUpperAscii(s)[i];
    }
  }

  /** The gateway's state check and the server's state parser accept exactly
      the same strings. */
  lemma {:induction false} GatewayAndServerAgreeOnStates(state: string)
    ensures StateAccepted(state) <==> ParseState(state).Some?
  {
    if StateAccepted(state) {
      var st: ListingState :| EqualsIgnoreAsciiCase(state, Keyword(st));
      IgnoreCaseMeansUpperEqual(state, st);
    }
    if ParseState(state).Some? {
      IgnoreCaseMeansUpperEqual(state, ParseState(state).value);
    }
  }

  /** A listing the gateway forwards passes the server's page and state
      checks, so the server can only still refuse it for an unknown user. */
  lemma {:induction false} ForwardedListingPassesServerChecks(users: seq<User>, bookings: seq<Booking>,
                                                              userId: int, state: Option<string>,
                                                              from: Option<int>, size: Option<int>,
                                                              side: Side, now: int)
    requires List(side, userId, state, from, size).Ok?
    ensures var f := List(side, userId, state, from, size).value;
            var r := ListBookings(f.side, users, bookings, f.userId, f.state, f.from, f.size, now);
            r.Err? ==> r.error == NotFound && FindUser(users, userId).None?
  {
    var f := List(side, userId, state, from, size).value;
    GatewayAndServerAgreeOnStates(f.state);
  }
}
