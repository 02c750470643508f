/** Concrete scenarios of the service layer: small stores and one instant,
    with the outcome each operation must produce. Days are counted from the
    instant `Now`. */
module Scenarios {
  import opened Common
  import opened Model
  import opened BookingRepository
  import opened BookingService
  import opened Paging

  const Now: int := 100
  const Day: int := 10

  const Owner: User := User(1, "Owner", "owner@example.com")
  const Booker: User := User(2, "Booker", "booker@example.com")
  const Drill: Item := Item(1, "Drill", "Cordless drill", true, Owner, None)

  function ApprovedBooking(id: int, start: int, end: int): Booking {
    Booking(id, start, end, Drill, Booker, BookingStatus.Approved)
  }

  /** A booking that ended yesterday and one that starts tomorrow: the
      booker's ALL listing holds both, the later start first. */
  lemma {:induction false} BookerListingPastAndFuture()
    ensures var past := ApprovedBooking(1, Now - 2 * Day, Now - Day);
            var future := ApprovedBooking(2, Now + Day, Now + 2 * Day);
            var r := GetAllByBooker([Owner, Booker], [past, future], Booker.id, "ALL", 0, 10, Now);
            && r == Ok([future, past])
            && r.value[0].start > r.value[1].start
  {
    var past := ApprovedBooking(1, Now - 2 * Day, Now - Day);
    var future := ApprovedBooking(2, Now + Day, Now + 2 * Day);
    var store := [past, future];
    var all := FindAll(store, QueryFor(BookerSide, AllBookings, Booker.id, Now));
    ParseKeyword(AllBookings);
    assert past in all && future in all;
    assert |all| == 2 by {
      assert multiset(all)[past] == 1 && multiset(all)[future] == 1;
      assert multiset(store) == multiset{past, future};
      forall b | b in multiset(all)
        ensures b == past || b == future
      {
      }
      assert multiset(all) == multiset{past, future};
    }
    assert all == [future, past] by {
      assert all[0] in multiset(all) && all[1] in multiset(all);
      assert all[0].start >= all[1].start;
    }
    assert FindUser([Owner, Booker], Booker.id).Some?;
    assert PageOf(0, 10).Offset() == 0;
    var r := GetAllByBooker([Owner, Booker], store, Booker.id, "ALL", 0, 10, Now);
    assert Keyword(AllBookings) == "ALL";
    assert r.Ok?;
    assert |r.value| == 2;
    assert r.value[0] == all[0] && r.value[1] == all[1];
    assert r.value == all;
    assert r == Ok([future, past]);
  }

  /** A store of one booking: the query returns it exactly when it matches. */
  lemma {:induction false} SingleRowQuery(b: Booking, q: BookingQuery)
    ensures FindAll([b], q) == if Matches(b, q) then [b] else []
  {
    var all := FindAll([b], q);
    if Matches(b, q) {
      assert multiset(all)[b] == 1;
      assert |all| == 1 by {
        forall x | x in multiset(all)
          ensures x == b
        {
        }
        assert multiset(all) == multiset{b};
      }
      assert all[0] in all;
    }
  }

  /** The booker's one-booking listing in state `st` on the first page holds
      the booking exactly when it is in that state. */
  lemma {:induction false} FirstPageOfOne(b: Booking, st: ListingState)
    requires b.booker == Booker
    ensures GetAllByBooker([Owner, Booker], [b], Booker.id, Keyword(st), 0, 10, Now)
            == Ok(if InState(b, st, Now) then [b] else [])
  {
    ParseKeyword(st);
    assert FindUser([Owner, Booker], Booker.id).Some?;
    var q := BookerQuery(st, Booker.id, Now);
    assert QueryFor(BookerSide, st, Booker.id, Now) == q;
    SingleRowQuery(b, q);
    QueriesMeanStates(b, st, Booker.id, Now);
    var all := FindAll([b], q);
    assert PageOf(0, 10).Offset() == 0;
    var r := GetAllByBooker([Owner, Booker], [b], Booker.id, Keyword(st), 0, 10, Now);
    assert r.Ok?;
    assert |r.value| == |all|;
    assert forall i :: 0 <= i < |r.value| ==> r.value[i] == all[i];
    assert r.value == all;
    assert Matches(b, q) == InState(b, st, Now);
  }

  /** One booking around `Now`: it is the only CURRENT one, and neither PAST
      nor FUTURE. */
  lemma {:induction false} CurrentBookingIsOnlyCurrent()
    ensures var current := ApprovedBooking(1, Now - Day, Now + Day);
            var store := [current];
            var users := [Owner, Booker];
            && GetAllByBooker(users, store, Booker.id, "CURRENT", 0, 10, Now) == Ok([current])
            && GetAllByBooker(users, store, Booker.id, "PAST", 0, 10, Now) == Ok([])
            && GetAllByBooker(users, store, Booker.id, "FUTURE", 0, 10, Now) == Ok([])
  {
    var current := ApprovedBooking(1, Now - Day, Now + Day);
    assert InState(current, CurrentBookings, Now);
    assert !InState(current, PastBookings, Now) && !InState(current, FutureBookings, Now);
    FirstPageOfOne(current, CurrentBookings);
    FirstPageOfOne(current, PastBookings);
    FirstPageOfOne(current, FutureBookings);
    assert Keyword(CurrentBookings) == "CURRENT";
    assert Keyword(PastBookings) == "PAST";
    assert Keyword(FutureBookings) == "FUTURE";
  }

  /** The owner approves a waiting booking once; the second decision is
      refused and the first one stays. */
  lemma {:induction false} ApproveOnce()
    ensures var waiting := Booking(1, Now + Day, Now + 2 * Day, Drill, Booker, Waiting);
            var first := UpdateStatus([Owner, Booker], [waiting], Owner.id, 1, true);
            && first == Ok((waiting.(status := BookingStatus.Approved), [waiting.(status := BookingStatus.Approved)]))
            && UpdateStatus([Owner, Booker], first.value.1, Owner.id, 1, false) == Err(BadRequest)
  {
    var waiting := Booking(1, Now + Day, Now + 2 * Day, Drill, Booker, Waiting);
    var decided := waiting.(status := BookingStatus.Approved);
    assert FindUser([Owner, Booker], Owner.id) == Some(Owner);
    assert FindBooking([waiting], 1) == Some(waiting);
    var first := UpdateStatus([Owner, Booker], [waiting], Owner.id, 1, true);
    assert first.value.1 == [decided] by {
      assert |first.value.1| == 1 && first.value.1[0] == decided;
    }
    assert FindBooking([decided], 1) == Some(decided);
  }

  /** The owner cannot book their own drill. */
  lemma {:induction false} OwnerCannotBookOwnItem()
    ensures var req := BookingRequestDto(Some(Drill.id), Some(Now + Day), Some(Now + 2 * Day));
            BookingService.Create([Owner, Booker], [Drill], [], Owner.id, req, Now) == Err(Forbidden)
  {
  }

  /** A third user cannot read a booking between the owner and the booker. */
  lemma {:induction false} StrangerCannotReadBooking()
    ensures var stranger := User(3, "Stranger", "stranger@example.com");
            var b := ApprovedBooking(1, Now + Day, Now + 2 * Day);
            BookingService.GetById([Owner, Booker, stranger], [b], stranger.id, 1) == Err(Forbidden)
  {
  }
}
