/** The booking store's query surface. Each derived query of the repository is
    a constructor of `BookingQuery`; `Matches` gives its row condition, and
    `Find` / `FindAll` filter the store, order by start (latest first) and, for
    paged queries, cut out one page. All time comparisons are strict. */
module BookingRepository {
  import opened Common
  import opened Model
  import opened Sorting
  import opened Paging

  /** One constructor per repository query method, named after it. */
  datatype BookingQuery =
    | BookerAll(bookerId: int)                                       // findByBookerIdOrderByStartDesc
    | BookerEndBefore(bookerId: int, end: int)                       // findByBookerIdAndEndIsBefore...
    | BookerStartAfter(bookerId: int, start: int)                    // findByBookerIdAndStartIsAfter...
    | BookerStatus(bookerId: int, status: BookingStatus)             // findByBookerIdAndStatus...
    | BookerStartBeforeEndAfter(bookerId: int, start: int, end: int) // findByBookerIdAndStartIsBeforeAndEndIsAfter...
    | OwnerAll(ownerId: int)                                         // findByItemOwnerIdOrderByStartDesc
    | OwnerEndBefore(ownerId: int, end: int)                         // findByItemOwnerIdAndEndIsBefore...
    | OwnerStartAfter(ownerId: int, start: int)                      // findByItemOwnerIdAndStartIsAfter...
    | OwnerStatus(ownerId: int, status: BookingStatus)               // findByItemOwnerIdAndStatus...
    | OwnerCurrent(ownerId: int, currentTime: int)                   // findByItemOwnerIdAndStartIsBeforeAndEndIsAfter...
    | ItemAll(itemId: int)                                           // findByItemIdOrderByStartDesc
    | ItemEndBefore(itemId: int, end: int)                           // findByItemIdAndEndIsBefore...
    | ItemStartAfter(itemId: int, start: int)                        // findByItemIdAndStartIsAfter...
    | ItemBookerEndBefore(itemId: int, bookerId: int, end: int)      // findByItemIdAndBookerIdAndEndIsBefore

  /** The row condition of each query. */
  predicate Matches(b: Booking, q: BookingQuery) {
    match q
    case BookerAll(u) => b.booker.id == u
    case BookerEndBefore(u, t) => b.booker.id == u && b.end < t
    case BookerStartAfter(u, t) => b.booker.id == u && b.start > t
    case BookerStatus(u, s) => b.booker.id == u && b.status == s
    case BookerStartBeforeEndAfter(u, s, e) => b.booker.id == u && b.start < s && b.end > e
    case OwnerAll(o) => b.item.owner.id == o
    case OwnerEndBefore(o, t) => b.item.owner.id == o && b.end < t
    case OwnerStartAfter(o, t) => b.item.owner.id == o && b.start > t
    case OwnerStatus(o, s) => b.item.owner.id == o && b.status == s
    case OwnerCurrent(o, t) => b.item.owner.id == o && b.start < t && b.end > t
    case ItemAll(i) => b.item.id == i
    case ItemEndBefore(i, t) => b.item.id == i && b.end < t
    case ItemStartAfter(i, t) => b.item.id == i && b.start > t
    case ItemBookerEndBefore(i, u, t) => b.item.id == i && b.booker.id == u && b.end < t
  }

  /** Every row of `store` matching `q`, each as often as it is stored,
      ordered by start with the latest first. */
  function FindAll(store: seq<Booking>, q: BookingQuery): (r: seq<Booking>)
    ensures DescendingBy(r, StartOf)
    ensures forall i :: 0 <= i < |r| ==> Matches(r[i], q)
    ensures forall b :: b in r <==> b in store && Matches(b, q)
    ensures forall b :: multiset(r)[b] == if Matches(b, q) then multiset(store)[b] else 0
  {
    var kept := Filter(store, b => Matches(b, q));
    var r := SortDesc(kept, StartOf);
    SameMultisetSameElements(r, kept);
    assert forall i :: 0 <= i < |r| ==> r[i] in kept;
    r
  }

  /** One page of `FindAll(store, q)`: the rows at positions
      page.Offset() .. page.Offset() + page.size - 1 of the ordered result. */
  function Find(store: seq<Booking>, q: BookingQuery, page: PageRequest): (r: seq<Booking>)
    ensures |r| <= page.size
    ensures forall i :: 0 <= i < |r| ==> r[i] in store && Matches(r[i], q)
    ensures DescendingBy(r, StartOf)
    ensures |r| == if page.Offset() >= |FindAll(store, q)| then 0
                   else Min(page.size, |FindAll(store, q)| - page.Offset())
    ensures forall i :: 0 <= i < |r| ==> r[i] == FindAll(store, q)[page.Offset() + i]
  {
    var all := FindAll(store, q);
    var r := Slice(all, page);
    SliceOfOrdered(all, page, StartOf);
    assert forall i :: 0 <= i < |r| ==> r[i] in all;
    r
  }

  /** The unordered query (findByItemIdAndBookerIdAndEndIsBefore carries no
      ORDER BY): the matching rows in store order. */
  function FindUnordered(store: seq<Booking>, q: BookingQuery): (r: seq<Booking>)
    ensures forall b :: b in r <==> b in store && Matches(b, q)
  {
    Filter(store, b => Matches(b, q))
  }

  /** Booker queries return only the booker's bookings; owner queries only
      bookings of items the owner lists. */
  predicate IsBookerQuery(q: BookingQuery) {
    q.BookerAll? || q.BookerEndBefore? || q.BookerStartAfter? || q.BookerStatus? || q.BookerStartBeforeEndAfter?
  }

  predicate IsOwnerQuery(q: BookingQuery) {
    q.OwnerAll? || q.OwnerEndBefore? || q.OwnerStartAfter? || q.OwnerStatus? || q.OwnerCurrent?
  }

  lemma SideQueriesSelectTheirSide(store: seq<Booking>, q: BookingQuery, page: PageRequest)
    ensures IsBookerQuery(q) ==> forall i :: 0 <= i < |Find(store, q, page)| ==> Find(store, q, page)[i].booker.id == q.bookerId
    ensures IsOwnerQuery(q) ==> forall i :: 0 <= i < |Find(store, q, page)| ==> Find(store, q, page)[i].item.owner.id == q.ownerId
  {
  }

  /** Time bounds are strict: a booking that ends exactly at `t` is not
      "end before t", and one that starts exactly at `t` is neither "start
      after t" nor "start before t". */
  lemma StrictTimeBounds(b: Booking, u: int, o: int, t: int)
    ensures b.end == t ==> !Matches(b, BookerEndBefore(u, t)) && !Matches(b, OwnerEndBefore(o, t))
    ensures b.start == t ==> !Matches(b, BookerStartAfter(u, t)) && !Matches(b, OwnerStartAfter(o, t))
    ensures b.start == t ==> !Matches(b, BookerStartBeforeEndAfter(u, t, t)) && !Matches(b, OwnerCurrent(o, t))
    ensures b.end == t ==> !Matches(b, BookerStartBeforeEndAfter(u, t, t)) && !Matches(b, OwnerCurrent(o, t))
  {
  }

  /** The owner's "current" query has the same time condition as the
      booker's one called with the same instant twice: it does bound the end. */
  lemma OwnerCurrentBoundsEnd(b: Booking, t: int)
    ensures Matches(b, OwnerCurrent(b.item.owner.id, t)) <==> Matches(b, BookerStartBeforeEndAfter(b.booker.id, t, t))
    ensures Matches(b, OwnerCurrent(b.item.owner.id, t)) ==> b.end > t
  {
  }
}
