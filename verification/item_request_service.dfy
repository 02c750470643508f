/** Item requests: creating one, listing one's own and other users' requests,
    reading one; every request is shown with the items listed in answer to it. */
module ItemRequestService {
  import opened Common
  import opened Model
  import opened Sorting
  import opened Paging
  import opened ItemRequestRepository

  /** A request as shown: its own fields and the items answering it. */
  datatype ItemRequestDto = ItemRequestDto(id: int, description: string, created: int, items: seq<ItemDto>)

  /** The row condition of findByRequestId. */
  function Answers(requestId: int): Item -> bool {
    (it: Item) => it.requestId == Some(requestId)
  }

  /** The row condition of findByRequestIdIn. */
  function AnswersAny(ids: set<int>): Item -> bool {
    (it: Item) => it.requestId.Some? && it.requestId.value in ids
  }

  /** findByRequestId: every stored item answering request `requestId`,
      each as often as it is stored, in store order. */
  function ItemsAnswering(items: seq<Item>, requestId: int): (r: seq<Item>)
    ensures forall i :: 0 <= i < |r| ==> r[i].requestId == Some(requestId)
    ensures forall it :: it in r <==> it in items && it.requestId == Some(requestId)
    ensures forall it :: multiset(r)[it] == if it.requestId == Some(requestId) then multiset(items)[it] else 0
  {
    Filter(items, Answers(requestId))
  }

  /** findByRequestIdIn: every stored item answering one of the requests
      `ids`, each as often as it is stored, in store order. */
  function ItemsAnsweringAny(items: seq<Item>, ids: set<int>): (r: seq<Item>)
    ensures forall it :: it in r <==> it in items && it.requestId.Some? && it.requestId.value in ids
    ensures forall it :: multiset(r)[it] ==
              if it.requestId.Some? && it.requestId.value in ids then multiset(items)[it] else 0
  {
    Filter(items, AnswersAny(ids))
  }

  /** The items answering request `requestId`, projected one by one: one
      entry per stored item naming the request. */
  function ItemsFor(items: seq<Item>, requestId: int): (r: seq<ItemDto>)
    ensures |r| == |ItemsAnswering(items, requestId)|
    ensures forall i :: 0 <= i < |r| ==> r[i] == ToItemDto(ItemsAnswering(items, requestId)[i])
    ensures forall i :: 0 <= i < |r| ==> r[i].requestId == Some(requestId)
    ensures forall d :: d in r <==> exists it :: it in items && it.requestId == Some(requestId) && ToItemDto(it) == d
  {
    Project(ItemsAnswering(items, requestId), ToItemDto)
  }

  /** The single-request conversion: the request's fields and its items. */
  function WithItems(q: ItemRequest, items: seq<Item>): ItemRequestDto {
    ItemRequestDto(q.id, q.description, q.created, ItemsFor(items, q.id))
  }

  /** One batched item query for all the given requests, grouped by request
      id and projected; only requests that have items get an entry. */
  function ItemsByRequest(items: seq<Item>, ids: set<int>): (m: map<int, seq<ItemDto>>)
    ensures forall id :: id in m <==> id in ids && exists it :: it in items && it.requestId == Some(id)
  {
    var batch := ItemsAnsweringAny(items, ids);
    map id | id in ids && (exists it :: it in batch && it.requestId == Some(id)) :: ItemsFor(batch, id)
  }

  /** The grouped batch, with an empty list as default, gives the same items
      as the single-request query. */
  lemma {:induction false} GroupedItemsMatchSingle(items: seq<Item>, ids: set<int>, id: int)
    requires id in ids
    ensures GetOrDefault(ItemsByRequest(items, ids), id, []) == ItemsFor(items, id)
  {
    var batch := ItemsAnsweringAny(items, ids);
    FilterOfFilter(items, AnswersAny(ids), Answers(id));
    assert ItemsAnswering(batch, id) == ItemsAnswering(items, id);
  }

  /** The batch conversion: one item query for all requests, then each
      request is shown, in order, exactly as the single conversion shows it. */
  function ToDtosWithItems(requests: seq<ItemRequest>, items: seq<Item>): (r: seq<ItemRequestDto>)
    ensures |r| == |requests|
    ensures forall i :: 0 <= i < |r| ==> r[i] == WithItems(requests[i], items)
  {
    if |requests| == 0 then []
    else
      var ids := set i | 0 <= i < |requests| :: requests[i].id;
      var grouped := ItemsByRequest(items, ids);
      var r := seq(|requests|, i requires 0 <= i < |requests| =>
                     var q := requests[i];
                     ItemRequestDto(q.id, q.description, q.created, GetOrDefault(grouped, q.id, [])));
      forall i | 0 <= i < |requests|
        ensures GetOrDefault(grouped, requests[i].id, []) == ItemsFor(items, requests[i].id)
      {
        GroupedItemsMatchSingle(items, ids, requests[i].id);
      }
      r
  }

  /** Every item's request reference names a stored request. */
  predicate ItemRefsResolve(items: seq<Item>, requests: seq<ItemRequest>) {
    forall it :: it in items && it.requestId.Some? ==> exists q :: q in requests && q.id == it.requestId.value
  }

  /** Creates a request by `userId` at time `now`; an unknown user is NotFound. */
  function Create(users: seq<User>, requests: seq<ItemRequest>, items: seq<Item>,
                  userId: int, description: string, now: int): (r: Result<(ItemRequestDto, seq<ItemRequest>)>)
    ensures FindUser(users, userId).None? <==> r == Err(NotFound)
    ensures FindUser(users, userId).Some? ==> r.Ok?
    ensures r.Ok? ==>
              var (d, store) := r.value;
              && |store| == |requests| + 1
              && store[..|requests|] == requests
              && var q := store[|requests|];
              && q.description == description
              && q.requester == FindUser(users, userId).value
              && q.created == now
              && (forall p :: p in requests ==> p.id != q.id)
              && d == WithItems(q, items)
  {
    var found := FindUser(users, userId);
    if found.None? then Err(NotFound)
    else
      var q := ItemRequest(FreshId(requests, RequestId), description, found.value, now);
      Ok((WithItems(q, items), requests + [q]))
  }

  /** A new request has no items yet, as long as every item's request
      reference names a request that already existed. */
  lemma NewRequestHasNoItems(users: seq<User>, requests: seq<ItemRequest>, items: seq<Item>,
                                                userId: int, description: string, now: int)
    requires ItemRefsResolve(items, requests)
    requires Create(users, requests, items, userId, description, now).Ok?
    ensures Create(users, requests, items, userId, description, now).value.0.items == []
  {
  }

  /** The caller's own requests, newest first, each with its items. */
  function GetOwnRequests(users: seq<User>, requests: seq<ItemRequest>, items: seq<Item>,
                          userId: int): (r: Result<seq<ItemRequestDto>>)
    ensures FindUser(users, userId).None? <==> r == Err(NotFound)
    ensures FindUser(users, userId).Some? ==> r.Ok?
    ensures r.Ok? ==>
              var own := FindByRequester(requests, userId);
              && |r.value| == |own|
              && (forall i :: 0 <= i < |r.value| ==>
                    own[i] in requests && own[i].requester.id == userId && r.value[i] == WithItems(own[i], items))
              && (forall i, j :: 0 <= i < j < |r.value| ==> r.value[i].created >= r.value[j].created)
              && (forall q :: q in requests && q.requester.id == userId ==> WithItems(q, items) in r.value)
  {
    if FindUser(users, userId).None? then Err(NotFound)
    else
      OwnRequestsShown(requests, items, userId);
      Ok(ToDtosWithItems(FindByRequester(requests, userId), items))
  }

  lemma OwnRequestsShown(requests: seq<ItemRequest>, items: seq<Item>, userId: int)
    ensures var own := FindByRequester(requests, userId);
            var r := ToDtosWithItems(own, items);
            && |r| == |own|
            && (forall i :: 0 <= i < |r| ==>
                  own[i] in requests && own[i].requester.id == userId && r[i] == WithItems(own[i], items))
            && (forall i, j :: 0 <= i < j < |r| ==> r[i].created >= r[j].created)
            && (forall q :: q in requests && q.requester.id == userId ==> WithItems(q, items) in r)
  {
    var own := FindByRequester(requests, userId);
    forall i | 0 <= i < |own|
      ensures own[i] in requests && own[i].requester.id == userId
    {
      assert own[i] in own;
    }
    DtosKeepOrder(own, items);
    DtosCoverRequests(own, items);
  }

  /** The conversion keeps the newest-first order of its input. */
  lemma DtosKeepOrder(requests: seq<ItemRequest>, items: seq<Item>)
    requires DescendingBy(requests, CreatedOf)
    ensures var r := ToDtosWithItems(requests, items);
            forall i, j :: 0 <= i < j < |r| ==> r[i].created >= r[j].created
  {
    var r := ToDtosWithItems(requests, items);
    forall i, j | 0 <= i < j < |r|
      ensures r[i].created >= r[j].created
    {
      assert CreatedOf(requests[i]) >= CreatedOf(requests[j]);
    }
  }

  /** Every converted request appears in the conversion's result. */
  lemma DtosCoverRequests(requests: seq<ItemRequest>, items: seq<Item>)
    ensures forall q :: q in requests ==> WithItems(q, items) in ToDtosWithItems(requests, items)
  {
    var r := ToDtosWithItems(requests, items);
    forall q | q in requests
      ensures WithItems(q, items) in r
    {
      var k :| 0 <= k < |requests| && requests[k] == q;
      assert r[k] == WithItems(q, items);
    }
  }

  /** Other users' requests, newest first, page number from / size. The user
      is looked up before the page parameters are checked. */
  function GetOtherUsersRequests(users: seq<User>, requests: seq<ItemRequest>, items: seq<Item>,
                                 userId: int, from: int, size: int): (r: Result<seq<ItemRequestDto>>)
    ensures FindUser(users, userId).None? ==> r == Err(NotFound)
    ensures FindUser(users, userId).Some? && (from < 0 || size <= 0) ==> r == Err(IllegalArgument)
    ensures r.Ok? <==> FindUser(users, userId).Some? && from >= 0 && size > 0
    ensures r.Ok? ==>
              var all := FindAllOfOthers(requests, userId);
              var page := PageOf(from, size);
              && |r.value| <= size
              && |r.value| == (if page.Offset() >= |all| then 0 else Min(size, |all| - page.Offset()))
              && forall i :: 0 <= i < |r.value| ==>
                   && all[page.Offset() + i] in requests
                   && all[page.Offset() + i].requester.id != userId
                   && r.value[i] == WithItems(all[page.Offset() + i], items)
    ensures r.Ok? ==> forall i, j :: 0 <= i < j < |r.value| ==> r.value[i].created >= r.value[j].created
  {
    if FindUser(users, userId).None? then Err(NotFound)
    else
      var bad := ValidatePagination(from, size, IllegalArgument);
      if bad.Some? then Err(bad.value)
      else
        OthersPageShown(requests, items, userId, PageOf(from, size));
        Ok(ToDtosWithItems(FindOthers(requests, userId, PageOf(from, size)), items))
  }

  lemma OthersPageShown(requests: seq<ItemRequest>, items: seq<Item>, userId: int, page: PageRequest)
    ensures var all := FindAllOfOthers(requests, userId);
            var r := ToDtosWithItems(FindOthers(requests, userId, page), items);
            && |r| <= page.size
            && |r| == (if page.Offset() >= |all| then 0 else Min(page.size, |all| - page.Offset()))
            && (forall i :: 0 <= i < |r| ==>
                  && all[page.Offset() + i] in requests
                  && all[page.Offset() + i].requester.id != userId
                  && r[i] == WithItems(all[page.Offset() + i], items))
            && (forall i, j :: 0 <= i < j < |r| ==> r[i].created >= r[j].created)
  {
    var all := FindAllOfOthers(requests, userId);
    var rows := FindOthers(requests, userId, page);
    DtosKeepOrder(rows, items);
  }

  /** One request by id, for any existing user. */
  function GetById(users: seq<User>, requests: seq<ItemRequest>, items: seq<Item>,
                   userId: int, requestId: int): (r: Result<ItemRequestDto>)
    ensures FindUser(users, userId).None? ==> r == Err(NotFound)
    ensures FindUser(users, userId).Some? && FindRequest(requests, requestId).None? ==> r == Err(NotFound)
    ensures r.Ok? <==> FindUser(users, userId).Some? && FindRequest(requests, requestId).Some?
    ensures r.Ok? ==>
              && r.value.id == requestId
              && (exists q :: q in requests && q.id == requestId && r.value == WithItems(q, items))
              && forall d :: d in r.value.items <==>
                   exists it :: it in items && it.requestId == Some(requestId) && ToItemDto(it) == d
  {
    if FindUser(users, userId).None? then Err(NotFound)
    else
      var found := FindRequest(requests, requestId);
      if found.None? then Err(NotFound)
      else Ok(WithItems(found.value, items))
  }

  /** A request just created can be read back by its creator, with the same
      fields and items. */
  lemma CreateThenGetById(users: seq<User>, requests: seq<ItemRequest>, items: seq<Item>,
                          userId: int, description: string, now: int)
    requires FindUser(users, userId).Some?
    ensures var (d, store) := Create(users, requests, items, userId, description, now).value;
            GetById(users, store, items, userId, d.id) == Ok(d)
  {
    var (d, store) := Create(users, requests, items, userId, description, now).value;
    var q := store[|requests|];
    assert forall p :: p in store && p.id == d.id ==> p == q;
  }
}
