/** The item-request store's two queries: a user's own requests, and every
    other user's requests one page at a time, both newest first. */
module ItemRequestRepository {
  import opened Common
  import opened Model
  import opened Sorting
  import opened Paging

  /** findByRequesterIdOrderByCreatedDesc: the requests of `requesterId`,
      each as often as stored, newest first. */
  function FindByRequester(requests: seq<ItemRequest>, requesterId: int): (r: seq<ItemRequest>)
    ensures DescendingBy(r, CreatedOf)
    ensures forall q :: q in r <==> q in requests && q.requester.id == requesterId
    ensures forall q :: multiset(r)[q] == if q.requester.id == requesterId then multiset(requests)[q] else 0
  {
    var kept := Filter(requests, (q: ItemRequest) => q.requester.id == requesterId);
    var r := SortDesc(kept, CreatedOf);
    SameMultisetSameElements(r, kept);
    r
  }

  /** The unpaged result of findAllByOtherUsers: every request whose
      requester is not `userId`, newest first. */
  function FindAllOfOthers(requests: seq<ItemRequest>, userId: int): (r: seq<ItemRequest>)
    ensures DescendingBy(r, CreatedOf)
    ensures forall i :: 0 <= i < |r| ==> r[i].requester.id != userId
    ensures forall q :: q in r <==> q in requests && q.requester.id != userId
    ensures forall q :: multiset(r)[q] == if q.requester.id != userId then multiset(requests)[q] else 0
  {
    var kept := Filter(requests, (q: ItemRequest) => q.requester.id != userId);
    var r := SortDesc(kept, CreatedOf);
    SameMultisetSameElements(r, kept);
    assert forall i :: 0 <= i < |r| ==> r[i] in kept;
    r
  }

  /** findAllByOtherUsers: one page of `FindAllOfOthers`. */
  function FindOthers(requests: seq<ItemRequest>, userId: int, page: PageRequest): (r: seq<ItemRequest>)
    ensures |r| <= page.size
    ensures forall i :: 0 <= i < |r| ==> r[i] in requests && r[i].requester.id != userId
    ensures DescendingBy(r, CreatedOf)
    ensures |r| == if page.Offset() >= |FindAllOfOthers(requests, userId)| then 0
                   else Min(page.size, |FindAllOfOthers(requests, userId)| - page.Offset())
    ensures forall i :: 0 <= i < |r| ==> r[i] == FindAllOfOthers(requests, userId)[page.Offset() + i]
  {
    var all := FindAllOfOthers(requests, userId);
    var r := Slice(all, page);
    SliceOfOrdered(all, page, CreatedOf);
    assert forall i :: 0 <= i < |r| ==> r[i] in all;
    r
  }

  /** The two queries split the store: every stored request is in exactly one
      of the caller's own list and the others' list, as often as it is stored. */
  lemma {:induction false} OwnAndOthersPartition(requests: seq<ItemRequest>, userId: int)
    ensures multiset(FindByRequester(requests, userId)) + multiset(FindAllOfOthers(requests, userId))
            == multiset(requests)
    ensures forall q :: q in requests ==>
              (q in FindByRequester(requests, userId) <==> q !in FindAllOfOthers(requests, userId))
  {
    var own := FindByRequester(requests, userId);
    var others := FindAllOfOthers(requests, userId);
    forall q
      ensures (multiset(own) + multiset(others))[q] == multiset(requests)[q]
    {
    }
  }
}
