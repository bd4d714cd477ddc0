/** The successful search response of the remote service, as the two
    repositories' `NetworkBoundResource` overrides see and change it. */
module Api {
  import opened Wrappers
  import opened Tables

  /** The body of a search response (`GetPointsResponse`, `RepoSearchResponse`):
      an object whose `items` and `nextPage` the overrides overwrite. */
  class SearchResponse<P> {
    var total: int
    var items: seq<Row<P>>
    var nextPage: Option<int>

    constructor (total: int, items: seq<Row<P>>, nextPage: Option<int>)
      ensures this.total == total && this.items == items && this.nextPage == nextPage
    {
      this.total := total;
      this.items := items;
      this.nextPage := nextPage;
    }
  }

  /** `ApiSuccessResponse`: the body and the next page parsed from the response's links. */
  datatype ApiSuccessResponse<P> = ApiSuccessResponse(body: SearchResponse<P>, nextPage: Option<int>)

  /** `processResponse` of both search resources: copies the response's next page
      into the body and hands the same body on. */
  method ProcessResponse<P>(response: ApiSuccessResponse<P>) returns (body: SearchResponse<P>)
    modifies response.body
    ensures body == response.body
    ensures body.nextPage == response.nextPage
    ensures body.total == old(body.total) && body.items == old(body.items)
  {
    body := response.body;
    body.nextPage := response.nextPage;
  }

  /** The items with their batch tag set to `n`; nothing else about them changes. */
  function Stamped<P>(items: seq<Row<P>>, n: int): (r: seq<Row<P>>)
    ensures |r| == |items| && Ids(r) == Ids(items)
    ensures forall i :: 0 <= i < |r| ==> r[i].count == n && r[i].data == items[i].data
  {
    seq(|items|, i requires 0 <= i < |items| => items[i].(count := n))
  }

  lemma StampedUnique<P>(items: seq<Row<P>>, n: int)
    requires UniqueIds(items)
    ensures UniqueIds(Stamped(items, n))
  {
    assert forall i :: 0 <= i < |items| ==> Ids(Stamped(items, n))[i] == items[i].id;
  }

  /** `val count = item.items.count(); item.items.forEach { it.count = count }`:
      tags every item with the number of items in the response. */
  method StampCount<P>(item: SearchResponse<P>) returns (count: int)
    modifies item
    ensures count == |old(item.items)|
    ensures item.items == Stamped(old(item.items), count)
    ensures item.total == old(item.total) && item.nextPage == old(item.nextPage)
  {
    count := |item.items|;
    var i := 0;
    while i < |item.items|
      invariant 0 <= i <= |item.items| == count
      invariant item.items[..i] == Stamped(old(item.items), count)[..i]
      invariant item.items[i..] == old(item.items)[i..]
      invariant item.total == old(item.total) && item.nextPage == old(item.nextPage)
    {
      item.items := item.items[i := item.items[i].(count := count)];
      i := i + 1;
    }
  }
}
