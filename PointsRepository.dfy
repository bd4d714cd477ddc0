/** `PointsRepository`: how a search response of points is written to the
    database (tagged with its size, the previous batch of that size deleted,
    inserted in chunks of 999) and how points are read back. */
module PointsRepository {
  import opened Wrappers
  import opened Tables
  import opened PointDao
  import opened Api
  import Decimal

  /** `addPoints` inserts at most this many points per statement. */
  const ChunkSize := 999

  /** The sub-lists `addPoints` hands to `insertPoints` from index `i` on:
      `for (i in 0..count step 999)` runs while `i <= count` and takes
      `subList(i, min(i + 999, count))`. */
  function ChunksFrom<T>(s: seq<T>, i: nat): seq<seq<T>>
    requires i <= |s|
    decreases |s| - i
  {
    var end := if i + ChunkSize < |s| then i + ChunkSize else |s|;
    [s[i..end]] + if i + ChunkSize <= |s| then ChunksFrom(s, i + ChunkSize) else []
  }

  function Chunks<T>(s: seq<T>): seq<seq<T>>
  {
    ChunksFrom(s, 0)
  }

  function Min(a: int, b: int): int
  {
    if a < b then a else b
  }

  /** The lists joined end to end. */
  function Concat<T>(cs: seq<seq<T>>): seq<T>
  {
    if cs == [] then [] else Concat(cs[..|cs| - 1]) + cs[|cs| - 1]
  }

  lemma {:induction false} ConcatCons<T>(c: seq<T>, cs: seq<seq<T>>)
    ensures Concat([c] + cs) == c + Concat(cs)
  {
    if cs != [] {
      var init := cs[..|cs| - 1];
      assert ([c] + cs)[..|[c] + cs| - 1] == [c] + init;
      ConcatCons(c, init);
    }
  }

  /** Chunk `k` from index `i` starts at `i + 999 k` and stops 999 items later or
      at the end, whichever comes first; there is one chunk per started block of
      999 plus the one that starts at or before the end. */
  lemma {:induction false} ChunksFromShape<T>(s: seq<T>, i: nat)
    requires i <= |s|
    decreases |s| - i
    ensures |ChunksFrom(s, i)| == (|s| - i) / ChunkSize + 1
    ensures forall k :: 0 <= k < |ChunksFrom(s, i)| ==>
      i + k * ChunkSize <= |s| &&
      ChunksFrom(s, i)[k] == s[i + k * ChunkSize .. Min(i + k * ChunkSize + ChunkSize, |s|)]
  {
    if i + ChunkSize <= |s| {
      ChunksFromShape(s, i + ChunkSize);
      var rest := ChunksFrom(s, i + ChunkSize);
      forall k | 1 <= k < |ChunksFrom(s, i)|
        ensures i + k * ChunkSize <= |s|
        ensures ChunksFrom(s, i)[k] == s[i + k * ChunkSize .. Min(i + k * ChunkSize + ChunkSize, |s|)]
      {
        assert ChunksFrom(s, i)[k] == rest[k - 1];
        assert i + ChunkSize + (k - 1) * ChunkSize == i + k * ChunkSize;
      }
    }
  }

  /** `addPoints` makes `|s| / 999 + 1` calls, each with at most 999 points, and
      every call but the last has exactly 999. */
  lemma ChunkSizes<T>(s: seq<T>)
    ensures |Chunks(s)| == |s| / ChunkSize + 1
    ensures forall k :: 0 <= k < |Chunks(s)| ==> |Chunks(s)[k]| <= ChunkSize
    ensures forall k :: 0 <= k < |Chunks(s)| - 1 ==> |Chunks(s)[k]| == ChunkSize
  {
    ChunksFromShape(s, 0);
  }

  /** The last call gets an empty list exactly when the number of points is a
      multiple of 999 (zero included). */
  lemma LastChunkEmpty<T>(s: seq<T>)
    ensures Chunks(s)[|Chunks(s)| - 1] == [] <==> |s| % ChunkSize == 0
  {
    ChunksFromShape(s, 0);
    var last := |Chunks(s)| - 1;
    assert last * ChunkSize == |s| - |s| % ChunkSize;
    assert |Chunks(s)[last]| == |s| % ChunkSize;
  }

  lemma {:induction false} ChunksFromCover<T>(s: seq<T>, i: nat)
    requires i <= |s|
    ensures Concat(ChunksFrom(s, i)) == s[i..]
    decreases |s| - i
  {
    var end := if i + ChunkSize < |s| then i + ChunkSize else |s|;
    if i + ChunkSize <= |s| {
      ChunksFromCover(s, i + ChunkSize);
      ConcatCons(s[i..end], ChunksFrom(s, i + ChunkSize));
      assert s[i..end] + s[end..] == s[i..];
    } else {
      ConcatCons(s[i..end], []);
      assert Concat<T>([]) == [];
    }
  }

  /** The chunks together are the whole list, in order: every point is inserted
      exactly once. */
  lemma ChunksCover<T>(s: seq<T>)
    ensures Concat(Chunks(s)) == s
  {
    ChunksFromCover(s, 0);
  }

  /** Every row that inserting a tagged batch leaves behind carries the tag. */
  lemma LatestTagged<P>(items: seq<Row<P>>, n: int)
    ensures var c := Decimal.IntToString(n);
      WithCount(Latest(Stamped(items, n)), c) == Latest(Stamped(items, n))
  {
    var c := Decimal.IntToString(n);
    var batch := Stamped(items, n);
    LatestFrom(batch);
    forall i | 0 <= i < |Latest(batch)|
      ensures Has(c)(Latest(batch)[i])
    {
      var k :| 0 <= k < |batch| && batch[k] == Latest(batch)[i];
    }
    FilterKeepsAll(Latest(batch), Has(c));
  }

  /** After deleting the rows tagged `c`, none is tagged `c`. */
  lemma DeletedUntagged<P>(rs: seq<Row<P>>, ids: seq<int>, c: string)
    ensures WithCount(RemoveIds(WithoutCount(rs, c), ids), c) == []
  {
    FilterKeepsNone(RemoveIds(WithoutCount(rs, c), ids), Has(c));
  }

  /** After `saveCallResult` has tagged a response of `n` points with `n`, deleted
      the rows tagged `n` and inserted the response, the rows tagged `n` are
      exactly the response (the last point of each id). */
  lemma BatchReload<P>(rs: seq<Row<P>>, items: seq<Row<P>>, n: int)
    requires UniqueIds(rs)
    ensures var c := Decimal.IntToString(n);
      WithCount(UpsertAll(WithoutCount(rs, c), Stamped(items, n)), c) == Latest(Stamped(items, n))
  {
    var c := Decimal.IntToString(n);
    var batch := Stamped(items, n);
    var rest := WithoutCount(rs, c);
    UpsertAllSplit(rest, batch);
    FilterConcat(RemoveIds(rest, Ids(batch)), Latest(batch), Has(c));
    DeletedUntagged(rs, Ids(batch), c);
    LatestTagged(items, n);
  }

  lemma SliceUnique<P>(s: seq<Row<P>>, i: int, j: int)
    requires UniqueIds(s) && 0 <= i <= j <= |s|
    ensures UniqueIds(s[i..j])
  {
    assert forall a :: 0 <= a < j - i ==> s[i..j][a] == s[i + a];
  }

  /** What `addPoints` has gathered after the calls `calls`: `readBack[k]` is
      what reading back call `k` returned, a permutation of `Latest(calls[k])`,
      and `list` is the read-backs joined. */
  ghost predicate Collected<P>(calls: seq<seq<Row<P>>>, readBack: seq<seq<Row<P>>>, list: seq<Row<P>>)
  {
    && |readBack| == |calls| && list == Concat(readBack)
    && (forall k :: 0 <= k < |calls| ==> multiset(readBack[k]) == multiset(Latest(calls[k])))
  }

  /** Each read-back keeps some rows of its chunk and adds none, so the read-backs
      joined keep some rows of the chunks joined. */
  lemma {:induction false} ReadBacksWithin<P>(calls: seq<seq<Row<P>>>, readBack: seq<seq<Row<P>>>)
    requires |readBack| == |calls|
    requires forall k :: 0 <= k < |calls| ==> multiset(readBack[k]) == multiset(Latest(calls[k]))
    ensures multiset(Concat(readBack)) <= multiset(Concat(calls))
  {
    if calls != [] {
      var n := |calls| - 1;
      var calls', readBack' := calls[..n], readBack[..n];
      assert forall k :: 0 <= k < n ==> calls'[k] == calls[k] && readBack'[k] == readBack[k];
      ReadBacksWithin(calls', readBack');
      LatestSubMultiset(calls[n]);
      assert Concat(calls) == Concat(calls') + calls[n];
      assert Concat(readBack) == Concat(readBack') + readBack[n];
      AppendBound(Concat(readBack'), readBack[n], Concat(calls'), calls[n]);
    }
  }

  /** When no call repeats an id, the rows read back are exactly the rows inserted. */
  lemma {:induction false} ReadBacksExact<P>(calls: seq<seq<Row<P>>>, readBack: seq<seq<Row<P>>>)
    requires |readBack| == |calls|
    requires forall k :: 0 <= k < |calls| ==> multiset(readBack[k]) == multiset(Latest(calls[k]))
    requires forall k :: 0 <= k < |calls| ==> UniqueIds(calls[k])
    ensures multiset(Concat(readBack)) == multiset(Concat(calls))
  {
    if calls != [] {
      var n := |calls| - 1;
      var calls', readBack' := calls[..n], readBack[..n];
      assert forall k :: 0 <= k < n ==> calls'[k] == calls[k] && readBack'[k] == readBack[k];
      ReadBacksExact(calls', readBack');
      LatestOfUnique(calls[n]);
      assert Concat(calls) == Concat(calls') + calls[n];
      assert Concat(readBack) == Concat(readBack') + readBack[n];
    }
  }

  /** The chunks of a list with distinct ids have distinct ids. */
  lemma ChunksUnique<P>(points: seq<Row<P>>)
    requires UniqueIds(points)
    ensures forall k :: 0 <= k < |Chunks(points)| ==> UniqueIds(Chunks(points)[k])
  {
    ChunksFromShape(points, 0);
    forall k | 0 <= k < |Chunks(points)|
      ensures UniqueIds(Chunks(points)[k])
    {
      SliceUnique(points, k * ChunkSize, Min(k * ChunkSize + ChunkSize, |points|));
    }
  }

  /** Once every chunk has been inserted, the points read back are some of the
      inserted points, and exactly them when their ids are all different. */
  lemma CollectedAll<P>(points: seq<Row<P>>, calls: seq<seq<Row<P>>>, readBack: seq<seq<Row<P>>>, list: seq<Row<P>>)
    requires calls == Chunks(points) && Collected(calls, readBack, list)
    ensures Concat(calls) == points
    ensures multiset(list) <= multiset(points)
    ensures UniqueIds(points) ==> multiset(list) == multiset(points)
  {
    ChunksCover(points);
    ReadBacksWithin(calls, readBack);
    if UniqueIds(points) {
      ChunksUnique(points);
      ReadBacksExact(calls, readBack);
    }
  }

  /** The chunk that starts at `i` is the next one of `Chunks(s)`. */
  lemma NextChunk<T>(s: seq<T>, i: nat, calls: seq<seq<T>>)
    requires i <= |s| && i == |calls| * ChunkSize
    requires |calls| <= |Chunks(s)| && calls == Chunks(s)[..|calls|]
    ensures |calls| < |Chunks(s)|
    ensures calls + [s[i..Min(i + ChunkSize, |s|)]] == Chunks(s)[..|calls| + 1]
  {
    ChunksFromShape(s, 0);
    var k := |calls|;
    assert Chunks(s)[k] == s[i..Min(i + ChunkSize, |s|)];
    assert Chunks(s)[..k + 1] == Chunks(s)[..k] + [Chunks(s)[k]];
  }

  /** Once `i` has passed the end, every chunk has been taken. */
  lemma ChunksDone<T>(s: seq<T>, calls: seq<seq<T>>)
    requires |calls| * ChunkSize > |s|
    requires |calls| <= |Chunks(s)| && calls == Chunks(s)[..|calls|]
    ensures calls == Chunks(s)
  {
    ChunksFromShape(s, 0);
  }

  lemma CollectStep<P>(calls: seq<seq<Row<P>>>, readBack: seq<seq<Row<P>>>, list: seq<Row<P>>,
                       chunk: seq<Row<P>>, got: seq<Row<P>>)
    requires Collected(calls, readBack, list)
    requires multiset(got) == multiset(Latest(chunk))
    ensures Collected(calls + [chunk], readBack + [got], list + got)
    ensures Concat(calls + [chunk]) == Concat(calls) + chunk
  {
    var calls', readBack' := calls + [chunk], readBack + [got];
    forall k | 0 <= k < |calls'|
      ensures multiset(readBack'[k]) == multiset(Latest(calls'[k]))
    {
      if k < |calls| {
        assert readBack'[k] == readBack[k] && calls'[k] == calls[k];
      }
    }
    assert Concat(readBack') == Concat(readBack) + got;
  }

  class PointsRepository {
    const pointDao: Dao<Coords>

    constructor (pointDao: Dao<Coords>)
      ensures this.pointDao == pointDao
    {
      this.pointDao := pointDao;
    }

    /** `loadPoints(owner)`: the points tagged `owner`, by ascending `x`. */
    function LoadPoints(owner: string): (r: seq<Point>)
      reads pointDao
      ensures multiset(r) == multiset(WithCount(pointDao.rows, owner))
      ensures forall i, j :: 0 <= i < j < |r| ==> r[i].data.x <= r[j].data.x
    {
      PointDao.LoadPoints(pointDao, owner)
    }

    /** One turn of `addPoints`' loop: `insertPoints(chunk)`, then
        `getPointsFromRowids` with the row-ids it returned. */
    method InsertChunk(chunk: seq<Point>) returns (got: seq<Point>)
      requires pointDao.Valid()
      modifies pointDao
      ensures pointDao.Valid()
      ensures pointDao.rows == UpsertAll(old(pointDao.rows), chunk)
      ensures pointDao.results == old(pointDao.results)
      ensures multiset(got) == multiset(Latest(chunk))
    {
      var ids := pointDao.InsertRows(chunk);
      got := pointDao.GetFromRowids(ids);
      ReReadAfterInsert(old(pointDao.rows), chunk);
    }

    /** `addPoints`: inserts the points 999 at a time and collects what reading
        each chunk back by its row-ids returns. `calls` are the lists passed to
        `insertPoints`, `readBack` what each `getPointsFromRowids` returned. */
    method AddPoints(points: seq<Point>) returns (list: seq<Point>, ghost calls: seq<seq<Point>>, ghost readBack: seq<seq<Point>>)
      requires pointDao.Valid()
      modifies pointDao
      ensures pointDao.Valid()
      ensures calls == Chunks(points) && Concat(calls) == points
      ensures pointDao.rows == UpsertAll(old(pointDao.rows), Concat(calls))
      ensures pointDao.results == old(pointDao.results)
      ensures |readBack| == |calls| && list == Concat(readBack)
      ensures forall k :: 0 <= k < |calls| ==> multiset(readBack[k]) == multiset(Latest(calls[k]))
      ensures multiset(list) <= multiset(points)
      ensures UniqueIds(points) ==> multiset(list) == multiset(points)
    {
      var count := |points|;
      ghost var start := pointDao.rows;
      list, calls, readBack := [], [], [];
      var i := 0;
      while i <= count
        invariant 0 <= i == |calls| * ChunkSize
        invariant |calls| <= |Chunks(points)| && calls == Chunks(points)[..|calls|]
        invariant pointDao.Valid() && pointDao.results == old(pointDao.results)
        invariant UniqueIds(start) && pointDao.rows == UpsertAll(start, Concat(calls))
        invariant Collected(calls, readBack, list)
      {
        var end := if i + ChunkSize < count then i + ChunkSize else count;
        var chunk := points[i..end];
        var got := InsertChunk(chunk);
        UpsertAllConcat(start, Concat(calls), chunk);
        NextChunk(points, i, calls);
        CollectStep(calls, readBack, list, chunk, got);
        list := list + got;
        calls := calls + [chunk];
        readBack := readBack + [got];
        i := i + ChunkSize;
      }
      ChunksDone(points, calls);
      CollectedAll(points, calls, readBack, list);
    }

    /** `saveCallResult` of `search(query)`: tags every point with the number of
        points in the response, then runs `SaveBatch` in one transaction.
        `readBack[k]` is what `addPoints` read back for chunk `k` of the tagged
        response; the new items are those read-backs joined in chunk order. */
    method SearchSaveCallResult(query: string, item: SearchResponse<Coords>) returns (ghost readBack: seq<seq<Point>>)
      requires pointDao.Valid()
      modifies pointDao, item
      ensures pointDao.Valid()
      ensures var n := |old(item.items)|;
        pointDao.rows == UpsertAll(WithoutCount(old(pointDao.rows), Decimal.IntToString(n)), Stamped(old(item.items), n))
      ensures pointDao.results == old(pointDao.results)[query :=
        SearchResult(query, Ids(item.items), old(item.total), old(item.nextPage))]
      ensures item.total == old(item.total) && item.nextPage == old(item.nextPage)
      ensures multiset(item.items) <= multiset(Stamped(old(item.items), |old(item.items)|))
      ensures UniqueIds(old(item.items)) ==>
        multiset(item.items) == multiset(Stamped(old(item.items), |old(item.items)|))
      ensures var n := |old(item.items)|;
        multiset(LoadPoints(Decimal.IntToString(n))) == multiset(Latest(Stamped(old(item.items), n)))
      ensures var chunks := Chunks(Stamped(old(item.items), |old(item.items)|));
        && |readBack| == |chunks| && item.items == Concat(readBack)
        && forall k :: 0 <= k < |chunks| ==> multiset(readBack[k]) == multiset(Latest(chunks[k]))
    {
      var count := StampCount(item);
      if UniqueIds(old(item.items)) {
        StampedUnique(old(item.items), count);
      }
      readBack := SaveBatch(query, item, count);
      BatchReload(old(pointDao.rows), old(item.items), count);
    }

    /** The block `saveCallResult` runs in a transaction: deletes the rows tagged
        `count`, inserts the response through `addPoints`, replaces the response's
        items with what was read back, and stores the search result. */
    method SaveBatch(query: string, item: SearchResponse<Coords>, count: int) returns (ghost readBack: seq<seq<Point>>)
      requires pointDao.Valid()
      modifies pointDao, item
      ensures pointDao.Valid()
      ensures pointDao.rows == UpsertAll(WithoutCount(old(pointDao.rows), Decimal.IntToString(count)), old(item.items))
      ensures pointDao.results == old(pointDao.results)[query :=
        SearchResult(query, Ids(item.items), old(item.total), old(item.nextPage))]
      ensures item.total == old(item.total) && item.nextPage == old(item.nextPage)
      ensures multiset(item.items) <= multiset(old(item.items))
      ensures UniqueIds(old(item.items)) ==> multiset(item.items) == multiset(old(item.items))
      ensures var chunks := Chunks(old(item.items));
        && |readBack| == |chunks| && item.items == Concat(readBack)
        && forall k :: 0 <= k < |chunks| ==> multiset(readBack[k]) == multiset(Latest(chunks[k]))
    {
      pointDao.DeletePoints(Decimal.IntToString(count));
      var added;
      ghost var calls;
      added, calls, readBack := AddPoints(item.items);
      item.items := added;
      pointDao.InsertResult(SearchResult(query, Ids(added), item.total, item.nextPage));
    }

    /** `shouldFetch` of `search`: the points are always fetched again. */
    function SearchShouldFetch(data: Option<seq<Point>>): (r: bool)
      ensures r
    {
      true
    }
  }
}
