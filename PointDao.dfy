/** `PointDao`: the queries and writes on the `Point` and `PointSearchResult`
    tables. The class is generic in the non-key columns so that the repository
    of `Repo` rows can use the same table semantics. */
module PointDao {
  import opened Wrappers
  import opened Tables
  import Sorting

  /** The columns of a `Point` besides `id` and `count`. */
  datatype Coords = Coords(x: int, y: int)

  type Point = Row<Coords>

  /** The map that `loadOrdered` fills: each id of `ids` to an index where it
      occurs. A later `put` overwrites an earlier one, so the index is the last
      occurrence. */
  function PositionMap(ids: seq<int>): (m: map<int, int>)
    ensures forall k :: k in m <==> k in ids
    ensures forall k :: k in m ==> 0 <= m[k] < |ids| && ids[m[k]] == k
    ensures forall k, j :: k in m && m[k] < j < |ids| ==> ids[j] != k
  {
    if ids == [] then
      map[]
    else
      var init := ids[..|ids| - 1];
      assert forall j :: 0 <= j < |init| ==> init[j] == ids[j];
      PositionMap(init)[ids[|ids| - 1] := |ids| - 1]
  }

  /** When the ids are distinct, each id's position is its index. */
  lemma PositionOfDistinct(ids: seq<int>, i: int)
    requires DistinctInts(ids) && 0 <= i < |ids|
    ensures ids[i] in PositionMap(ids) && PositionMap(ids)[ids[i]] == i
  {
    var m := PositionMap(ids);
    assert ids[i] in m;
    assert ids[m[ids[i]]] == ids[i];
  }

  /** The sort key of `compareBy { order.get(it.id) }`; `SparseIntArray.get`
      answers 0 for an absent key. */
  function ByPosition<P>(order: map<int, int>): Row<P> -> int
  {
    (row: Row<P>) => if row.id in order then order[row.id] else 0
  }

  /** `loadOrdered(ids)`: the rows `loadById(ids)` finds, sorted by the position of
      their id in `ids`. */
  function OrderedLoad<P>(rs: seq<Row<P>>, ids: seq<int>): (r: seq<Row<P>>)
    ensures multiset(r) == multiset(WithIds(rs, ids))
    ensures forall i :: 0 <= i < |r| ==> r[i] in rs && r[i].id in ids
    ensures forall i :: 0 <= i < |rs| && rs[i].id in ids ==> rs[i] in r
  {
    Sorting.SortByElements(WithIds(rs, ids), ByPosition(PositionMap(ids)));
    Sorting.SortBy(WithIds(rs, ids), ByPosition(PositionMap(ids)))
  }

  /** The ordered load is sorted by each row's position in `ids`, which is the
      last index where its id occurs. */
  lemma OrderedLoadSorted<P>(rs: seq<Row<P>>, ids: seq<int>)
    ensures forall i, j :: 0 <= i < j < |OrderedLoad(rs, ids)| ==>
      var r, pos := OrderedLoad(rs, ids), PositionMap(ids);
      r[i].id in pos && r[j].id in pos && pos[r[i].id] <= pos[r[j].id]
  {
    var r, pos := OrderedLoad(rs, ids), PositionMap(ids);
    Sorting.SortBySorted(WithIds(rs, ids), ByPosition(pos));
    forall i, j | 0 <= i < j < |r|
      ensures r[i].id in pos && r[j].id in pos && pos[r[i].id] <= pos[r[j].id]
    {
      assert ByPosition(pos)(r[i]) <= ByPosition(pos)(r[j]);
    }
  }

  lemma {:induction false} IncreasingOnto(ks: seq<int>, n: int)
    requires 0 <= n
    requires forall i, j :: 0 <= i < j < |ks| ==> ks[i] < ks[j]
    requires forall x :: x in ks <==> 0 <= x < n
    ensures |ks| == n
    ensures forall i :: 0 <= i < |ks| ==> ks[i] == i
  {
    assert |ks| > 0 ==> ks[0] in ks;
    if n > 0 {
      assert n - 1 in ks;
      var last := |ks| - 1;
      var m :| 0 <= m < |ks| && ks[m] == n - 1;
      assert ks[last] in ks;
      assert ks[last] == n - 1;
      var init := ks[..last];
      forall x
        ensures x in init <==> 0 <= x < n - 1
      {
        if x in init {
          var i :| 0 <= i < |init| && init[i] == x;
          assert ks[i] < ks[last] && ks[i] in ks;
        }
        if 0 <= x < n - 1 {
          assert x in ks;
          var i :| 0 <= i < |ks| && ks[i] == x;
          assert i != last;
          assert init[i] == x;
        }
      }
      IncreasingOnto(init, n - 1);
    }
  }

  /** The ordered load of a table with unique ids has unique ids. */
  lemma OrderedLoadUnique<P>(rs: seq<Row<P>>, ids: seq<int>)
    requires UniqueIds(rs)
    ensures UniqueIds(OrderedLoad(rs, ids))
  {
    var found := WithIds(rs, ids);
    FilterUnique(rs, In(ids));
    Sorting.PermutationKeepsDistinct(found, OrderedLoad(rs, ids), (row: Row<P>) => row.id);
  }

  /** A sequence of rows with unique ids that covers every id of `ids` and is
      sorted by `pos`, the index of each id in `ids`, follows `ids`. */
  lemma SortedCoverFollowsIds<P>(r: seq<Row<P>>, ids: seq<int>, pos: map<int, int>)
    requires UniqueIds(r)
    requires forall i :: 0 <= i < |r| ==>
      r[i].id in pos && 0 <= pos[r[i].id] < |ids| && ids[pos[r[i].id]] == r[i].id
    requires forall x :: 0 <= x < |ids| ==> ids[x] in pos && pos[ids[x]] == x
    requires forall x :: 0 <= x < |ids| ==> ids[x] in Ids(r)
    requires forall i, j :: 0 <= i < j < |r| ==> pos[r[i].id] <= pos[r[j].id]
    ensures Ids(r) == ids
  {
    var ks := seq(|r|, i requires 0 <= i < |r| => pos[r[i].id]);
    forall x | 0 <= x < |ids|
      ensures x in ks
    {
      assert ids[x] in Ids(r);
      var i :| 0 <= i < |Ids(r)| && Ids(r)[i] == ids[x];
      assert ks[i] == x;
    }
    PositionsFollowIds(ks, Ids(r), ids);
  }

  /** The index arithmetic behind `SortedCoverFollowsIds`: `ks[i]` is where
      `vals[i]` sits in `ids`. */
  lemma PositionsFollowIds(ks: seq<int>, vals: seq<int>, ids: seq<int>)
    requires |ks| == |vals| && DistinctInts(vals)
    requires forall i :: 0 <= i < |ks| ==> 0 <= ks[i] < |ids| && ids[ks[i]] == vals[i]
    requires forall i, j :: 0 <= i < j < |ks| ==> ks[i] <= ks[j]
    requires forall x :: 0 <= x < |ids| ==> x in ks
    ensures vals == ids
  {
    forall i, j | 0 <= i < j < |ks|
      ensures ks[i] < ks[j]
    {
      assert vals[i] != vals[j];
    }
    IncreasingOnto(ks, |ids|);
  }

  /** When the ids are distinct and every one of them is stored, the ordered load
      yields exactly one row per id, in the order of `ids`. */
  lemma OrderedLoadFollowsIds<P>(rs: seq<Row<P>>, ids: seq<int>)
    requires UniqueIds(rs) && DistinctInts(ids)
    requires forall k :: k in ids ==> k in Ids(rs)
    ensures Ids(OrderedLoad(rs, ids)) == ids
  {
    var r, pos := OrderedLoad(rs, ids), PositionMap(ids);
    OrderedLoadUnique(rs, ids);
    OrderedLoadSorted(rs, ids);
    OrderedLoadCovers(rs, ids);
    PositionMapIndexes(ids);
    SortedCoverFollowsIds(r, ids, pos);
  }

  /** Every stored id that is asked for is loaded. */
  lemma OrderedLoadCovers<P>(rs: seq<Row<P>>, ids: seq<int>)
    requires forall k :: k in ids ==> k in Ids(rs)
    ensures forall x :: 0 <= x < |ids| ==> ids[x] in Ids(OrderedLoad(rs, ids))
  {
    var r := OrderedLoad(rs, ids);
    forall x | 0 <= x < |ids|
      ensures ids[x] in Ids(r)
    {
      IdLoaded(rs, ids, r, ids[x]);
    }
  }

  lemma IdLoaded<P>(rs: seq<Row<P>>, ids: seq<int>, r: seq<Row<P>>, id: int)
    requires forall i :: 0 <= i < |rs| && rs[i].id in ids ==> rs[i] in r
    requires id in ids && id in Ids(rs)
    ensures id in Ids(r)
  {
    var k :| 0 <= k < |rs| && Ids(rs)[k] == id;
    assert rs[k] in r;
    var i :| 0 <= i < |r| && r[i] == rs[k];
    assert Ids(r)[i] == id;
  }

  /** For distinct ids, `PositionMap` maps each id to its own index. */
  lemma PositionMapIndexes(ids: seq<int>)
    requires DistinctInts(ids)
    ensures forall x :: 0 <= x < |ids| ==> ids[x] in PositionMap(ids) && PositionMap(ids)[ids[x]] == x
  {
    forall x | 0 <= x < |ids|
      ensures ids[x] in PositionMap(ids) && PositionMap(ids)[ids[x]] == x
    {
      PositionOfDistinct(ids, x);
    }
  }

  lemma SameIdSameRow<P>(rs: seq<Row<P>>, x: Row<P>, y: Row<P>)
    requires UniqueIds(rs) && x in rs && y in rs && x.id == y.id
    ensures x == y
  {
    var i :| 0 <= i < |rs| && rs[i] == x;
    var j :| 0 <= j < |rs| && rs[j] == y;
  }

  /** Loading by the ids of rows that are all stored, with distinct ids, yields
      those rows in that order. */
  lemma OrderedLoadOfStored<P>(table: seq<Row<P>>, saved: seq<Row<P>>)
    requires UniqueIds(table) && UniqueIds(saved)
    requires forall i :: 0 <= i < |saved| ==> saved[i] in table
    ensures OrderedLoad(table, Ids(saved)) == saved
  {
    var ids := Ids(saved);
    assert DistinctInts(ids);
    StoredIds(table, saved);
    OrderedLoadFollowsIds(table, ids);
    SameIdsSameRows(table, OrderedLoad(table, ids), saved);
  }

  lemma StoredIds<P>(table: seq<Row<P>>, saved: seq<Row<P>>)
    requires forall i :: 0 <= i < |saved| ==> saved[i] in table
    ensures forall k :: k in Ids(saved) ==> k in Ids(table)
  {
    forall k | k in Ids(saved)
      ensures k in Ids(table)
    {
      var i :| 0 <= i < |saved| && Ids(saved)[i] == k;
      var j :| 0 <= j < |table| && table[j] == saved[i];
      assert Ids(table)[j] == k;
    }
  }

  /** Two lists of stored rows with the same ids, in the same order, are equal. */
  lemma SameIdsSameRows<P>(table: seq<Row<P>>, r: seq<Row<P>>, saved: seq<Row<P>>)
    requires UniqueIds(table) && Ids(r) == Ids(saved)
    requires forall i :: 0 <= i < |r| ==> r[i] in table
    requires forall i :: 0 <= i < |saved| ==> saved[i] in table
    ensures r == saved
  {
    assert |r| == |Ids(r)| == |saved|;
    forall i | 0 <= i < |r|
      ensures r[i] == saved[i]
    {
      assert Ids(r)[i] == Ids(saved)[i];
      SameIdSameRow(table, r[i], saved[i]);
    }
  }

  /** A list read back after inserting `xs` is a permutation of `Latest(xs)`:
      its ids are distinct and each of its rows is stored. */
  lemma ReadBackStored<P>(rs: seq<Row<P>>, xs: seq<Row<P>>, saved: seq<Row<P>>)
    requires UniqueIds(rs)
    requires multiset(saved) == multiset(Latest(xs))
    ensures UniqueIds(saved)
    ensures forall i :: 0 <= i < |saved| ==> saved[i] in UpsertAll(rs, xs)
  {
    Sorting.PermutationKeepsDistinct(Latest(xs), saved, (row: Row<P>) => row.id);
    UpsertAllSplit(rs, xs);
    forall i | 0 <= i < |saved|
      ensures saved[i] in UpsertAll(rs, xs)
    {
      assert saved[i] in multiset(Latest(xs));
      assert saved[i] in Latest(xs);
    }
  }

  /** A list read back after inserting `xs` (any order of `Latest(xs)`) is what
      `loadOrdered` returns for its ids: the search result stored with those ids
      loads back exactly the list that was saved. */
  lemma LoadOrderedAfterInsert<P>(rs: seq<Row<P>>, xs: seq<Row<P>>, saved: seq<Row<P>>)
    requires UniqueIds(rs)
    requires multiset(saved) == multiset(Latest(xs))
    ensures OrderedLoad(UpsertAll(rs, xs), Ids(saved)) == saved
  {
    ReadBackStored(rs, xs, saved);
    OrderedLoadOfStored(UpsertAll(rs, xs), saved);
  }

  /** The two tables of the points database. */
  class Dao<P> {
    var rows: seq<Row<P>>
    var results: map<string, SearchResult>

    ghost predicate Valid()
      reads this
    {
      UniqueIds(rows)
    }

    constructor ()
      ensures Valid() && rows == [] && results == map[]
    {
      rows := [];
      results := map[];
    }

    /** `insertPoints(points)`: inserts with REPLACE, one row after another, and
        returns the row-id of every inserted row. */
    method InsertRows(ps: seq<Row<P>>) returns (rowIds: seq<int>)
      requires Valid()
      modifies this
      ensures Valid()
      ensures rows == UpsertAll(old(rows), ps) && results == old(results)
      ensures rowIds == Ids(ps)
    {
      ghost var start := rows;
      rowIds := [];
      var i := 0;
      while i < |ps|
        invariant 0 <= i <= |ps|
        invariant UniqueIds(start) && UniqueIds(rows)
        invariant rows == UpsertAll(start, ps[..i])
        invariant rowIds == Ids(ps[..i])
        invariant results == old(results)
      {
        assert ps[..i + 1][..i] == ps[..i];
        IdsSnoc(ps[..i + 1]);
        rows := Upsert(rows, ps[i]);
        rowIds := rowIds + [ps[i].id];
        i := i + 1;
      }
      assert ps[..i] == ps;
    }

    /** `insert(vararg points)`: the same insertion, without the row-ids. */
    method Insert(ps: seq<Row<P>>)
      requires Valid()
      modifies this
      ensures Valid()
      ensures rows == UpsertAll(old(rows), ps) && results == old(results)
    {
      var _ := InsertRows(ps);
    }

    /** `getPointsFromRowids(rowids)`: the query has no ORDER BY, so only the
        rows returned, not their order, are specified. */
    method GetFromRowids(rowIds: seq<int>) returns (r: seq<Row<P>>)
      ensures multiset(r) == multiset(WithIds(rows, rowIds))
    {
      r := WithIds(rows, rowIds);
    }

    /** `deletePoints(count)`. */
    method DeletePoints(count: string)
      requires Valid()
      modifies this
      ensures Valid()
      ensures rows == WithoutCount(old(rows), count) && results == old(results)
    {
      FilterUnique(rows, Lacks(count));
      rows := WithoutCount(rows, count);
    }

    /** `insert(result)`: REPLACE on the `query` key. */
    method InsertResult(result: SearchResult)
      modifies this
      ensures results == old(results)[result.query := result] && rows == old(rows)
    {
      results := results[result.query := result];
    }

    /** `findSearchResult(query)` (and the observed form `search(query)`). */
    function FindSearchResult(query: string): (r: Option<SearchResult>)
      reads this
      ensures r.Some? <==> query in results
      ensures r.Some? ==> r.value == results[query]
    {
      if query in results then Some(results[query]) else None
    }

    /** `loadById(ids)`: no ORDER BY, so rows come in storage order. */
    function LoadById(ids: seq<int>): (r: seq<Row<P>>)
      reads this
      ensures forall i :: 0 <= i < |r| ==> r[i] in rows && r[i].id in ids
      ensures forall i :: 0 <= i < |rows| && rows[i].id in ids ==> rows[i] in r
      ensures multiset(r) <= multiset(rows)
      ensures UniqueIds(rows) ==> UniqueIds(r)
    {
      FilterSubMultiset(rows, In(ids));
      assert UniqueIds(rows) ==> UniqueIds(WithIds(rows, ids)) by {
        if UniqueIds(rows) {
          FilterUnique(rows, In(ids));
        }
      }
      WithIds(rows, ids)
    }

    /** `loadOrdered(ids)`: fills the position map with a loop of `put`s, then
        sorts what `loadById` finds by it. */
    method LoadOrdered(ids: seq<int>) returns (r: seq<Row<P>>)
      ensures r == OrderedLoad(rows, ids)
    {
      var order := map[];
      var i := 0;
      while i < |ids|
        invariant 0 <= i <= |ids|
        invariant order == PositionMap(ids[..i])
      {
        assert ids[..i + 1][..i] == ids[..i];
        order := order[ids[i] := i];
        i := i + 1;
      }
      assert ids[..i] == ids;
      r := Sorting.SortBy(LoadById(ids), ByPosition(order));
    }
  }

  function XKey(p: Point): int
  {
    p.data.x
  }

  /** `loadPoints(count)`: the points whose count matches, by ascending `x`. */
  function LoadPoints(dao: Dao<Coords>, count: string): (r: seq<Point>)
    reads dao
    ensures multiset(r) == multiset(WithCount(dao.rows, count))
    ensures forall i :: 0 <= i < |r| ==> r[i] in dao.rows && MatchesCount(r[i], count)
    ensures forall i :: 0 <= i < |dao.rows| && MatchesCount(dao.rows[i], count) ==> dao.rows[i] in r
    ensures forall i, j :: 0 <= i < j < |r| ==> r[i].data.x <= r[j].data.x
  {
    var found := WithCount(dao.rows, count);
    Sorting.SortByElements(found, XKey);
    Sorting.SortBySorted(found, XKey);
    SortedLoad(dao.rows, count, found, Sorting.SortBy(found, XKey));
    Sorting.SortBy(found, XKey)
  }

  /** The rows of `r`, a reordering of the rows of `rs` matching `count`, are
      exactly those rows. */
  lemma SortedLoad(rs: seq<Point>, count: string, found: seq<Point>, r: seq<Point>)
    requires found == WithCount(rs, count)
    requires forall i :: 0 <= i < |found| ==> found[i] in r
    requires forall i :: 0 <= i < |r| ==> r[i] in found
    ensures forall i :: 0 <= i < |r| ==> r[i] in rs && MatchesCount(r[i], count)
    ensures forall i :: 0 <= i < |rs| && MatchesCount(rs[i], count) ==> rs[i] in r
  {
    forall i | 0 <= i < |r|
      ensures r[i] in rs && MatchesCount(r[i], count)
    {
      var k :| 0 <= k < |found| && found[k] == r[i];
      assert Has(count)(found[k]);
    }
    forall i | 0 <= i < |rs| && MatchesCount(rs[i], count)
      ensures rs[i] in r
    {
      assert Has(count)(rs[i]);
      var k :| 0 <= k < |found| && found[k] == rs[i];
    }
  }
}
