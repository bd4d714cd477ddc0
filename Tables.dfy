/** The rows of a Room table and the pure queries over them.

    A table is the sequence of its rows in storage order. Its primary key is the
    row's `id`, which the model also takes as SQLite's row-id. No two rows share
    an id (`UniqueIds`). Storage order is the order of the last write and no
    contract of a query without ORDER BY depends on it. */
module Tables {
  import opened Wrappers
  import Decimal

  /** A stored entity: primary key `id`, the batch tag `count`, and the other columns. */
  datatype Row<P> = Row(id: int, count: int, data: P)

  /** `PointSearchResult` and `RepoSearchResult`: one row per query string. */
  datatype SearchResult = SearchResult(query: string, repoIds: seq<int>, totalCount: int, next: Option<int>)

  function Ids<P>(rs: seq<Row<P>>): (ids: seq<int>)
    ensures |ids| == |rs|
    ensures forall i :: 0 <= i < |rs| ==> ids[i] == rs[i].id
  {
    seq(|rs|, i requires 0 <= i < |rs| => rs[i].id)
  }

  predicate UniqueIds<P>(rs: seq<Row<P>>)
  {
    forall i, j :: 0 <= i < j < |rs| ==> rs[i].id != rs[j].id
  }

  predicate DistinctInts(s: seq<int>)
  {
    forall i, j :: 0 <= i < j < |s| ==> s[i] != s[j]
  }

  /** The rows of `rs` that `keep` accepts, in their order. */
  function Filter<P>(rs: seq<Row<P>>, keep: Row<P> -> bool): (r: seq<Row<P>>)
    ensures |r| <= |rs|
    ensures forall i :: 0 <= i < |r| ==> keep(r[i]) && r[i] in rs
    ensures forall i :: 0 <= i < |rs| && keep(rs[i]) ==> rs[i] in r
  {
    if rs == [] then
      []
    else
      assert forall i :: 1 <= i < |rs| ==> rs[i] == rs[1..][i - 1];
      (if keep(rs[0]) then [rs[0]] else []) + Filter(rs[1..], keep)
  }

  lemma {:induction false} FilterConcat<P>(a: seq<Row<P>>, b: seq<Row<P>>, keep: Row<P> -> bool)
    ensures Filter(a + b, keep) == Filter(a, keep) + Filter(b, keep)
  {
    if a == [] {
      assert a + b == b;
    } else {
      assert (a + b)[0] == a[0] && (a + b)[1..] == a[1..] + b;
      FilterConcat(a[1..], b, keep);
    }
  }

  lemma {:induction false} FilterKeepsAll<P>(rs: seq<Row<P>>, keep: Row<P> -> bool)
    requires forall i :: 0 <= i < |rs| ==> keep(rs[i])
    ensures Filter(rs, keep) == rs
  {
    if rs != [] {
      FilterKeepsAll(rs[1..], keep);
    }
  }

  lemma {:induction false} FilterKeepsNone<P>(rs: seq<Row<P>>, keep: Row<P> -> bool)
    requires forall i :: 0 <= i < |rs| ==> !keep(rs[i])
    ensures Filter(rs, keep) == []
  {
    if rs != [] {
      FilterKeepsNone(rs[1..], keep);
    }
  }

  /** Filtering twice is filtering once by the conjunction. */
  lemma {:induction false} FilterTwice<P>(rs: seq<Row<P>>, p: Row<P> -> bool, q: Row<P> -> bool, both: Row<P> -> bool)
    requires forall r :: both(r) == (p(r) && q(r))
    ensures Filter(Filter(rs, p), q) == Filter(rs, both)
  {
    if rs != [] {
      FilterTwice(rs[1..], p, q, both);
      var head := if p(rs[0]) then [rs[0]] else [];
      FilterConcat(head, Filter(rs[1..], p), q);
    }
  }

  /** Filtering only drops rows. */
  lemma {:induction false} FilterSubMultiset<P>(rs: seq<Row<P>>, keep: Row<P> -> bool)
    ensures multiset(Filter(rs, keep)) <= multiset(rs)
  {
    if rs != [] {
      FilterSubMultiset(rs[1..], keep);
      ConsBound(rs, if keep(rs[0]) then [rs[0]] else [], Filter(rs[1..], keep), Filter(rs, keep));
    }
  }

  lemma ConsBound<T>(xs: seq<T>, head: seq<T>, rest: seq<T>, r: seq<T>)
    requires xs != [] && (head == [] || head == [xs[0]])
    requires r == head + rest && multiset(rest) <= multiset(xs[1..])
    ensures multiset(r) <= multiset(xs)
  {
    assert xs == [xs[0]] + xs[1..];
  }

  lemma AppendBound<T>(a: seq<T>, b: seq<T>, c: seq<T>, d: seq<T>)
    requires multiset(a) <= multiset(c) && multiset(b) <= multiset(d)
    ensures multiset(a + b) <= multiset(c + d)
    ensures multiset(a) == multiset(c) && multiset(b) == multiset(d) ==> multiset(a + b) == multiset(c + d)
  {
  }

  /** A filtered table still has unique ids. */
  lemma {:induction false} FilterUnique<P>(rs: seq<Row<P>>, keep: Row<P> -> bool)
    requires UniqueIds(rs)
    ensures UniqueIds(Filter(rs, keep))
  {
    if rs != [] {
      FilterUnique(rs[1..], keep);
      var tail := Filter(rs[1..], keep);
      forall j | 0 <= j < |tail|
        ensures tail[j].id != rs[0].id
      {
        var k :| 0 <= k < |rs[1..]| && rs[1..][k] == tail[j];
        assert rs[k + 1] == tail[j];
      }
    }
  }

  function NotIn<P>(ids: seq<int>): Row<P> -> bool
  {
    (row: Row<P>) => row.id !in ids
  }

  function In<P>(ids: seq<int>): Row<P> -> bool
  {
    (row: Row<P>) => row.id in ids
  }

  /** `count = :count` with an Int column and a String parameter. */
  predicate MatchesCount<P>(row: Row<P>, count: string)
  {
    Decimal.IntToString(row.count) == count
  }

  function Lacks<P>(count: string): Row<P> -> bool
  {
    (row: Row<P>) => !MatchesCount(row, count)
  }

  function Has<P>(count: string): Row<P> -> bool
  {
    (row: Row<P>) => MatchesCount(row, count)
  }

  /** The table without the rows whose id is in `ids`. */
  function RemoveIds<P>(rs: seq<Row<P>>, ids: seq<int>): (r: seq<Row<P>>)
  {
    Filter(rs, NotIn(ids))
  }

  /** The rows whose id is in `ids`: `SELECT * FROM t WHERE id IN (:ids)`. */
  function WithIds<P>(rs: seq<Row<P>>, ids: seq<int>): (r: seq<Row<P>>)
  {
    Filter(rs, In(ids))
  }

  function WithCount<P>(rs: seq<Row<P>>, count: string): (r: seq<Row<P>>)
  {
    Filter(rs, Has(count))
  }

  function WithoutCount<P>(rs: seq<Row<P>>, count: string): (r: seq<Row<P>>)
    ensures UniqueIds(rs) ==> UniqueIds(r)
  {
    assert UniqueIds(rs) ==> UniqueIds(Filter(rs, Lacks(count))) by {
      if UniqueIds(rs) {
        FilterUnique(rs, Lacks(count));
      }
    }
    Filter(rs, Lacks(count))
  }

  /** Deleting by `n.toString()` removes exactly the rows whose count is `n`:
      every other row stays, and no row with count `n` is left. */
  lemma DeleteBatch<P>(rs: seq<Row<P>>, n: int)
    ensures forall i :: 0 <= i < |rs| && rs[i].count != n ==> rs[i] in WithoutCount(rs, Decimal.IntToString(n))
    ensures forall r :: r in WithoutCount(rs, Decimal.IntToString(n)) ==> r in rs && r.count != n
  {
    forall r: Row<P>
      ensures MatchesCount(r, Decimal.IntToString(n)) <==> r.count == n
    {
      Decimal.IntToStringInjective(r.count, n);
    }
  }

  /** Insert with `OnConflictStrategy.REPLACE`: a row holding the same key is
      deleted, then the new row is stored. */
  function Upsert<P>(rs: seq<Row<P>>, x: Row<P>): (r: seq<Row<P>>)
    requires UniqueIds(rs)
    ensures UniqueIds(r)
    ensures x in r
    ensures forall i :: 0 <= i < |r| && r[i].id == x.id ==> r[i] == x
    ensures forall i :: 0 <= i < |rs| && rs[i].id != x.id ==> rs[i] in r
    ensures forall i :: 0 <= i < |r| && r[i] != x ==> r[i] in rs
  {
    FilterUnique(rs, NotIn([x.id]));
    RemoveIds(rs, [x.id]) + [x]
  }

  /** Inserting `xs` one row after another. */
  function UpsertAll<P>(rs: seq<Row<P>>, xs: seq<Row<P>>): (r: seq<Row<P>>)
    requires UniqueIds(rs)
    ensures UniqueIds(r)
  {
    if xs == [] then rs else Upsert(UpsertAll(rs, xs[..|xs| - 1]), xs[|xs| - 1])
  }

  /** What inserting `xs` into an empty table leaves: for each id, the last row of
      `xs` carrying it. */
  function Latest<P>(xs: seq<Row<P>>): (r: seq<Row<P>>)
  {
    UpsertAll([], xs)
  }

  lemma {:induction false} UpsertAllConcat<P>(rs: seq<Row<P>>, a: seq<Row<P>>, b: seq<Row<P>>)
    requires UniqueIds(rs)
    ensures UpsertAll(rs, a + b) == UpsertAll(UpsertAll(rs, a), b)
  {
    if b == [] {
      assert a + b == a;
    } else {
      var c := b[..|b| - 1];
      assert (a + b)[..|a + b| - 1] == a + c;
      UpsertAllConcat(rs, a, c);
    }
  }

  /** Every row that inserting `xs` leaves behind comes from `xs`. */
  lemma {:induction false} LatestFrom<P>(xs: seq<Row<P>>)
    ensures forall i :: 0 <= i < |Latest(xs)| ==> Latest(xs)[i] in xs
  {
    if xs != [] {
      var ys, x := xs[..|xs| - 1], xs[|xs| - 1];
      LatestFrom(ys);
      var l, l' := Latest(ys), Latest(xs);
      assert l' == Upsert(l, x);
      forall i | 0 <= i < |l'|
        ensures l'[i] in xs
      {
        if l'[i] != x {
          var k :| 0 <= k < |l| && l[k] == l'[i];
          var m :| 0 <= m < |ys| && ys[m] == l[k];
          assert xs[m] == ys[m];
        }
      }
    }
  }

  /** The last row inserted replaces the row with its id. */
  lemma LatestSnoc<P>(xs: seq<Row<P>>)
    requires xs != []
    ensures Latest(xs) == Filter(Latest(xs[..|xs| - 1]), NotIn([xs[|xs| - 1].id])) + [xs[|xs| - 1]]
  {
  }

  /** Inserting `xs` keeps some of its rows and adds none. */
  lemma {:induction false} LatestSubMultiset<P>(xs: seq<Row<P>>)
    ensures multiset(Latest(xs)) <= multiset(xs)
  {
    if xs != [] {
      var ys := xs[..|xs| - 1];
      LatestSubMultiset(ys);
      LatestSnoc(xs);
      SnocBound(Latest(ys), Latest(xs), ys, xs);
    }
  }

  /** One step of `LatestSubMultiset`: replacing the rows with the last id of
      `xs` keeps the bound. */
  lemma SnocBound<P>(prev: seq<Row<P>>, l: seq<Row<P>>, ys: seq<Row<P>>, xs: seq<Row<P>>)
    requires xs != [] && ys == xs[..|xs| - 1]
    requires l == Filter(prev, NotIn([xs[|xs| - 1].id])) + [xs[|xs| - 1]]
    requires multiset(prev) <= multiset(ys)
    ensures multiset(l) <= multiset(xs)
  {
    var x := xs[|xs| - 1];
    var kept := Filter(prev, NotIn([x.id]));
    FilterSubMultiset(prev, NotIn([x.id]));
    assert xs == ys + [x];
    assert multiset(l) == multiset(kept) + multiset{x};
    assert multiset(xs) == multiset(ys) + multiset{x};
  }

  /** For every id of `xs`, the last row of `xs` carrying it is kept. */
  lemma {:induction false} LatestKeepsLast<P>(xs: seq<Row<P>>, i: int)
    requires 0 <= i < |xs|
    requires forall j :: i < j < |xs| ==> xs[j].id != xs[i].id
    ensures xs[i] in Latest(xs)
  {
    var ys := xs[..|xs| - 1];
    if i < |ys| {
      LatestKeepsLast(ys, i);
      var l := Latest(ys);
      var k :| 0 <= k < |l| && l[k] == xs[i];
      assert xs[|xs| - 1].id != xs[i].id;
    }
  }

  /** Inserting rows whose ids are all different keeps them all, in order. */
  lemma {:induction false} LatestOfUnique<P>(xs: seq<Row<P>>)
    requires UniqueIds(xs)
    ensures Latest(xs) == xs
  {
    if xs != [] {
      var ys, x := xs[..|xs| - 1], xs[|xs| - 1];
      LatestOfUnique(ys);
      FilterKeepsAll(ys, NotIn([x.id]));
      assert ys + [x] == xs;
    }
  }

  /** Inserting `xs` leaves the old rows whose id `xs` does not mention, followed
      by the rows of `Latest(xs)`. */
  lemma {:induction false} UpsertAllSplit<P>(rs: seq<Row<P>>, xs: seq<Row<P>>)
    requires UniqueIds(rs)
    ensures UpsertAll(rs, xs) == RemoveIds(rs, Ids(xs)) + Latest(xs)
  {
    if xs == [] {
      FilterKeepsAll(rs, NotIn(Ids(xs)));
    } else {
      var ys, x := xs[..|xs| - 1], xs[|xs| - 1];
      UpsertAllSplit(rs, ys);
      IdsSnoc(xs);
      RemoveOneMore(rs, Ids(ys), x.id);
      LatestSnoc(xs);
      SplitStep(RemoveIds(rs, Ids(ys)), Latest(ys), x, UpsertAll(rs, xs), RemoveIds(rs, Ids(xs)), Latest(xs));
    }
  }

  /** One step of `UpsertAllSplit`: replacing `x` in `kept + l` filters both parts. */
  lemma SplitStep<P>(kept: seq<Row<P>>, l: seq<Row<P>>, x: Row<P>, after: seq<Row<P>>, removed: seq<Row<P>>, latest: seq<Row<P>>)
    requires after == Filter(kept + l, NotIn([x.id])) + [x]
    requires removed == Filter(kept, NotIn([x.id]))
    requires latest == Filter(l, NotIn([x.id])) + [x]
    ensures after == removed + latest
  {
    FilterConcat(kept, l, NotIn([x.id]));
  }

  lemma IdsSnoc<P>(xs: seq<Row<P>>)
    requires xs != []
    ensures Ids(xs) == Ids(xs[..|xs| - 1]) + [xs[|xs| - 1].id]
  {
  }

  /** Removing `ids` and then `k` removes `ids + [k]`. */
  lemma RemoveOneMore<P>(rs: seq<Row<P>>, ids: seq<int>, k: int)
    ensures Filter(RemoveIds(rs, ids), NotIn([k])) == RemoveIds(rs, ids + [k])
  {
    forall r: Row<P>
      ensures NotIn(ids + [k])(r) == (NotIn(ids)(r) && NotIn([k])(r))
    {
      assert r.id in ids + [k] <==> r.id in ids || r.id == k;
    }
    FilterTwice(rs, NotIn(ids), NotIn([k]), NotIn(ids + [k]));
  }

  /** Reading back by the ids just inserted yields exactly `Latest(xs)`. */
  lemma ReReadAfterInsert<P>(rs: seq<Row<P>>, xs: seq<Row<P>>)
    requires UniqueIds(rs)
    ensures WithIds(UpsertAll(rs, xs), Ids(xs)) == Latest(xs)
  {
    UpsertAllSplit(rs, xs);
    var gone := RemoveIds(rs, Ids(xs));
    FilterConcat(gone, Latest(xs), In(Ids(xs)));
    FilterKeepsNone(gone, In(Ids(xs)));
    LatestFrom(xs);
    forall i | 0 <= i < |Latest(xs)|
      ensures In(Ids(xs))(Latest(xs)[i])
    {
      var k :| 0 <= k < |xs| && xs[k] == Latest(xs)[i];
    }
    FilterKeepsAll(Latest(xs), In(Ids(xs)));
  }
}
