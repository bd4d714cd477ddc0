/** `RepoRepository`: the repository list of an owner (refetched when the local
    list is missing, empty or stale) and the search over repositories, whose
    result is stored as an ordered list of ids and loaded back in that order. */
module RepoRepository {
  import opened Wrappers
  import opened Tables
  import opened PointDao
  import opened Api

  /** The columns of `Repo` besides its key and batch tag. */
  datatype RepoInfo = RepoInfo(name: string, owner: string)

  type Repo = Row<RepoInfo>

  /** The refresh window of the owner's repository list, in minutes. */
  const RepoListWindowMinutes := 10

  /** `RateLimiter<String>`: when each key was last fetched, in milliseconds. */
  class RateLimiter {
    const timeout: int
    var timestamps: map<string, int>

    constructor (minutes: int)
      ensures timeout == minutes * 60 * 1000 && timestamps == map[]
    {
      timeout := minutes * 60 * 1000;
      timestamps := map[];
    }

    /** `shouldFetch(key)`'s test: a key never fetched is due; a fetched key
        is due again once `timeout` milliseconds have passed since its entry,
        and stays due as time goes on. */
    function Due(key: string, now: int): (due: bool)
      reads this
      ensures key !in timestamps ==> due
      ensures key in timestamps && now < timestamps[key] + timeout ==> !due
      ensures key in timestamps && timestamps[key] + timeout <= now ==> due
    {
      key !in timestamps || now - timestamps[key] >= timeout
    }

    /** A due key stays due until its entry changes. */
    lemma DueStaysDue(key: string, now: int, later: int)
      requires Due(key, now) && now <= later
      ensures Due(key, later)
    {
    }

    /** `reset(key)`: forgets the key. */
    method Reset(key: string)
      modifies this
      ensures timestamps == old(timestamps) - {key}
      ensures forall now :: Due(key, now)
    {
      timestamps := timestamps - {key};
    }
  }

  class RepoRepository {
    const repoDao: Dao<RepoInfo>
    const repoListRateLimit: RateLimiter

    constructor (repoDao: Dao<RepoInfo>)
      ensures this.repoDao == repoDao && fresh(repoListRateLimit)
      ensures repoListRateLimit.timeout == RepoListWindowMinutes * 60 * 1000
      ensures repoListRateLimit.timestamps == map[]
    {
      this.repoDao := repoDao;
      repoListRateLimit := new RateLimiter(RepoListWindowMinutes);
    }

    /** `saveCallResult` of `loadRepos`: `insertRepos(item)`. */
    method LoadReposSaveCallResult(item: seq<Repo>)
      requires repoDao.Valid()
      modifies repoDao
      ensures repoDao.Valid()
      ensures repoDao.rows == UpsertAll(old(repoDao.rows), item) && repoDao.results == old(repoDao.results)
    {
      repoDao.Insert(item);
    }

    /** `shouldFetch` of `loadRepos`: fetch when there is no list, an empty list,
        or the rate limiter's decision `due` for the owner says so. */
    static function LoadReposShouldFetch(data: Option<seq<Repo>>, due: bool): (r: bool)
      ensures r <==> data.None? || |data.value| == 0 || due
      ensures !r ==> data.Some? && |data.value| > 0
    {
      data.None? || data.value == [] || due
    }

    /** `createCall` of `loadRepos` always throws. */
    static function LoadReposCreateCall(): (r: Result<seq<Repo>, string>)
      ensures r.Failure? && r.error == "Not implemented"
    {
      Failure("Not implemented")
    }

    /** `onFetchFailed` of `loadRepos`: forgets the owner in the rate limiter, so
        the next `shouldFetch` for that owner fetches whatever the data. */
    method LoadReposOnFetchFailed(owner: string)
      modifies repoListRateLimit
      ensures repoListRateLimit.timestamps == old(repoListRateLimit.timestamps) - {owner}
      ensures forall data, now :: LoadReposShouldFetch(data, repoListRateLimit.Due(owner, now))
    {
      repoListRateLimit.Reset(owner);
    }

    /** `addRepos`: inserts the repositories and reads them back by the row-ids
        the insert returned. */
    method AddRepos(repos: seq<Repo>) returns (r: seq<Repo>)
      requires repoDao.Valid()
      modifies repoDao
      ensures repoDao.Valid()
      ensures repoDao.rows == UpsertAll(old(repoDao.rows), repos) && repoDao.results == old(repoDao.results)
      ensures multiset(r) == multiset(Latest(repos))
      ensures UniqueIds(repos) ==> multiset(r) == multiset(repos)
    {
      var ids := repoDao.InsertRows(repos);
      r := repoDao.GetFromRowids(ids);
      ReReadAfterInsert(old(repoDao.rows), repos);
      if UniqueIds(repos) {
        LatestOfUnique(repos);
      }
    }

    /** `saveCallResult` of `search(query)`: tags every repository with the number
        of repositories in the response, then in one transaction inserts them
        through `addRepos`, replaces the response's items with what was read back
        and stores the search result; loading the search back then yields exactly
        those items. */
    method SearchSaveCallResult(query: string, item: SearchResponse<RepoInfo>)
      requires repoDao.Valid()
      modifies repoDao, item
      ensures repoDao.Valid()
      ensures repoDao.rows == UpsertAll(old(repoDao.rows), Stamped(old(item.items), |old(item.items)|))
      ensures repoDao.results == old(repoDao.results)[query :=
        SearchResult(query, Ids(item.items), old(item.total), old(item.nextPage))]
      ensures item.total == old(item.total) && item.nextPage == old(item.nextPage)
      ensures multiset(item.items) == multiset(Latest(Stamped(old(item.items), |old(item.items)|)))
      ensures SearchLoadFromDb(query) == Some(item.items)
    {
      var count := StampCount(item);
      ghost var before := repoDao.rows;
      ghost var stamped := item.items;
      var added := AddRepos(item.items);
      item.items := added;
      repoDao.InsertResult(SearchResult(query, Ids(added), item.total, item.nextPage));
      LoadOrderedAfterInsert(before, stamped, added);
    }

    /** `shouldFetch` of `search`: fetch only when nothing is stored for the query. */
    static function SearchShouldFetch(data: Option<seq<Repo>>): (r: bool)
      ensures r <==> data.None?
    {
      data.None?
    }

    /** `loadFromDb` of `search`: nothing when no search result is stored for the
        query, otherwise the stored repositories with the result's ids, in the
        order of those ids. */
    function SearchLoadFromDb(query: string): (r: Option<seq<Repo>>)
      reads repoDao
      ensures r.None? <==> query !in repoDao.results
      ensures r.Some? ==> forall i :: 0 <= i < |r.value| ==>
        r.value[i] in repoDao.rows && r.value[i].id in repoDao.results[query].repoIds
      ensures r.Some? ==> forall i :: 0 <= i < |repoDao.rows| && repoDao.rows[i].id in repoDao.results[query].repoIds ==>
        repoDao.rows[i] in r.value
      ensures r.Some? ==> r.value == OrderedLoad(repoDao.rows, repoDao.results[query].repoIds)
      ensures r.Some? ==> forall i, j :: 0 <= i < j < |r.value| ==>
        var pos := PositionMap(repoDao.results[query].repoIds);
        r.value[i].id in pos && r.value[j].id in pos && pos[r.value[i].id] <= pos[r.value[j].id]
      ensures r.Some? && UniqueIds(repoDao.rows) ==> UniqueIds(r.value)
    {
      match repoDao.FindSearchResult(query)
      case None => None
      case Some(searchData) =>
        OrderedLoadSorted(repoDao.rows, searchData.repoIds);
        assert UniqueIds(repoDao.rows) ==> UniqueIds(OrderedLoad(repoDao.rows, searchData.repoIds)) by {
          if UniqueIds(repoDao.rows) {
            OrderedLoadUnique(repoDao.rows, searchData.repoIds);
          }
        }
        Some(OrderedLoad(repoDao.rows, searchData.repoIds))
    }
  }
}
