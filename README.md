# Points and repository storage, modelled in Dafny

This project models the storage core of an Android app that charts points. The app fetches batches of points (and, in the older half of the code, GitHub repositories) from a remote service. It stores them in a Room database and shows them again from there. The model covers:

- **`PointDao`**: the `Point` table and the search-result table. This covers insert with `REPLACE`, reading back by row-id, loading a batch by its `count` tag ordered by `x`, deleting a batch, and `loadOrdered`. `loadOrdered` loads rows by id and sorts them into the order of a stored id list, using a position map.
- **`PointsRepository`**: `addPoints`, which inserts a list 999 points at a time and collects what each chunk reads back. Also the `search` overrides: `saveCallResult` (tag every point with the response size, delete the previous batch of that size, insert, record the search result), `shouldFetch`, `loadFromDb` and `processResponse`.
- **`RepoRepository`**:
  - the `loadRepos` overrides: `shouldFetch` (no data, empty data, or the rate limiter says the owner is due), the always-throwing `createCall`, and `onFetchFailed` (reset the owner in the rate limiter);
  - `addRepos`;
  - the `search` overrides. Their `loadFromDb` loads the stored id list back in order.
- **`PointsViewModel`**: the id cell that `setId` assigns only when the value changes, and the blank guard `RepoId.ifExists`.

## How it is modelled

- **Tables.** A table is a sequence of rows `Row(id, count, data)` with distinct ids (`Tables.dfy`). `data` holds a point's coordinates or a repository's other columns. Inserting with `REPLACE` removes the row holding the key, then appends the new row (`Upsert`). Inserting a list does this row by row (`UpsertAll`). `Latest(xs)` is what a list leaves behind on its own: the last row of each id.
- **Queries.** A query without `ORDER BY` (`getPointsFromRowids`) is specified only up to order, as a multiset. `loadPoints` is a permutation of the matching rows sorted by `x`. `loadOrdered` is the stored rows with the given ids, stably sorted by their position in the id list (`OrderedLoad`). `Dao.LoadOrdered` builds the position map in a loop, as the source does.
- **State.** The DAO and the rate limiter are classes whose methods change their fields. The response body is a class whose `items` and `nextPage` the overrides overwrite. `addPoints` keeps its `for` loop over chunks; `StampCount` keeps the `forEach` that tags items.
- **The `count` column.** It is an integer column compared with a string parameter. The model compares the row's count, written in canonical decimal (`Decimal.IntToString`), with the string. `Decimal.IntToStringInjective` shows that matching against `n.toString()`, the string `saveCallResult` deletes by, selects exactly the rows whose count is `n`. Other strings also reach the query (see "Left out").

## Model

| member | source | states |
|---|---|---|
| Tables.Upsert | app/src/main/java/com/android/example/points/db/PointDao.kt:37-38 | after a `REPLACE` insert the ids stay distinct, the new row is stored, it is the only row with its id, every other old row stays, and no other row appears |
| Tables.UpsertAllSplit | app/src/main/java/com/android/example/points/db/PointDao.kt:40-41 | inserting a list leaves the old rows whose id the list does not mention, followed by the last row of each id of the list |
| Tables.UpsertAllConcat | app/src/main/java/com/android/example/points/db/PointDao.kt:40-41 | inserting `a + b` is inserting `a` and then `b` |
| Tables.LatestKeepsLast | app/src/main/java/com/android/example/points/db/PointDao.kt:40-41 | for every id in an inserted list, the last row carrying it is the one kept |
| Tables.LatestFrom | app/src/main/java/com/android/example/points/db/PointDao.kt:40-41 | every row an inserted list leaves behind comes from that list |
| Tables.LatestSubMultiset | app/src/main/java/com/android/example/points/db/PointDao.kt:40-41 | an inserted list keeps some of its rows and adds none (multiset inclusion) |
| Tables.LatestOfUnique | app/src/main/java/com/android/example/points/db/PointDao.kt:40-41 | a list with distinct ids is kept whole and in order |
| Tables.ReReadAfterInsert | app/src/main/java/com/android/example/points/db/PointDao.kt:40-44 | selecting by the row-ids an insert returned yields exactly the last row of each inserted id |
| Tables.Filter | app/src/main/java/com/android/example/points/db/PointDao.kt:77-78 | a `WHERE` clause keeps exactly the stored rows it accepts, and no more rows than are stored |
| Tables.FilterUnique | app/src/main/java/com/android/example/points/db/PointDao.kt:77-78 | a filtered table still has distinct ids |
| Tables.DeleteBatch | app/src/main/java/com/android/example/points/db/PointDao.kt:54-59 | deleting by `n.toString()` keeps every row whose count is not `n` and leaves none whose count is `n` |
| Decimal.IntToString | app/src/main/java/com/android/example/github/repository/PointsRepository.kt:80 | `count.toString()` spells the count's value in decimal (`DecimalValue` of the digits is the count's magnitude); it has a minus sign exactly for negative counts, then digits with no leading zero, and it is "0" exactly for zero |
| Decimal.IntToStringInjective | app/src/main/java/com/android/example/points/db/PointDao.kt:46-52 | two counts render to the same decimal string exactly when they are equal, so `count = :count` with `n.toString()` selects exactly count `n` |
| PointDao.Dao.constructor | app/src/main/java/com/android/example/points/db/PointDao.kt:33-35 | a fresh database has both tables empty |
| PointDao.Dao.InsertRows | app/src/main/java/com/android/example/points/db/PointDao.kt:40-41 | `insertPoints` inserts the list row by row with `REPLACE` and returns the row-ids of the list in order |
| PointDao.Dao.Insert | app/src/main/java/com/android/example/points/db/PointDao.kt:37-38 | the vararg `insert` inserts the rows with `REPLACE` |
| PointDao.Dao.GetFromRowids | app/src/main/java/com/android/example/points/db/PointDao.kt:43-44 | `getPointsFromRowids` returns the stored rows whose row-id is listed, in an unspecified order |
| PointDao.LoadPoints | app/src/main/java/com/android/example/points/db/PointDao.kt:46-52 | `loadPoints(count)` holds exactly the rows whose count matches, each once, by ascending `x` |
| PointDao.Dao.DeletePoints | app/src/main/java/com/android/example/points/db/PointDao.kt:54-59 | `deletePoints(count)` removes exactly the rows whose count matches and leaves the search table alone |
| PointDao.Dao.InsertResult | app/src/main/java/com/android/example/points/db/PointDao.kt:61-62 | storing a search result replaces the one stored for its query and changes nothing else |
| PointDao.Dao.FindSearchResult | app/src/main/java/com/android/example/points/db/PointDao.kt:80-81 | `findSearchResult` is present exactly when a result is stored for the query, and it is that result |
| PointDao.Dao.LoadById | app/src/main/java/com/android/example/points/db/PointDao.kt:77-78 | `loadById` returns exactly the stored rows whose id is listed, none more often than it is stored, so with distinct stored ids no id twice |
| PointDao.PositionMap | app/src/main/java/com/android/example/points/db/PointDao.kt:68-71 | the `SparseIntArray` maps exactly the listed ids, each to an index holding it with no later index holding it |
| PointDao.OrderedLoad | app/src/main/java/com/android/example/points/db/PointDao.kt:67-75 | `loadOrdered` is a permutation of the stored rows whose id is listed |
| PointDao.OrderedLoadSorted | app/src/main/java/com/android/example/points/db/PointDao.kt:72-74 | `loadOrdered` is sorted by each row's position in the id list |
| PointDao.OrderedLoadUnique | app/src/main/java/com/android/example/points/db/PointDao.kt:67-75 | `loadOrdered` never returns two rows with the same id |
| PointDao.OrderedLoadFollowsIds | app/src/main/java/com/android/example/points/db/PointDao.kt:67-75 | for distinct ids that are all stored, `loadOrdered` returns one row per id in the order of the ids |
| PointDao.LoadOrderedAfterInsert | app/src/main/java/com/android/example/points/db/PointDao.kt:67-78 | after inserting a list, `loadOrdered` by the ids of what was read back returns exactly that read-back list |
| PointDao.Dao.LoadOrdered | app/src/main/java/com/android/example/points/db/PointDao.kt:67-75 | the loop that fills the position map and the sort it drives compute `OrderedLoad` |
| Sorting.SortBy | app/src/main/java/com/android/example/points/db/PointDao.kt:73 | `sortedWith(compareBy …)` returns a permutation of its input: it keeps every element, with its multiplicity, and adds none |
| Sorting.SortBySorted | app/src/main/java/com/android/example/points/db/PointDao.kt:73 | `sortedWith(compareBy …)` returns a list ordered by the key |
| PointsRepository.PointsRepository.LoadPoints | app/src/main/java/com/android/example/github/repository/PointsRepository.kt:49-51 | `loadPoints(owner)` is a permutation of the points tagged `owner`, by ascending `x`; the search's `loadFromDb` (lines 95-97) is `loadPoints(query)` |
| PointsRepository.ChunksFromShape | app/src/main/java/com/android/example/github/repository/PointsRepository.kt:66-67 | chunk `k` from index `i` is the slice from `i + 999k` to 999 items later or the end, whichever comes first |
| PointsRepository.ChunkSizes | app/src/main/java/com/android/example/github/repository/PointsRepository.kt:64-67 | `addPoints` makes `n / 999 + 1` insert calls; each gets at most 999 points and all but the last get exactly 999 |
| PointsRepository.LastChunkEmpty | app/src/main/java/com/android/example/github/repository/PointsRepository.kt:66-67 | the last insert call gets an empty list exactly when the number of points is a multiple of 999, zero included |
| PointsRepository.ChunksCover | app/src/main/java/com/android/example/github/repository/PointsRepository.kt:66-67 | the chunks joined in order are the whole list, so every point goes to exactly one insert call |
| PointsRepository.ReadBacksWithin | app/src/main/java/com/android/example/github/repository/PointsRepository.kt:66-69 | when each read-back is a permutation of its call's last rows, the read-backs joined are a sub-multiset of the calls joined |
| PointsRepository.ReadBacksExact | app/src/main/java/com/android/example/github/repository/PointsRepository.kt:66-69 | when moreover no call repeats an id, the read-backs joined are a permutation of the calls joined |
| PointsRepository.ChunksUnique | app/src/main/java/com/android/example/github/repository/PointsRepository.kt:66-67 | the chunks of a list with distinct ids each have distinct ids |
| PointsRepository.CollectedAll | app/src/main/java/com/android/example/github/repository/PointsRepository.kt:63-71 | once every chunk is in, the list read back is a sub-multiset of the points, and a permutation of them when their ids are distinct |
| PointsRepository.PointsRepository.InsertChunk | app/src/main/java/com/android/example/github/repository/PointsRepository.kt:67-68 | one chunk is inserted, and reading it back by its row-ids gives a permutation of the last row of each id in the chunk |
| PointsRepository.PointsRepository.AddPoints | app/src/main/java/com/android/example/github/repository/PointsRepository.kt:63-71 | the table ends as inserting the whole list would leave it; the calls are the 999-chunks; the result is the read-backs joined, each a permutation of its chunk's last rows; with distinct ids the result is a permutation of the input |
| Api.StampCount | app/src/main/java/com/android/example/github/repository/PointsRepository.kt:77-78 | every item's count becomes the number of items; ids, data, total and next page are unchanged; `RepoRepository.kt` lines 97-98 tag repositories the same way |
| PointsRepository.BatchReload | app/src/main/java/com/android/example/github/repository/PointsRepository.kt:76-97 | after the batch of `n` is saved, the rows tagged `n` are exactly the new batch (last row of each id), and no earlier batch of `n` survives |
| PointsRepository.PointsRepository.SearchSaveCallResult | app/src/main/java/com/android/example/github/repository/PointsRepository.kt:76-91 | the table is the old one without the rows tagged `n`, plus the tagged response; the response's new items are the per-chunk read-backs of `addPoints` joined in chunk order, each a permutation of its tagged chunk after replacement; the stored search result lists the ids read back, with the response's total and next page; `loadPoints(n)` afterwards is a permutation of the new batch |
| PointsRepository.PointsRepository.SaveBatch | app/src/main/java/com/android/example/github/repository/PointsRepository.kt:79-90 | the transaction leaves the table as deleting the tag and inserting the items would; the items become the per-chunk read-backs joined in chunk order, each a permutation of its chunk after replacement, so a sub-multiset of what they were and a permutation when their ids are distinct; the stored search result lists their ids; total and next page are kept |
| PointsRepository.PointsRepository.SearchShouldFetch | app/src/main/java/com/android/example/github/repository/PointsRepository.kt:93 | the points search always fetches |
| Api.ProcessResponse | app/src/main/java/com/android/example/github/repository/PointsRepository.kt:101-106 | the body's next page becomes the response's; total and items are unchanged, and the same body is returned; the repository search's override (`RepoRepository.kt` lines 126-131) is the same |
| RepoRepository.RepoRepository.constructor | app/src/main/java/com/android/example/github/repository/RepoRepository.kt:54 | the owner-list rate limiter has a 10-minute window and no entries |
| RepoRepository.RepoRepository.LoadReposSaveCallResult | app/src/main/java/com/android/example/github/repository/RepoRepository.kt:58-60 | the fetched list is inserted with `REPLACE` |
| RepoRepository.RepoRepository.LoadReposShouldFetch | app/src/main/java/com/android/example/github/repository/RepoRepository.kt:62-64 | fetch exactly when there is no list, the list is empty, or the limiter says the owner is due; not fetching implies a non-empty list |
| RepoRepository.RepoRepository.LoadReposCreateCall | app/src/main/java/com/android/example/github/repository/RepoRepository.kt:68-70 | the call always fails with "Not implemented" |
| RepoRepository.RateLimiter.Due | app/src/main/java/com/android/example/github/repository/RepoRepository.kt:63 | a key with no entry is due; a key with an entry is due exactly when at least the window has passed since it |
| RepoRepository.RateLimiter.Reset | app/src/main/java/com/android/example/github/repository/RepoRepository.kt:73 | `reset(key)` removes that key only, after which the key is due at any time |
| RepoRepository.RepoRepository.LoadReposOnFetchFailed | app/src/main/java/com/android/example/github/repository/RepoRepository.kt:72-74 | a failed fetch removes only the owner's limiter entry, after which `shouldFetch` is true for every list and every time |
| RepoRepository.RepoRepository.AddRepos | app/src/main/java/com/android/example/github/repository/RepoRepository.kt:88-91 | the repositories are inserted; the result is a permutation of the last row of each id, and of the input when its ids are distinct |
| RepoRepository.RepoRepository.SearchSaveCallResult | app/src/main/java/com/android/example/github/repository/RepoRepository.kt:96-110 | the tagged response is inserted; the stored search result lists the ids read back; loading the search afterwards yields exactly the response's new items, in order |
| RepoRepository.RepoRepository.SearchShouldFetch | app/src/main/java/com/android/example/github/repository/RepoRepository.kt:112 | the repository search fetches exactly when nothing is stored for the query |
| RepoRepository.RepoRepository.SearchLoadFromDb | app/src/main/java/com/android/example/github/repository/RepoRepository.kt:114-122 | absent exactly when no search result is stored; otherwise `loadOrdered` of the stored id list: exactly the stored repositories whose id the list holds, sorted by their position in the list, with no id twice while stored ids are distinct |
| PointsViewModel.PointsViewModel.constructor | app/src/main/java/com/example/points/ui/point/PointsViewModel.kt:34 | the id cell starts without a value and has dispatched nothing |
| PointsViewModel.SetIdStep | app/src/main/java/com/example/points/ui/point/PointsViewModel.kt:42-46 | after `setId(o)` the id is `o`; the cell is unchanged exactly when the id already was `o`; otherwise one more value is dispatched |
| PointsViewModel.SetIdIdempotent | app/src/main/java/com/example/points/ui/point/PointsViewModel.kt:42-46 | `setId(o)` twice is `setId(o)` once |
| PointsViewModel.PointsViewModel.SetId | app/src/main/java/com/example/points/ui/point/PointsViewModel.kt:42-46 | the method changes the cell as `SetIdStep` says |
| PointsViewModel.RepoId.IfExists | app/src/main/java/com/example/points/ui/point/PointsViewModel.kt:48-56 | absent exactly when the owner or the name is blank (empty or only Kotlin whitespace); otherwise `f(owner, name)` |

## Left out

- `NetworkBoundResource`, the step machine that calls the overrides in turn (load, decide, fetch, save, reload), is not part of this model. Each override is modelled on its own.
- `LiveData` observation, `switchMap` wiring, `AppExecutors` threading and the `Observer` callbacks are left out. This includes `PointsViewModel.points`, `dataSet` and `listResource`. Queries are modelled as the values they would emit.
- `searchNextPage` and `FetchNextSearchPageTask` are left out; that task's source is not part of this model.
- The remote calls (`createCall` of both searches, `getPoints`, `searchRepos`) are left out, being network I/O. A response enters the model as a `SearchResponse` value.
- `RateLimiter` is not part of this model. Its decision enters `LoadReposShouldFetch` as a boolean. `RateLimiter.Due` (no entry, or an entry at least the window old) and `Reset` stand in for it. The `markFetched` side effect of its `shouldFetch` is not modelled.
- `loadRepos`' `loadFromDb` (`loadRepositories(owner)`) is left out. `RepoDao`'s source is not part of this model. Its other queries (`insertRepos`, `getReposFromRowids`, `insert`, `search`, `loadOrdered`) are taken to behave like `PointDao`'s, and the same `Dao` class serves both.
- `db.runInTransaction` is left out as a construct. The block the points search runs in it is the method `SaveBatch`, and each save method runs uninterrupted, which is what the transaction guarantees.
- `Point` and `Repo` are not part of this model. A point's coordinates are integers, so floating-point ordering in `ORDER BY x` is not modelled. A repository keeps a name and an owner besides its key and count.
- SQLite compares the `count` column with the string parameter through type affinity, so a parameter such as `"05"` or `"5.0"` would also match count 5. The model matches only the canonical decimal string. `deletePoints(count.toString())` always passes that string, so `DeletePoints` is exact.
- PointDao.LoadPoints: matches only the canonical decimal spelling of a count. Its callers pass other strings: the points search's `loadFromDb` passes the user's query (`PointsRepository.kt` line 96). For a query such as `"05"`, SQLite would return the rows with count 5 and the model returns none.
- PointsRepository.PointsRepository.LoadPoints: passes its caller's string through to `PointDao.LoadPoints`, with the same limit on non-canonical strings.
- The model takes the row-id SQLite returns from an insert to be the row's integer primary key `id`.
- Storage order is the order of the last write. No query contract depends on it: `GetFromRowids` is specified up to order, and `LoadPoints` only up to the order of points with equal `x`.
- `repo.count = count` updates the item objects in place. The model rebuilds the item list with the new count, so aliasing of those objects elsewhere is not captured.
- `PointDao.search(query)` runs the same query as `findSearchResult` and is modelled once, as `FindSearchResult`. The points search never calls it.
- The repository's test file expects the points search to load through `search` and `loadOrdered`. The code loads with `loadPoints(query)`, and the model follows the code.
- PointsRepository.PointsRepository.SearchSaveCallResult, PointsRepository.PointsRepository.SaveBatch: within one chunk, the order of the read-back rows is left open, because `getPointsFromRowids` has no `ORDER BY` and SQLite promises no order; the chunks' order and each chunk's contents are stated.
- RepoRepository.RateLimiter.Due: a key is due when it has no entry or when `now - last >= timeout`. Whether the limiter uses `>=` or `>` at the boundary cannot be settled, because the limiter's source is not part of this model.
- RepoRepository.RepoRepository.AddRepos, PointDao.OrderedLoad: both bind one SQL parameter per id (`getReposFromRowids(ids)` at `RepoRepository.kt` lines 88-91, `loadById(repoIds)` at `PointDao.kt` lines 72 and 77-78) without chunking. The model assumes any number of ids can be bound. SQLite's bound-parameter limit (999 in older builds) would make such a query fail for longer lists. That limit is why `addPoints` inserts 999 points at a time.
