# LRU cache and gee routing, modelled in Dafny

This project models three small Go components and proves properties of them.

- **LRU cache** (`test/main.go`). A capacity, an index `cache` from keys to
  list elements, and a recency list `lruList` with the most recently used
  entry at the front.
  - `Get` moves a hit to the front.
  - `Put` overwrites and refreshes a present key. Otherwise it evicts the
    back entry when the list is full, then pushes the new entry at the front.
  - `lru_cache.dfy` models this as classes updated in place. `LRUCache` has
    the source's fields. `Entry` objects are shared between the index and
    the list, so `Put` can write a new value through the index's handle, as
    the source does.
  - A ghost field `Contents` tracks the list as values. The contracts of
    `Get` and `Put` (and of `PutExisting` and `PutNew`) tie `Contents` to
    `AfterGet` or `AfterPut` in `lru_spec.dfy`. The step methods tie it to
    the move to the front (`MoveToFrontAt`), the list without its back
    (`EvictBack`), the pushed binding (`PushFront`) and the overwritten
    front (`WriteFront`).
  - `lru_spec.dfy` proves what the cache promises about those functions:
    hit and miss behaviour, update, insertion, eviction of the least
    recently used key, the size bound and recency order.
- **Route groups with middleware** (`Web/5-middleware/gee/gee.go`).
  - `Group` creates a group whose prefix is its parent's prefix followed by
    the new component, and appends it to the engine's groups.
  - `Use` appends middlewares to a group.
  - `addRoute` registers `prefix + comp`.
  - `ServeHTTP` selects, in group order, the middlewares of every group
    whose prefix is a string prefix of the path.
  - `gee_middleware.dfy` has the classes `RouterGroup` and `Engine`.
    `ServeHTTP` is a loop proved equal to the value-level selection
    `Select`, and lemmas about `Select` state what that selection promises.
- **Static route table** (`Web/1-http-base/basic3/gee/gee.go`).
  - A map keyed by `method + "-" + pattern`.
  - `GET` and `POST` write into the map.
  - `ServeHTTP` does an exact lookup, or writes `404 NOT FOUND: <url>`
    followed by a newline.
  - `gee_static.dfy` has the class `Engine` with the map. Its `ServeHTTP` is
    proved equal to `Dispatch`, and lemmas cover key injectivity and what
    registering a route changes.

Handlers and middlewares are opaque numbers (`HandlerId`). Strings are
sequences of characters.

## Model

| member | source | states |
|---|---|---|
| LruSpec.Find | test/main.go:29 | the index lookup on values: the position found holds the key and no earlier position does; nothing is found exactly when the key is absent |
| LruSpec.MoveToFront | test/main.go:30 | `list.MoveToFront`: the moved element becomes the front, the elements before it shift back by one, the elements after it keep their places |
| LruSpec.MoveToFrontPermutes | test/main.go:30 | moving an element to the front only permutes the list |
| LruSpec.Lookup | test/main.go:28-34 | `Get`'s result: found exactly when the key is present; a found value is the one bound to the key; a miss returns -1 |
| LruSpec.AfterGet | test/main.go:28-34 | the list after `Get` is a permutation of the list before; a hit puts the key at the front; a miss leaves the list as it was |
| LruSpec.AfterPut | test/main.go:36-53 | the list after `Put` starts with the new binding; its length stays for a present key or a full list, and grows by one otherwise |
| LruSpec.GetMissIsPure | test/main.go:33 | `Get` of an absent key returns (-1, false) and leaves the list unchanged |
| LruSpec.GetHit | test/main.go:29-31 | `Get` of a present key returns its value with true and moves its binding to the front; the key set, the size and distinct keys are kept |
| LruSpec.MoveToFrontKeys | test/main.go:30 | moving to the front keeps the key set and keeps the keys distinct |
| LruSpec.MoveToFrontLookup | test/main.go:30 | moving to the front changes no key's lookup result |
| LruSpec.OverwriteValue | test/main.go:39 | overwriting one binding's value keeps the key set and distinct keys; that key now looks up to the new value and every other key is unchanged |
| LruSpec.PutUpdate | test/main.go:37-41 | `Put` of a present key overwrites only that key's value and moves it to the front; it never evicts, the size and key set stay, and every other key keeps its value |
| LruSpec.PushFrontKeys | test/main.go:51-52 | pushing a binding for an absent key adds exactly that key, keeps keys distinct and leaves every other lookup unchanged |
| LruSpec.DropBackKeys | test/main.go:44-48 | removing the back binding removes exactly its key, which then misses; every other lookup is unchanged |
| LruSpec.PutInsert | test/main.go:50-52 | `Put` of an absent key with room left pushes it at the front; the size grows by exactly one, no key is removed and other keys keep their values |
| LruSpec.PutEvict | test/main.go:43-52 | `Put` of an absent key into a full list evicts exactly the back (least recently used) key; the size stays at capacity and the other keys keep their values |
| LruSpec.InvariantPreserved | test/main.go:28-53 | with a positive capacity, `Get` and `Put` keep the keys distinct and the size at most the capacity |
| LruSpec.SameRelativeOrder | test/main.go:30 | two lists holding two keys at positions in the same order agree on which key is more recent |
| LruSpec.FrontIsMostRecent | test/main.go:30 | the front key is more recent than every other key |
| LruSpec.MoveToFrontOrder | test/main.go:30 | moving a key to the front makes it the most recent and keeps the relative order of all other keys |
| LruSpec.PushFrontOrder | test/main.go:51 | pushing a key at the front makes it the most recent and keeps the relative order of the others |
| LruSpec.DropBackOrder | test/main.go:46 | removing the back keeps the relative order of the remaining keys |
| LruSpec.UpdateIsOverwriteThenMove | test/main.go:37-41 | updating a present key equals overwriting it in place and then moving it to the front |
| LruSpec.UpdateOrder | test/main.go:37-41 | after updating a present key, it is the most recent and the order of the other keys is kept |
| LruSpec.EvictOrder | test/main.go:43-52 | after an eviction and insertion, the new key is the most recent and the surviving keys keep their order |
| LruSpec.InsertOrder | test/main.go:50-52 | after an insertion without eviction, the new key is the most recent and the other keys keep their order |
| LruSpec.BackIsLeastRecent | test/main.go:44-46 | in a list with distinct keys, every key in front of the back binding is more recent than the back key, so the back is the least recently used |
| LruSpec.NewerSurvivesEviction | test/main.go:43-52 | when `Put` of an absent key evicts, the evicted back key is less recent than every key that stays, it is gone afterwards, and any key more recent than another key survives |
| LruSpec.PutKeepsRecencyOrder | test/main.go:36-53 | after any `Put(k, v)`, k is the most recent key, and any two other keys still present keep their relative order |
| LruSpec.GetKeepsRecencyOrder | test/main.go:28-34 | after `Get(k)`, a hit makes k the most recent key, and the relative order of any two other keys is unchanged |
| LruSpec.NonPositiveCapacityGrows | test/main.go:43 | as written, with capacity 0 or less, every `Put` of a new key makes the list longer than the capacity |
| LruSpec.ZeroCapacityExample | test/main.go:43-51 | as written, two puts of new keys into a capacity-0 cache leave two entries |
| LruSpec.PutIntoEmpty | test/main.go:50-52 | `Put` into an empty list yields exactly the new binding |
| LruSpec.PutIntoSingle | test/main.go:43-52 | `Put` of a new key into a one-entry list of capacity 2 evicts nothing and puts the new binding first |
| LruSpec.PutIntoFullPair | test/main.go:43-52 | `Put` of a new key into a full two-entry list evicts the back entry |
| LruSpec.GetFromPair | test/main.go:28-34 | `Get` on a two-entry list: a front hit changes nothing, a back hit swaps the two, and a miss returns (-1, false) |
| LruCache.Entry.constructor | test/main.go:14-17 | a fresh entry holds the given key and value |
| LruCache.View | test/main.go:10-11 | the bindings that the shared entries currently hold, position by position |
| LruCache.ViewMoveToFront | test/main.go:30 | moving a handle to the front moves its binding to the front |
| LruCache.ViewPushFront | test/main.go:51 | pushing a handle at the front pushes its binding at the front |
| LruCache.ViewDropBack | test/main.go:46 | removing the back handle removes the back binding |
| LruCache.IndexOf | test/main.go:29-30 | the position in the list of the element the index points to |
| LruCache.OverwriteFront | test/main.go:39 | writing a value through the front handle changes the front binding and nothing else |
| LruCache.IndexedMoveToFront | test/main.go:30 | moving an element to the front keeps the index in agreement with the list and keeps the set of elements |
| LruCache.MoveToFrontWithin | test/main.go:30 | moving an element to the front keeps every element among the cache's entries |
| LruCache.IndexedDropBack | test/main.go:46-47 | removing the back element and deleting its key keeps the index in agreement with the list |
| LruCache.IndexedPushFront | test/main.go:51-52 | pushing a new element and indexing its key keeps the index in agreement with the list |
| LruCache.ConsistentMoveToFront | test/main.go:30 | moving an element to the front keeps the cache invariant |
| LruCache.ConsistentDropBack | test/main.go:44-48 | the eviction keeps the cache invariant |
| LruCache.ConsistentPushFront | test/main.go:51-52 | the insertion of an absent key with room left keeps the cache invariant |
| LruCache.LRUCache.NewLRUCache | test/main.go:20-26 | a new cache has the given capacity, an empty index and an empty list |
| LruCache.LRUCache.ContentsDistinct | test/main.go:8-12 | a valid cache's list has distinct keys and at most `capacity` entries, and its keys are exactly the index's keys |
| LruCache.LRUCache.MoveToFrontAt | test/main.go:30 | `lruList.MoveToFront` in place: the list and its bindings are moved, the index is untouched |
| LruCache.LRUCache.EvictBack | test/main.go:44-48 | `Remove` of the back element and `delete` of its key: one entry fewer, the back binding and its key gone |
| LruCache.LRUCache.PushFront | test/main.go:51-52 | `PushFront` of a fresh entry and indexing it: the binding is added at the front and the key to the index |
| LruCache.LRUCache.Get | test/main.go:28-34 | returns `Lookup` of the old list; the list becomes `AfterGet` of it; the index is untouched; a miss leaves the list unchanged |
| LruCache.LRUCache.WriteFront | test/main.go:39 | the in-place write through the shared handle changes only the front binding |
| LruCache.LRUCache.PutExisting | test/main.go:37-41 | `Put` of a present key: the list becomes `AfterPut` of the old list |
| LruCache.LRUCache.PutNew | test/main.go:43-52 | `Put` of an absent key, with eviction when full: the list becomes `AfterPut` of the old list |
| LruCache.LRUCache.Put | test/main.go:36-53 | keeps the cache invariant and turns the list into `AfterPut` of the old list |
| LruCache.MainTrace | test/main.go:55-68 | the trace in `main` returns (1, true), (-1, false), (-1, false), (3, true), (4, true) |
| GeeStatic.RouteKey | Web/1-http-base/basic3/gee/gee.go:22 | the route key is the method, a dash and the pattern, in that order |
| GeeStatic.NotFoundBody | Web/1-http-base/basic3/gee/gee.go:47 | the 404 body is "404 NOT FOUND: ", then the URL, then a newline; its length is the URL's plus 16 |
| GeeStatic.Dispatch | Web/1-http-base/basic3/gee/gee.go:42-48 | the handler runs exactly when the request's key is registered, and it is the handler stored under that key; otherwise the reply is the 404 body with the URL |
| GeeStatic.RouteKeyInjective | Web/1-http-base/basic3/gee/gee.go:22 | for methods without a dash, equal keys mean the same method and the same pattern |
| GeeStatic.GetPostDistinct | Web/1-http-base/basic3/gee/gee.go:28-35 | a `GET` route and a `POST` route never share a key |
| GeeStatic.RegisterThenDispatch | Web/1-http-base/basic3/gee/gee.go:21-45 | after a route is registered, a request for that method and path reaches that handler |
| GeeStatic.RegisterLeavesOthers | Web/1-http-base/basic3/gee/gee.go:21-48 | registering a route changes no outcome for a request with another method or path, when no method contains a dash |
| GeeStatic.DashMakesKeysAmbiguous | Web/1-http-base/basic3/gee/gee.go:22 | without a restriction on methods, two different method and pattern pairs can share a key: "A-B" with "C" and "A" with "B-C" |
| GeeStatic.RouteKeyInjectiveOnSlashPatterns | Web/1-http-base/basic3/gee/gee.go:22 | for methods without a slash and patterns starting with one, equal keys mean the same method and the same pattern, even when a method contains a dash |
| GeeStatic.RegisterLeavesOthersOnSlashPaths | Web/1-http-base/basic3/gee/gee.go:21-48 | registering a route changes no outcome for a request with another method or path, when methods hold no slash and the pattern and the path start with one |
| GeeStatic.ReRegisterOverwrites | Web/1-http-base/basic3/gee/gee.go:24 | registering the same method and pattern twice keeps only the later handler |
| GeeStatic.Engine.New | Web/1-http-base/basic3/gee/gee.go:17-19 | a new engine has an empty route table |
| GeeStatic.Engine.AddRoute | Web/1-http-base/basic3/gee/gee.go:21-25 | the table gets the handler under the route's key, replacing any earlier one; all other keys are unchanged |
| GeeStatic.Engine.GET | Web/1-http-base/basic3/gee/gee.go:28-30 | registers under the method "GET" |
| GeeStatic.Engine.POST | Web/1-http-base/basic3/gee/gee.go:33-35 | registers under the method "POST" |
| GeeStatic.Engine.ServeHTTP | Web/1-http-base/basic3/gee/gee.go:42-49 | the outcome is `Dispatch` of the table and the request |
| GeeStatic.MethodsKeptApart | Web/1-http-base/basic3/gee/gee.go:28-48 | the same path registered for GET and for POST reaches a different handler for each method, and another method gets the 404 body |
| GeeMiddleware.HasPrefix | Web/5-middleware/gee/gee.go:85 | `strings.HasPrefix`: a matching path is the prefix followed by the rest of the path |
| GeeMiddleware.Contribution | Web/5-middleware/gee/gee.go:85-87 | one group adds either all of its middlewares or none; it adds them whenever its prefix matches the path, and adds something only then |
| GeeMiddleware.Select | Web/5-middleware/gee/gee.go:84-89 | the selection of the loop over the groups: every selected middleware belongs to some group whose prefix matches the path |
| GeeMiddleware.EmptyPrefixMatches | Web/5-middleware/gee/gee.go:85 | the empty prefix of the root group matches every path |
| GeeMiddleware.PrefixTransitive | Web/5-middleware/gee/gee.go:85 | a prefix of a matching prefix also matches |
| GeeMiddleware.ComposedPrefix | Web/5-middleware/gee/gee.go:42 | a child group's prefix starts with its parent's prefix |
| GeeMiddleware.PrefixIsNotSegment | Web/5-middleware/gee/gee.go:85 | matching is string-prefix matching, not segment matching: "/v1" matches "/v10/x" and its middlewares are selected there |
| GeeMiddleware.SelectAppend | Web/5-middleware/gee/gee.go:84-89 | the selection over two runs of groups is the first run's selection followed by the second's |
| GeeMiddleware.SelectSingle | Web/5-middleware/gee/gee.go:85-87 | one group contributes its middlewares exactly when its prefix matches |
| GeeMiddleware.SelectSplit | Web/5-middleware/gee/gee.go:84-89 | the selection is the groups before one group, then that group's contribution, then the groups after it |
| GeeMiddleware.RootFirst | Web/5-middleware/gee/gee.go:84-89 | when the first group has the empty prefix, its middlewares come first in every selection |
| GeeMiddleware.SelectMembership | Web/5-middleware/gee/gee.go:84-89 | a middleware is selected exactly when some group whose prefix matches the path holds it |
| GeeMiddleware.NewGroupSelectsNothing | Web/5-middleware/gee/gee.go:39-48 | appending a group without middlewares changes no selection |
| GeeMiddleware.UseSelect | Web/5-middleware/gee/gee.go:50-52 | middlewares added to a group appear right after that group's earlier ones for every path it matches, and change nothing for other paths |
| GeeMiddleware.Views | Web/5-middleware/gee/gee.go:15-20 | the groups' prefixes and middlewares, position by position |
| GeeMiddleware.RouterGroup.constructor | Web/5-middleware/gee/gee.go:41-45 | a new group has the given prefix, parent and engine, and no middlewares |
| GeeMiddleware.RouterGroup.Group | Web/5-middleware/gee/gee.go:39-48 | a fresh group with prefix `this.prefix + prefix`, parent this group and the same engine is appended at the end of the engine's groups; the engine stays valid and its routes are untouched |
| GeeMiddleware.RouterGroup.Use | Web/5-middleware/gee/gee.go:50-52 | the given middlewares are appended, in order, to this group's list |
| GeeMiddleware.RouterGroup.AddRoute | Web/5-middleware/gee/gee.go:59-63 | the router is handed the route under `prefix + comp`; the groups are untouched |
| GeeMiddleware.RouterGroup.GET | Web/5-middleware/gee/gee.go:66-68 | adds a route for "GET" under the group's prefix |
| GeeMiddleware.RouterGroup.POST | Web/5-middleware/gee/gee.go:71-73 | adds a route for "POST" under the group's prefix |
| GeeMiddleware.Engine.New | Web/5-middleware/gee/gee.go:30-35 | a new engine has exactly one group, a fresh root with the empty prefix and no parent, and no routes |
| GeeMiddleware.Engine.ParentMatches | Web/5-middleware/gee/gee.go:39-48 | a path that a group matches is also matched by its parent |
| GeeMiddleware.Engine.ServeHTTP | Web/5-middleware/gee/gee.go:80-89 | the selected middlewares are `Select` of the groups in order; the root group's middlewares come first |
| GeeMiddleware.SelectThree | Web/5-middleware/gee/gee.go:84-89 | the selection over three groups is their three contributions in order |
| GeeMiddleware.ExampleSelections | Web/5-middleware/main.go:14-34 | with the example program's groups, "/" and "/v1/hello" get [Logger] and "/v2/hello/geektutu" gets [Logger, OnlyForV2] |

## Left out

- `container/list` internals: the recency list is a sequence of entry handles. The source moves an element in constant time through its handle; the model finds the handle's position with `IndexOf`, a linear search.
- The runtime type assertion `elem.Value.(*entry)`: list elements are typed `Entry` objects.
- `fmt.Println` in `main`: `MainTrace` returns the five printed pairs instead.
- Go's 64-bit `int`: keys, values and the capacity are unbounded integers. The cache only stores and compares them and does no arithmetic on them, so wrap-around cannot arise.
- LruCache.LRUCache.NewLRUCache: requires a positive capacity, while the source accepts any `int`. `AfterPut` still models the source for every capacity (see Findings).
- `log.Printf` in both `addRoute` functions, and `Run` / `http.ListenAndServe`: logging and the network.
- Handler bodies and the `http.ResponseWriter`: handlers are opaque identities. The static `ServeHTTP` returns which handler runs, or the 404 body it writes.
- `req.URL` printed with `%s`: the request carries that text as `url`.
- In the middleware engine, `newContext`, the assignment to `c.handlers` and `engine.router.handle(c)`. The router file is not part of this model. `ServeHTTP` stops at the selected middleware list, and the router is recorded only as the sequence of routes handed to it.
- The engine's embedded `*RouterGroup`: it is the same pointer as `groups[0]`, so the engine's `GET`, `Use` and `Group` are those of `groups[0]` and are not modelled separately.
- GeeMiddleware.RouterGroup.Group: requires the calling group to be one of its engine's groups. This holds for every group the source can reach, since groups come from `New` and `Group` only.
- `Web/5-middleware/gee/logger.go`: wall-clock timing, logging and the context calls it makes.
- The example programs `Web/1-http-base/basic2/main.go` and `Web/5-middleware/main.go`: the first is not modelled, and of the second only the group set-up is modelled, on values, in `ExampleSelections`. Building it on the heap is not included. (The `main` of `test/main.go` is modelled by `MainTrace`.)
- Concurrency: the source has no synchronisation and is modelled as sequential.
- Go strings are bytes: they are modelled as sequences of characters, with no encoding.

## Findings

| source | as written | input that shows it | evidently intended | confidence | as-written member | corrected member |
|---|---|---|---|---|---|---|
| test/main.go:19-26 | `NewLRUCache` accepts any capacity, and `Put` evicts only when `Len() == capacity` (line 43). With a capacity of 0 or less that never happens after the first insertion, so the cache grows without bound. | `NewLRUCache(0)`, then `Put(1, 1)` and `Put(2, 2)`: the cache holds two entries | a cache never holds more entries than its capacity, which needs a positive capacity | not executed | LruSpec.NonPositiveCapacityGrows | LruCache.LRUCache.NewLRUCache |
