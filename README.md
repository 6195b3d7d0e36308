# Ethos invite-graph explorer: a Dafny model of its core logic

The explorer is a small web application. Users search for an Ethos profile, see whom it
invited as a force-directed graph, and revisit recent searches. Most of the repository is
markup and HTTP plumbing. This project models the parts that make decisions:

- **The response cache** (`utils/cache.ts`). `MemoryCache` is an in-process map from string
  keys to `{data, timestamp, ttl}` entries. Each entry's TTL is chosen by category. Reads
  lazily delete an expired entry. At capacity (1000 entries), `set` first runs a cleanup: it
  purges every expired entry, then, if the map is still full, drops the 200 oldest.
  `getCacheKey` builds `type:part:part…` keys. `getOrFetch` serves a truthy cached value or
  else calls the fetcher and stores its result.
- **The global recent-searches list** (`routes/api/recent-searches.ts`). A POST moves the
  user to the front, removes other entries with the same `profileId` and keeps at most 10. A
  GET returns the first 3.
- **The decision logic of the islands**:
  - the six-tier credibility colouring, written out three times, with the node sizes and the
    legend that must agree with it;
  - node label and score defaulting, and the edge filter before drawing;
  - the search box's keyboard state machine and its query-length gate;
  - the `userkey` → profile id resolution and the analysis page's state;
  - the recent-searches strip: its cards, its click target and its empty guard.

Modelling choices:

- The clock `Date.now()` is an explicit `now` argument.
- The JavaScript `Map` is a Dafny `map` plus a `seq` of keys in insertion order. That order
  breaks timestamp ties in the stable sort that `cleanup` performs. As with a `Map`,
  overwriting a key keeps its position.
- `MemoryCache`, the search box and the analysis page update state in place. Each is a Dafny
  `class` whose methods are proved to follow pure transition functions, and the properties
  are proved about those functions.
- The cleanup loops are `for` loops with invariants. They delete from local copies of the map
  and the key order, and assign both fields once after the loop.
- Scores are only compared with constants, so they are integers.
- Optional and nullable fields are `Option`s. `profileId`, which may be missing, `null` or a
  number, is `JsId`, and JavaScript's `!==` on it is datatype disequality.

Points of the code's behaviour worth stating outright:

- An entry whose age equals its TTL is still live: the test is `now - timestamp > ttl`.
- `getOrFetch` serves a cached value only when it is truthy.
- The second cleanup pass runs when the map is still *at* capacity (`>=`), not only when it
  is over it.
- `query.length` counts UTF-16 code units, so a one-emoji query already has length 2 and is
  searched.

## Model

| member | source | states |
|---|---|---|
| CacheStore.Ttl | utils/cache.ts:15-20 | TTLs per category: profile 5 min, network 10 min, invitations 3 min, search 2 min; none is under 2 min |
| CacheStore.ExpiryBoundary | utils/cache.ts:48 | an entry is live while its age is at most its TTL, expired one millisecond later, and stays expired |
| CacheStore.Lookup | utils/cache.ts:40-54 | `get` returns the data iff the key is present and not strictly older than its TTL, and null otherwise |
| CacheStore.Touch | utils/cache.ts:40-67 | a read deletes the key only when it is expired, and no entry (timestamp included) is changed |
| CacheStore.Delete | utils/cache.ts:69-71 | `delete` removes that key only; every other key and its entry are unchanged |
| CacheStore.Clear | utils/cache.ts:73-75 | `clear` leaves an empty map |
| CacheStore.DropKeys | utils/cache.ts:86-90 | deleting a set of keys leaves exactly the other keys with their entries, and the order stays consistent |
| CacheStore.SortByAge | utils/cache.ts:80-83 | the sort of `cleanup` is a permutation of the keys, ordered by ascending timestamp |
| CacheStore.OldestKeys | utils/cache.ts:94-100 | the `slice(0, floor(1000*0.2))` takes exactly 200 keys, the first 200 of the age order |
| CacheStore.Evicted | utils/cache.ts:94-103 | the second pass removes only keys that are in the map |
| CacheStore.Purge | utils/cache.ts:84-89 | the first pass leaves exactly the keys whose entries are not expired |
| CacheStore.Cleanup | utils/cache.ts:77-105 | `cleanup` adds no key and leaves no expired key |
| CacheStore.CleanupKeepsOnlyLive | utils/cache.ts:85-90 | after `cleanup` every remaining entry is unexpired and unchanged |
| CacheStore.CleanupBelowCapacity | utils/cache.ts:92-93 | if the purge gets below capacity, exactly the expired keys are gone and every live one stays |
| CacheStore.EvictedCount | utils/cache.ts:97-100 | the second pass drops exactly `EvictCount` = 200 distinct keys |
| CacheStore.CleanupSize | utils/cache.ts:78-105 | the size after `cleanup` is the live count, or the live count minus 200 when that is still ≥ 1000 |
| CacheStore.EvictedAreOldest | utils/cache.ts:94-103 | each key the second pass drops is no younger than any key it keeps |
| CacheStore.CleanupEvictsOldest | utils/cache.ts:92-104 | each live entry `cleanup` drops has timestamp ≤ that of every entry it keeps |
| CacheStore.CleanupMakesRoom | utils/cache.ts:28-30 | from a cache within capacity, `cleanup` always leaves room for one more entry |
| CacheStore.Put | utils/cache.ts:22-38 | after `set` the key holds the new entry with the category's TTL, and no other key is added |
| CacheStore.PutEffect | utils/cache.ts:22-38 | `set` stores data, timestamp and TTL wholesale and keeps every other surviving entry; below capacity it evicts nothing, and an overwritten key keeps its place |
| CacheStore.PutKeepsValid | utils/cache.ts:22-38 | `set` never takes the map above 1000 entries |
| CacheStore.StepKeepsValid | utils/cache.ts:22-75 | each of `set`/`get`/`has`/`delete`/`clear` keeps the size ≤ 1000 |
| CacheStore.RunStaysWithinCapacity | utils/cache.ts:10-75 | across any sequence of calls the size never exceeds 1000 |
| CacheStore.RunPreservesEntry | utils/cache.ts:33-37 | an entry survives calls that spare its key while no cleanup runs, and nothing refreshes it |
| CacheStore.SetThenGetWithinTtl | utils/cache.ts:22-54 | after `set(k, v, type)` at t, `get(k)` at t' returns v while t' − t ≤ TTL(type), if k is not overwritten, deleted or cleared and no cleanup runs |
| CacheStore.RunKeepsEntryOrDropsIt | utils/cache.ts:22-105 | unless k is set again, its entry is either the one stored or gone |
| CacheStore.SetThenGetAfterTtl | utils/cache.ts:48-51 | once t' − t > TTL(type), `get(k)` returns null whatever happened in between, unless k was set again |
| Cache.MemoryCache.constructor | utils/cache.ts:10-12 | a new cache is empty |
| Cache.MemoryCache.Set | utils/cache.ts:22-38 | `set` performs `Put`: cleanup when size ≥ 1000, then the entry stamped with `now` and the category TTL |
| Cache.MemoryCache.Get | utils/cache.ts:40-54 | returns `Lookup` and deletes an expired entry, leaving the rest unchanged |
| Cache.MemoryCache.Has | utils/cache.ts:56-67 | true iff `Lookup` would return a value, and deletes an expired entry |
| Cache.MemoryCache.Delete | utils/cache.ts:69-71 | removes the key from the map and from the insertion order |
| Cache.MemoryCache.Clear | utils/cache.ts:73-75 | empties the cache |
| Cache.MemoryCache.Cleanup | utils/cache.ts:78-105 | the two passes together perform `CacheStore.Cleanup` |
| Cache.MemoryCache.DeleteExpired | utils/cache.ts:79-90 | the loop over the age-sorted snapshot deletes exactly the expired keys |
| Cache.MemoryCache.DeleteOldest | utils/cache.ts:92-104 | the loop over the first 200 of the sorted remainder deletes exactly those keys |
| Cache.MemoryCache.GetStats | utils/cache.ts:108-120 | changes nothing; size is the map size, maxSize 1000, expired the number of expired entries, and active + expired = size |
| Cache.PartTexts | utils/cache.ts:129-131 | each key part prints as its string or as its decimal number |
| Cache.GetCacheKey | utils/cache.ts:127-132 | the key starts with `type:`, and with no parts it is exactly `type:` |
| Cache.CacheKeySplits | utils/cache.ts:127-132 | a key built from colon-free pieces splits on ":" back into the type and the parts |
| Cache.GetOrFetch | utils/cache.ts:134-152 | a truthy live cached value is returned without calling the fetcher or changing the cache; otherwise the fetcher is called once and its result is stored under the category and returned |
| Text.Utf16Length | islands/UserSearch.tsx:17 | `length` counts UTF-16 code units: between the character count and twice it, and equal to it iff every character is in the Basic Multilingual Plane |
| Text.Split | islands/ProfileAnalysis.tsx:37 | `split` on one character: always at least one piece, none containing the separator |
| Text.SplitJoin | utils/cache.ts:131 | splitting a join of separator-free pieces gives the pieces back |
| Text.JoinSplit | utils/cache.ts:131 | joining the pieces of a split gives the string back |
| Text.NatToString | utils/cache.ts:131 | a number prints as non-empty decimal digits without a leading zero |
| Text.ParseNatToString | utils/cache.ts:131 | the printed digits read back as the number |
| EthosTypes.NavigationTarget | islands/RecentSearches.tsx:23 | `profileId` or else `id`: the profile id when it is a non-zero number, the user id otherwise |
| RecentSearchesApi.WithoutProfile | routes/api/recent-searches.ts:25-27 | the filter keeps exactly the entries whose `profileId` differs (strict `!==`) |
| RecentSearchesApi.WithoutProfileKeepsOrder | routes/api/recent-searches.ts:25-27 | the filter keeps the survivors in their stored order |
| RecentSearchesApi.StoredList | routes/api/recent-searches.ts:22 | a missing stored value reads as the empty list |
| RecentSearchesApi.AddRecentSearch | routes/api/recent-searches.ts:25-30 | the posted user is first, no other entry has its `profileId`, and the length is min(10, 1 + survivors) |
| RecentSearchesApi.AddRecentSearchKeepsOrder | routes/api/recent-searches.ts:25-30 | old entries after the first keep their relative order, and truncation drops only from the tail |
| RecentSearchesApi.AddRecentSearchKeepsDistinct | routes/api/recent-searches.ts:25-30 | a list without duplicate profile ids stays so after a POST |
| RecentSearchesApi.AddRecentSearchIdempotent | routes/api/recent-searches.ts:25-30 | posting the same user twice leaves the list as one post did |
| RecentSearchesApi.TopRecentSearches | routes/api/recent-searches.ts:64-67 | GET returns the first min(3, n) stored entries, in stored order |
| RecentSearchesApi.Handle | routes/api/recent-searches.ts:15-90 | POST answers 200 with `count` = updated length and writes the list, or 500 with nothing written when the body, read or write fails; GET answers 200 with the top 3, or `[]` on a read failure; other methods get 405 |
| Credibility.TierOf | islands/NetworkVisualization.tsx:133-140 | the if-chain puts each score in the half-open band of its tier |
| Credibility.TierIsTheBand | islands/NetworkVisualization.tsx:133-140 | a tier is the score's tier iff the score lies in that tier's band, so the bands partition the scores |
| Credibility.TierMonotone | islands/NetworkVisualization.tsx:133-140 | a higher score never falls in a lower tier |
| NetworkVisualization.ScoreColor | islands/NetworkVisualization.tsx:133-140 | `getScoreColor` is the hex colour of the score's tier |
| NetworkVisualization.ScoreColorIdentifiesTier | islands/NetworkVisualization.tsx:133-140 | two scores share a colour iff they share a tier |
| NetworkVisualization.ScoreSize | islands/NetworkVisualization.tsx:143-153 | `getScoreSize` is 5, 8, 15, 25, 35 or 45 according to the tier |
| NetworkVisualization.ScoreSizeMonotone | islands/NetworkVisualization.tsx:143-153 | size does not decrease as the score grows, and two scores share a size iff they share a tier |
| NetworkVisualization.RingSurroundsImage | islands/NetworkVisualization.tsx:188-209 | ring radius is size + 3 and image diameter 2·size, so the ring lies outside the image; both depend on the tier only |
| NetworkVisualization.LegendRangesParse | islands/NetworkVisualization.tsx:377-400 | the legend texts "<800", "800-1199", …, "2400+" read as the bands listed for them |
| NetworkVisualization.LegendMatchesTiers | islands/NetworkVisualization.tsx:426-449 | for integer scores, a score falls in the i-th legend range iff its tier has rank i |
| NetworkVisualization.NodeLabel | islands/NetworkVisualization.tsx:101-102 | the label is `username` if non-empty, else `displayName` if non-empty, else "Profile <id>"; never empty |
| NetworkVisualization.PrepareNode | islands/NetworkVisualization.tsx:98-106 | the prepared node keeps id, profile id and level, takes the label, and a missing score becomes 0 |
| NetworkVisualization.PrepareNodes | islands/NetworkVisualization.tsx:98-106 | one prepared node per input node, in order |
| NetworkVisualization.NodeIds | islands/NetworkVisualization.tsx:109 | the id set holds exactly the ids of the nodes |
| NetworkVisualization.FilterLinks | islands/NetworkVisualization.tsx:112-119 | an edge is kept iff both of its endpoints are node ids |
| NetworkVisualization.FilterLinksKeepsOrder | islands/NetworkVisualization.tsx:112-119 | kept links keep the edges' original order |
| NetworkVisualization.FilterLinksIdempotent | islands/NetworkVisualization.tsx:112-119 | filtering the kept links again changes nothing |
| NetworkVisualization.LinksConnectNodes | islands/NetworkVisualization.tsx:98-119 | a link reaches the simulation iff it is an input edge whose source and target are ids of input nodes |
| UserSearch.Initial | islands/UserSearch.tsx:7-11 | the box starts empty, hidden and with nothing highlighted |
| UserSearch.NextIndexDown | islands/UserSearch.tsx:54 | ArrowDown moves the highlight one row down but never past the last row |
| UserSearch.NextIndexUp | islands/UserSearch.tsx:58 | ArrowUp moves one row up but never below 0; -1 stays -1 |
| UserSearch.ChosenText | islands/UserSearch.tsx:74 | the selected text is `username`, else `displayName`, else "user-<id>"; never empty |
| UserSearch.Select | islands/UserSearch.tsx:73-87 | `selectUser` sets the query, hides the dropdown, clears the highlight and navigates to the profile id, or the user id when it is falsy |
| UserSearch.KeyDown | islands/UserSearch.tsx:48-71 | keys never change the list or the spinner, do nothing while the dropdown is hidden or empty, and keep the highlight in range |
| UserSearch.SearchRun | islands/UserSearch.tsx:15-38 | a run leaves nothing highlighted and the query as it was; a short query empties and hides the list; a searched one ends the spinner |
| UserSearch.Focus | islands/UserSearch.tsx:108 | focus opens the dropdown iff it was open or the query passes the gate with results; nothing else changes |
| UserSearch.Blur | islands/UserSearch.tsx:89-95 | the dropdown stays open iff it was open and focus moved into it; nothing else changes |
| UserSearch.Step | islands/UserSearch.tsx:15-108 | only a search run replaces the list, and only a key press or a click navigates |
| UserSearch.KeyDownNeedsOpenList | islands/UserSearch.tsx:49 | the key handler changes nothing while the dropdown is hidden or the list is empty |
| UserSearch.ArrowsStayInList | islands/UserSearch.tsx:52-59 | ArrowDown/ArrowUp move by at most one and keep the highlight in [-1, len-1] |
| UserSearch.EnterSelectsHighlighted | islands/UserSearch.tsx:60-65 | Enter selects `users[selectedIndex]` when a row is highlighted, and does nothing otherwise |
| UserSearch.EscapeCloses | islands/UserSearch.tsx:66-69 | Escape hides the dropdown and resets the highlight to -1 |
| UserSearch.ShortQueryNeverSearches | islands/UserSearch.tsx:17-37 | a query shorter than 2 UTF-16 code units clears and hides the list whatever a request would have answered |
| UserSearch.ShouldSearchByLength | islands/UserSearch.tsx:17 | two characters always pass the gate and none never does; one character passes iff it is outside the Basic Multilingual Plane; a query of BMP characters passes iff it has at least 2 |
| UserSearch.SearchShowsResults | islands/UserSearch.tsx:17-37 | a successful search shows exactly the returned `values` (or none when absent) with nothing highlighted |
| UserSearch.StepKeepsValid | islands/UserSearch.tsx:37-58 | every event keeps `selectedIndex` in [-1, len-1] |
| UserSearch.SelectionStaysInRange | islands/UserSearch.tsx:15-108 | across any sequence of events the highlight stays in [-1, len-1] |
| UserSearch.SelectionAlwaysInRange | islands/UserSearch.tsx:11-108 | from the initial state, any sequence of events keeps the highlight in range |
| UserSearch.SearchBox.constructor | islands/UserSearch.tsx:7-11 | the component starts in the initial state |
| UserSearch.SearchBox.HandleInputChange | islands/UserSearch.tsx:43-46 | typing replaces the query only |
| UserSearch.SearchBox.RunSearch | islands/UserSearch.tsx:15-38 | the debounced run requests iff the query has ≥ 2 UTF-16 code units and performs `SearchRun` |
| UserSearch.SearchBox.SelectUser | islands/UserSearch.tsx:73-87 | performs `Select` |
| UserSearch.SearchBox.HandleKeyDown | islands/UserSearch.tsx:48-71 | performs `KeyDown` |
| UserSearch.SearchBox.HandleFocus | islands/UserSearch.tsx:107-108 | focus reopens the dropdown only for a searchable query with results |
| UserSearch.SearchBox.HandleBlur | islands/UserSearch.tsx:89-95 | blur hides the dropdown unless focus moved into it |
| ProfileAnalysis.ScoreClass | islands/ProfileAnalysis.tsx:17-24 | `getScoreColor` is the badge class of the score's tier |
| ProfileAnalysis.ScoreClassMatchesNetwork | islands/ProfileAnalysis.tsx:16-24 | the badge class is the network legend's swatch for the score, and two scores share a class iff they share a network colour |
| ProfileAnalysis.BadgeClass | islands/ProfileAnalysis.tsx:173 | a missing score is coloured as 0 (untrusted) |
| ProfileAnalysis.IsNumeric | islands/ProfileAnalysis.tsx:38 | every all-digit key is numeric, and no numeric key contains a colon |
| ProfileAnalysis.FirstField | islands/ProfileAnalysis.tsx:37 | the text before the first colon: colon-free, a prefix, ended by a colon or the string's end |
| ProfileAnalysis.ResolutionOf | islands/ProfileAnalysis.tsx:34-53 | a resolved id is never empty and never contains a colon |
| ProfileAnalysis.SplitSecondPiece | islands/ProfileAnalysis.tsx:36-37 | `split(":")[1]` on a `profileId:` key is the text after the prefix up to the next colon |
| ProfileAnalysis.ResolveProfileId | islands/ProfileAnalysis.tsx:34-53 | the branch with its mutable `profileId` yields exactly `ResolutionOf(userkey)` |
| ProfileAnalysis.PrefixTakesPrecedence | islands/ProfileAnalysis.tsx:36-55 | a `profileId:` key is fetched with the text up to the next colon, numeric or not |
| ProfileAnalysis.EmptyPrefixedIdRefused | islands/ProfileAnalysis.tsx:36-53 | a `profileId:` key with an empty id (`profileId:`, `profileId::5`) is refused as unresolvable |
| ProfileAnalysis.UnprefixedKey | islands/ProfileAnalysis.tsx:38-53 | any other key is used verbatim iff it is numeric and non-empty; a non-numeric key is refused with a message quoting it; "" is unresolvable |
| ProfileAnalysis.InitialPage | islands/ProfileAnalysis.tsx:10-13 | the page starts loading, with no error and no profile, at depth 3, which is among the options |
| ProfileAnalysis.AfterFetch | islands/ProfileAnalysis.tsx:27-72 | `fetchProfile` always ends the spinner and keeps the depth; a refused key sets its message; a loaded profile is stored; any other outcome sets a non-empty error and leaves the profile as it was |
| ProfileAnalysis.PageOf | islands/ProfileAnalysis.tsx:77-116 | the spinner shows iff loading; an error page shows the non-empty error; the profile page shows the stored profile; "not found" shows iff neither |
| ProfileAnalysis.RefusedKeyShowsMessage | islands/ProfileAnalysis.tsx:40-53 | a refused key shows its message, and the server's answer plays no part |
| ProfileAnalysis.FirstFetchOutcome | islands/ProfileAnalysis.tsx:55-116 | on first load a good response shows the profile and any failure shows an error |
| ProfileAnalysis.ProfileAnalysisView.constructor | islands/ProfileAnalysis.tsx:10-13 | the component starts in the initial page state |
| ProfileAnalysis.ProfileAnalysisView.FetchProfile | islands/ProfileAnalysis.tsx:27-72 | `fetchProfile` performs `AfterFetch` and requests the resolved id, and only that |
| ProfileAnalysis.ProfileAnalysisView.SelectDepth | islands/ProfileAnalysis.tsx:220-232 | the selected depth is one of 1 to 4 |
| RecentSearches.ScoreClass | islands/RecentSearches.tsx:28-35 | `getScoreColor` is the network legend's swatch for the score's tier |
| RecentSearches.ScoreClassAgrees | islands/RecentSearches.tsx:27-35 | it gives every score the same class as the analysis page's copy |
| RecentSearches.ProfilePath | islands/RecentSearches.tsx:22-25 | a click opens `/analysis/` followed by the profile id, or the user id when the profile id is falsy |
| RecentSearches.FalsyProfileIdFallsBack | islands/RecentSearches.tsx:23 | a missing, null or 0 `profileId` falls back to `id` |
| RecentSearches.ShowDisplayNameLine | islands/RecentSearches.tsx:79 | the guard as written shows only a non-empty display name, and without a username the name it shows is already the title |
| RecentSearches.DisplayNameShownTwice | islands/RecentSearches.tsx:77-79 | the guard as written shows the display name twice for a user without a username |
| RecentSearches.SecondLineCorrection | islands/RecentSearches.tsx:79 | the corrected guard agrees with the original whenever a username is present |
| RecentSearches.CardOf | islands/RecentSearches.tsx:53-104 | a card's title is `username`, else `displayName`; the badge shows iff a score is present (0 included) with that score's class; the second line never repeats the title (corrected guard) |
| RecentSearches.Render | islands/RecentSearches.tsx:37-104 | nothing renders for an empty list, otherwise one card per user in order |
| RecentSearches.Load | islands/RecentSearches.tsx:11-20 | the list changes only on a successful parse of a non-empty stored string |
| RecentSearches.FailedLoadRendersNothing | islands/RecentSearches.tsx:5-39 | a missing, empty or unreadable stored value leaves the list empty, so nothing renders |

## Findings

| source | as written | input that shows it | evidently intended | confidence | as-written member | corrected member |
|---|---|---|---|---|---|---|
| islands/RecentSearches.tsx:79 | the second line shows when `displayName` is truthy and `username !== displayName` | a user with no `username` and `displayName` "Bob": the title (username, else display name) is "Bob" and the second line repeats "Bob" | show the display name as a second line only when it is not already the title | medium; not executed | RecentSearches.DisplayNameShownTwice | RecentSearches.CardOf |

## Left out

- I/O is out of the model: `fetch`, Deno KV `open`/`get`/`set`/`close`, `localStorage`, `JSON.parse` and `location.href`. They appear only as the values they yield (response outcomes, stored values, parse results, navigation targets).
- Timers, `useEffect` wiring and async interleavings are left out: the 300 ms debounce, the 150 ms blur delay and requests overlapping each other. Each handler is one atomic transition.
- Logging (`console.*`) has no effect on state and is left out.
- Most of islands/NetworkVisualization.tsx is left out: the D3 drawing, the force simulation, zoom, drag, hover, the 0.85/1.3 scale factors, the font-size `Math.max`, the click navigation inside the drawing, and the component's own fetch and loading state.
- The network, invitations, profile-enhanced, search-users, cache-stats and cache-clear routes are not part of this model. The graph traversal that produces nodes and edges is not part of it either; only its output shape and the edge filter are.
- Cache.GetOrFetch: the fetcher is a value it would produce, plus a flag saying it was called. A fetcher that throws, and two concurrent callers each fetching, are not modelled.
- CacheStore.SetThenGetWithinTtl: also assumes that no `set` in between finds the cache at capacity. A full cleanup's second pass can evict a live entry, so without that assumption the property does not hold for the code. The converse, CacheStore.SetThenGetAfterTtl, needs no such assumption.
- CacheStore.SortByAge: `Array.prototype.sort` is modelled as a stable insertion sort, so ties are broken by insertion order. That order decides which equally old entries the second pass evicts; no lemma states stability. The order in which the first loop deletes does not affect its final state.
- ProfileAnalysis.IsNumeric: `!isNaN(Number(s))` is modelled only for "" and optionally signed decimal digits. Hex, exponents, decimals, surrounding whitespace and "Infinity", all accepted by JavaScript, are treated as non-numeric.
- Non-integer and NaN scores are left out. Scores are integers; the legend ranges partition the integers only.
- Scores and ids are unbounded integers. JavaScript's 64-bit floating-point numbers and their precision limits are not modelled.
- UserSearch.SearchBox.RunSearch: the spinner's intermediate `isLoading = true` while awaiting is set and cleared within one atomic step. It is not observable as a separate state.
- ProfileAnalysis.ProfileAnalysisView.FetchProfile: the profile payload is reduced to the actor's name, username and score. The network data callback and the remaining profile fields are left out.
- The avatar initial (`charAt(0).toUpperCase()`) is left out, because Unicode case mapping is outside the model.
