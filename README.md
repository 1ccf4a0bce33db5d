# Crypto dashboard: view derivation, favourites and price-history cache

A Dafny model of the logic inside the `CryptoDashboard` React component
(`src/App.jsx`). The component shows a list of coins refreshed from a market
API, a user-curated list of favourites, and a 7-day price chart per coin. The
model covers the parts of it that compute or update state:

- **Market-cap buckets** (`Market`): `getMarketCapCategory` puts a market cap
  in `large` (strictly above 10,000,000,000), `mid` (strictly above
  1,000,000,000) or `small`.
- **View projection** (`ViewProjection`): `filteredCoins` keeps the coins whose
  lower-cased name or symbol contains the lower-cased search term and whose
  bucket is the selected one (or every bucket is selected). It then sorts them
  with `Array.prototype.sort`, which is stable since ECMAScript 2019. The sort
  is by market cap, current price or 24h change (a missing 24h change counts as
  0), ascending or descending. The sort is modelled as an in-place insertion
  sort on an `array` (`SortCoins`). It is proved equal to the function
  `SortSeq`, and `SortSeq` is proved to be a sorted, stable permutation.
  `SortSeqUnique` shows that any stable sort gives the same order, so the
  model does not depend on the engine's sorting algorithm.
- **Favourites** (`Favourites`): `togglefavourite` removes every occurrence of a
  present id or appends an absent one, and writes the whole new list to the
  stored `favourites` record (`FavouritesStore`). The favourites panel shows the
  snapshot's coins whose id is a favourite, in snapshot order.
- **Price-history cache** (`PriceHistory`): `handleCoinClick` opens the coin's
  panel and fetches its history only when the cache has no entry for the coin
  id. A successful reply's `[timestamp, price]` pairs become chart points one
  by one, and are merged into the cache under that id alone
  (`PriceHistoryCache`).
- `Sequences` holds the order-preserving filter (`Select`, the model of
  `Array.prototype.filter`) and its lemmas, which the other modules share.

Behaviour of the code worth knowing:

- The cache key is the coin id alone, not the pair (coin, currency). A series
  fetched in one currency is still shown, and is not fetched again, after the
  currency is switched (`PriceHistory.FetchOnce`).
- Two clicks on a coin before its reply arrives issue two fetches. No table of
  fetches in flight exists (`PriceHistory.ClickTwiceBeforeReply`).
- `JSON.parse` on a corrupt stored record throws; it does not fall back to an
  empty list. The record is written inside the state updater, which React runs
  while rendering, so a write that throws breaks the render; storage failures
  are not modelled.

## Model

| member | source | states |
|---|---|---|
| `Market.Category` | src/App.jsx:88-92 | `getMarketCapCategory`; its meaning is stated by `Market.CategoryRanges`, `Market.CategoryBoundaries` and `Market.CategoryMonotone` |
| `Market.CategoryRanges` | src/App.jsx:88-92 | large exactly when the cap is above 10 billion; mid exactly when it is above 1 billion and at most 10 billion; small exactly when it is at most 1 billion |
| `Market.CategoryBoundaries` | src/App.jsx:88-92 | a cap of exactly 10 billion is mid and exactly 1 billion is small; just above each threshold is the larger class |
| `Market.CategoryMonotone` | src/App.jsx:88-92 | a larger market cap never falls in a smaller class |
| `Sequences.Select` | src/App.jsx:95-103 | the filter returns no more elements than it was given |
| `Sequences.SelectMembership` | src/App.jsx:95-103 | an element is in a filter's result exactly when it is in the input and passes the predicate |
| `Sequences.SelectIsSubsequence` | src/App.jsx:95-103 | a filter's result is a subsequence of its input, so order is kept |
| `Sequences.SelectIdempotent` | src/App.jsx:81 | filtering twice with one predicate equals filtering once |
| `Sequences.SelectNoDup` | src/App.jsx:81 | filtering a duplicate-free list gives a duplicate-free list |
| `ViewProjection.LowerChar` | src/App.jsx:96-97 | an upper-case ASCII letter becomes the lower-case letter at the same place in the alphabet, every other character is unchanged, and no upper-case ASCII letter is produced |
| `ViewProjection.Lower` | src/App.jsx:96-97 | lower-casing keeps the length, lower-cases each character at its own position, and leaves no upper-case ASCII letter |
| `ViewProjection.LowerIdempotent` | src/App.jsx:96-97 | lower-casing a lower-cased string changes nothing |
| `ViewProjection.Contains` | src/App.jsx:96-97 | the empty term is found in every string, and a found term is no longer than the text |
| `ViewProjection.ContainsWitness` | src/App.jsx:96-97 | a successful search yields an index at which the term occurs |
| `ViewProjection.OccursContains` | src/App.jsx:96-97 | a term occurring at any index is found by the search |
| `ViewProjection.ContainsIff` | src/App.jsx:96-97 | the search holds exactly when the term occurs at some index of the text |
| `ViewProjection.MatchesSearch` | src/App.jsx:96-97 | the `matchesSearch` test; its meaning is stated by `ViewProjection.FilterSound` (a coin is kept only when it passes) and `ViewProjection.ContainsIff` (the search is substring occurrence) |
| `ViewProjection.MatchesCap` | src/App.jsx:99-100 | the `matchesMarketCap` test; its meaning is stated by `ViewProjection.FilterSound` and `Market.CategoryRanges` (the interval of caps each class admits) |
| `ViewProjection.FilterCoins` | src/App.jsx:95-103 | the `coins.filter` step of `filteredCoins`; its meaning is stated by `ViewProjection.FilterSound`, `ViewProjection.FilterKeepsAll` and `ViewProjection.FilterCaseInsensitive` |
| `ViewProjection.FilterSound` | src/App.jsx:95-103 | a coin is kept exactly when it is in the snapshot and matches both the search and the market-cap selection; the kept coins keep snapshot order |
| `ViewProjection.FilterKeepsAll` | src/App.jsx:95-103 | an empty search with every market cap selected keeps the whole snapshot |
| `ViewProjection.FilterCaseInsensitive` | src/App.jsx:96-97 | search terms that differ only in letter case select the same coins |
| `ViewProjection.Key` | src/App.jsx:107-113 | the value the comparator subtracts, 0 for a missing 24h change; its use in ordering is stated by `ViewProjection.SortSeqSorted` |
| `ViewProjection.InOrder` | src/App.jsx:115-119 | the sign of the comparator (`a - b` ascending, `b - a` descending) allows `x` before `y`; its meaning is stated by `ViewProjection.SortSeqSorted` |
| `ViewProjection.SortSeq` | src/App.jsx:106-120 | the stable sort of the filtered list; its meaning is stated by `ViewProjection.SortSeqPermutation`, `ViewProjection.SortSeqSorted`, `ViewProjection.SortSeqStable` and `ViewProjection.SortSeqUnique` |
| `ViewProjection.InsertLastMultiset` | src/App.jsx:106-120 | one insertion step adds exactly the inserted coin |
| `ViewProjection.InsertLastSorted` | src/App.jsx:106-120 | inserting into a sorted list keeps it sorted |
| `ViewProjection.InsertLastStable` | src/App.jsx:106 | inserting a coin appends it to its own key run and leaves the other runs alone |
| `ViewProjection.SortSeqPermutation` | src/App.jsx:106-120 | sorting neither loses nor duplicates a coin (equal multisets) |
| `ViewProjection.SortSeqSorted` | src/App.jsx:106-120 | the result is non-decreasing in the key for ascending order and non-increasing for descending, with a missing 24h change counted as 0 |
| `ViewProjection.SortSeqStable` | src/App.jsx:106 | for every key value, the coins with that key keep their relative order, in both directions |
| `ViewProjection.SortedRunsDetermine` | src/App.jsx:106 | two sorted lists with the same run of coins for every key are equal |
| `ViewProjection.SortSeqUnique` | src/App.jsx:106 | any sorted list whose key runs are those of the input is the modelled sort's result, so every stable sort agrees with it |
| `ViewProjection.SortSeqOfSorted` | src/App.jsx:106-120 | a list already in order is returned unchanged |
| `ViewProjection.InsertAt` | src/App.jsx:106 | one pass of the in-place sort inserts the next coin into the sorted prefix and leaves the rest of the array alone |
| `ViewProjection.SortCoins` | src/App.jsx:106-120 | sorting the array in place leaves in it the stable sort of its old contents |
| `ViewProjection.FilteredCoins` | src/App.jsx:94-123 | the view holds exactly the snapshot's matching coins, is a permutation of the filtered list, is sorted, and keeps the filtered order among equal keys |
| `ViewProjection.TwoCoinScenario` | src/App.jsx:88-120 | a 900-billion coin and a 3-billion coin sort as [large, mid] by market cap descending; selecting mid keeps only the second, large only the first |
| `Favourites.Without` | src/App.jsx:81 | the removal branch of `togglefavourite`; its meaning is stated by `Favourites.WithoutMembership` and `Favourites.WithoutShorter` |
| `Favourites.Toggled` | src/App.jsx:80-82 | the list `togglefavourite` computes; its meaning is stated by `Favourites.ToggleMembership`, `Favourites.ToggleAbsent`, `Favourites.ToggleKeepsOthers`, `Favourites.ToggleTwice` and `Favourites.ToggleNoDup` |
| `Favourites.WithoutMembership` | src/App.jsx:81 | removing an id keeps exactly the other ids |
| `Favourites.ToggleMembership` | src/App.jsx:80-82 | after a toggle the id is present exactly when it was absent, and every other id keeps its status |
| `Favourites.TogglePresent` | src/App.jsx:80-81 | toggling a present id leaves no occurrence of it and shortens the list |
| `Favourites.WithoutShorter` | src/App.jsx:81 | removing a present id shortens the list |
| `Favourites.ToggleAbsent` | src/App.jsx:80-82 | toggling an absent id appends it after the unchanged old list |
| `Favourites.ToggleKeepsOthers` | src/App.jsx:80-82 | the other ids, in their order, are the same before and after a toggle |
| `Favourites.ToggleTwice` | src/App.jsx:78-86 | toggling twice restores membership, and restores the list itself when the id was absent |
| `Favourites.ToggleNoDup` | src/App.jsx:78-86 | a duplicate-free favourites list stays duplicate-free |
| `Favourites.Panel` | src/App.jsx:246 | the favourites panel's list; its meaning is stated by `Favourites.PanelSound` and `Favourites.PanelIgnoresOrder` |
| `Favourites.PanelSound` | src/App.jsx:246 | the panel shows exactly the snapshot's coins whose id is a favourite, in snapshot order |
| `Favourites.PanelIgnoresOrder` | src/App.jsx:246 | the panel depends only on which ids are favourites, not on their order |
| `Favourites.PanelToggleTwice` | src/App.jsx:246 | toggling a coin twice leaves the panel as it was |
| `Favourites.Load` | src/App.jsx:7 | the list read at start-up, empty when no record is stored; used by `Favourites.FavouritesStore.constructor` and `Favourites.RestartAfterToggle` |
| `Favourites.RestartAfterToggle` | src/App.jsx:78-86 | a store loaded (as at line 7) from the record that a toggle wrote holds the toggled list, so the id is a favourite exactly when it was not one before the toggle |
| `Favourites.FavouritesStore.constructor` | src/App.jsx:7 | the initial list is the stored record, or empty when there is none |
| `Favourites.FavouritesStore.ToggleFavourite` | src/App.jsx:78-86 | the list becomes the toggled list and the stored record becomes that same list |
| `PriceHistory.FormatSeries` | src/App.jsx:61-64 | the `data.prices.map` transform; its meaning is stated by `PriceHistory.FormatSeriesPointwise` and `PriceHistory.FormatSeriesAppend` |
| `PriceHistory.FormatSeriesPointwise` | src/App.jsx:61-64 | the chart series has one point per reply pair, in order, with that pair's price and its timestamp's date label |
| `PriceHistory.FormatSeriesAppend` | src/App.jsx:61-64 | formatting a concatenation is the concatenation of the formatted parts |
| `PriceHistory.Merge` | src/App.jsx:66-69 | the object-spread merge into the cache; its meaning is stated by `PriceHistory.MergeSetsOnlyKey` |
| `PriceHistory.NeedsFetch` | src/App.jsx:146 | the cache test of `handleCoinClick`; how a merge changes it is stated by `PriceHistory.MergeKeepsCached`, and its use by `PriceHistory.PriceHistoryCache.HandleCoinClick` |
| `PriceHistory.MergeSetsOnlyKey` | src/App.jsx:66-69 | a merge adds or replaces the entry for the one coin id and leaves every other entry unchanged |
| `PriceHistory.MergeKeepsCached` | src/App.jsx:66-69 | after a merge the merged id needs no fetch, and another id needs one exactly when it needed one before |
| `PriceHistory.PriceHistoryCache.constructor` | src/App.jsx:14-15 | the cache starts empty with no coin selected and no fetch issued |
| `PriceHistory.PriceHistoryCache.SelectCurrency` | src/App.jsx:188 | switching the currency changes only the currency; every cached series stays |
| `PriceHistory.PriceHistoryCache.HandleCoinClick` | src/App.jsx:144-149 | the clicked coin is selected; a fetch for (coin id, current currency) is issued exactly when the cache has no entry for the id; the cache is unchanged |
| `PriceHistory.PriceHistoryCache.ReceiveHistory` | src/App.jsx:54-73 | a reply with prices is formatted and merged under the requested id; a failed fetch leaves the cache unchanged |
| `PriceHistory.FetchOnce` | src/App.jsx:144-149 | click, reply, click issues one fetch; after a switch to another currency a further click issues none and the first currency's series is still cached |
| `PriceHistory.ClickTwiceBeforeReply` | src/App.jsx:144-149 | two clicks before the reply issue two identical fetches |

## Left out

- Network access: `fetchCoins` and the HTTP request and JSON decoding in
  `fetchPriceHistory` (src/App.jsx:40-59). A history reply is a parameter of
  `ReceiveHistory`: `None` stands for any failure, including a reply with no
  `prices` list.
- The snapshot itself and its refresh: the 30-second `setInterval` polling, its
  clean-up, and the re-fetch on a currency change (src/App.jsx:34-38). The
  snapshot is an input of the view functions.
- The extra `fetchCoins` call in the market-cap selector's change handler
  (src/App.jsx:203-206). Only the new selection is modelled.
- `localStorage` and `JSON.stringify`/`JSON.parse`. The stored record is the
  field `FavouritesStore.record`. A corrupt record, on which `JSON.parse`
  throws, is not modelled.
- Display formatting: `formatPrice`, `formatMarketCap` and the loading screen
  (src/App.jsx:125-157). The date label `toLocaleDateString` is the function
  parameter `dateLabel`.
- All JSX rendering, charts and icons (src/App.jsx:159-455).
- `PriceHistory.NeedsFetch`: the cache is a plain JavaScript object, so a coin
  id that names a member it inherits from `Object.prototype` ("constructor",
  "toString", "valueOf", "__proto__") finds that member, and the code never
  fetches for it. Such ids are not modelled: the model's map has no inherited
  entries, so it issues a fetch for them.
- `ViewProjection.Lower`: lower-cases ASCII letters only, not full Unicode
  `toLowerCase`.
- `ViewProjection.Key`: prices, market caps and 24h changes are exact reals. The
  subtraction comparator is modelled as a comparison, so NaN, `null` and
  `undefined` are not modelled, except for a missing 24h change, which counts
  as 0.
- Coin records carry only the fields the logic reads (id, name, symbol, price,
  market cap, 24h change).
- React's asynchronous state updates are modelled as immediate updates.
  `handleCoinClick` reads the current cache, not the value captured at the
  last render.
