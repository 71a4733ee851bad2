# Product carousel: storage, favourites and card state

This project models the state logic of a "You Might Also Like" product carousel that a
script injects after a page's `.product-detail` element. The script keeps two entries in
the browser's local storage: a cache of the product list and the list of favourite
product ids. It resolves the products cache-first. It renders one card per product, and
each card's heart button is active when its id is a favourite. It then wires click
handlers that toggle the button and persist the new membership.

Local storage is a map from key to an already decoded value
(`Storage.Value`: a product list, an id list, or an entry holding the empty string, which
the script's truthiness tests treat as missing). The network fetch is a
`Carousel.FetchOutcome` parameter: a list, or a failure. The effects outside storage
that the model keeps are recorded in order in `Carousel.Widget.effects`: the fetch, the
carousel insertion, the stylesheet injection and the handler wiring.

Modules:
- `Storage` (storage.dfy): products, stored values, the two keys, the cache test of
  `getProducts` and `getFavorites`.
- `Favorites` (favorites.dfy): the list update of `saveFavorite` as pure functions
  (`Added`, `Removed`, `Saved`) with their properties.
- `Cards` (cards.dfy): the card mapping of `buildHTML`, the toggle of a button and the
  invariant "flag equals membership".
- `Carousel` (carousel.dfy): class `Widget`, which holds storage, the module-level
  `products`, the rendered cards and the effects. Its methods `GetProducts`,
  `SaveFavorite`, `BuildHtml`, `BuildCss`, `SetEvents`, `ClickFavorite` and `Init` follow
  the script's functions. Two client methods, `FirstVisitScenario` and
  `NoDetailScenario`, check two page loads against those contracts.

Three behaviours of the script that differ from what one might expect:
- A malformed cached product value is not treated as a cache miss. `JSON.parse` at
  product-carousel.js:34 sits outside the `try`, so it throws and nothing renders. The
  model leaves malformed values out (see below) rather than modelling them as a miss.
- The favourites are a list, not an unordered set. Re-adding an id moves it to the end
  (`Favorites.RemoveThenAddMovesToEnd`).
- "Flag equals membership" holds after a click only when no two cards share a product id.
  Each button toggles only its own class. `Cards.DuplicateIdsBreakConsistency` gives the
  counterexample. The model proves the invariant under `DistinctIds`.

## Model

| member | source | states |
|---|---|---|
| Storage.KeysDiffer | product-carousel.js:5-6 | the cache key and the favourites key are different keys, so writing one never touches the other |
| Storage.CachedProducts | product-carousel.js:31-36 | a cache hit exactly when the cache entry exists and is not the empty string; the hit's list is the stored list |
| Storage.GetFavorites | product-carousel.js:52-55 | a missing or empty-string entry reads as []; otherwise the stored id list is returned |
| Storage.FavoritesRoundTrip | product-carousel.js:52-55 | writing an id list under the favourites key and reading it back gives that list; the product cache reads the same as before |
| Storage.CacheRoundTrip | product-carousel.js:44 | writing a product list under the cache key makes the next cache test a hit with that list; the favourites read the same as before |
| Favorites.Added | product-carousel.js:61-64 | the id is present afterwards; the list is unchanged if it was present and gets the id appended at the end otherwise; membership of other ids is unchanged |
| Favorites.Removed | product-carousel.js:65-67 | the id is absent afterwards; every other id is present exactly when it was before; the list never grows |
| Favorites.Saved | product-carousel.js:61-67 | the list saveFavorite writes back: the id is a member exactly when the flag says so, and every other id keeps its membership |
| Favorites.RemovedAppend | product-carousel.js:66 | filtering distributes over concatenation: it works element by element |
| Favorites.RemovedAbsent | product-carousel.js:66 | removing an id that is not in the list leaves the list unchanged |
| Favorites.RemovedIsSubsequence | product-carousel.js:66 | the filtered list is a subsequence of the original: the other ids keep their relative order |
| Favorites.RemovedMultiset | product-carousel.js:66 | the filtered list has every occurrence of the id dropped and every other occurrence kept |
| Favorites.SavedKeepsNoDup | product-carousel.js:58-70 | a favourites list with no duplicate has none after saving with either flag |
| Favorites.RemovedKeepsNoDup | product-carousel.js:66 | filtering a duplicate-free list leaves it duplicate-free |
| Favorites.SavedTwice | product-carousel.js:58-70 | saving an id with one flag and then the opposite flag leaves its membership as the last flag says, and other ids' membership as it was |
| Favorites.RemoveThenAddMovesToEnd | product-carousel.js:61-67 | un-favouriting and re-favouriting an id yields the other ids in order followed by that id |
| Favorites.AddThenRemoveRestores | product-carousel.js:61-67 | favouriting and un-favouriting an id that was absent restores the list exactly |
| Cards.CardsOf | product-carousel.js:74-99 | exactly one card per product, in input order, with card i active iff product i's id is in the favourites list |
| Cards.Toggled | product-carousel.js:383 | a click flips the flag of the clicked button only; no card changes product |
| Cards.RenderedConsistent | product-carousel.js:74-86 | right after rendering, every button's flag equals its id's membership in the favourites read before rendering |
| Cards.RenderedDistinct | product-carousel.js:76 | products with distinct ids render as cards with distinct ids |
| Cards.ClickKeepsConsistent | product-carousel.js:379-385 | with distinct ids, if every flag equalled membership before a click, it does after the toggle and save |
| Cards.DuplicateIdsBreakConsistency | product-carousel.js:377-385 | two cards of the same id: after clicking one, the other's flag no longer equals membership |
| Cards.DoubleClickRestores | product-carousel.js:379-385 | two clicks on the same button restore the cards and every id's membership, and flags still equal membership |
| Cards.RenderScenario | product-carousel.js:74-86 | favourites ["1", "2"] with products "1" and "3" render the first card active and the second inactive |
| Cards.ClickScenario | product-carousel.js:61-69 | favouriting "3" over ["1", "2"] stores ["1", "2", "3"] |
| Carousel.Widget.constructor | product-carousel.js:10-11 | a page load starts with the stored entries of earlier visits, `products` empty, nothing rendered or wired |
| Carousel.Widget.GetProducts | product-carousel.js:29-49 | on a cache hit `products` is the cached list, no fetch is issued and storage is unchanged; on a miss one fetch is issued, and success stores the list under the cache key and uses it while failure uses [] and writes nothing; the favourites are untouched |
| Carousel.Widget.SaveFavorite | product-carousel.js:58-70 | only the favourites key is written, with the saved list; the id's membership equals the flag, other memberships and the product cache are unchanged, and no duplicate is introduced |
| Carousel.Widget.BuildHtml | product-carousel.js:73-99 | the cards are one per product in order, each active iff its id is in the favourites read at render time; the carousel insertion is recorded |
| Carousel.Widget.BuildCss | product-carousel.js:126-349 | the stylesheet injection is recorded after the insertion; its content is not modelled |
| Carousel.Widget.SetEvents | product-carousel.js:377-386 | the favourite click handlers are attached and the wiring is recorded |
| Carousel.Widget.ClickFavorite | product-carousel.js:379-385 | with handlers wired, the clicked flag flips and the favourites are saved with the new flag, so the clicked flag equals membership; with distinct ids the invariant flag == membership is preserved; without handlers nothing changes |
| Carousel.Widget.Init | product-carousel.js:14-26 | without a product-detail element nothing happens; otherwise the fetch (only on a cache miss) precedes the insertion, styling and wiring, and afterwards every flag equals membership |

## Left out

- Markup, the stylesheet text and `insertAdjacentHTML` (product-carousel.js:79-122, 126-349): cards are records (product, flag), and insertion and styling are recorded only as effects.
- Arrow scrolling in `setEvents` (product-carousel.js:354-374): a floating-point `clientWidth * 0.8` handed to a browser scrolling call.
- `loadJQuery` and `start` (product-carousel.js:390-416): script injection and document-ready plumbing. `Init` requires that handlers are not yet wired, because `start` runs `init` once per page load; attaching handlers twice is not modelled.
- Network and asynchrony of `fetch` and `response.json()`: the outcome is a parameter and `Init` runs its steps in sequence, which is the order the promise chain at product-carousel.js:21-25 imposes.
- JSON encoding and parsing: stored values are decoded values. A malformed entry, which makes `JSON.parse` throw at product-carousel.js:34 or 54, is not modelled. Nor is a value of the other entry's shape stored under a key; `Widget.Valid` excludes that.
- The failure of `localStorage.setItem` (a full quota) inside the `try` at product-carousel.js:44, which would also lead to `products = []`.
- The string/number distinction of ids: one id type is used, so the string that `getAttribute` returns at product-carousel.js:382 and `product.id` compare equal. In the script, if the feed's ids are numbers, `favorites.includes(product.id)` at product-carousel.js:77 never matches the string saved through product-carousel.js:382-384, so a favourited product renders inactive on the next page load.
- Widget.SaveFavorite: a throwing `localStorage.setItem` (a full or unavailable storage) at product-carousel.js:69, which has no `try`, is not modelled; the model's write always succeeds. In the script the click handler has already toggled the button's class at product-carousel.js:383 before `saveFavorite` runs at product-carousel.js:384, so such a failure leaves the toggled flag different from the stored membership, which `Widget.ClickFavorite`'s consistency clause does not allow for. A throwing `localStorage.getItem` (storage unavailable) at product-carousel.js:31 or 53 is not modelled either.
- Widget.ClickFavorite: the model assumes the carousel's buttons are the only `.favorite-button` elements on the page and that this widget is the only writer of the favourites key. The selector at product-carousel.js:377 covers the whole page, so a host-page element with that class would also toggle and save its own `data-product-id` (or `null` when the attribute is missing, pushed at product-carousel.js:63). Local storage is shared by every tab of the origin and the script has no `storage` listener, so a click in another tab changes the favourites while this page's flags stay as they were.
- `preventDefault`, `stopPropagation` and `console.error` (product-carousel.js:380-381, 46): no state.
- The page's DOM is assumed not to change while the products are resolved: the presence of the product-detail element is a constant `Widget.hasProductDetail`, so the second lookup of that element at product-carousel.js:122, which would throw and skip `buildCSS` and `setEvents` if the element had disappeared during the fetch, is not modelled.
- A click on a button before handlers are wired cannot happen in the script, because wiring immediately follows rendering; the model lets it change nothing.
