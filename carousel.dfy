/** The widget's page-load state: local storage, the module-level `products` list, the
    rendered cards with their favourite-button flags, and, in order, those of the script's
    effects on the page and the network that the model keeps. */
module Carousel {
  import opened Storage
  import opened Favorites
  import opened Cards

  /** What `fetch` followed by `response.json()` yields, if the script asks for it. */
  datatype FetchOutcome = Fetched(items: seq<Product>) | FetchFailed

  /** The effects outside local storage that the model keeps. */
  datatype Effect = NetworkFetch | CarouselInserted | StylesInjected | HandlersWired

  class Widget {
    /** Whether the page has a `.product-detail` element. */
    const hasProductDetail: bool
    var store: Store
    var products: seq<Product>
    var cards: seq<Card>
    var wired: bool
    var effects: seq<Effect>

    ghost predicate Valid()
      reads this
    {
      WellTyped(store)
    }

    /** A page load: storage as earlier visits left it, nothing rendered yet. */
    constructor (saved: Store, detail: bool)
      requires WellTyped(saved)
      ensures Valid()
      ensures hasProductDetail == detail && store == saved
      ensures products == [] && cards == [] && !wired && effects == []
    {
      hasProductDetail := detail;
      store := saved;
      products := [];
      cards := [];
      wired := false;
      effects := [];
    }

    /** getProducts: the cache when it holds a (non-empty-text) entry; otherwise one
        fetch, whose list is stored on success and replaced by [] on failure. */
    method GetProducts(outcome: FetchOutcome)
      requires Valid()
      modifies this`store, this`products, this`effects
      ensures Valid()
      ensures old(CachedProducts(store)).Some? ==>
        products == old(CachedProducts(store)).value
        && store == old(store) && effects == old(effects)
      ensures old(CachedProducts(store)).None? ==>
        effects == old(effects) + [NetworkFetch]
        && match outcome
           case Fetched(items) =>
             products == items && store == old(store)[CacheKey := ProductList(items)]
           case FetchFailed =>
             products == [] && store == old(store)
      ensures GetFavorites(store) == old(GetFavorites(store))
    {
      var stored := CachedProducts(store);
      if stored.Some? {
        products := stored.value;
        return;
      }
      effects := effects + [NetworkFetch];
      match outcome {
        case Fetched(items) =>
          products := items;
          CacheRoundTrip(store, items);
          store := store[CacheKey := ProductList(items)];
        case FetchFailed =>
          products := [];
      }
    }

    /** saveFavorite: read the list, push an absent id or filter the id out, and write
        the whole list back under the favourites key only. */
    method SaveFavorite(id: Id, isFavorite: bool)
      requires Valid()
      modifies this`store
      ensures Valid()
      ensures store == old(store)[FavoritesKey := IdList(Saved(old(GetFavorites(store)), id, isFavorite))]
      ensures GetFavorites(store) == Saved(old(GetFavorites(store)), id, isFavorite)
      ensures forall x :: x in GetFavorites(store) <==> if x == id then isFavorite else x in old(GetFavorites(store))
      ensures NoDup(old(GetFavorites(store))) ==> NoDup(GetFavorites(store))
      ensures CachedProducts(store) == old(CachedProducts(store))
    {
      var favorites := GetFavorites(store);
      ghost var before := favorites;
      if isFavorite {
        if id !in favorites {
          favorites := favorites + [id];
        }
      } else {
        favorites := Removed(favorites, id);
      }
      assert favorites == Saved(before, id, isFavorite);
      FavoritesRoundTrip(store, favorites);
      if NoDup(before) {
        SavedKeepsNoDup(before, id, isFavorite);
      }
      store := store[FavoritesKey := IdList(favorites)];
    }

    /** The data part of buildHTML: favourites read once, one card per product. */
    method BuildHtml()
      requires Valid()
      modifies this`cards, this`effects
      ensures |cards| == |products|
      ensures forall i :: 0 <= i < |cards| ==> cards[i].product == products[i]
      ensures forall i :: 0 <= i < |cards| ==>
        (cards[i].active <==> products[i].id in GetFavorites(store))
      ensures Consistent(cards, GetFavorites(store))
      ensures effects == old(effects) + [CarouselInserted]
    {
      var favorites := GetFavorites(store);
      cards := CardsOf(products, favorites);
      RenderedConsistent(products, favorites);
      effects := effects + [CarouselInserted];
    }

    /** buildCSS: only its place in the order of effects is modelled. */
    method BuildCss()
      modifies this`effects
      ensures effects == old(effects) + [StylesInjected]
    {
      effects := effects + [StylesInjected];
    }

    /** The favourite-button part of setEvents: attach the click handlers. */
    method SetEvents()
      modifies this`wired, this`effects
      ensures wired
      ensures effects == old(effects) + [HandlersWired]
    {
      wired := true;
      effects := effects + [HandlersWired];
    }

    /** A click on card `i`'s favourite button. Once handlers are attached it toggles
        the flag and saves the id with the new flag; before that nothing happens. */
    method ClickFavorite(i: nat)
      requires Valid() && i < |cards|
      modifies this`cards, this`store
      ensures Valid()
      ensures !old(wired) ==> cards == old(cards) && store == old(store)
      ensures old(wired) ==>
        cards == Toggled(old(cards), i)
        && store == old(store)[FavoritesKey :=
             IdList(Saved(old(GetFavorites(store)), old(cards[i].product.id), cards[i].active))]
      ensures old(wired) ==>
        (cards[i].active <==> cards[i].product.id in GetFavorites(store))
      ensures old(Consistent(cards, GetFavorites(store))) && DistinctIds(cards) ==>
        Consistent(cards, GetFavorites(store))
    {
      if !wired {
        return;
      }
      ghost var favorites := GetFavorites(store);
      ghost var consistent := Consistent(cards, favorites);
      var productId := cards[i].product.id;
      var isActive := !cards[i].active;
      ghost var before := cards;
      cards := Toggled(cards, i);
      SaveFavorite(productId, isActive);
      if consistent && DistinctIds(cards) {
        assert DistinctIds(before);
        ClickKeepsConsistent(before, favorites, i);
      }
    }

    /** init: inert without a product-detail element; otherwise products are resolved
        first, then the carousel is inserted, styled and wired, in that order. */
    method Init(outcome: FetchOutcome)
      requires Valid() && !wired
      modifies this
      ensures Valid()
      ensures !hasProductDetail ==>
        store == old(store) && products == old(products) && cards == old(cards)
        && wired == old(wired) && effects == old(effects)
      ensures hasProductDetail ==>
        var hit := old(CachedProducts(store));
        effects == old(effects) + (if hit.Some? then [] else [NetworkFetch])
                   + [CarouselInserted, StylesInjected, HandlersWired]
        && products == (if hit.Some? then hit.value
                        else if outcome.Fetched? then outcome.items else [])
        && store == (if hit.None? && outcome.Fetched?
                     then old(store)[CacheKey := ProductList(outcome.items)] else old(store))
        && cards == CardsOf(products, GetFavorites(store))
        && Consistent(cards, GetFavorites(store))
        && wired
    {
      if !hasProductDetail {
        return;
      }
      GetProducts(outcome);
      BuildHtml();
      BuildCss();
      SetEvents();
    }
  }

  /** First visit: empty storage, the feed answers with one product; the cache is filled
      with it, and the rendered card is inactive until clicked. */
  method FirstVisitScenario()
  {
    var shirt := Product("1", "Shirt", "$10", "/p/1", "/i/1.jpg");
    var w := new Widget(map[], true);
    w.Init(Fetched([shirt]));
    assert w.products == [shirt];
    assert w.store[CacheKey] == ProductList([shirt]);
    assert w.effects == [NetworkFetch, CarouselInserted, StylesInjected, HandlersWired];
    assert w.cards == [Card(shirt, false)];
    w.ClickFavorite(0);
    assert GetFavorites(w.store) == ["1"];
    assert w.cards[0].active;
  }

  /** A page without a product-detail element: no fetch, no insertion, no handlers. */
  method NoDetailScenario()
  {
    var w := new Widget(map[], false);
    w.Init(FetchFailed);
    assert w.effects == [] && w.cards == [] && w.store == map[];
  }
}
