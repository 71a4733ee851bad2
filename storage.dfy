/** The two entries the carousel keeps in the browser's origin-scoped key-value store.
    Stored values are modelled already decoded: a product list, an id list, or the
    present-but-empty string that the script's truthiness tests treat like a missing entry. */
module Storage {

  /** Product ids are modelled with one type; the script mixes strings and numbers. */
  type Id = string

  datatype Product = Product(id: Id, name: string, price: string, url: string, img: string)

  datatype Option<T> = None | Some(value: T)

  /** A decoded stored value. `EmptyText` is an entry holding "", which is falsy. */
  datatype Value = ProductList(items: seq<Product>) | IdList(ids: seq<Id>) | EmptyText

  type Store = map<string, Value>

  /** Key of the cached product list. */
  const CacheKey: string := "lcwaikiki_product_carousel"

  /** Key of the favourite-id list. */
  const FavoritesKey: string := "lcwaikiki_favorites"

  lemma KeysDiffer()
    ensures CacheKey != FavoritesKey
  {
    assert CacheKey[12] != FavoritesKey[12];
  }

  /** Each of the two keys holds a value of the shape the script writes there. */
  predicate WellTyped(s: Store) {
    (CacheKey in s ==> !s[CacheKey].IdList?) &&
    (FavoritesKey in s ==> !s[FavoritesKey].ProductList?)
  }

  /** The cache test of getProducts: a hit exactly when the entry exists and is not "". */
  function CachedProducts(s: Store): (r: Option<seq<Product>>)
    requires WellTyped(s)
    ensures r.Some? <==> CacheKey in s && s[CacheKey] != EmptyText
    ensures r.Some? ==> s[CacheKey] == ProductList(r.value)
  {
    if CacheKey in s && s[CacheKey].ProductList? then Some(s[CacheKey].items) else None
  }

  /** getFavorites: the stored id list, or [] when the entry is missing or "". */
  function GetFavorites(s: Store): (r: seq<Id>)
    requires WellTyped(s)
    ensures (FavoritesKey !in s || s[FavoritesKey] == EmptyText) ==> r == []
    ensures FavoritesKey in s && s[FavoritesKey] != EmptyText ==> s[FavoritesKey] == IdList(r)
  {
    if FavoritesKey in s && s[FavoritesKey].IdList? then s[FavoritesKey].ids else []
  }

  /** Writing the favourites list and reading it back yields the same list, and the
      product cache is not disturbed by that write. */
  lemma FavoritesRoundTrip(s: Store, favs: seq<Id>)
    requires WellTyped(s)
    ensures WellTyped(s[FavoritesKey := IdList(favs)])
    ensures GetFavorites(s[FavoritesKey := IdList(favs)]) == favs
    ensures CachedProducts(s[FavoritesKey := IdList(favs)]) == CachedProducts(s)
  {
    KeysDiffer();
  }

  /** Writing the product cache and reading it back yields the same list, and the
      favourites list is not disturbed by that write. */
  lemma CacheRoundTrip(s: Store, ps: seq<Product>)
    requires WellTyped(s)
    ensures WellTyped(s[CacheKey := ProductList(ps)])
    ensures CachedProducts(s[CacheKey := ProductList(ps)]) == Some(ps)
    ensures GetFavorites(s[CacheKey := ProductList(ps)]) == GetFavorites(s)
  {
    KeysDiffer();
  }
}
