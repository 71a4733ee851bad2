/** The data behind the markup of buildHTML: one card per product, each carrying the
    active flag of its favourite button, and what a click on that button does to it. */
module Cards {
  import opened Storage
  import opened Favorites

  /** A rendered product card: the product it shows and its favourite button's flag.
      The button's product id is `product.id`. */
  datatype Card = Card(product: Product, active: bool)

  /** `products.map(...)` with `favorites.includes(product.id)` deciding the flag. */
  function CardsOf(products: seq<Product>, favorites: seq<Id>): (r: seq<Card>)
    ensures |r| == |products|
    ensures forall i :: 0 <= i < |r| ==> r[i].product == products[i]
    ensures forall i :: 0 <= i < |r| ==> (r[i].active <==> products[i].id in favorites)
    decreases |products|
  {
    if products == [] then []
    else [Card(products[0], products[0].id in favorites)] + CardsOf(products[1..], favorites)
  }

  /** Every button's flag equals its id's membership in `favorites`. */
  predicate Consistent(cards: seq<Card>, favorites: seq<Id>) {
    forall i :: 0 <= i < |cards| ==> (cards[i].active <==> cards[i].product.id in favorites)
  }

  /** No two cards show products with the same id. */
  predicate DistinctIds(cards: seq<Card>) {
    forall i, j :: 0 <= i < j < |cards| ==> cards[i].product.id != cards[j].product.id
  }

  /** `classList.toggle('active')` on button `i`. */
  function Toggled(cards: seq<Card>, i: nat): (r: seq<Card>)
    requires i < |cards|
    ensures |r| == |cards| && r[i].active == !cards[i].active
    ensures forall j :: 0 <= j < |r| ==> r[j].product == cards[j].product
    ensures forall j :: 0 <= j < |r| && j != i ==> r[j] == cards[j]
  {
    cards[i := cards[i].(active := !cards[i].active)]
  }

  /** Rendering makes every flag agree with the favourites read before rendering. */
  lemma RenderedConsistent(products: seq<Product>, favorites: seq<Id>)
    ensures Consistent(CardsOf(products, favorites), favorites)
  {
  }

  /** Products with distinct ids give cards with distinct ids. */
  lemma RenderedDistinct(products: seq<Product>, favorites: seq<Id>)
    requires forall i, j :: 0 <= i < j < |products| ==> products[i].id != products[j].id
    ensures DistinctIds(CardsOf(products, favorites))
  {
  }

  /** A click flips button `i` and saves the new flag for its id; when ids are distinct,
      every flag still equals membership afterwards. */
  lemma ClickKeepsConsistent(cards: seq<Card>, favorites: seq<Id>, i: nat)
    requires i < |cards| && Consistent(cards, favorites) && DistinctIds(cards)
    ensures Consistent(Toggled(cards, i),
                       Saved(favorites, cards[i].product.id, !cards[i].active))
  {
    var id := cards[i].product.id;
    var after := Saved(favorites, id, !cards[i].active);
    var r := Toggled(cards, i);
    forall j | 0 <= j < |r| ensures r[j].active <==> r[j].product.id in after {
      if j != i {
        assert r[j].product.id != id by {
          if j < i { assert cards[j].product.id != cards[i].product.id; }
          else { assert cards[i].product.id != cards[j].product.id; }
        }
      }
    }
  }

  /** Two products sharing an id: clicking one card's button leaves the other card's
      flag stale, so the flag no longer equals membership. */
  lemma DuplicateIdsBreakConsistency()
    ensures var p := Product("7", "Shirt", "$10", "/p/7", "/i/7.jpg");
            var cards := CardsOf([p, p], []);
            Consistent(cards, [])
            && !Consistent(Toggled(cards, 0), Saved([], "7", !cards[0].active))
  {
    var p := Product("7", "Shirt", "$10", "/p/7", "/i/7.jpg");
    var cards := CardsOf([p, p], []);
    var t := Toggled(cards, 0);
    assert !t[1].active && "7" in Saved([], "7", true);
  }

  /** Two clicks on the same button restore both its flag and its id's membership. */
  lemma DoubleClickRestores(cards: seq<Card>, favorites: seq<Id>, i: nat)
    requires i < |cards| && Consistent(cards, favorites) && DistinctIds(cards)
    ensures var once := Saved(favorites, cards[i].product.id, !cards[i].active);
            var twice := Saved(once, cards[i].product.id, cards[i].active);
            Toggled(Toggled(cards, i), i) == cards
            && Consistent(cards, twice)
            && (forall x :: x in twice <==> x in favorites)
  {
    var id := cards[i].product.id;
    var once := Saved(favorites, id, !cards[i].active);
    var twice := Saved(once, id, cards[i].active);
    forall x ensures x in twice <==> x in favorites {
      SavedTwice(favorites, id, cards[i].active, x);
    }
    ClickKeepsConsistent(cards, favorites, i);
    ClickKeepsConsistent(Toggled(cards, i), once, i);
  }

  /** Favourites ["1", "2"]; products "1" and "3": only the first card is active. */
  lemma RenderScenario()
    ensures var p1 := Product("1", "Shirt", "$10", "/p/1", "/i/1.jpg");
            var p3 := Product("3", "Hat", "$5", "/p/3", "/i/3.jpg");
            CardsOf([p1, p3], ["1", "2"]) == [Card(p1, true), Card(p3, false)]
  {
    var p1 := Product("1", "Shirt", "$10", "/p/1", "/i/1.jpg");
    var p3 := Product("3", "Hat", "$5", "/p/3", "/i/3.jpg");
    assert "1" in ["1", "2"];
    assert "3" != "1" && "3" != "2";
  }

  /** Clicking the inactive card of product "3" makes it active and appends "3". */
  lemma ClickScenario()
    ensures Saved(["1", "2"], "3", true) == ["1", "2", "3"]
  {
    assert "3" != "1" && "3" != "2";
  }
}
