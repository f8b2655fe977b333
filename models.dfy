/**
 * Record shapes of the shop catalog (models.py): users, shops and the offers
 * each shop owns. A table is a sequence of rows and a row's id is its
 * position in the table.
 */
module Models {

  datatype Option<+T> = None | Some(value: T)

  /** A chat user. `id` is the primary key; the Telegram user's optional fields are `None` when absent. */
  datatype User = User(
    id: int,
    firstName: string,
    isBot: bool,
    lastName: Option<string>,
    username: Option<string>,
    languageCode: Option<string>)

  /** A row of the Shop table. Nothing makes `link` unique. */
  datatype Shop = Shop(
    link: string,
    name: string,
    ownerName: string,
    ownerCastle: string,
    kind: string,
    mana: int)

  /** A row of the Offer table; `shop` is the row id of the one Shop that owns it. */
  datatype Offer = Offer(shop: nat, item: string, price: int, mana: int)

  /** The required `Offer.shop` relation: every offer refers to a shop that exists. */
  predicate Owned(shops: seq<Shop>, offers: seq<Offer>)
  {
    forall k :: 0 <= k < |offers| ==> offers[k].shop < |shops|
  }

  /** The range of an `int` column, which the ORM stores in 32 bits unless told otherwise. */
  const Int32Min: int := -0x8000_0000
  const Int32Max: int := 0x7FFF_FFFF

  predicate IsInt32(v: int)
  {
    Int32Min <= v <= Int32Max
  }

  /** The checks a Shop row passes before it is stored: required strings are non-empty, ints fit. */
  predicate ShopStorable(s: Shop)
  {
    s.link != [] && s.name != [] && s.ownerName != [] && s.ownerCastle != [] && s.kind != []
    && IsInt32(s.mana)
  }

  /** The checks an Offer row passes before it is stored. */
  predicate OfferStorable(o: Offer)
  {
    o.item != [] && IsInt32(o.price) && IsInt32(o.mana)
  }

  /** Tables the database can hold: every row passed its checks and every offer has its shop. */
  predicate Consistent(shops: seq<Shop>, offers: seq<Offer>)
  {
    && Owned(shops, offers)
    && (forall k :: 0 <= k < |shops| ==> ShopStorable(shops[k]))
    && (forall k :: 0 <= k < |offers| ==> OfferStorable(offers[k]))
  }

  /** Storing a Shop row that passes its checks keeps the tables consistent. */
  lemma ConsistentAddShop(shops: seq<Shop>, offers: seq<Offer>, s: Shop)
    requires Consistent(shops, offers) && ShopStorable(s)
    ensures Consistent(shops + [s], offers)
  {
  }

  /** Storing an Offer row that passes its checks, for a shop that exists, keeps the tables consistent. */
  lemma ConsistentAddOffer(shops: seq<Shop>, offers: seq<Offer>, o: Offer)
    requires Consistent(shops, offers) && o.shop < |shops| && OfferStorable(o)
    ensures Consistent(shops, offers + [o])
  {
  }

  /** Offers drawn from an owned table are owned too. */
  lemma OwnedSubset(shops: seq<Shop>, offers: seq<Offer>, some: seq<Offer>)
    requires Owned(shops, offers)
    requires forall o :: o in some ==> o in offers
    ensures Owned(shops, some)
  {
    forall k | 0 <= k < |some| ensures some[k].shop < |shops| {
      assert some[k] in some;
      var m :| 0 <= m < |offers| && offers[m] == some[k];
    }
  }

  /**
   * `Shop.offers`, the inverse side of the relation: the offers whose `shop`
   * is `id`, in table order. Each offer is in the collection of its own shop
   * and of no other.
   */
  function OffersOf(offers: seq<Offer>, id: nat): (r: seq<Offer>)
    ensures forall o :: o in r <==> o in offers && o.shop == id
  {
    if offers == [] then []
    else (if offers[0].shop == id then [offers[0]] else []) + OffersOf(offers[1..], id)
  }

  /** Each offer occurs in its own shop's collection exactly as often as in the table. */
  lemma {:induction false} OffersOfCount(offers: seq<Offer>, id: nat, o: Offer)
    ensures multiset(OffersOf(offers, id))[o] == if o.shop == id then multiset(offers)[o] else 0
  {
    if offers != [] {
      assert offers == [offers[0]] + offers[1..];
      OffersOfCount(offers[1..], id, o);
    }
  }

  /** Appending rows to the Offer table appends the new rows to each shop's collection. */
  lemma {:induction false} OffersOfAppend(a: seq<Offer>, b: seq<Offer>, id: nat)
    ensures OffersOf(a + b, id) == OffersOf(a, id) + OffersOf(b, id)
  {
    if a == [] {
      assert a + b == b;
    } else {
      assert (a + b)[0] == a[0] && (a + b)[1..] == a[1..] + b;
      OffersOfAppend(a[1..], b, id);
    }
  }
}
