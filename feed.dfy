/**
 * The catalog feed and the tables it is loaded into (bot.py, shops_updater).
 * The feed is a list of shops, each with the list of offers it sells; the
 * tables are the Shop and Offer tables of the model, in creation order.
 */
module Feed {

  import opened Models
  import opened Text

  datatype OfferInput = OfferInput(item: string, price: int, mana: int)

  datatype ShopInput = ShopInput(
    link: string,
    name: string,
    ownerName: string,
    ownerCastle: string,
    kind: string,
    mana: int,
    offers: seq<OfferInput>)

  /** The Shop row created from one feed entry: its six fields, each string stripped. */
  function ShopRow(s: ShopInput): Shop
  {
    Shop(Strip(s.link), Strip(s.name), Strip(s.ownerName), Strip(s.ownerCastle), Strip(s.kind), s.mana)
  }

  /** The Offer row `s.offers.create(**offer)` adds to the shop with row id `id`; the item is stripped. */
  function OfferRow(id: nat, o: OfferInput): Offer
  {
    Offer(id, Strip(o.item), o.price, o.mana)
  }

  function OfferRows(id: nat, os: seq<OfferInput>): seq<Offer>
  {
    seq(|os|, k requires 0 <= k < |os| => OfferRow(id, os[k]))
  }

  /** The Shop table after loading `feed`: one row per entry, in feed order. */
  function ShopTable(feed: seq<ShopInput>): (r: seq<Shop>)
    ensures |r| == |feed|
  {
    seq(|feed|, i requires 0 <= i < |feed| => ShopRow(feed[i]))
  }

  /**
   * The Offer table after loading `feed`: the offers of each entry in turn,
   * each owned by that entry's shop row.
   */
  function OfferTable(feed: seq<ShopInput>): (r: seq<Offer>)
    ensures Owned(ShopTable(feed), r)
  {
    if feed == [] then []
    else
      var n := |feed| - 1;
      var prior := OfferTable(feed[..n]);
      var rows := OfferRows(n, feed[n].offers);
      assert forall k :: 0 <= k < |prior| ==> (prior + rows)[k] == prior[k];
      prior + rows
  }

  /** Loading one more entry adds its Shop row at the end of the Shop table. */
  lemma {:induction false} ShopTableStep(feed: seq<ShopInput>, i: nat)
    requires i < |feed|
    ensures ShopTable(feed[..i + 1]) == ShopTable(feed[..i]) + [ShopRow(feed[i])]
  {
  }

  /** Loading one more entry adds its Offer rows at the end of the Offer table. */
  lemma {:induction false} OfferTableStep(feed: seq<ShopInput>, i: nat)
    requires i < |feed|
    ensures OfferTable(feed[..i + 1]) == OfferTable(feed[..i]) + OfferRows(i, feed[i].offers)
  {
    var pre := feed[..i + 1];
    assert pre[..i] == feed[..i];
    assert pre[i] == feed[i];
  }

  /** The Offer rows of one more offer extend those of the offers before it. */
  lemma {:induction false} OfferRowsStep(id: nat, os: seq<OfferInput>, j: nat)
    requires j < |os|
    ensures OfferRows(id, os[..j + 1]) == OfferRows(id, os[..j]) + [OfferRow(id, os[j])]
  {
  }

  /** What the tables say the catalog is: each shop row with the offers of its `Shop.offers` set. */
  function Snapshot(shops: seq<Shop>, offers: seq<Offer>): seq<ShopInput>
  {
    seq(|shops|, i requires 0 <= i < |shops| =>
      var s := shops[i];
      var own := OffersOf(offers, i);
      ShopInput(s.link, s.name, s.ownerName, s.ownerCastle, s.kind, s.mana,
                seq(|own|, k requires 0 <= k < |own| => OfferInput(own[k].item, own[k].price, own[k].mana))))
  }

  /** The `Shop.offers` set of the `i`-th loaded shop holds exactly the offers listed for it, in order. */
  lemma {:induction false} OffersOfTable(feed: seq<ShopInput>, i: nat)
    requires i < |feed|
    ensures OffersOf(OfferTable(feed), i) == OfferRows(i, feed[i].offers)
    decreases |feed|
  {
    var n := |feed| - 1;
    var prior := OfferTable(feed[..n]);
    var rows := OfferRows(n, feed[n].offers);
    assert OfferTable(feed) == prior + rows;
    OffersOfAppend(prior, rows, i);
    if i < n {
      OffersOfTable(feed[..n], i);
      assert feed[..n][i] == feed[i];
      OffersOfNone(rows, i);
    } else {
      OffersOfNone(prior, i);
      OffersOfAllOwn(rows, i);
    }
  }

  lemma {:induction false} OffersOfNone(rows: seq<Offer>, id: nat)
    requires forall k :: 0 <= k < |rows| ==> rows[k].shop != id
    ensures OffersOf(rows, id) == []
  {
    if rows != [] {
      OffersOfNone(rows[1..], id);
    }
  }

  lemma {:induction false} OffersOfAllOwn(rows: seq<Offer>, id: nat)
    requires forall k :: 0 <= k < |rows| ==> rows[k].shop == id
    ensures OffersOf(rows, id) == rows
  {
    if rows != [] {
      OffersOfAllOwn(rows[1..], id);
    }
  }

  /** One feed entry loads: its Shop row and each of its Offer rows pass the checks before storing. */
  predicate EntryLoadable(id: nat, s: ShopInput)
  {
    ShopStorable(ShopRow(s)) && OffersLoadable(id, s.offers)
  }

  /** Each Offer row created from `os` for the shop with row id `id` passes its checks. */
  predicate OffersLoadable(id: nat, os: seq<OfferInput>)
  {
    forall k :: 0 <= k < |os| ==> OfferStorable(OfferRow(id, os[k]))
  }

  /** The offers before `os[j]` load, and so does `os[j]`: the offers up to it load. */
  lemma {:induction false} OffersLoadableStep(id: nat, os: seq<OfferInput>, j: nat)
    requires j < |os| && OffersLoadable(id, os[..j]) && OfferStorable(OfferRow(id, os[j]))
    ensures OffersLoadable(id, os[..j + 1])
  {
  }

  /** Every entry of the feed loads, so creating its rows raises nothing. */
  predicate Loadable(feed: seq<ShopInput>)
  {
    forall i :: 0 <= i < |feed| ==> EntryLoadable(i, feed[i])
  }

  /** A prefix that loads, followed by an entry that loads, loads. */
  lemma {:induction false} LoadableStep(feed: seq<ShopInput>, i: nat)
    requires i < |feed| && Loadable(feed[..i]) && EntryLoadable(i, feed[i])
    ensures Loadable(feed[..i + 1])
  {
  }

  /**
   * An entry loads exactly when none of its required strings is empty or all
   * separators, and its price and mana values fit in 32 bits.
   */
  lemma {:induction false} EntryLoadableMeans(id: nat, s: ShopInput)
    ensures EntryLoadable(id, s) <==>
      && !Blank(s.link) && !Blank(s.name) && !Blank(s.ownerName) && !Blank(s.ownerCastle) && !Blank(s.kind)
      && IsInt32(s.mana)
      && forall k :: 0 <= k < |s.offers| ==>
           !Blank(s.offers[k].item) && IsInt32(s.offers[k].price) && IsInt32(s.offers[k].mana)
  {
    StripEmpty(s.link);
    StripEmpty(s.name);
    StripEmpty(s.ownerName);
    StripEmpty(s.ownerCastle);
    StripEmpty(s.kind);
    forall k | 0 <= k < |s.offers| {
      StripEmpty(s.offers[k].item);
    }
  }

  /** The feed as the tables store it: every string stripped, everything else as given. */
  function Stripped(feed: seq<ShopInput>): (r: seq<ShopInput>)
    ensures |r| == |feed|
  {
    seq(|feed|, i requires 0 <= i < |feed| => StripEntry(feed[i]))
  }

  function StripEntry(s: ShopInput): ShopInput
  {
    ShopInput(Strip(s.link), Strip(s.name), Strip(s.ownerName), Strip(s.ownerCastle), Strip(s.kind), s.mana,
              seq(|s.offers|, k requires 0 <= k < |s.offers| => StripOffer(s.offers[k])))
  }

  function StripOffer(o: OfferInput): OfferInput
  {
    OfferInput(Strip(o.item), o.price, o.mana)
  }

  /** No string of the feed starts or ends with a separator. */
  predicate Unpadded(feed: seq<ShopInput>)
  {
    forall i :: 0 <= i < |feed| ==>
      && Trimmed(feed[i].link) && Trimmed(feed[i].name) && Trimmed(feed[i].ownerName)
      && Trimmed(feed[i].ownerCastle) && Trimmed(feed[i].kind)
      && forall k :: 0 <= k < |feed[i].offers| ==> Trimmed(feed[i].offers[k].item)
  }

  /** Stripping leaves a feed without padded strings as it is. */
  lemma {:induction false} StrippedUnpadded(feed: seq<ShopInput>)
    requires Unpadded(feed)
    ensures Stripped(feed) == feed
  {
    forall i | 0 <= i < |feed| ensures StripEntry(feed[i]) == feed[i] {
      var s := feed[i];
      StripTrimmed(s.link);
      StripTrimmed(s.name);
      StripTrimmed(s.ownerName);
      StripTrimmed(s.ownerCastle);
      StripTrimmed(s.kind);
      forall k | 0 <= k < |s.offers| ensures StripOffer(s.offers[k]) == s.offers[k] {
        StripTrimmed(s.offers[k].item);
      }
    }
  }

  /** The Offer rows of a loadable feed all pass their checks. */
  lemma {:induction false} LoadableOffers(feed: seq<ShopInput>)
    requires Loadable(feed)
    ensures forall k :: 0 <= k < |OfferTable(feed)| ==> OfferStorable(OfferTable(feed)[k])
    decreases |feed|
  {
    if feed != [] {
      var n := |feed| - 1;
      var prior := OfferTable(feed[..n]);
      var rows := OfferRows(n, feed[n].offers);
      assert OfferTable(feed) == prior + rows;
      assert Loadable(feed[..n]) by {
        forall i | 0 <= i < n ensures EntryLoadable(i, feed[..n][i]) {
          assert feed[..n][i] == feed[i];
        }
      }
      LoadableOffers(feed[..n]);
      assert EntryLoadable(n, feed[n]);
    }
  }

  /** A feed loads exactly when the tables it builds are tables the database can hold. */
  lemma {:induction false} LoadableMeans(feed: seq<ShopInput>)
    ensures Loadable(feed) <==> Consistent(ShopTable(feed), OfferTable(feed))
  {
    if Loadable(feed) {
      LoadableOffers(feed);
      LoadableShops(feed);
    }
    if Consistent(ShopTable(feed), OfferTable(feed)) {
      forall i | 0 <= i < |feed| ensures EntryLoadable(i, feed[i]) {
        ConsistentEntry(feed, i);
      }
    }
  }

  /** The Shop rows of a loadable feed all pass their checks. */
  lemma {:induction false} LoadableShops(feed: seq<ShopInput>)
    requires Loadable(feed)
    ensures forall k :: 0 <= k < |ShopTable(feed)| ==> ShopStorable(ShopTable(feed)[k])
  {
  }

  /** Every entry of a feed whose tables the database can hold loads. */
  lemma {:induction false} ConsistentEntry(feed: seq<ShopInput>, i: nat)
    requires i < |feed| && Consistent(ShopTable(feed), OfferTable(feed))
    ensures EntryLoadable(i, feed[i])
  {
    var table := OfferTable(feed);
    assert ShopTable(feed)[i] == ShopRow(feed[i]);
    OffersOfTable(feed, i);
    var own := OffersOf(table, i);
    forall k | 0 <= k < |feed[i].offers| ensures OfferStorable(OfferRow(i, feed[i].offers[k])) {
      assert own[k] == OfferRow(i, feed[i].offers[k]);
      assert own[k] in table;
      var m :| 0 <= m < |table| && table[m] == own[k];
    }
  }

  /**
   * Loading a feed and reading the tables back gives the feed with its
   * strings stripped: every shop with its six fields and exactly its listed
   * offers, and nothing else.
   */
  lemma {:induction false} LoadRoundTrip(feed: seq<ShopInput>)
    ensures Snapshot(ShopTable(feed), OfferTable(feed)) == Stripped(feed)
  {
    var shots := Snapshot(ShopTable(feed), OfferTable(feed));
    forall i | 0 <= i < |feed| ensures shots[i] == Stripped(feed)[i] {
      OffersOfTable(feed, i);
    }
  }
}
