/**
 * The bot's handlers over the catalog (bot.py): the periodic refresh that
 * replaces the Shop and Offer tables, the inline offer search, the shop
 * listing, and the users an update asks to store.
 */
module Bot {

  import opened Models
  import opened Text
  import opened Ordering
  import opened Feed
  import opened Search

  /** The Shop and Offer tables. */
  class Catalog {

    var shops: seq<Shop>
    var offers: seq<Offer>

    /** The tables hold only rows the database accepts, and every offer belongs to a shop in the table. */
    ghost predicate Valid()
      reads this
    {
      Consistent(shops, offers)
    }

    /** The catalog as the tables hold it: each shop with its offers. */
    function Contents(): seq<ShopInput>
      reads this
    {
      Snapshot(shops, offers)
    }

    /**
     * The tables at start-up: `generate_mapping` creates the tables that are
     * missing, empty, and keeps the rows of those that exist, so the catalog
     * is whatever the database already holds (empty on a new database).
     */
    constructor (shops0: seq<Shop>, offers0: seq<Offer>)
      requires Consistent(shops0, offers0)
      ensures Valid()
      ensures shops == shops0 && offers == offers0
    {
      shops := shops0;
      offers := offers0;
    }

    /**
     * shops_updater. On status 200 both tables are dropped and recreated
     * empty, and then rebuilt inside one session from the body, shop by shop,
     * each shop followed by its offers. A body that is not a list of shops
     * (`None`), or a row that fails its checks, raises: the session rolls
     * back and the tables stay empty. On any other status nothing changes.
     */
    method Refresh(status: int, body: Option<seq<ShopInput>>)
      requires Valid()
      modifies this
      ensures Valid()
      ensures status == 200 && body.Some? && Loadable(body.value) ==>
        && shops == ShopTable(body.value) && offers == OfferTable(body.value)
        && Contents() == Stripped(body.value)
      ensures status == 200 && (body.None? || !Loadable(body.value)) ==> shops == [] && offers == []
      ensures status != 200 ==> shops == old(shops) && offers == old(offers)
    {
      if status == 200 {
        shops, offers := [], [];
        if body.None? {
          return;
        }
        var feed := body.value;
        var ok := CreateShops(feed);
        if !ok {
          shops, offers := [], [];
          return;
        }
        LoadRoundTrip(feed);
      }
    }

    /**
     * The loop over the body's shops, on freshly emptied tables. `ok` is
     * false when some row fails its checks; the tables are then left for the
     * caller to roll back.
     */
    method CreateShops(feed: seq<ShopInput>) returns (ok: bool)
      requires shops == [] && offers == []
      modifies this
      ensures ok <==> Loadable(feed)
      ensures ok ==> shops == ShopTable(feed) && offers == OfferTable(feed) && Valid()
    {
      for i := 0 to |feed|
        invariant shops == ShopTable(feed[..i])
        invariant offers == OfferTable(feed[..i])
        invariant Loadable(feed[..i])
        invariant Valid()
      {
        ok := CreateShop(feed, i);
        if !ok {
          return;
        }
        LoadableStep(feed, i);
      }
      assert feed[..|feed|] == feed;
      ok := true;
    }

    /**
     * One pass of the refresh loop: the Shop row of `feed[i]`, then each of
     * its Offer rows, each checked before it is stored. `ok` is false when a
     * row fails its checks, which raises in the source; the caller then rolls
     * the tables back.
     */
    method CreateShop(feed: seq<ShopInput>, i: nat) returns (ok: bool)
      requires i < |feed|
      requires shops == ShopTable(feed[..i]) && offers == OfferTable(feed[..i]) && Valid()
      modifies this
      ensures ok <==> EntryLoadable(i, feed[i])
      ensures ok ==> shops == ShopTable(feed[..i + 1]) && offers == OfferTable(feed[..i + 1]) && Valid()
    {
      var entry := feed[i];
      if !ShopStorable(ShopRow(entry)) {
        return false;
      }
      ConsistentAddShop(shops, offers, ShopRow(entry));
      ShopTableStep(feed, i);
      shops := shops + [ShopRow(entry)];
      for j := 0 to |entry.offers|
        invariant shops == ShopTable(feed[..i + 1])
        invariant offers == OfferTable(feed[..i]) + OfferRows(i, entry.offers[..j])
        invariant OffersLoadable(i, entry.offers[..j])
        invariant Valid()
      {
        var row := OfferRow(i, entry.offers[j]);
        if !OfferStorable(row) {
          return false;
        }
        ConsistentAddOffer(shops, offers, row);
        OfferRowsStep(i, entry.offers, j);
        OffersLoadableStep(i, entry.offers, j);
        offers := offers + [row];
      }
      assert entry.offers[..|entry.offers|] == entry.offers;
      OfferTableStep(feed, i);
      return true;
    }

    /**
     * The offer query of inline_shop_search: all offers ordered by price,
     * narrowed by one keyword at a time, limited to 50.
     */
    method FindOffers(keywords: seq<string>) returns (found: seq<Offer>)
      requires Valid()
      ensures IsAnswer(offers, keywords, found)
      ensures Owned(shops, found)
    {
      var ranked := SortByPrice(offers);
      found := ranked;
      MatchingNoKeywords(ranked);
      for i := 0 to |keywords|
        invariant found == Matching(ranked, keywords[..i])
      {
        MatchingStep(ranked, keywords, i);
        found := Matching(found, [keywords[i]]);
      }
      assert keywords[..|keywords|] == keywords;
      found := Capped(found);
      RankedAnswer(offers, keywords, ranked);
      AnswerMatches(offers, keywords, found);
      OwnedSubset(shops, offers, found);
    }

    /**
     * The result loop of inline_shop_search: one result per offer, in
     * order, each from the offer and the shop that owns it.
     */
    method BuildResults(found: seq<Offer>) returns (results: seq<Article>)
      requires Owned(shops, found)
      ensures results == Render(shops, found)
    {
      ghost var all := Render(shops, found);
      results := [];
      for j := 0 to |found|
        invariant results == all[..j]
      {
        results := results + [ArticleFor(shops[found[j].shop], found[j])];
        assert all[..j + 1] == all[..j] + [all[j]];
      }
    }

    /**
     * inline_shop_search: the query's keywords select the matching offers,
     * cheapest first and at most 50, and each becomes a result built from
     * the offer and its own shop.
     */
    method InlineSearch(query: string) returns (results: seq<Article>)
      requires Valid()
      ensures |results| <= MaxResults
      ensures exists found :: IsAnswer(offers, Words(query), found) && Owned(shops, found)
                              && results == Render(shops, found)
    {
      var keywords := Words(query);
      var found := FindOffers(keywords);
      results := BuildResults(found);
      assert |found| <= MaxResults by {
        AnswerShape(offers, keywords, found);
      }
    }

    /** list_shops: one entry per shop, in non-decreasing kind. */
    method ListShops() returns (entries: seq<Entry>)
      ensures |entries| == |shops|
      ensures forall i, j :: 0 <= i < j < |entries| ==> TextLe(entries[i].kind, entries[j].kind)
      ensures exists ranked :: KindSorted(ranked) && multiset(ranked) == multiset(shops)
                               && entries == Entries(ranked)
    {
      var ranked := SortByKind(shops);
      entries := [];
      for i := 0 to |ranked|
        invariant entries == Entries(ranked[..i])
      {
        entries := entries + [EntryFor(ranked[i])];
      }
      assert ranked[..|ranked|] == ranked;
      assert |ranked| == |multiset(ranked)|;
    }
  }

  /**
   * One line of the shop listing: a link that shares the shop's deep link,
   * the shop's kind and name, its mana, and its owner's castle and name.
   */
  datatype Entry = Entry(
    shareTarget: string,
    kind: string,
    name: string,
    mana: int,
    ownerCastle: string,
    ownerName: string)

  /** The entry's link shares the payload that opens `s`, and the entry sorts by `s`'s kind. */
  function EntryFor(s: Shop): (r: Entry)
    ensures LinkOf(r.shareTarget) == Some(s.link)
    ensures r.kind == s.kind
  {
    Entry(DeepLink(s.link), s.kind, s.name, s.mana, s.ownerCastle, s.ownerName)
  }

  /** The listing of `shops`, one entry per shop in the same order. */
  function Entries(shops: seq<Shop>): (r: seq<Entry>)
    ensures |r| == |shops|
    ensures forall i :: 0 <= i < |r| ==> LinkOf(r[i].shareTarget) == Some(shops[i].link)
  {
    seq(|shops|, i requires 0 <= i < |shops| => EntryFor(shops[i]))
  }

  /** The parts of an incoming message that name further users. */
  datatype Message = Message(
    forwardFrom: Option<User>,
    leftChatMember: Option<User>,
    newChatMembers: seq<User>)

  function Present(u: Option<User>): seq<User>
  {
    if u.Some? then [u.value] else []
  }

  /**
   * dbhandler: the users to store for one update, in order: the sender,
   * then the forwarded message's author, then the member who left, then
   * every new member; nobody else.
   */
  method CollectUsers(user: User, msg: Option<Message>) returns (users: seq<User>)
    ensures msg.None? ==> users == [user]
    ensures msg.Some? ==>
      users == [user] + Present(msg.value.forwardFrom) + Present(msg.value.leftChatMember) + msg.value.newChatMembers
    ensures forall u :: u in users <==>
      || u == user
      || (msg.Some? && (msg.value.forwardFrom == Some(u) || msg.value.leftChatMember == Some(u)
                        || u in msg.value.newChatMembers))
  {
    users := [];
    users := users + [user];
    if msg.Some? && msg.value.forwardFrom.Some? {
      users := users + [msg.value.forwardFrom.value];
    }
    if msg.Some? && msg.value.leftChatMember.Some? {
      users := users + [msg.value.leftChatMember.value];
    }
    if msg.Some? && msg.value.newChatMembers != [] {
      users := users + msg.value.newChatMembers;
    }
  }
}
