/**
 * The meaning of the inline offer search (bot.py, inline_shop_search): the
 * offers whose item contains every keyword, cheapest first, at most 50,
 * each rendered with the data of its owning shop.
 */
module Search {

  import opened Models
  import opened Text
  import opened Ordering

  /** The number of results one inline answer carries. */
  const MaxResults: nat := 50

  function Min(a: nat, b: nat): nat
  {
    if a <= b then a else b
  }

  /** Case-insensitive AND match: the lower-cased item contains every lower-cased keyword. */
  predicate Matches(item: string, keywords: seq<string>)
  {
    forall k :: k in keywords ==> Contains(Lower(item), Lower(k))
  }

  /** Matching ignores the case of the item: an item matches exactly when its lower-cased form does. */
  lemma MatchesIgnoresCase(item: string, keywords: seq<string>)
    ensures Matches(Lower(item), keywords) == Matches(item, keywords)
  {
    LowerIdempotent(item);
  }

  /** The offers of `offers` that match every keyword, in the order of `offers`. */
  function Matching(offers: seq<Offer>, keywords: seq<string>): (r: seq<Offer>)
    ensures |r| <= |offers|
  {
    if offers == [] then []
    else (if Matches(offers[0].item, keywords) then [offers[0]] else []) + Matching(offers[1..], keywords)
  }

  /** The filter keeps exactly the offers that match every keyword. */
  lemma {:induction false} MatchingMembers(offers: seq<Offer>, keywords: seq<string>)
    ensures forall o :: o in Matching(offers, keywords) <==> o in offers && Matches(o.item, keywords)
  {
    if offers != [] {
      MatchingMembers(offers[1..], keywords);
      assert offers == [offers[0]] + offers[1..];
    }
  }

  /** With no keywords every offer matches. */
  lemma {:induction false} MatchingNoKeywords(offers: seq<Offer>)
    ensures Matching(offers, []) == offers
  {
    if offers != [] {
      MatchingNoKeywords(offers[1..]);
    }
  }

  /** Filtering by one more keyword is filtering the previous result again (AND across keywords). */
  lemma {:induction false} MatchingNarrow(offers: seq<Offer>, keywords: seq<string>, k: string)
    ensures Matching(Matching(offers, keywords), [k]) == Matching(offers, keywords + [k])
  {
    if offers != [] {
      var o := offers[0];
      var inner := Matching(offers[1..], keywords);
      MatchingNarrow(offers[1..], keywords, k);
      assert Matches(o.item, keywords + [k]) == (Matches(o.item, keywords) && Matches(o.item, [k]));
      if Matches(o.item, keywords) {
        assert Matching(offers, keywords) == [o] + inner;
        assert ([o] + inner)[1..] == inner;
      } else {
        assert Matching(offers, keywords) == inner;
      }
    }
  }

  /** The `i`-th pass of the keyword loop: filtering by `keywords[i]` extends the keywords matched so far. */
  lemma MatchingStep(offers: seq<Offer>, keywords: seq<string>, i: nat)
    requires i < |keywords|
    ensures Matching(Matching(offers, keywords[..i]), [keywords[i]]) == Matching(offers, keywords[..i + 1])
  {
    assert keywords[..i + 1] == keywords[..i] + [keywords[i]];
    MatchingNarrow(offers, keywords[..i], keywords[i]);
  }

  /** Filtering keeps how often each matching offer occurs. */
  lemma {:induction false} MatchingCount(offers: seq<Offer>, keywords: seq<string>, o: Offer)
    ensures multiset(Matching(offers, keywords))[o] == if Matches(o.item, keywords) then multiset(offers)[o] else 0
  {
    if offers != [] {
      assert offers == [offers[0]] + offers[1..];
      MatchingCount(offers[1..], keywords, o);
    }
  }

  /** Filtering a permutation gives a permutation of the filtered offers. */
  lemma MatchingPermutation(a: seq<Offer>, b: seq<Offer>, keywords: seq<string>)
    requires multiset(a) == multiset(b)
    ensures multiset(Matching(a, keywords)) == multiset(Matching(b, keywords))
  {
    forall o ensures multiset(Matching(a, keywords))[o] == multiset(Matching(b, keywords))[o] {
      MatchingCount(a, keywords, o);
      MatchingCount(b, keywords, o);
    }
  }

  /** Filtering a price-sorted list leaves it price-sorted. */
  lemma {:induction false} MatchingSorted(offers: seq<Offer>, keywords: seq<string>)
    requires PriceSorted(offers)
    ensures PriceSorted(Matching(offers, keywords))
  {
    if offers != [] {
      var rest := Matching(offers[1..], keywords);
      MatchingSorted(offers[1..], keywords);
      MatchingMembers(offers[1..], keywords);
      if Matches(offers[0].item, keywords) {
        forall y | y in rest ensures offers[0].price <= y.price {
          var m :| 0 <= m < |offers[1..]| && offers[1..][m] == y;
          assert offers[m + 1] == y;
        }
        PrependPriceSorted(offers[0], rest);
      }
    }
  }

  /**
   * `found` is a correct answer to `keywords` over `offers`: the first
   * `MaxResults` of some price-sorted arrangement of all matching offers.
   * Offers of equal price may come in any order.
   */
  ghost predicate IsAnswer(offers: seq<Offer>, keywords: seq<string>, found: seq<Offer>)
    ensures IsAnswer(offers, keywords, found) ==> |found| <= MaxResults
  {
    exists ranked :: PriceSorted(ranked) && multiset(ranked) == multiset(Matching(offers, keywords))
                     && found == ranked[..Min(MaxResults, |ranked|)]
  }

  /** Filtering a price-sorted arrangement of the catalog and keeping the first 50 gives an answer. */
  lemma RankedAnswer(offers: seq<Offer>, keywords: seq<string>, ranked: seq<Offer>)
    requires PriceSorted(ranked) && multiset(ranked) == multiset(offers)
    ensures IsAnswer(offers, keywords, Capped(Matching(ranked, keywords)))
  {
    var matches := Matching(ranked, keywords);
    MatchingSorted(ranked, keywords);
    MatchingPermutation(ranked, offers, keywords);
    assert PriceSorted(matches) && multiset(matches) == multiset(Matching(offers, keywords))
           && Capped(matches) == matches[..Min(MaxResults, |matches|)];
  }

  /** `.limit(50)`: the first 50 offers, or all of them when there are fewer. */
  function Capped(xs: seq<Offer>): (r: seq<Offer>)
    ensures r <= xs
    ensures |r| == Min(MaxResults, |xs|)
  {
    xs[..Min(MaxResults, |xs|)]
  }

  /** Every answer offer is a catalog offer whose item contains every keyword. */
  lemma AnswerMatches(offers: seq<Offer>, keywords: seq<string>, found: seq<Offer>)
    requires IsAnswer(offers, keywords, found)
    ensures forall o :: o in found ==> o in offers && Matches(o.item, keywords)
  {
    var ranked :| PriceSorted(ranked) && multiset(ranked) == multiset(Matching(offers, keywords))
                  && found == ranked[..Min(MaxResults, |ranked|)];
    MatchingMembers(offers, keywords);
    forall o | o in found ensures o in offers && Matches(o.item, keywords) {
      assert o in ranked;
      assert o in multiset(Matching(offers, keywords));
    }
  }

  /** An answer is in non-decreasing price, has at most 50 offers, and has all the matches when there are at most 50. */
  lemma AnswerShape(offers: seq<Offer>, keywords: seq<string>, found: seq<Offer>)
    requires IsAnswer(offers, keywords, found)
    ensures PriceSorted(found)
    ensures |found| == Min(MaxResults, |Matching(offers, keywords)|)
  {
    var ranked :| PriceSorted(ranked) && multiset(ranked) == multiset(Matching(offers, keywords))
                  && found == ranked[..Min(MaxResults, |ranked|)];
    assert |ranked| == |multiset(ranked)|;
  }

  /**
   * No cheaper match is dropped for a dearer one: a matching offer that the
   * answer leaves out (or holds fewer copies of) costs at least as much as
   * every offer the answer holds.
   */
  lemma AnswerCheapest(offers: seq<Offer>, keywords: seq<string>, found: seq<Offer>, o: Offer)
    requires IsAnswer(offers, keywords, found)
    requires multiset(found)[o] < multiset(Matching(offers, keywords))[o]
    ensures forall f :: f in found ==> f.price <= o.price
  {
    var ranked :| PriceSorted(ranked) && multiset(ranked) == multiset(Matching(offers, keywords))
                  && found == ranked[..Min(MaxResults, |ranked|)];
    PrefixCheapest(ranked, |found|, o);
  }

  /** Every catalog and keyword list has an answer: the search never fails. */
  lemma AnswerExists(offers: seq<Offer>, keywords: seq<string>)
    ensures exists found :: IsAnswer(offers, keywords, found)
  {
    var ranked := SortByPrice(offers);
    RankedAnswer(offers, keywords, ranked);
  }

  /** An empty or all-whitespace query has no keywords, so its answer is ranked from all offers. */
  lemma EmptyQueryMatchesAll(query: string, offers: seq<Offer>)
    requires forall i :: 0 <= i < |query| ==> IsSpace(query[i])
    ensures Matching(offers, Words(query)) == offers
  {
    WordsNone(query);
    MatchingNoKeywords(offers);
  }

  /**
   * One inline result: the title carries the shop's kind, name and mana, the
   * description the offer's item, mana and price and the shop's castle and
   * owner, and the message sent when it is chosen is the shop's deep link.
   */
  datatype Article = Article(
    kind: string,
    shopName: string,
    shopMana: int,
    item: string,
    offerMana: int,
    price: int,
    ownerCastle: string,
    ownerName: string,
    messageText: string)

  /** Choosing the result sends the payload that opens the offer's own shop. */
  function ArticleFor(shop: Shop, offer: Offer): (r: Article)
    ensures LinkOf(r.messageText) == Some(shop.link)
  {
    Article(shop.kind, shop.name, shop.mana, offer.item, offer.mana, offer.price,
            shop.ownerCastle, shop.ownerName, DeepLink(shop.link))
  }

  /**
   * The results for the offers `found`, one per offer and in the same order,
   * each built from that offer and from the shop that owns it.
   */
  function Render(shops: seq<Shop>, found: seq<Offer>): (r: seq<Article>)
    requires Owned(shops, found)
    ensures |r| == |found|
  {
    seq(|found|, j requires 0 <= j < |found| => ArticleFor(shops[found[j].shop], found[j]))
  }

  /**
   * The `j`-th result describes the `j`-th offer and the shop that owns it,
   * and its message is `/ws_` followed by that shop's link.
   */
  lemma RenderFields(shops: seq<Shop>, found: seq<Offer>, j: nat)
    requires Owned(shops, found) && j < |found|
    ensures var r, shop := Render(shops, found)[j], shops[found[j].shop];
      && r.messageText == DeepLinkPrefix + shop.link
      && r.kind == shop.kind && r.shopName == shop.name && r.shopMana == shop.mana
      && r.ownerCastle == shop.ownerCastle && r.ownerName == shop.ownerName
      && r.item == found[j].item && r.offerMana == found[j].mana && r.price == found[j].price
  {
  }
}
