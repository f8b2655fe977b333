/**
 * The two orders the database is asked for (bot.py): offers by price and
 * shops by kind. The database sorts; a sort here is one admissible outcome,
 * and every property that uses it is stated for any sorted permutation.
 */
module Ordering {

  import opened Models

  predicate PriceSorted(xs: seq<Offer>)
  {
    forall i, j :: 0 <= i < j < |xs| ==> xs[i].price <= xs[j].price
  }

  /** An offer no dearer than any in a price-sorted list, put in front, keeps it price-sorted. */
  lemma PrependPriceSorted(x: Offer, rest: seq<Offer>)
    requires PriceSorted(rest)
    requires forall y :: y in rest ==> x.price <= y.price
    ensures PriceSorted([x] + rest)
  {
  }

  function InsertByPrice(o: Offer, xs: seq<Offer>): (r: seq<Offer>)
    requires PriceSorted(xs)
    ensures forall y :: y in r ==> y == o || y in xs
    ensures PriceSorted(r)
    ensures multiset(r) == multiset(xs) + multiset{o}
  {
    if xs == [] || o.price <= xs[0].price then
      PrependPriceSorted(o, xs);
      [o] + xs
    else
      var rest := InsertByPrice(o, xs[1..]);
      PrependPriceSorted(xs[0], rest);
      assert xs == [xs[0]] + xs[1..];
      [xs[0]] + rest
  }

  /** `ORDER BY price`: the same offers, in non-decreasing price. */
  function SortByPrice(xs: seq<Offer>): (r: seq<Offer>)
    ensures PriceSorted(r)
    ensures multiset(r) == multiset(xs)
  {
    if xs == [] then []
    else
      assert xs == [xs[0]] + xs[1..];
      InsertByPrice(xs[0], SortByPrice(xs[1..]))
  }

  /**
   * In a price-sorted list, an offer that a prefix holds fewer copies of than
   * the whole list costs at least as much as everything in the prefix.
   */
  lemma PrefixCheapest(ranked: seq<Offer>, n: nat, o: Offer)
    requires PriceSorted(ranked) && n <= |ranked|
    requires multiset(ranked[..n])[o] < multiset(ranked)[o]
    ensures forall f :: f in ranked[..n] ==> f.price <= o.price
  {
    assert ranked == ranked[..n] + ranked[n..];
    assert multiset(ranked) == multiset(ranked[..n]) + multiset(ranked[n..]);
    assert o in ranked[n..];
    var m :| n <= m < |ranked| && ranked[m] == o;
    forall f | f in ranked[..n] ensures f.price <= o.price {
      var i :| 0 <= i < n && ranked[..n][i] == f;
      assert ranked[i] == f;
    }
  }

  /** Text order by character code, as a binary collation compares strings. */
  predicate TextLe(a: string, b: string)
  {
    a == [] || (b != [] && (a[0] < b[0] || (a[0] == b[0] && TextLe(a[1..], b[1..]))))
  }

  lemma {:induction false} TextLeTotal(a: string, b: string)
    ensures TextLe(a, b) || TextLe(b, a)
  {
    if a != [] && b != [] && a[0] == b[0] {
      TextLeTotal(a[1..], b[1..]);
    }
  }

  lemma {:induction false} TextLeTransitive(a: string, b: string, c: string)
    requires TextLe(a, b) && TextLe(b, c)
    ensures TextLe(a, c)
  {
    if a != [] && a[0] == b[0] && b[0] == c[0] {
      TextLeTransitive(a[1..], b[1..], c[1..]);
    }
  }

  predicate KindSorted(xs: seq<Shop>)
  {
    forall i, j :: 0 <= i < j < |xs| ==> TextLe(xs[i].kind, xs[j].kind)
  }

  /** A shop whose kind is no later than any in a kind-sorted list, put in front, keeps it kind-sorted. */
  lemma PrependKindSorted(x: Shop, rest: seq<Shop>)
    requires KindSorted(rest)
    requires forall y :: y in rest ==> TextLe(x.kind, y.kind)
    ensures KindSorted([x] + rest)
  {
  }

  function InsertByKind(s: Shop, xs: seq<Shop>): (r: seq<Shop>)
    requires KindSorted(xs)
    ensures forall y :: y in r ==> y == s || y in xs
    ensures KindSorted(r)
    ensures multiset(r) == multiset(xs) + multiset{s}
  {
    if xs == [] || TextLe(s.kind, xs[0].kind) then
      forall y | y in xs ensures TextLe(s.kind, y.kind) {
        if y != xs[0] {
          TextLeTransitive(s.kind, xs[0].kind, y.kind);
        }
      }
      PrependKindSorted(s, xs);
      [s] + xs
    else
      TextLeTotal(s.kind, xs[0].kind);
      var rest := InsertByKind(s, xs[1..]);
      PrependKindSorted(xs[0], rest);
      assert xs == [xs[0]] + xs[1..];
      [xs[0]] + rest
  }

  /** `ORDER BY kind`: the same shops, in non-decreasing kind. */
  function SortByKind(xs: seq<Shop>): (r: seq<Shop>)
    ensures KindSorted(r)
    ensures multiset(r) == multiset(xs)
  {
    if xs == [] then []
    else
      assert xs == [xs[0]] + xs[1..];
      InsertByKind(xs[0], SortByKind(xs[1..]))
  }
}
