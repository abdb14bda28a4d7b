/**
  The product list page: the type and search filters and the sort selected
  by `filters.sort`.

  Sorting follows `Array.prototype.sort` with the page's comparator. A
  comparator result of NaN counts as 0. The item schema declares no
  `createdAt`, so for stored items the "recent" comparator is NaN for
  every pair and the filtered order is kept.
 */
module Catalogue {
  import opened Wrappers
  import opened Records
  import opened Sequences

  /** The fields of a listed item the page reads. */
  datatype Product = Product(itemName: string, donationOrSale: string, price: Option<real>, createdAt: Option<Time>)

  /** `filters`: `type` is "all", "donate" or "sell"; `sort` is "recent", "price-low" or "price-high". */
  datatype Filters = Filters(kind: string, sort: string, search: string)

  /** `toLowerCase` on the ASCII letters. */
  function LowerChar(c: char): char {
    if 'A' <= c <= 'Z' then (c as int + 32) as char else c
  }

  function Lower(s: string): (r: string)
    ensures |r| == |s|
    ensures forall k :: 0 <= k < |s| ==> r[k] == LowerChar(s[k])
  {
    if |s| == 0 then [] else [LowerChar(s[0])] + Lower(s[1..])
  }

  /** `s.includes(sub)`: `sub` occurs at some position of `s`. */
  predicate Includes(s: string, sub: string)
    decreases |s|
  {
    sub <= s || (|s| > 0 && Includes(s[1..], sub))
  }

  /** The filter callback. */
  predicate Keep(f: Filters, p: Product) {
    && !(f.kind == "donate" && p.donationOrSale != "donate")
    && !(f.kind == "sell" && p.donationOrSale == "donate")
    && (f.search == "" || Includes(Lower(p.itemName), Lower(f.search)))
  }

  function FilterProducts(f: Filters, s: seq<Product>): (r: seq<Product>)
    ensures forall k :: 0 <= k < |r| ==> Keep(f, r[k])
    ensures forall p :: multiset(r)[p] == if Keep(f, p) then multiset(s)[p] else 0
    ensures Subsequence(r, s)
  {
    if |s| == 0 then []
    else
      assert s == [s[0]] + s[1..];
      var rest := FilterProducts(f, s[1..]);
      if Keep(f, s[0]) then
        assert ([s[0]] + rest)[1..] == rest;
        [s[0]] + rest
      else
        SubsequenceSkip(rest, s);
        rest
  }

  /** The comparator's case: "price-low", "price-high", and "recent" for every other value. */
  datatype SortMode = PriceLow | PriceHigh | Recent

  function ModeOf(sort: string): SortMode {
    if sort == "price-low" then PriceLow else if sort == "price-high" then PriceHigh else Recent
  }

  /** The sort comparator; a negative result puts `a` first. NaN (an undated product) reads as 0. */
  function Compare(mode: SortMode, a: Product, b: Product): real {
    match mode
    case PriceLow => a.price.GetOr(0.0) - b.price.GetOr(0.0)
    case PriceHigh => b.price.GetOr(0.0) - a.price.GetOr(0.0)
    case Recent =>
      if a.createdAt.Some? && b.createdAt.Some? then (b.createdAt.value - a.createdAt.value) as real else 0.0
  }

  /** Puts `x` before the first element it compares below, so equal elements keep their order. */
  function Insert(mode: SortMode, x: Product, s: seq<Product>): (r: seq<Product>)
    ensures multiset(r) == multiset(s) + multiset{x}
  {
    if |s| == 0 then [x]
    else if Compare(mode, x, s[0]) < 0.0 then [x] + s
    else
      assert s == [s[0]] + s[1..];
      [s[0]] + Insert(mode, x, s[1..])
  }

  function Sort(mode: SortMode, s: seq<Product>): (r: seq<Product>)
    ensures multiset(r) == multiset(s)
  {
    if |s| == 0 then []
    else
      assert s == s[..|s| - 1] + [s[|s| - 1]];
      Insert(mode, s[|s| - 1], Sort(mode, s[..|s| - 1]))
  }

  /** `filteredProducts`: a reordering of the kept products and nothing else. */
  function FilteredProducts(f: Filters, products: seq<Product>): (r: seq<Product>)
    ensures forall k :: 0 <= k < |r| ==> Keep(f, r[k])
    ensures forall p :: multiset(r)[p] == if Keep(f, p) then multiset(products)[p] else 0
    ensures multiset(r) <= multiset(products)
  {
    Sort(ModeOf(f.sort), FilterProducts(f, products))
  }

  /** "donate" keeps only donations, "sell" only non-donations; a search keeps only name matches. */
  lemma FilterMeaning(f: Filters, products: seq<Product>, k: nat)
    requires k < |FilteredProducts(f, products)|
    ensures var p := FilteredProducts(f, products)[k];
            && (f.kind == "donate" ==> p.donationOrSale == "donate")
            && (f.kind == "sell" ==> p.donationOrSale != "donate")
            && (f.search != "" ==> Includes(Lower(p.itemName), Lower(f.search)))
  {
  }

  /** The comparator is a difference of keys when the mode sorts by price, or both products are dated. */
  predicate HasKey(mode: SortMode, p: Product) {
    mode != Recent || p.createdAt.Some?
  }

  function Key(mode: SortMode, p: Product): real {
    match mode
    case PriceLow => p.price.GetOr(0.0)
    case PriceHigh => -p.price.GetOr(0.0)
    case Recent => if p.createdAt.Some? then -(p.createdAt.value as real) else 0.0
  }

  predicate AllKeyed(mode: SortMode, s: seq<Product>) {
    forall k :: 0 <= k < |s| ==> HasKey(mode, s[k])
  }

  predicate SortedByKey(mode: SortMode, s: seq<Product>) {
    forall i, j :: 0 <= i < j < |s| ==> Key(mode, s[i]) <= Key(mode, s[j])
  }

  lemma CompareIsKeyDifference(mode: SortMode, a: Product, b: Product)
    requires HasKey(mode, a) && HasKey(mode, b)
    ensures Compare(mode, a, b) == Key(mode, a) - Key(mode, b)
  {
  }

  lemma ConsSorted(mode: SortMode, h: Product, t: seq<Product>)
    requires HasKey(mode, h) && AllKeyed(mode, t) && SortedByKey(mode, t)
    requires forall k :: 0 <= k < |t| ==> Key(mode, h) <= Key(mode, t[k])
    ensures SortedByKey(mode, [h] + t) && AllKeyed(mode, [h] + t)
  {
    var r := [h] + t;
    assert forall k :: 1 <= k < |r| ==> r[k] == t[k - 1];
  }

  lemma {:induction false} InsertSorted(mode: SortMode, x: Product, s: seq<Product>)
    requires HasKey(mode, x) && AllKeyed(mode, s) && SortedByKey(mode, s)
    ensures SortedByKey(mode, Insert(mode, x, s))
    ensures AllKeyed(mode, Insert(mode, x, s))
    decreases |s|
  {
    if |s| == 0 {
      assert Insert(mode, x, s) == [x];
    } else {
      CompareIsKeyDifference(mode, x, s[0]);
      if Compare(mode, x, s[0]) < 0.0 {
        assert Insert(mode, x, s) == [x] + s;
        ConsSorted(mode, x, s);
      } else {
        InsertAfterHead(mode, x, s);
      }
    }
  }

  lemma {:induction false} InsertAfterHead(mode: SortMode, x: Product, s: seq<Product>)
    requires |s| > 0 && HasKey(mode, x) && AllKeyed(mode, s) && SortedByKey(mode, s)
    requires Key(mode, s[0]) <= Key(mode, x) && Compare(mode, x, s[0]) >= 0.0
    ensures SortedByKey(mode, Insert(mode, x, s))
    ensures AllKeyed(mode, Insert(mode, x, s))
    decreases |s|, 0
  {
    var tail := s[1..];
    assert s == [s[0]] + tail;
    var rest := Insert(mode, x, tail);
    InsertSorted(mode, x, tail);
    forall k | 0 <= k < |rest|
      ensures Key(mode, s[0]) <= Key(mode, rest[k])
    {
      assert rest[k] in multiset(rest);
      if rest[k] != x {
        assert rest[k] in tail;
      }
    }
    ConsSorted(mode, s[0], rest);
    assert Insert(mode, x, s) == [s[0]] + rest;
  }

  lemma {:induction false} SortSorted(mode: SortMode, s: seq<Product>)
    requires AllKeyed(mode, s)
    ensures SortedByKey(mode, Sort(mode, s))
    ensures AllKeyed(mode, Sort(mode, s))
    decreases |s|
  {
    if |s| > 0 {
      SortSorted(mode, s[..|s| - 1]);
      InsertSorted(mode, s[|s| - 1], Sort(mode, s[..|s| - 1]));
    }
  }

  /** Lists of kept products are keyed whenever their source list is. */
  lemma FilterKeepsKeys(f: Filters, products: seq<Product>)
    requires AllKeyed(ModeOf(f.sort), products)
    ensures AllKeyed(ModeOf(f.sort), FilterProducts(f, products))
  {
    var r := FilterProducts(f, products);
    forall k | 0 <= k < |r|
      ensures HasKey(ModeOf(f.sort), r[k])
    {
      assert r[k] in multiset(r);
      assert r[k] in products;
    }
  }

  /** "price-low" lists prices non-decreasing, a missing price counting as 0. */
  lemma PriceLowAscending(f: Filters, products: seq<Product>)
    requires ModeOf(f.sort) == PriceLow
    ensures var r := FilteredProducts(f, products);
            forall i, j :: 0 <= i < j < |r| ==> r[i].price.GetOr(0.0) <= r[j].price.GetOr(0.0)
  {
    FilterKeepsKeys(f, products);
    SortSorted(ModeOf(f.sort), FilterProducts(f, products));
  }

  /** "price-high" lists prices non-increasing. */
  lemma PriceHighDescending(f: Filters, products: seq<Product>)
    requires ModeOf(f.sort) == PriceHigh
    ensures var r := FilteredProducts(f, products);
            forall i, j :: 0 <= i < j < |r| ==> r[i].price.GetOr(0.0) >= r[j].price.GetOr(0.0)
  {
    FilterKeepsKeys(f, products);
    SortSorted(ModeOf(f.sort), FilterProducts(f, products));
  }

  /** "recent" (and any other mode) lists dated products newest first. */
  lemma RecentNewestFirst(f: Filters, products: seq<Product>)
    requires ModeOf(f.sort) == Recent
    requires forall k :: 0 <= k < |products| ==> products[k].createdAt.Some?
    ensures var r := FilteredProducts(f, products);
            && (forall k :: 0 <= k < |r| ==> r[k].createdAt.Some?)
            && forall i, j :: 0 <= i < j < |r| ==> r[i].createdAt.value >= r[j].createdAt.value
  {
    FilterKeepsKeys(f, products);
    SortSorted(ModeOf(f.sort), FilterProducts(f, products));
  }

  lemma {:induction false} InsertUndatedAppends(mode: SortMode, x: Product, s: seq<Product>)
    requires mode == Recent && x.createdAt.None?
    ensures Insert(mode, x, s) == s + [x]
    decreases |s|
  {
    if |s| > 0 {
      InsertUndatedAppends(mode, x, s[1..]);
      assert s == [s[0]] + s[1..];
    }
  }

  lemma {:induction false} SortUndatedKeepsOrder(mode: SortMode, s: seq<Product>)
    requires mode == Recent
    requires forall k :: 0 <= k < |s| ==> s[k].createdAt.None?
    ensures Sort(mode, s) == s
    decreases |s|
  {
    if |s| > 0 {
      var init := s[..|s| - 1];
      var last := s[|s| - 1];
      assert s == init + [last];
      SortUndatedKeepsOrder(mode, init);
      InsertUndatedAppends(mode, last, init);
      calc {
        Sort(mode, s);
        Insert(mode, last, Sort(mode, init));
        Insert(mode, last, init);
        init + [last];
      }
    }
  }

  /** With no `createdAt` on any product, "recent" leaves the filtered list in its fetched order. */
  lemma RecentKeepsOrderWhenUndated(f: Filters, products: seq<Product>)
    requires ModeOf(f.sort) == Recent
    requires forall k :: 0 <= k < |products| ==> products[k].createdAt.None?
    ensures FilteredProducts(f, products) == FilterProducts(f, products)
  {
    var kept := FilterProducts(f, products);
    forall k | 0 <= k < |kept|
      ensures kept[k].createdAt.None?
    {
      assert kept[k] in multiset(kept);
      assert kept[k] in products;
    }
    SortUndatedKeepsOrder(ModeOf(f.sort), kept);
  }

  /** An empty search with type "all" drops nothing. */
  lemma EmptySearchKeepsAll(products: seq<Product>, sort: string)
    ensures multiset(FilteredProducts(Filters("all", sort, ""), products)) == multiset(products)
  {
    var r := FilteredProducts(Filters("all", sort, ""), products);
    assert forall p :: multiset(r)[p] == multiset(products)[p];
  }
}
