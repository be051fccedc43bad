/**
 * The brand list of the catalogue page: `[...new Set(data.map(bike => bike.brand))].sort()`.
 * A `Set` keeps the first occurrence of each value in insertion order; the
 * comparator-less `sort` orders strings by `Text.Less`.
 */
module BrandList {
  import opened Text
  import opened Bikes
  import Seqs

  /** `[...new Set(s)]`: each value once, at the position of its first occurrence. */
  function Dedup(s: seq<string>): (r: seq<string>)
    ensures Seqs.Distinct(r)
    ensures forall x :: x in r <==> x in s
    decreases |s|
  {
    if |s| == 0 then []
    else
      var d := Dedup(s[..|s| - 1]);
      assert s == s[..|s| - 1] + [s[|s| - 1]];
      if s[|s| - 1] in d then d else d + [s[|s| - 1]]
  }

  /** Every element after the head of a strictly sorted sequence is above anything below the head. */
  lemma BelowHead(sorted: seq<string>, x: string)
    requires StrictlySorted(sorted) && |sorted| > 0 && Less(x, sorted[0])
    ensures forall j :: 0 <= j < |sorted| ==> Less(x, sorted[j])
  {
    forall j | 0 < j < |sorted|
      ensures Less(x, sorted[j])
    {
      LessTransitive(x, sorted[0], sorted[j]);
    }
  }

  /** Insert a new string into a strictly sorted sequence at its place. */
  function Insert(sorted: seq<string>, x: string): (r: seq<string>)
    requires StrictlySorted(sorted) && x !in sorted
    ensures StrictlySorted(r)
    ensures multiset(r) == multiset(sorted) + multiset{x}
  {
    if |sorted| == 0 then [x]
    else if Less(x, sorted[0]) then
      BelowHead(sorted, x);
      [x] + sorted
    else
      var rest := Insert(sorted[1..], x);
      AboveHead(sorted, x, rest);
      [sorted[0]] + rest
  }

  /** Keeping the head in front of the insertion into the tail stays strictly sorted. */
  lemma AboveHead(sorted: seq<string>, x: string, rest: seq<string>)
    requires StrictlySorted(sorted) && |sorted| > 0 && x !in sorted && !Less(x, sorted[0])
    requires StrictlySorted(rest) && multiset(rest) == multiset(sorted[1..]) + multiset{x}
    ensures StrictlySorted([sorted[0]] + rest)
    ensures multiset([sorted[0]] + rest) == multiset(sorted) + multiset{x}
  {
    LessTotal(x, sorted[0]);
    assert sorted == [sorted[0]] + sorted[1..];
    forall j | 0 <= j < |rest|
      ensures Less(sorted[0], rest[j])
    {
      assert rest[j] in multiset(rest);
      if rest[j] != x {
        assert rest[j] in sorted[1..];
      }
    }
  }

  /** Insertion sort of strings without repetitions. */
  function Sort(s: seq<string>): (r: seq<string>)
    requires Seqs.Distinct(s)
    ensures StrictlySorted(r)
    ensures multiset(r) == multiset(s)
  {
    if |s| == 0 then []
    else
      assert s == [s[0]] + s[1..];
      var rest := Sort(s[1..]);
      assert s[0] !in multiset(rest);
      Insert(rest, s[0])
  }

  /** Two strictly sorted sequences with the same elements are equal: the sorted brand list is unique. */
  lemma {:induction false} SortedUnique(a: seq<string>, b: seq<string>)
    requires StrictlySorted(a) && StrictlySorted(b)
    requires forall x :: x in a <==> x in b
    ensures a == b
    decreases |a|
  {
    if |a| > 0 {
      assert a[0] in a;
    }
    if |b| > 0 {
      assert b[0] in b;
    }
    if |a| > 0 && |b| > 0 {
      if a[0] != b[0] {
        assert a[0] in b;
        assert b[0] in a;
        var i :| 0 <= i < |a| && a[i] == b[0];
        var j :| 0 <= j < |b| && b[j] == a[0];
        LessTransitive(a[0], b[0], a[0]);
        LessIrreflexive(a[0]);
      }
      assert a == [a[0]] + a[1..] && b == [b[0]] + b[1..];
      forall x
        ensures x in a[1..] <==> x in b[1..]
      {
        if x in a[1..] {
          var i :| 0 <= i < |a[1..]| && a[1..][i] == x;
          assert a[i + 1] == x;
          assert Less(a[0], x);
          LessIrreflexive(x);
          assert x != b[0] && x in b;
        }
        if x in b[1..] {
          var i :| 0 <= i < |b[1..]| && b[1..][i] == x;
          assert b[i + 1] == x;
          assert Less(b[0], x);
          LessIrreflexive(x);
          assert x != a[0] && x in a;
        }
      }
      SortedUnique(a[1..], b[1..]);
      assert a == [a[0]] + a[1..] && b == [b[0]] + b[1..];
    }
  }

  /** The brand of a motorbike, as `data.map(bike => bike.brand)` reads it. */
  function BrandOf(bike: Bike): string {
    bike.brand
  }

  /** The brand filter's option list: strictly ascending, exactly the brands in the data. */
  function UniqueBrands(data: seq<Bike>): (r: seq<string>)
    ensures StrictlySorted(r)
    ensures forall b :: b in r <==> exists i :: 0 <= i < |data| && data[i].brand == b
  {
    var brands := Seqs.Map(data, BrandOf);
    SortKeepsElements(Dedup(brands));
    BrandsOfData(data);
    Sort(Dedup(brands))
  }

  lemma SortKeepsElements(s: seq<string>)
    requires Seqs.Distinct(s)
    ensures forall x :: x in Sort(s) <==> x in s
  {
    var r := Sort(s);
    assert forall x :: x in r <==> x in multiset(r);
    assert forall x :: x in s <==> x in multiset(s);
  }

  lemma BrandsOfData(data: seq<Bike>)
    ensures forall b :: b in Seqs.Map(data, BrandOf) <==> exists i :: 0 <= i < |data| && data[i].brand == b
  {
    var brands := Seqs.Map(data, BrandOf);
    forall b | b in brands
      ensures exists i :: 0 <= i < |data| && data[i].brand == b
    {
      var i :| 0 <= i < |brands| && brands[i] == b;
      assert data[i].brand == b;
    }
    forall b | exists i :: 0 <= i < |data| && data[i].brand == b
      ensures b in brands
    {
      var i :| 0 <= i < |data| && data[i].brand == b;
      assert brands[i] == b;
    }
  }

  /** Any strictly ascending list of exactly the data's brands is the one shown. */
  lemma UniqueBrandsCharacterised(data: seq<Bike>, brands: seq<string>)
    requires StrictlySorted(brands)
    requires forall b :: b in brands <==> exists i :: 0 <= i < |data| && data[i].brand == b
    ensures UniqueBrands(data) == brands
  {
    SortedUnique(UniqueBrands(data), brands);
  }
}

/**
 * The filter pipeline of the catalogue page: a search term, a brand
 * selection and a price-range option, applied in that order, each an
 * order-preserving filter that is skipped when its control is at its default.
 */
module Filters {
  import opened Wrappers
  import opened Text
  import opened Bikes
  import Seqs

  // ---------------------------------------------------------------------------
  // Search
  // ---------------------------------------------------------------------------

  /** The brand or the model contains the term, ignoring ASCII case. */
  predicate MatchesSearch(bike: Bike, term: string) {
    Includes(Lower(bike.brand), Lower(term)) || Includes(Lower(bike.model), Lower(term))
  }

  function SearchPredicate(term: string): Bike -> bool {
    (bike: Bike) => MatchesSearch(bike, term)
  }

  /** The search stage: an empty term is falsy and skips the stage. */
  function SearchFilter(bikes: seq<Bike>, term: string): seq<Bike> {
    if |term| > 0 then Seqs.Filter(bikes, SearchPredicate(term)) else bikes
  }

  /** A motorbike matches the search exactly when the lower-cased term occurs in its lower-cased brand or model. */
  lemma MatchesSearchMeaning(bike: Bike, term: string)
    ensures MatchesSearch(bike, term) <==>
      Occurs(Lower(bike.brand), Lower(term)) || Occurs(Lower(bike.model), Lower(term))
  {
    IncludesIsOccurs(Lower(bike.brand), Lower(term));
    IncludesIsOccurs(Lower(bike.model), Lower(term));
  }

  /** The search stage keeps a motorbike iff the term is empty or the motorbike matches it. */
  lemma SearchFilterSpec(bikes: seq<Bike>, term: string)
    ensures forall b :: b in SearchFilter(bikes, term) <==> b in bikes && (|term| == 0 || MatchesSearch(b, term))
    ensures |term| == 0 ==> SearchFilter(bikes, term) == bikes
  {
    Seqs.FilterSpec(bikes, SearchPredicate(term));
  }

  // ---------------------------------------------------------------------------
  // Brand selection
  // ---------------------------------------------------------------------------

  function BrandPredicate(selected: seq<string>): Bike -> bool {
    (bike: Bike) => bike.brand in selected
  }

  /** The brand stage: an empty selection skips the stage. */
  function BrandFilter(bikes: seq<Bike>, selected: seq<string>): seq<Bike> {
    if |selected| > 0 then Seqs.Filter(bikes, BrandPredicate(selected)) else bikes
  }

  /** The brand stage keeps a motorbike iff nothing is selected or its brand is selected. */
  lemma BrandFilterSpec(bikes: seq<Bike>, selected: seq<string>)
    ensures forall b :: b in BrandFilter(bikes, selected) <==>
      b in bikes && (|selected| == 0 || b.brand in selected)
    ensures |selected| == 0 ==> BrandFilter(bikes, selected) == bikes
  {
    Seqs.FilterSpec(bikes, BrandPredicate(selected));
  }

  // ---------------------------------------------------------------------------
  // Price range
  // ---------------------------------------------------------------------------

  /** The values of the price-range options, in the order the menu lists them. */
  const PriceRanges: seq<string> :=
    ["all", "0-5000", "5000-10000", "10000-15000", "15000-20000", "20000-30000", "30000-"]

  /** A JavaScript number as `Number(s)` yields it for the option strings: an integer or `NaN`. */
  datatype Number = Finite(n: int) | NaN

  predicate IsDigit(c: char) {
    '0' <= c <= '9'
  }

  predicate AllDigits(s: string) {
    forall i :: 0 <= i < |s| ==> IsDigit(s[i])
  }

  /** The decimal value of a string of digits. */
  function DigitsValue(s: string): (r: nat)
    requires AllDigits(s)
    decreases |s|
  {
    if |s| == 0 then 0 else DigitsValue(s[..|s| - 1]) * 10 + (s[|s| - 1] as int - '0' as int)
  }

  /** `Number(s)` for a string of decimal digits; the empty string is 0. */
  function ToNumber(s: string): Number {
    if AllDigits(s) then Finite(DigitsValue(s)) else NaN
  }

  /** The two names of `const [min, max] = range.split('-').map(Number)`; `max` is `undefined` when there is no dash. */
  datatype Bounds = Bounds(min: Number, max: Option<Number>)

  function ParsePriceRange(range: string): Bounds {
    var parts := Seqs.Map(Split(range, '-'), ToNumber);
    Bounds(parts[0], if |parts| > 1 then Some(parts[1]) else None)
  }

  /** JavaScript truthiness of `max`: `undefined`, `NaN` and `0` are falsy. */
  predicate Truthy(max: Option<Number>) {
    max.Some? && max.value.Finite? && max.value.n != 0
  }

  /** `bike.price >= min && (max ? bike.price <= max : true)`; a comparison with `NaN` is false. */
  predicate InBounds(price: int, b: Bounds) {
    (b.min.Finite? && price >= b.min.n) &&
    (Truthy(b.max) ==> price <= b.max.value.n)
  }

  function PricePredicate(range: string): Bike -> bool {
    (bike: Bike) => InBounds(bike.price, ParsePriceRange(range))
  }

  /** The price stage: the option `"all"` skips the stage. */
  function PriceFilter(bikes: seq<Bike>, range: string): seq<Bike> {
    if range != "all" then Seqs.Filter(bikes, PricePredicate(range)) else bikes
  }

  /** Whether the price stage keeps a motorbike of this price. */
  predicate PriceKeeps(range: string, price: int) {
    range == "all" || InBounds(price, ParsePriceRange(range))
  }

  lemma AllDigitsNoDash(s: string)
    requires AllDigits(s)
    ensures '-' !in s
  {
  }

  /** An option `"min-max"` with a non-zero upper bound keeps exactly the prices from min to max. */
  lemma BoundedRange(lo: string, hi: string, price: int)
    requires AllDigits(lo) && AllDigits(hi) && DigitsValue(hi) != 0
    ensures lo + "-" + hi != "all"
    ensures PriceKeeps(lo + "-" + hi, price) <==> DigitsValue(lo) <= price <= DigitsValue(hi)
  {
    AllDigitsNoDash(lo);
    AllDigitsNoDash(hi);
    SplitTwo(lo, hi, '-');
    assert (lo + "-" + hi)[|lo|] == '-';
  }

  /** An option `"min-"` has an empty upper part, which `Number` reads as the falsy 0: no upper bound. */
  lemma OpenRange(lo: string, price: int)
    requires AllDigits(lo)
    ensures lo + "-" != "all"
    ensures PriceKeeps(lo + "-", price) <==> DigitsValue(lo) <= price
  {
    AllDigitsNoDash(lo);
    SplitTwo(lo, "", '-');
    assert lo + "-" == lo + "-" + "";
    assert (lo + "-")[|lo|] == '-';
  }

  lemma Value5000()
    ensures AllDigits("5000") && DigitsValue("5000") == 5000
  {
    assert "5000"[..3] == "500" && "500"[..2] == "50" && "50"[..1] == "5" && "5"[..0] == "";
  }

  lemma Value10000()
    ensures AllDigits("10000") && DigitsValue("10000") == 10000
  {
    assert "10000"[..4] == "1000" && "1000"[..3] == "100" && "100"[..2] == "10" && "10"[..1] == "1" && "1"[..0] == "";
  }

  lemma Value15000()
    ensures AllDigits("15000") && DigitsValue("15000") == 15000
  {
    assert "15000"[..4] == "1500" && "1500"[..3] == "150" && "150"[..2] == "15" && "15"[..1] == "1" && "1"[..0] == "";
  }

  lemma Value20000()
    ensures AllDigits("20000") && DigitsValue("20000") == 20000
  {
    assert "20000"[..4] == "2000" && "2000"[..3] == "200" && "200"[..2] == "20" && "20"[..1] == "2" && "2"[..0] == "";
  }

  lemma Value30000()
    ensures AllDigits("30000") && DigitsValue("30000") == 30000
  {
    assert "30000"[..4] == "3000" && "3000"[..3] == "300" && "300"[..2] == "30" && "30"[..1] == "3" && "3"[..0] == "";
  }

  /** What each option of the price menu keeps. */
  lemma PriceRangesMeaning(price: int)
    ensures PriceKeeps(PriceRanges[0], price)
    ensures PriceKeeps(PriceRanges[1], price) <==> 0 <= price <= 5000
    ensures PriceKeeps(PriceRanges[2], price) <==> 5000 <= price <= 10000
    ensures PriceKeeps(PriceRanges[3], price) <==> 10000 <= price <= 15000
    ensures PriceKeeps(PriceRanges[4], price) <==> 15000 <= price <= 20000
    ensures PriceKeeps(PriceRanges[5], price) <==> 20000 <= price <= 30000
    ensures PriceKeeps(PriceRanges[6], price) <==> 30000 <= price
  {
    PriceOption1(price);
    PriceOption2(price);
    PriceOption3(price);
    PriceOption4(price);
    PriceOption5(price);
    PriceOption6(price);
  }

  lemma PriceOption1(price: int)
    ensures PriceKeeps(PriceRanges[1], price) <==> 0 <= price <= 5000
  {
    Value5000();
    assert AllDigits("0") && DigitsValue("0") == 0;
    BoundedRange("0", "5000", price);
    assert PriceRanges[1] == "0" + "-" + "5000";
  }

  lemma PriceOption2(price: int)
    ensures PriceKeeps(PriceRanges[2], price) <==> 5000 <= price <= 10000
  {
    Value5000();
    Value10000();
    BoundedRange("5000", "10000", price);
    assert PriceRanges[2] == "5000" + "-" + "10000";
  }

  lemma PriceOption3(price: int)
    ensures PriceKeeps(PriceRanges[3], price) <==> 10000 <= price <= 15000
  {
    Value10000();
    Value15000();
    BoundedRange("10000", "15000", price);
    assert PriceRanges[3] == "10000" + "-" + "15000";
  }

  lemma PriceOption4(price: int)
    ensures PriceKeeps(PriceRanges[4], price) <==> 15000 <= price <= 20000
  {
    Value15000();
    Value20000();
    BoundedRange("15000", "20000", price);
    assert PriceRanges[4] == "15000" + "-" + "20000";
  }

  lemma PriceOption5(price: int)
    ensures PriceKeeps(PriceRanges[5], price) <==> 20000 <= price <= 30000
  {
    Value20000();
    Value30000();
    BoundedRange("20000", "30000", price);
    assert PriceRanges[5] == "20000" + "-" + "30000";
  }

  lemma PriceOption6(price: int)
    ensures PriceKeeps(PriceRanges[6], price) <==> 30000 <= price
  {
    Value30000();
    OpenRange("30000", price);
    assert PriceRanges[6] == "30000" + "-";
  }

  /** The price stage keeps a motorbike iff the option keeps its price. */
  lemma PriceFilterSpec(bikes: seq<Bike>, range: string)
    ensures forall b :: b in PriceFilter(bikes, range) <==> b in bikes && PriceKeeps(range, b.price)
    ensures range == "all" ==> PriceFilter(bikes, range) == bikes
  {
    Seqs.FilterSpec(bikes, PricePredicate(range));
  }

  // ---------------------------------------------------------------------------
  // The pipeline
  // ---------------------------------------------------------------------------

  /** The conjunction the three stages decide, each clause true when its control is at its default. */
  predicate Keep(bike: Bike, term: string, selected: seq<string>, range: string) {
    (|term| == 0 || MatchesSearch(bike, term)) &&
    (|selected| == 0 || bike.brand in selected) &&
    PriceKeeps(range, bike.price)
  }

  function KeepPredicate(term: string, selected: seq<string>, range: string): Bike -> bool {
    (bike: Bike) => Keep(bike, term, selected, range)
  }

  /** The filter effect of `MotorbikeList`: search, then brands, then price. */
  function ApplyFilters(bikes: seq<Bike>, term: string, selected: seq<string>, range: string): seq<Bike> {
    PriceFilter(BrandFilter(SearchFilter(bikes, term), selected), range)
  }

  /** A stage that is skipped when `on` is false is a filter by `!on || p`. */
  lemma {:induction false} GuardedIsFilter(s: seq<Bike>, on: bool, p: Bike -> bool, q: Bike -> bool)
    requires forall x :: q(x) == (!on || p(x))
    ensures (if on then Seqs.Filter(s, p) else s) == Seqs.Filter(s, q)
  {
    if on {
      Seqs.FilterCongruent(s, p, q);
    } else {
      Seqs.FilterKeepsAll(s, q);
    }
  }

  /** The search-or-empty and brand-or-empty clauses of `Keep`. */
  predicate SearchAndBrand(bike: Bike, term: string, selected: seq<string>) {
    (|term| == 0 || MatchesSearch(bike, term)) && (|selected| == 0 || bike.brand in selected)
  }

  function SearchAndBrandPredicate(term: string, selected: seq<string>): Bike -> bool {
    (bike: Bike) => SearchAndBrand(bike, term, selected)
  }

  /** The search stage followed by the brand stage is one filter. */
  lemma SearchThenBrand(bikes: seq<Bike>, term: string, selected: seq<string>)
    ensures BrandFilter(SearchFilter(bikes, term), selected) == Seqs.Filter(bikes, SearchAndBrandPredicate(term, selected))
  {
    var s := (b: Bike) => |term| == 0 || MatchesSearch(b, term);
    var br := (b: Bike) => |selected| == 0 || b.brand in selected;
    GuardedIsFilter(bikes, |term| > 0, SearchPredicate(term), s);
    GuardedIsFilter(Seqs.Filter(bikes, s), |selected| > 0, BrandPredicate(selected), br);
    Seqs.FilterFilter(bikes, s, br, SearchAndBrandPredicate(term, selected));
  }

  /** The three stages together are one filter by `Keep`. */
  lemma ApplyFiltersIsFilter(bikes: seq<Bike>, term: string, selected: seq<string>, range: string)
    ensures ApplyFilters(bikes, term, selected, range) == Seqs.Filter(bikes, KeepPredicate(term, selected, range))
  {
    var sb := SearchAndBrandPredicate(term, selected);
    var pr := (b: Bike) => PriceKeeps(range, b.price);
    SearchThenBrand(bikes, term, selected);
    GuardedIsFilter(Seqs.Filter(bikes, sb), range != "all", PricePredicate(range), pr);
    Seqs.FilterFilter(bikes, sb, pr, KeepPredicate(term, selected, range));
  }

  /**
   * The filtered list is an order-preserving subsequence of the full list
   * holding exactly the motorbikes that pass all three stages, each as often
   * as in the full list.
   */
  lemma ApplyFiltersSpec(bikes: seq<Bike>, term: string, selected: seq<string>, range: string)
    ensures var r := ApplyFilters(bikes, term, selected, range);
      Seqs.IsSubsequence(r, bikes) &&
      (forall b :: b in r <==> b in bikes && Keep(b, term, selected, range)) &&
      (forall b :: multiset(r)[b] == if Keep(b, term, selected, range) then multiset(bikes)[b] else 0)
  {
    ApplyFiltersIsFilter(bikes, term, selected, range);
    Seqs.FilterSpec(bikes, KeepPredicate(term, selected, range));
  }

  /** With every control at its default the whole list is shown. */
  lemma DefaultFiltersKeepAll(bikes: seq<Bike>)
    ensures ApplyFilters(bikes, "", [], "all") == bikes
  {
  }
}

/** Pagination of the filtered list: nine motorbikes per page, pages numbered from 1. */
module Pagination {

  const BikesPerPage: nat := 9

  /** How `Array.prototype.slice` reads an index: negative counts from the end, then clamp to `[0, len]`. */
  function SliceIndex(i: int, len: nat): (r: nat)
    ensures r <= len
  {
    if i < 0 then (if len + i < 0 then 0 else len + i)
    else if i > len then len
    else i
  }

  /** `s.slice(start, end)`. */
  function Slice<T>(s: seq<T>, start: int, end: int): seq<T> {
    var a := SliceIndex(start, |s|);
    var b := SliceIndex(end, |s|);
    if a < b then s[a..b] else []
  }

  /**
   * What `slice` returns: for non-negative bounds, the elements between them
   * clipped to the length; a negative start counts from the end, and one
   * reaching before the front starts at the front.
   */
  lemma SliceMeaning<T>(s: seq<T>, start: int, end: int)
    ensures 0 <= start <= end ==> Slice(s, start, end) == s[Min(start, |s|)..Min(end, |s|)]
    ensures 0 <= end <= start ==> Slice(s, start, end) == []
    ensures 0 < -start <= |s| ==> Slice(s, start, |s|) == s[|s| + start..]
    ensures -start > |s| ==> Slice(s, start, end) == Slice(s, 0, end)
  {
  }

  function Min(a: int, b: int): int {
    if a < b then a else b
  }

  /** The motorbikes `MotorbikeList` shows on `page`: `filteredBikes.slice(first, last)`. */
  function CurrentPage<T>(s: seq<T>, page: int): (r: seq<T>)
    ensures |r| <= BikesPerPage
    ensures page >= 1 ==>
      r == s[Min((page - 1) * BikesPerPage, |s|)..Min(page * BikesPerPage, |s|)]
  {
    Slice(s, page * BikesPerPage - BikesPerPage, page * BikesPerPage)
  }

  /** `Math.ceil(n / 9)`: the least number of pages that hold `n` motorbikes. */
  function PageCount(n: nat): (r: nat)
    ensures r * BikesPerPage >= n
    ensures r == 0 || (r - 1) * BikesPerPage < n
  {
    (n + BikesPerPage - 1) / BikesPerPage
  }

  /** Pages 1 to `PageCount` each show at least one motorbike; later pages show none. */
  lemma PagesNonEmpty<T>(s: seq<T>, page: int)
    requires page >= 1
    ensures page <= PageCount(|s|) <==> |CurrentPage(s, page)| > 0
  {
  }

  /** Pages 1..k, concatenated. */
  function PagesUpTo<T>(s: seq<T>, k: nat): seq<T> {
    if k == 0 then [] else PagesUpTo(s, k - 1) + CurrentPage(s, k)
  }

  lemma {:induction false} PagesUpToPrefix<T>(s: seq<T>, k: nat)
    ensures PagesUpTo(s, k) == s[..Min(k * BikesPerPage, |s|)]
  {
    if k > 0 {
      PagesUpToPrefix(s, k - 1);
      var a := Min((k - 1) * BikesPerPage, |s|);
      var b := Min(k * BikesPerPage, |s|);
      assert s[..a] + s[a..b] == s[..b];
    }
  }

  /** Concatenating pages 1..PageCount gives back the whole list. */
  lemma {:induction false} PagesCover<T>(s: seq<T>)
    ensures PagesUpTo(s, PageCount(|s|)) == s
  {
    PagesUpToPrefix(s, PageCount(|s|));
  }
}

/**
 * The state of the catalogue page as far as filtering and paging go, and the
 * effect that recomputes the filtered list whenever a control changes.
 */
module Catalogue {
  import opened Bikes
  import opened Text
  import Seqs
  import Filters
  import Pagination

  datatype View = View(motorbikes: seq<Bike>, searchTerm: string, selectedBrands: seq<string>,
                       priceRange: string, filtered: seq<Bike>, page: int)

  /** After the fetch: every control at its default, everything shown, page 1. */
  function Loaded(data: seq<Bike>): View {
    View(data, "", [], "all", data, 1)
  }

  /** The motorbikes on the current page. */
  function Shown(v: View): seq<Bike> {
    Pagination.CurrentPage(v.filtered, v.page)
  }

  /** The filter effect of `MotorbikeList`: recompute the filtered list and go back to page 1. */
  function Refilter(v: View): (r: View)
    ensures r.motorbikes == v.motorbikes && r.searchTerm == v.searchTerm
    ensures r.selectedBrands == v.selectedBrands && r.priceRange == v.priceRange
    ensures r.page == 1
    ensures Seqs.IsSubsequence(r.filtered, v.motorbikes)
    ensures forall b :: b in r.filtered <==>
      b in v.motorbikes && Filters.Keep(b, v.searchTerm, v.selectedBrands, v.priceRange)
    ensures forall b ::
      multiset(r.filtered)[b] == if Filters.Keep(b, v.searchTerm, v.selectedBrands, v.priceRange) then multiset(v.motorbikes)[b] else 0
    ensures Shown(r) == r.filtered[..Pagination.Min(Pagination.BikesPerPage, |r.filtered|)]
  {
    Filters.ApplyFiltersSpec(v.motorbikes, v.searchTerm, v.selectedBrands, v.priceRange);
    v.(filtered := Filters.ApplyFilters(v.motorbikes, v.searchTerm, v.selectedBrands, v.priceRange),
       page := 1)
  }

  /** The search field's `onChange`: a new term, then the filter effect. */
  function SetSearchTerm(v: View, term: string): (r: View)
    ensures r.motorbikes == v.motorbikes && r.searchTerm == term
    ensures r.selectedBrands == v.selectedBrands && r.priceRange == v.priceRange
    ensures r.page == 1
    ensures Seqs.IsSubsequence(r.filtered, v.motorbikes)
    ensures forall b :: b in r.filtered <==>
      b in v.motorbikes && Filters.Keep(b, term, v.selectedBrands, v.priceRange)
    ensures forall b ::
      multiset(r.filtered)[b] == if Filters.Keep(b, term, v.selectedBrands, v.priceRange) then multiset(v.motorbikes)[b] else 0
  {
    Refilter(v.(searchTerm := term))
  }

  /** A new brand selection, then the filter effect. */
  function SetSelectedBrands(v: View, selected: seq<string>): (r: View)
    ensures r.motorbikes == v.motorbikes && r.searchTerm == v.searchTerm
    ensures r.selectedBrands == selected && r.priceRange == v.priceRange
    ensures r.page == 1
    ensures Seqs.IsSubsequence(r.filtered, v.motorbikes)
    ensures forall b :: b in r.filtered <==>
      b in v.motorbikes && Filters.Keep(b, v.searchTerm, selected, v.priceRange)
    ensures forall b ::
      multiset(r.filtered)[b] == if Filters.Keep(b, v.searchTerm, selected, v.priceRange) then multiset(v.motorbikes)[b] else 0
  {
    Refilter(v.(selectedBrands := selected))
  }

  /** The brand menu's value: a list of brands, or one comma-joined string. */
  datatype SelectValue = Joined(text: string) | Chosen(items: seq<string>)

  /** `handleBrandChange`: a string value is split on commas, a list is taken as it is. */
  function BrandChange(v: View, value: SelectValue): (r: View)
    ensures value.Chosen? ==> r == SetSelectedBrands(v, value.items)
    ensures value.Joined? ==> |r.selectedBrands| >= 1 && Join(r.selectedBrands, ',') == value.text
    ensures value.Joined? ==> forall k :: 0 <= k < |r.selectedBrands| ==> ',' !in r.selectedBrands[k]
    ensures value.Joined? ==> r == SetSelectedBrands(v, r.selectedBrands)
    ensures r.page == 1
  {
    match value
    case Joined(text) =>
      JoinSplit(text, ',');
      SetSelectedBrands(v, Split(text, ','))
    case Chosen(items) => SetSelectedBrands(v, items)
  }

  /** A string naming a single brand selects exactly that brand. */
  lemma BrandChangeSingle(v: View, brand: string)
    requires ',' !in brand
    ensures BrandChange(v, Joined(brand)).selectedBrands == [brand]
  {
    SplitNone(brand, ',');
  }

  /** The price menu's `onChange`: a new option, then the filter effect. */
  function SetPriceRange(v: View, range: string): (r: View)
    ensures r.motorbikes == v.motorbikes && r.searchTerm == v.searchTerm
    ensures r.selectedBrands == v.selectedBrands && r.priceRange == range
    ensures r.page == 1
    ensures Seqs.IsSubsequence(r.filtered, v.motorbikes)
    ensures forall b :: b in r.filtered <==>
      b in v.motorbikes && Filters.Keep(b, v.searchTerm, v.selectedBrands, range)
    ensures forall b ::
      multiset(r.filtered)[b] == if Filters.Keep(b, v.searchTerm, v.selectedBrands, range) then multiset(v.motorbikes)[b] else 0
  {
    Refilter(v.(priceRange := range))
  }

  /** `handlePageChange`: the list and the controls are kept, only the page moves. */
  function ChangePage(v: View, page: int): (r: View)
    ensures r.motorbikes == v.motorbikes && r.searchTerm == v.searchTerm
    ensures r.selectedBrands == v.selectedBrands && r.priceRange == v.priceRange
    ensures r.filtered == v.filtered
    ensures r.page == page
    ensures page >= 1 ==>
      Shown(r) == v.filtered[Pagination.Min((page - 1) * Pagination.BikesPerPage, |v.filtered|)..
                             Pagination.Min(page * Pagination.BikesPerPage, |v.filtered|)]
  {
    v.(page := page)
  }

  /**
   * Changing a control forgets the page the user had moved to: the result is
   * the same as changing the control without having paged at all.
   */
  lemma ControlChangeForgetsPage(v: View, page: int, term: string, selected: seq<string>, range: string)
    ensures SetSearchTerm(ChangePage(v, page), term) == SetSearchTerm(v, term)
    ensures SetSelectedBrands(ChangePage(v, page), selected) == SetSelectedBrands(v, selected)
    ensures SetPriceRange(ChangePage(v, page), range) == SetPriceRange(v, range)
  {
  }

  /** Setting a control to the value it already has recomputes nothing new. */
  lemma ControlChangeIdempotent(v: View, term: string)
    ensures SetSearchTerm(SetSearchTerm(v, term), term) == SetSearchTerm(v, term)
  {
  }

  /** The state after the fetch is the state the filter effect computes from it. */
  lemma LoadedIsRefiltered(data: seq<Bike>)
    ensures Refilter(Loaded(data)) == Loaded(data)
  {
    Filters.DefaultFiltersKeepAll(data);
  }
}
