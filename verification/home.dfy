/**
 * The featured motorbikes of the home page: for each brand of a fixed list,
 * the first motorbike of that brand in the fetched data, brands without a
 * motorbike dropped.
 */
module Featured {
  import opened Wrappers
  import opened Bikes
  import Seqs
  import BrandList

  const FeaturedBrands: seq<string> := ["Honda", "Yamaha", "Kawasaki", "Ducati", "BMW", "Harley Davidson"]

  /** Some motorbike of the data has this brand. */
  ghost predicate HasBrand(data: seq<Bike>, brand: string) {
    exists i :: 0 <= i < |data| && data[i].brand == brand
  }

  function OfBrand(brand: string): Bike -> bool {
    (bike: Bike) => bike.brand == brand
  }

  /** `brandBikes.length > 0 ? brandBikes[0] : null` with `brandBikes = data.filter(bike => bike.brand === brand)`. */
  function FirstOfBrand(data: seq<Bike>, brand: string): (r: Option<Bike>)
    ensures r.None? <==> !HasBrand(data, brand)
    ensures r.Some? ==> exists i :: 0 <= i < |data| && data[i] == r.value && data[i].brand == brand &&
                                    forall j :: 0 <= j < i ==> data[j].brand != brand
  {
    var matching := Seqs.Filter(data, OfBrand(brand));
    FirstOfBrandLemma(data, brand);
    if |matching| > 0 then Some(matching[0]) else None
  }

  lemma FirstOfBrandLemma(data: seq<Bike>, brand: string)
    ensures var m := Seqs.Filter(data, OfBrand(brand));
      (|m| == 0 <==> !HasBrand(data, brand)) &&
      (|m| > 0 ==> exists i :: 0 <= i < |data| && data[i] == m[0] && data[i].brand == brand &&
                             forall j :: 0 <= j < i ==> data[j].brand != brand)
  {
    var p := OfBrand(brand);
    var m := Seqs.Filter(data, p);
    Seqs.FilterSpec(data, p);
    if |m| > 0 {
      assert m[0] in m;
      var i :| 0 <= i < |data| && data[i] == m[0];
      assert data[i].brand == brand;
    }
    if HasBrand(data, brand) {
      var k :| 0 <= k < |data| && data[k].brand == brand;
      var i := FirstIndexOf(data, brand, k);
      Seqs.FilterHead(data, p, i);
    }
  }

  /** The first position holding the brand, given that position `k` holds it. */
  lemma {:induction false} FirstIndexOf(data: seq<Bike>, brand: string, k: int) returns (i: int)
    requires 0 <= k < |data| && data[k].brand == brand
    ensures 0 <= i <= k && data[i].brand == brand
    ensures forall j :: 0 <= j < i ==> data[j].brand != brand
  {
    i := 0;
    while data[i].brand != brand
      invariant 0 <= i <= k
      invariant forall j :: 0 <= j < i ==> data[j].brand != brand
      decreases k - i
    {
      i := i + 1;
    }
  }

  /** What one listed brand contributes: its first motorbike, or nothing (the `null` the filter drops). */
  function HeadPick(data: seq<Bike>, brand: string): (r: seq<Bike>)
    ensures |r| <= 1
    ensures |r| == 0 <==> !HasBrand(data, brand)
    ensures forall k :: 0 <= k < |r| ==> FirstOfBrand(data, brand) == Some(r[k]) && r[k] in data && r[k].brand == brand
  {
    match FirstOfBrand(data, brand)
    case Some(b) => [b]
    case None => []
  }

  /** `brands.map(firstOfBrand).filter(bike => bike !== null)`. */
  function FeaturedFor(data: seq<Bike>, brands: seq<string>): (r: seq<Bike>)
    ensures |r| <= |brands|
    ensures forall k :: 0 <= k < |r| ==> r[k] in data && r[k].brand in brands
    ensures forall k :: 0 <= k < |r| ==> FirstOfBrand(data, r[k].brand) == Some(r[k])
  {
    if |brands| == 0 then []
    else
      var h := HeadPick(data, brands[0]);
      var rest := FeaturedFor(data, brands[1..]);
      h + rest
  }

  /** The home page's selection. */
  function FeaturedBikes(data: seq<Bike>): seq<Bike> {
    FeaturedFor(data, FeaturedBrands)
  }

  /** The brands of a list of motorbikes, in order. */
  function BrandsOf(bikes: seq<Bike>): seq<string> {
    Seqs.Map(bikes, BrandList.BrandOf)
  }

  /** The featured motorbikes' brands follow the order of the brand list. */
  lemma {:induction false} FeaturedOrder(data: seq<Bike>, brands: seq<string>)
    ensures Seqs.IsSubsequence(BrandsOf(FeaturedFor(data, brands)), brands)
  {
    if |brands| > 0 {
      FeaturedOrder(data, brands[1..]);
      var rest := FeaturedFor(data, brands[1..]);
      var h := HeadPick(data, brands[0]);
      if |h| == 1 {
        assert BrandsOf(h + rest)[0] == brands[0];
        assert BrandsOf(h + rest)[1..] == BrandsOf(rest);
      } else {
        assert h + rest == rest;
      }
    }
  }

  /** Each brand of the list is featured iff the data has a motorbike of that brand. */
  lemma FeaturedCoversBrands(data: seq<Bike>, brands: seq<string>, brand: string)
    requires brand in brands
    ensures HasBrand(data, brand) <==> exists k :: 0 <= k < |FeaturedFor(data, brands)| && FeaturedFor(data, brands)[k].brand == brand
  {
    var r := FeaturedFor(data, brands);
    if HasBrand(data, brand) {
      PresentBrandFeatured(data, brands, brand);
    }
    if exists k :: 0 <= k < |r| && r[k].brand == brand {
      var k :| 0 <= k < |r| && r[k].brand == brand;
      FeaturedHasBrand(data, brands, k);
    }
  }

  /** A listed brand the data has is featured. */
  lemma {:induction false} PresentBrandFeatured(data: seq<Bike>, brands: seq<string>, brand: string)
    requires brand in brands && HasBrand(data, brand)
    ensures exists k :: 0 <= k < |FeaturedFor(data, brands)| && FeaturedFor(data, brands)[k].brand == brand
  {
    if brands[0] == brand {
      HeadBrandCovered(data, brands);
    } else {
      assert brand in brands[1..] by {
        var i :| 0 <= i < |brands| && brands[i] == brand;
        assert brands[1..][i - 1] == brand;
      }
      PresentBrandFeatured(data, brands[1..], brand);
      TailBrandCovered(data, brands, brand);
    }
  }

  /** The first listed brand, when the data has it, is featured first. */
  lemma HeadBrandCovered(data: seq<Bike>, brands: seq<string>)
    requires |brands| > 0 && HasBrand(data, brands[0])
    ensures |FeaturedFor(data, brands)| > 0 && FeaturedFor(data, brands)[0].brand == brands[0]
  {
    var h := HeadPick(data, brands[0]);
    assert (h + FeaturedFor(data, brands[1..]))[0] == h[0];
  }

  /** A brand featured by the tail of the list is featured by the whole list. */
  lemma TailBrandCovered(data: seq<Bike>, brands: seq<string>, brand: string)
    requires |brands| > 0
    requires exists k :: 0 <= k < |FeaturedFor(data, brands[1..])| && FeaturedFor(data, brands[1..])[k].brand == brand
    ensures exists k :: 0 <= k < |FeaturedFor(data, brands)| && FeaturedFor(data, brands)[k].brand == brand
  {
    var rest := FeaturedFor(data, brands[1..]);
    var k :| 0 <= k < |rest| && rest[k].brand == brand;
    var h := HeadPick(data, brands[0]);
    FeaturedForCons(data, brands);
    assert FeaturedFor(data, brands)[|h| + k] == rest[k];
  }

  lemma FeaturedForCons(data: seq<Bike>, brands: seq<string>)
    requires |brands| > 0
    ensures FeaturedFor(data, brands) == HeadPick(data, brands[0]) + FeaturedFor(data, brands[1..])
  {
  }

  /** A featured motorbike witnesses that the data has its brand. */
  lemma FeaturedHasBrand(data: seq<Bike>, brands: seq<string>, k: int)
    requires 0 <= k < |FeaturedFor(data, brands)|
    ensures HasBrand(data, FeaturedFor(data, brands)[k].brand)
  {
    var b := FeaturedFor(data, brands)[k];
    assert b in data;
    var i :| 0 <= i < |data| && data[i] == b;
  }

  lemma FeaturedBrandsDistinct()
    ensures Seqs.Distinct(FeaturedBrands)
  {
    assert forall i, j :: 0 <= i < j < |FeaturedBrands| ==>
      FeaturedBrands[i][0] != FeaturedBrands[j][0] || |FeaturedBrands[i]| != |FeaturedBrands[j]|;
  }

  /** With a list of distinct brands, no brand is featured twice. */
  lemma {:induction false} FeaturedDistinctBrands(data: seq<Bike>, brands: seq<string>)
    requires Seqs.Distinct(brands)
    ensures Seqs.Distinct(BrandsOf(FeaturedFor(data, brands)))
  {
    FeaturedOrder(data, brands);
    Seqs.SubsequenceDistinct(BrandsOf(FeaturedFor(data, brands)), brands);
  }

  /**
   * The home page shows at most six motorbikes, at most one per brand, in the
   * order Honda, Yamaha, Kawasaki, Ducati, BMW, Harley Davidson, each one from
   * the data and of a listed brand.
   */
  lemma {:induction false} FeaturedBikesShape(data: seq<Bike>)
    ensures var r := FeaturedBikes(data);
      |r| <= 6 &&
      Seqs.Distinct(BrandsOf(r)) &&
      Seqs.IsSubsequence(BrandsOf(r), FeaturedBrands) &&
      (forall k :: 0 <= k < |r| ==> r[k] in data && r[k].brand in FeaturedBrands)
  {
    FeaturedBrandsDistinct();
    FeaturedDistinctBrands(data, FeaturedBrands);
    FeaturedOrder(data, FeaturedBrands);
  }

  /**
   * Each listed brand with a motorbike in the data is featured, by the first
   * motorbike of that brand; a listed brand without one contributes nothing.
   */
  lemma FeaturedBikesCover(data: seq<Bike>, brand: string)
    requires brand in FeaturedBrands
    ensures var r := FeaturedBikes(data);
      (HasBrand(data, brand) <==> exists k :: 0 <= k < |r| && r[k].brand == brand) &&
      (forall k :: 0 <= k < |r| && r[k].brand == brand ==> FirstOfBrand(data, brand) == Some(r[k]))
  {
    var r := FeaturedBikes(data);
    assert r == FeaturedFor(data, FeaturedBrands);
    FeaturedCoversBrands(data, FeaturedBrands, brand);
    assert forall k :: 0 <= k < |r| ==> FirstOfBrand(data, r[k].brand) == Some(r[k]);
  }
}
