/**
 * The public hotel list and the city list. The hotel list narrows all hotels
 * by optional query parameters, one `.filter(...)` per parameter present,
 * and then orders them by the chosen `sort_by` key; with no recognised key
 * the model's default ordering (newest first) stays in force.
 */
module HotelSearch {
  import opened Wrappers
  import opened Text
  import opened Querysets
  import opened Models

  /**
   * The query string. A numeric parameter that is absent or empty is None;
   * an absent search term is the empty string, which `if search:` skips.
   */
  datatype HotelQuery = HotelQuery(
    country: Option<nat>, city: Option<nat>, stars: Option<int>,
    minPrice: Option<int>, maxPrice: Option<int>, search: string, sortBy: string)

  const NoQuery := HotelQuery(None, None, None, None, None, "", "")

  datatype SortOrder = PriceAsc | PriceDesc | StarsAsc | StarsDesc | RatingDesc | DefaultOrder

  function SortOrderOf(sortBy: string): (o: SortOrder)
    ensures o == DefaultOrder <==>
              sortBy !in {"price_asc", "price_desc", "stars_asc", "stars_desc", "rating_desc"}
  {
    if sortBy == "price_asc" then PriceAsc
    else if sortBy == "price_desc" then PriceDesc
    else if sortBy == "stars_asc" then StarsAsc
    else if sortBy == "stars_desc" then StarsDesc
    else if sortBy == "rating_desc" then RatingDesc
    else DefaultOrder
  }

  /** The name of the hotel's city, following the nullable foreign key; None for no city. */
  function CityName(cities: seq<City>, cityId: Option<nat>): (n: Option<string>)
    ensures n.Some? ==> cityId.Some? && exists c :: c in cities && c.id == cityId.value && c.name == n.value
    ensures cityId.None? ==> n.None?
    ensures cityId.Some? && (exists c :: c in cities && c.id == cityId.value) ==> n.Some?
  {
    if cityId.None? || cities == [] then None
    else if cities[0].id == cityId.value then Some(cities[0].name)
    else CityName(cities[1..], cityId)
  }

  /** `Q(name__icontains) | Q(description__icontains) | Q(city__name__iexact)`. */
  predicate SearchHit(cities: seq<City>, h: Hotel, term: string)
  {
    IContains(h.name, term) || IContains(h.description, term)
    || (var n := CityName(cities, h.cityId); n.Some? && IExact(n.value, term))
  }

  /** The condition each query parameter imposes; an absent parameter imposes none. */
  predicate CountryOk(q: HotelQuery, h: Hotel) { q.country.Some? ==> h.countryId == q.country.value }
  predicate CityOk(q: HotelQuery, h: Hotel) { q.city.Some? ==> h.cityId == Some(q.city.value) }
  predicate StarsOk(q: HotelQuery, h: Hotel) { q.stars.Some? ==> h.stars == q.stars.value }
  predicate MinPriceOk(q: HotelQuery, h: Hotel) { q.minPrice.Some? ==> q.minPrice.value <= h.pricePerNight }
  predicate MaxPriceOk(q: HotelQuery, h: Hotel) { q.maxPrice.Some? ==> h.pricePerNight <= q.maxPrice.value }
  predicate SearchOk(q: HotelQuery, cities: seq<City>, h: Hotel) { q.search != "" ==> SearchHit(cities, h, q.search) }

  /** The conjunction of every condition the query imposes. */
  predicate Matches(q: HotelQuery, cities: seq<City>, h: Hotel)
  {
    CountryOk(q, h) && CityOk(q, h) && StarsOk(q, h) && MinPriceOk(q, h) && MaxPriceOk(q, h)
    && SearchOk(q, cities, h)
  }

  /** The order `order_by` imposes for each key; `RatingDesc` puts NULL averages last. */
  predicate HotelBefore(order: SortOrder, reviews: seq<Review>, a: Hotel, b: Hotel)
  {
    match order
    case PriceAsc => a.pricePerNight <= b.pricePerNight
    case PriceDesc => a.pricePerNight >= b.pricePerNight
    case StarsAsc => a.stars <= b.stars
    case StarsDesc => a.stars >= b.stars
    case DefaultOrder => a.createdAt >= b.createdAt
    case RatingDesc =>
      var ma, mb := MeanRating(reviews, a.id), MeanRating(reviews, b.id);
      if ma.Some? && mb.Some? then
        ma.value > mb.value || (ma.value == mb.value && NameLeq(a.name, b.name))
      else if ma.Some? then true
      else if mb.Some? then false
      else NameLeq(a.name, b.name)
  }

  function Before(order: SortOrder, reviews: seq<Review>): (Hotel, Hotel) -> bool
  {
    (a: Hotel, b: Hotel) => HotelBefore(order, reviews, a, b)
  }

  /** Each sort key is a total preorder, so the database can order by it. */
  lemma HotelBeforeTotalPreorder(order: SortOrder, reviews: seq<Review>)
    ensures TotalPreorder(Before(order, reviews))
  {
    var leq := Before(order, reviews);
    forall a, b ensures leq(a, b) || leq(b, a) {
      NameLeqTotal(a.name, b.name);
    }
    forall a, b, c | leq(a, b) && leq(b, c) ensures leq(a, c) {
      if order == RatingDesc {
        if NameLeq(a.name, b.name) && NameLeq(b.name, c.name) {
          NameLeqTransitive(a.name, b.name, c.name);
        }
      }
    }
  }

  /** What ordering by `Before(order, reviews)` means for each sort key. */
  lemma SortedByMeaning(order: SortOrder, reviews: seq<Review>, t: seq<Hotel>, s: seq<Hotel>)
    requires s == SortBy(t, Before(order, reviews))
    ensures multiset(s) == multiset(t)
    ensures order == PriceAsc ==>
              forall i, j :: 0 <= i < j < |s| ==> s[i].pricePerNight <= s[j].pricePerNight
    ensures order == PriceDesc ==>
              forall i, j :: 0 <= i < j < |s| ==> s[i].pricePerNight >= s[j].pricePerNight
    ensures order == StarsAsc ==>
              forall i, j :: 0 <= i < j < |s| ==> s[i].stars <= s[j].stars
    ensures order == StarsDesc ==>
              forall i, j :: 0 <= i < j < |s| ==> s[i].stars >= s[j].stars
    ensures order == RatingDesc ==>
              forall i, j :: 0 <= i < j < |s| ==> RatedBefore(reviews, s[i], s[j])
    ensures order == DefaultOrder ==>
              forall i, j :: 0 <= i < j < |s| ==> s[i].createdAt >= s[j].createdAt
  {
    HotelBeforeTotalPreorder(order, reviews);
    forall i, j | 0 <= i < j < |s| ensures HotelBefore(order, reviews, s[i], s[j]) {
      assert Before(order, reviews)(s[i], s[j]);
    }
  }

  /**
   * Between two reviewed hotels: higher average first, equal averages by name.
   * (Where hotels without reviews go depends on the database's NULL ordering.)
   */
  predicate RatedBefore(reviews: seq<Review>, a: Hotel, b: Hotel)
  {
    var ma, mb := MeanRating(reviews, a.id), MeanRating(reviews, b.id);
    ma.Some? && mb.Some? ==> ma.value > mb.value || (ma.value == mb.value && NameLeq(a.name, b.name))
  }

  /** The query's conditions as a `.filter` argument. */
  function MatchesOf(q: HotelQuery, cities: seq<City>): Hotel -> bool
  {
    (h: Hotel) => Matches(q, cities, h)
  }

  /**
   * The filtering half of `HotelListView.get_queryset`: one `.filter` per
   * parameter present, which together keep exactly the hotels matching the
   * whole query, in their original order.
   */
  method NarrowHotels(hotels: seq<Hotel>, cities: seq<City>, q: HotelQuery) returns (queryset: seq<Hotel>)
    ensures queryset == Filter(hotels, MatchesOf(q, cities))
  {
    var p0 := (h: Hotel) => true;
    var p1 := (h: Hotel) => CountryOk(q, h);
    var p2 := (h: Hotel) => CountryOk(q, h) && CityOk(q, h);
    var p3 := (h: Hotel) => CountryOk(q, h) && CityOk(q, h) && StarsOk(q, h);
    var p4 := (h: Hotel) => CountryOk(q, h) && CityOk(q, h) && StarsOk(q, h) && MinPriceOk(q, h);
    var p5 := (h: Hotel) => CountryOk(q, h) && CityOk(q, h) && StarsOk(q, h) && MinPriceOk(q, h)
                            && MaxPriceOk(q, h);
    var kCountry := (h: Hotel) => CountryOk(q, h);
    var kCity := (h: Hotel) => CityOk(q, h);
    var kStars := (h: Hotel) => StarsOk(q, h);
    var kMin := (h: Hotel) => MinPriceOk(q, h);
    var kMax := (h: Hotel) => MaxPriceOk(q, h);
    var kSearch := (h: Hotel) => SearchOk(q, cities, h);
    FilterAll(hotels, p0);
    queryset := hotels;
    FilterWhenAfterFilter(hotels, p0, q.country.Some?, kCountry, p1);
    queryset := FilterWhen(queryset, q.country.Some?, kCountry);
    FilterWhenAfterFilter(hotels, p1, q.city.Some?, kCity, p2);
    queryset := FilterWhen(queryset, q.city.Some?, kCity);
    FilterWhenAfterFilter(hotels, p2, q.stars.Some?, kStars, p3);
    queryset := FilterWhen(queryset, q.stars.Some?, kStars);
    FilterWhenAfterFilter(hotels, p3, q.minPrice.Some?, kMin, p4);
    queryset := FilterWhen(queryset, q.minPrice.Some?, kMin);
    FilterWhenAfterFilter(hotels, p4, q.maxPrice.Some?, kMax, p5);
    queryset := FilterWhen(queryset, q.maxPrice.Some?, kMax);
    FilterWhenAfterFilter(hotels, p5, q.search != "", kSearch, MatchesOf(q, cities));
    queryset := FilterWhen(queryset, q.search != "", kSearch);
  }

  /** The ordering half of `HotelListView.get_queryset`: `order_by` for a recognised `sort_by`. */
  method OrderHotels(queryset: seq<Hotel>, reviews: seq<Review>, sortBy: string) returns (result: seq<Hotel>)
    ensures multiset(result) == multiset(queryset)
    ensures sortBy == "price_asc" ==>
              forall i, j :: 0 <= i < j < |result| ==> result[i].pricePerNight <= result[j].pricePerNight
    ensures sortBy == "price_desc" ==>
              forall i, j :: 0 <= i < j < |result| ==> result[i].pricePerNight >= result[j].pricePerNight
    ensures sortBy == "stars_asc" ==>
              forall i, j :: 0 <= i < j < |result| ==> result[i].stars <= result[j].stars
    ensures sortBy == "stars_desc" ==>
              forall i, j :: 0 <= i < j < |result| ==> result[i].stars >= result[j].stars
    ensures sortBy == "rating_desc" ==>
              forall i, j :: 0 <= i < j < |result| ==> RatedBefore(reviews, result[i], result[j])
    ensures SortOrderOf(sortBy) == DefaultOrder ==>
              forall i, j :: 0 <= i < j < |result| ==> result[i].createdAt >= result[j].createdAt
  {
    var order := SortOrderOf(sortBy);
    result := SortBy(queryset, Before(order, reviews));
    SortedByMeaning(order, reviews, queryset, result);
  }

  /** `HotelListView.get_queryset`: the hotels the query selects, in the order it asks for. */
  method ListHotels(hotels: seq<Hotel>, cities: seq<City>, reviews: seq<Review>, q: HotelQuery)
    returns (result: seq<Hotel>)
    ensures forall h :: multiset(result)[h] == if Matches(q, cities, h) then multiset(hotels)[h] else 0
    ensures forall h :: h in result <==> h in hotels && Matches(q, cities, h)
    ensures q.sortBy == "price_asc" ==>
              forall i, j :: 0 <= i < j < |result| ==> result[i].pricePerNight <= result[j].pricePerNight
    ensures q.sortBy == "price_desc" ==>
              forall i, j :: 0 <= i < j < |result| ==> result[i].pricePerNight >= result[j].pricePerNight
    ensures q.sortBy == "stars_asc" ==>
              forall i, j :: 0 <= i < j < |result| ==> result[i].stars <= result[j].stars
    ensures q.sortBy == "stars_desc" ==>
              forall i, j :: 0 <= i < j < |result| ==> result[i].stars >= result[j].stars
    ensures q.sortBy == "rating_desc" ==>
              forall i, j :: 0 <= i < j < |result| ==> RatedBefore(reviews, result[i], result[j])
    ensures SortOrderOf(q.sortBy) == DefaultOrder ==>
              forall i, j :: 0 <= i < j < |result| ==> result[i].createdAt >= result[j].createdAt
  {
    var queryset := NarrowHotels(hotels, cities, q);
    result := OrderHotels(queryset, reviews, q.sortBy);
  }

  /** With no parameters every hotel is listed. */
  lemma NoQueryKeepsAll(cities: seq<City>, h: Hotel)
    ensures Matches(NoQuery, cities, h)
  {
  }

  /** Adding a parameter can only narrow the result. */
  lemma MorePartsNarrow(q: HotelQuery, q': HotelQuery, cities: seq<City>, h: Hotel)
    requires q.country.Some? ==> q'.country == q.country
    requires q.city.Some? ==> q'.city == q.city
    requires q.stars.Some? ==> q'.stars == q.stars
    requires q.minPrice.Some? ==> q'.minPrice == q.minPrice
    requires q.maxPrice.Some? ==> q'.maxPrice == q.maxPrice
    requires q.search != "" ==> q'.search == q.search
    requires Matches(q', cities, h)
    ensures Matches(q, cities, h)
  {
  }

  /** The `ordering = ['name']` of countries and cities. */
  function ByName<T>(name: T -> string): (T, T) -> bool
  {
    (a: T, b: T) => NameLeq(name(a), name(b))
  }

  lemma ByNameTotalPreorder<T(!new)>(name: T -> string)
    ensures TotalPreorder(ByName(name))
  {
    var leq := ByName(name);
    forall a, b ensures leq(a, b) || leq(b, a) { NameLeqTotal(name(a), name(b)); }
    forall a, b, c | leq(a, b) && leq(b, c) ensures leq(a, c) {
      NameLeqTransitive(name(a), name(b), name(c));
    }
  }

  /** `CountryListView`: every country, by name. */
  function ListCountries(countries: seq<Country>): (r: seq<Country>)
    ensures multiset(r) == multiset(countries)
    ensures forall i, j :: 0 <= i < j < |r| ==> NameLeq(r[i].name, r[j].name)
  {
    var name := (c: Country) => c.name;
    ByNameTotalPreorder(name);
    var r := SortBy(countries, ByName(name));
    assert forall i, j :: 0 <= i < j < |r| ==> ByName(name)(r[i], r[j]);
    r
  }

  /** `CityListView.get_queryset`: the cities of one country when asked, by name. */
  function ListCities(cities: seq<City>, country: Option<nat>): (r: seq<City>)
    ensures forall c :: multiset(r)[c] ==
              if country.None? || c.countryId == country.value then multiset(cities)[c] else 0
    ensures forall i, j :: 0 <= i < j < |r| ==> NameLeq(r[i].name, r[j].name)
  {
    var queryset := if country.Some? then Filter(cities, (c: City) => c.countryId == country.value) else cities;
    var name := (c: City) => c.name;
    ByNameTotalPreorder(name);
    var r := SortBy(queryset, ByName(name));
    assert forall i, j :: 0 <= i < j < |r| ==> ByName(name)(r[i], r[j]);
    r
  }

  // A worked example: hotel A (150.00, four stars, in Rome) and
  // hotel B (90.00, five stars, in Paris).
  const ExampleCities := [City(1, "Rome", 1), City(2, "Paris", 2)]
  const HotelA := Hotel(1, "Albergo", "Old town", 1, Some(1), 4, "Via 1", 15000, 10)
  const HotelB := Hotel(2, "Lux", "Spa", 2, Some(2), 5, "Rue 2", 9000, 20)

  /** `min_price=100` keeps A and drops B. */
  lemma ExampleMinPrice()
    ensures Matches(NoQuery.(minPrice := Some(10000)), ExampleCities, HotelA)
    ensures !Matches(NoQuery.(minPrice := Some(10000)), ExampleCities, HotelB)
  {
  }

  /** `search=Rome` keeps A, through its city, and drops B. */
  lemma ExampleSearch()
    ensures Matches(NoQuery.(search := "Rome"), ExampleCities, HotelA)
    ensures !Matches(NoQuery.(search := "Rome"), ExampleCities, HotelB)
  {
    assert CityName(ExampleCities, HotelA.cityId) == Some("Rome");
    assert CityName(ExampleCities, HotelB.cityId) == Some("Paris");
    assert |LowerStr("Paris")| != |LowerStr("Rome")|;
  }

  /** `sort_by=price_asc` lists B before A. */
  lemma ExampleSortByPrice()
    ensures SortBy([HotelA, HotelB], Before(PriceAsc, [])) == [HotelB, HotelA]
  {
    assert SortBy([HotelB], Before(PriceAsc, [])) == [HotelB];
  }
}
