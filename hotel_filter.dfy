/**
 * `HotelFilter`, a declarative filter set over the same query parameters as
 * the hotel list. No view uses it. It differs from the view in one place:
 * its search matches the city name by substring, where the view requires the
 * whole city name.
 */
module HotelFilterSet {
  import opened Wrappers
  import opened Text
  import opened Querysets
  import opened Models
  import opened HotelSearch

  /** `filter_search`'s condition: name, description or city name contains the value. */
  predicate FilterSearchHit(cities: seq<City>, h: Hotel, value: string)
  {
    IContains(h.name, value) || IContains(h.description, value)
    || (var n := CityName(cities, h.cityId); n.Some? && IContains(n.value, value))
  }

  /** `HotelFilter.filter_search`. */
  function FilterSearch(queryset: seq<Hotel>, cities: seq<City>, value: string): (r: seq<Hotel>)
    ensures forall h :: h in r <==> h in queryset && FilterSearchHit(cities, h, value)
    ensures IsSubsequence(r, queryset)
  {
    Filter(queryset, (h: Hotel) => FilterSearchHit(cities, h, value))
  }

  /**
   * The declared filters together: exact `country_id`, `city_id` and `stars`,
   * inclusive `gte`/`lte` bounds on the price, and `filter_search`. The
   * `search` form field strips surrounding whitespace, and a filter whose
   * value is then empty is skipped.
   */
  predicate FilterSetMatches(q: HotelQuery, cities: seq<City>, h: Hotel)
  {
    && (q.country.Some? ==> h.countryId == q.country.value)
    && (q.city.Some? ==> h.cityId == Some(q.city.value))
    && (q.stars.Some? ==> h.stars == q.stars.value)
    && (q.minPrice.Some? ==> h.pricePerNight >= q.minPrice.value)
    && (q.maxPrice.Some? ==> h.pricePerNight <= q.maxPrice.value)
    && (Strip(q.search) != "" ==> FilterSearchHit(cities, h, Strip(q.search)))
  }

  /** The filter set's queryset: the matching hotels, in their original order. */
  function ApplyHotelFilter(hotels: seq<Hotel>, cities: seq<City>, q: HotelQuery): (r: seq<Hotel>)
    ensures forall h :: multiset(r)[h] == if FilterSetMatches(q, cities, h) then multiset(hotels)[h] else 0
    ensures IsSubsequence(r, hotels)
    ensures forall h :: h in r ==>
              (q.minPrice.Some? ==> q.minPrice.value <= h.pricePerNight)
              && (q.maxPrice.Some? ==> h.pricePerNight <= q.maxPrice.value)
  {
    Filter(hotels, (h: Hotel) => FilterSetMatches(q, cities, h))
  }

  /** Whitespace around the search term is ignored. */
  lemma SearchPaddingIgnored(hotels: seq<Hotel>, cities: seq<City>, q: HotelQuery)
    ensures ApplyHotelFilter(hotels, cities, q.(search := Strip(q.search))) == ApplyHotelFilter(hotels, cities, q)
  {
    var q' := q.(search := Strip(q.search));
    StripIdempotent(q.search);
    forall h ensures FilterSetMatches(q', cities, h) == FilterSetMatches(q, cities, h) {
    }
    FilterExt(hotels, (h: Hotel) => FilterSetMatches(q', cities, h), (h: Hotel) => FilterSetMatches(q, cities, h));
  }

  /** An all-whitespace search term imposes no condition. */
  lemma BlankSearchSkipped(hotels: seq<Hotel>, cities: seq<City>, q: HotelQuery)
    requires AllSpace(q.search)
    ensures ApplyHotelFilter(hotels, cities, q) == ApplyHotelFilter(hotels, cities, q.(search := ""))
  {
    var q' := q.(search := "");
    StripBlank(q.search);
    StripUnpadded("");
    forall h ensures FilterSetMatches(q, cities, h) == FilterSetMatches(q', cities, h) {
    }
    FilterExt(hotels, (h: Hotel) => FilterSetMatches(q, cities, h), (h: Hotel) => FilterSetMatches(q', cities, h));
  }

  /** A hotel without a city can match the search only through its name or description. */
  lemma CitylessHotelSearch(cities: seq<City>, h: Hotel, value: string)
    requires h.cityId.None?
    ensures FilterSearchHit(cities, h, value) <==> IContains(h.name, value) || IContains(h.description, value)
  {
  }

  /** Every hotel the view's search keeps, the filter set's search keeps too. */
  lemma ViewSearchWithinFilterSearch(cities: seq<City>, h: Hotel, term: string)
    requires SearchHit(cities, h, term)
    ensures FilterSearchHit(cities, h, term)
  {
    var n := CityName(cities, h.cityId);
    if n.Some? && IExact(n.value, term) {
      IExactImpliesIContains(n.value, term);
    }
  }

  /** Dropping the whitespace around a term keeps a case-insensitive substring match. */
  lemma IContainsStripped(hay: string, term: string)
    requires IContains(hay, term)
    ensures IContains(hay, Strip(term))
  {
    var i := StripPadded(term);
    var r := Strip(term);
    var h, t := LowerStr(hay), LowerStr(term);
    var p :| 0 <= p <= |h| - |t| && OccursAt(h, t, p);
    assert LowerStr(r) == h[p + i..p + i + |r|] by {
      forall k | 0 <= k < |r| ensures LowerStr(r)[k] == h[p + i..p + i + |r|][k] {
        assert r[k] == term[i + k];
        assert t[i + k] == h[p..p + |t|][i + k];
      }
    }
    assert OccursAt(h, LowerStr(r), p + i);
  }

  /** The view's search term, raw, implies the filter set's, stripped. */
  lemma FilterSearchStripped(cities: seq<City>, h: Hotel, term: string)
    requires FilterSearchHit(cities, h, term)
    ensures FilterSearchHit(cities, h, Strip(term))
  {
    if IContains(h.name, term) {
      IContainsStripped(h.name, term);
    } else if IContains(h.description, term) {
      IContainsStripped(h.description, term);
    } else {
      IContainsStripped(CityName(cities, h.cityId).value, term);
    }
  }

  /** So every hotel the view lists, the filter set admits. */
  lemma ViewWithinFilterSet(q: HotelQuery, cities: seq<City>, h: Hotel)
    requires Matches(q, cities, h)
    ensures FilterSetMatches(q, cities, h)
  {
    if Strip(q.search) != "" {
      assert q.search != "";
      ViewSearchWithinFilterSearch(cities, h, q.search);
      FilterSearchStripped(cities, h, q.search);
    }
  }

  /** The converse fails: searching a part of a city name finds the hotel only through the filter set. */
  lemma FilterSetWiderThanView()
    ensures var cities := [City(1, "Rome", 1)];
            var h := Hotel(1, "Ab", "Cd", 1, Some(1), 3, "Via 2", 5000, 0);
            var q := NoQuery.(search := "Rom");
            FilterSetMatches(q, cities, h) && !Matches(q, cities, h)
  {
    var cities := [City(1, "Rome", 1)];
    StripUnpadded("Rom");
    assert CityName(cities, Some(1)) == Some("Rome");
    IContainsDoesNotImplyIExact();
    assert |LowerStr("Ab")| < |LowerStr("Rom")| && |LowerStr("Cd")| < |LowerStr("Rom")|;
  }
}
