/**
 * The API's write endpoints and per-user lists over an in-memory store.
 * Each table is a sequence of rows; every endpoint validates its request
 * against the current tables and then inserts or deletes at most one row.
 * The invariant `Valid` collects the constraints the schema declares and
 * the requests are checked against: one review per (hotel, user), one
 * favorite per (user, hotel), distinct usernames, normalized emails, bounded
 * ratings and guest counts, positive booking totals, existing hotels
 * behind every foreign key.
 */
module BookingApi {
  import opened Wrappers
  import opened Text
  import opened Querysets
  import opened Models
  import opened Serializers
  import opened Registration

  function ReviewId(r: Review): nat     { r.id }
  function FavoriteId(f: Favorite): nat { f.id }

  // ---------------------------------------------------------------------
  // Pure parts of the views

  /** `BookingCreateView.perform_create`: `price_per_night * nights`, with no guard on the sign of `nights`. */
  function BookingViewPrice(pricePerNight: int, checkIn: int, checkOut: int): (total: int)
    ensures checkIn < checkOut ==> total == StayPrice(pricePerNight, checkIn, checkOut)
    ensures checkIn == checkOut ==> total == 0
  {
    pricePerNight * (checkOut - checkIn)
  }

  /**
   * Unlike `calculate_total_price`, the view's formula goes negative for
   * reversed dates; the serializer's date-order check keeps such requests out.
   */
  lemma ViewPriceNegativeForReversedDates(pricePerNight: int, checkIn: int, checkOut: int)
    requires pricePerNight >= OneCent && checkOut < checkIn
    ensures BookingViewPrice(pricePerNight, checkIn, checkOut) < 0
    ensures StayPrice(pricePerNight, checkIn, checkOut) == 0
  {
    var n := checkIn - checkOut;
    assert pricePerNight * n == n + (pricePerNight - 1) * n;
    assert pricePerNight * (checkOut - checkIn) == -(pricePerNight * n);
  }

  /**
   * The four booking scenarios of the test suite, with `today` as day `t` and a
   * rate of 200.00; the accepted booking is priced by the view's formula.
   */
  lemma BookingTestScenarios(t: int)
    ensures ValidateBooking(BookingRequest(1, t + 1, t + 2, Some(2)), t).Ok?
    ensures BookingViewPrice(20000, t + 1, t + 2) == 20000
    ensures ValidateBooking(BookingRequest(1, t + 2, t + 1, Some(1)), t) == Err(CheckOutNotAfterCheckIn)
    ensures ValidateBooking(BookingRequest(1, t + 1, t + 1, Some(1)), t) == Err(CheckOutNotAfterCheckIn)
    ensures ValidateBooking(BookingRequest(1, t - 1, t + 1, Some(1)), t) == Err(CheckInInPast)
  {
  }

  /** On a validated request the view's price is the model's `calculate_total_price`, so `save` keeps it. */
  lemma ViewPriceAgreesAfterValidation(hotels: seq<Hotel>, data: BookingRequest, today: int)
    requires forall h :: h in hotels ==> ValidHotel(h)
    requires ValidateBookingRequest(hotels, data, today).Ok?
    ensures var rate := FindHotel(hotels, data.hotelId).value.pricePerNight;
            var total := BookingViewPrice(rate, data.checkIn, data.checkOut);
            total == StayPrice(rate, data.checkIn, data.checkOut) && total >= rate >= OneCent
            && SavedTotal(Some(total), total) == Some(total)
  {
    ValidatedBookingPrice(hotels, data, today);
    var h := FindHotel(hotels, data.hotelId).value;
    TotalPriceAtLeastOneNight(h.pricePerNight, data.checkIn, data.checkOut);
  }

  datatype FavoriteError = UnknownHotel | AlreadyFavorite

  /**
   * Adding a favorite: an unknown hotel id is refused by the serializer's
   * `hotel` primary-key field before `perform_create` runs (its own
   * `Hotel.objects.get` then always finds the row); the `exists()` check of
   * `perform_create` refuses a second favorite of the pair.
   */
  function CheckFavorite(hotels: seq<Hotel>, favorites: seq<Favorite>, userId: nat, hotelId: nat)
    : (r: Result<Hotel, FavoriteError>)
    ensures r.Ok? <==> FindHotel(hotels, hotelId).Some? && forall f :: f in favorites ==> FavoriteKey(f) != (userId, hotelId)
    ensures r.Ok? ==> r.value.id == hotelId && r.value in hotels
    ensures FindHotel(hotels, hotelId).None? ==> r == Err(UnknownHotel)
    ensures FindHotel(hotels, hotelId).Some? && r.Err? ==> r.error == AlreadyFavorite
  {
    match FindHotel(hotels, hotelId)
    case None => Err(UnknownHotel)
    case Some(h) =>
      if exists f :: f in favorites && FavoriteKey(f) == (userId, hotelId) then Err(AlreadyFavorite) else Ok(h)
  }

  /** Once the pair is in the table, a second favorite for it is refused. */
  lemma SecondFavoriteRejected(hotels: seq<Hotel>, favorites: seq<Favorite>, row: Favorite)
    ensures CheckFavorite(hotels, favorites + [row], row.userId, row.hotelId).Err?
  {
    assert row in favorites + [row];
  }

  /** `Booking.objects.filter(user=request.user)`. */
  function UserBookings(bookings: seq<Booking>, userId: nat): (r: seq<Booking>)
    ensures forall b :: b in r <==> b in bookings && b.userId == userId
    ensures forall b :: multiset(r)[b] == if b.userId == userId then multiset(bookings)[b] else 0
    ensures IsSubsequence(r, bookings)
  {
    Filter(bookings, (b: Booking) => b.userId == userId)
  }

  /** `Favorite.objects.filter(user=request.user)`: the favorites list and the queryset deletion looks in. */
  function UserFavorites(favorites: seq<Favorite>, userId: nat): (r: seq<Favorite>)
    ensures forall f :: f in r <==> f in favorites && f.userId == userId
    ensures forall f :: multiset(r)[f] == if f.userId == userId then multiset(favorites)[f] else 0
    ensures IsSubsequence(r, favorites)
  {
    Filter(favorites, (f: Favorite) => f.userId == userId)
  }

  /** `Review.objects.filter(user=request.user)`. */
  function UserReviews(reviews: seq<Review>, userId: nat): (r: seq<Review>)
    ensures forall x :: x in r <==> x in reviews && x.userId == userId
    ensures forall x :: multiset(r)[x] == if x.userId == userId then multiset(reviews)[x] else 0
    ensures IsSubsequence(r, reviews)
  {
    Filter(reviews, (x: Review) => x.userId == userId)
  }

  /** `Review.objects.get(id=review_id, user=request.user)`. */
  function FindOwnReview(reviews: seq<Review>, reviewId: nat, userId: nat): (k: Option<nat>)
    ensures k.Some? ==> k.value < |reviews| && reviews[k.value].id == reviewId && reviews[k.value].userId == userId
    ensures k.None? <==> forall x :: x in reviews ==> !(x.id == reviewId && x.userId == userId)
  {
    var k := FirstIndex(reviews, (x: Review) => x.id == reviewId && x.userId == userId);
    assert k.None? ==> forall x :: x in reviews ==> !(x.id == reviewId && x.userId == userId) by {
      if k.None? {
        forall x | x in reviews ensures !(x.id == reviewId && x.userId == userId) {
          var i :| 0 <= i < |reviews| && reviews[i] == x;
        }
      }
    }
    k
  }

  /** `get_object()` on `FavoriteDeleteView`: the favorite with that id among the user's own. */
  function FindOwnFavorite(favorites: seq<Favorite>, favoriteId: nat, userId: nat): (k: Option<nat>)
    ensures k.Some? ==> k.value < |favorites| && favorites[k.value].id == favoriteId && favorites[k.value].userId == userId
    ensures k.None? <==> forall f :: f in favorites ==> !(f.id == favoriteId && f.userId == userId)
  {
    var k := FirstIndex(favorites, (f: Favorite) => f.id == favoriteId && f.userId == userId);
    assert k.None? ==> forall f :: f in favorites ==> !(f.id == favoriteId && f.userId == userId) by {
      if k.None? {
        forall f | f in favorites ensures !(f.id == favoriteId && f.userId == userId) {
          var i :| 0 <= i < |favorites| && favorites[i] == f;
        }
      }
    }
    k
  }

  /** Removing the row at `k` from rows with distinct ids removes exactly the rows with that id. */
  lemma RemoveById<T>(s: seq<T>, k: nat, id: T -> nat)
    requires k < |s| && DistinctBy(s, id)
    ensures forall x :: x in s[..k] + s[k + 1..] <==> x in s && id(x) != id(s[k])
  {
    var t := s[..k] + s[k + 1..];
    forall x ensures x in t <==> x in s && id(x) != id(s[k]) {
      if x in t {
        var i :| 0 <= i < |t| && t[i] == x;
        var i' := if i < k then i else i + 1;
        assert s[i'] == x && i' != k;
      }
      if x in s && id(x) != id(s[k]) {
        var i :| 0 <= i < |s| && s[i] == x;
        assert i != k;
        if i < k { assert t[i] == x; } else { assert t[i - 1] == x; }
      }
    }
  }

  // ---------------------------------------------------------------------
  // The store

  class Store {
    var hotels: seq<Hotel>
    var cities: seq<City>
    var reviews: seq<Review>
    var bookings: seq<Booking>
    var favorites: seq<Favorite>
    var users: seq<User>
    /** The next primary key to hand out. */
    var nextId: nat

    ghost predicate Valid()
      reads this
    {
      && (forall h :: h in hotels ==> ValidHotel(h))
      && UniqueReviewPairs(reviews) && ValidRatings(reviews)
      && DistinctBy(reviews, ReviewId) && (forall r :: r in reviews ==> r.id < nextId)
      && (forall r :: r in reviews ==> FindHotel(hotels, r.hotelId).Some?)
      && UniqueFavoritePairs(favorites)
      && DistinctBy(favorites, FavoriteId) && (forall f :: f in favorites ==> f.id < nextId)
      && (forall f :: f in favorites ==> FindHotel(hotels, f.hotelId).Some?)
      && (forall b :: b in bookings ==>
            ValidGuests(b.guests) && b.totalPrice >= OneCent && FindHotel(hotels, b.hotelId).Some?)
      && DistinctBy(users, Username) && EmailsNormalized(users)
    }

    /** A catalogue with no reviews, bookings, favorites or users yet. */
    constructor (hotels: seq<Hotel>, cities: seq<City>)
      requires forall h :: h in hotels ==> ValidHotel(h)
      ensures Valid()
      ensures this.hotels == hotels && this.cities == cities
      ensures reviews == [] && bookings == [] && favorites == [] && users == []
    {
      this.hotels, this.cities := hotels, cities;
      reviews, bookings, favorites, users := [], [], [], [];
      nextId := 0;
    }

    /** `ReviewCreateView`: validate, then `serializer.save(user=request.user)`. */
    method CreateReview(userId: nat, attrs: ReviewRequest, now: int) returns (r: Result<Review, ReviewError>)
      requires Valid()
      modifies this
      ensures Valid()
      ensures var v := ValidateReviewRequest(hotels, old(reviews), userId, attrs);
              (v.Err? ==> r == Err(v.error) && reviews == old(reviews) && nextId == old(nextId))
              && (v.Ok? ==> r == Ok(Review(old(nextId), attrs.hotelId, userId, attrs.rating, Strip(attrs.comment), now))
                            && reviews == old(reviews) + [r.value] && nextId == old(nextId) + 1)
      ensures hotels == old(hotels) && cities == old(cities) && bookings == old(bookings)
      ensures favorites == old(favorites) && users == old(users)
    {
      var v := ValidateReviewRequest(hotels, reviews, userId, attrs);
      if v.Err? {
        return Err(v.error);
      }
      var row := Review(nextId, attrs.hotelId, userId, attrs.rating, v.value.comment, now);
      DistinctByAppend(reviews, row, ReviewKey);
      DistinctByAppend(reviews, row, ReviewId);
      reviews := reviews + [row];
      nextId := nextId + 1;
      r := Ok(row);
    }

    /**
     * `BookingCreateView`: validate, price the stay as `price_per_night * nights`,
     * and `save()` the row with that total (which `Booking.save` keeps, being nonzero).
     */
    method CreateBooking(userId: nat, data: BookingRequest, today: int, now: int)
      returns (r: Result<Booking, BookingError>)
      requires Valid()
      modifies this
      ensures Valid()
      ensures var v := ValidateBookingRequest(hotels, data, today);
              (v.Err? ==> r == Err(v.error) && bookings == old(bookings) && nextId == old(nextId))
              && (v.Ok? ==> r.Ok? && bookings == old(bookings) + [r.value] && nextId == old(nextId) + 1)
      ensures r.Ok? ==>
                var h := FindHotel(hotels, data.hotelId).value;
                r.value == Booking(old(nextId), data.hotelId, userId, data.checkIn, data.checkOut, Guests(data),
                                   StayPrice(h.pricePerNight, data.checkIn, data.checkOut), now)
                && r.value.totalPrice >= h.pricePerNight
      ensures hotels == old(hotels) && cities == old(cities) && reviews == old(reviews)
      ensures favorites == old(favorites) && users == old(users)
    {
      var v := ValidateBookingRequest(hotels, data, today);
      if v.Err? {
        return Err(v.error);
      }
      var hotel := FindHotel(hotels, data.hotelId).value;
      var total := BookingViewPrice(hotel.pricePerNight, data.checkIn, data.checkOut);
      ViewPriceAgreesAfterValidation(hotels, data, today);
      var record := new BookingRecord(hotel, userId, data.checkIn, data.checkOut, Guests(data), Some(total));
      record.Save();
      var row := record.Row(nextId, now);
      bookings := bookings + [row];
      nextId := nextId + 1;
      r := Ok(row);
    }

    /** `FavoriteCreateView.perform_create`. */
    method AddFavorite(userId: nat, hotelId: nat, now: int) returns (r: Result<Favorite, FavoriteError>)
      requires Valid()
      modifies this
      ensures Valid()
      ensures var c := CheckFavorite(hotels, old(favorites), userId, hotelId);
              (c.Err? ==> r == Err(c.error) && favorites == old(favorites) && nextId == old(nextId))
              && (c.Ok? ==> r == Ok(Favorite(old(nextId), userId, hotelId, now))
                            && favorites == old(favorites) + [r.value] && nextId == old(nextId) + 1)
      ensures hotels == old(hotels) && cities == old(cities) && reviews == old(reviews)
      ensures bookings == old(bookings) && users == old(users)
    {
      var c := CheckFavorite(hotels, favorites, userId, hotelId);
      if c.Err? {
        return Err(c.error);
      }
      var row := Favorite(nextId, userId, hotelId, now);
      DistinctByAppend(favorites, row, FavoriteKey);
      DistinctByAppend(favorites, row, FavoriteId);
      favorites := favorites + [row];
      nextId := nextId + 1;
      r := Ok(row);
    }

    /** `delete_review`: only the author's own review is found and deleted; otherwise nothing changes. */
    method DeleteReview(userId: nat, reviewId: nat) returns (found: bool)
      requires Valid()
      modifies this
      ensures Valid()
      ensures found <==> exists x :: x in old(reviews) && x.id == reviewId && x.userId == userId
      ensures !found ==> reviews == old(reviews)
      ensures found ==> forall x :: x in reviews <==> x in old(reviews) && x.id != reviewId
      ensures |reviews| == if found then |old(reviews)| - 1 else |old(reviews)|
      ensures hotels == old(hotels) && cities == old(cities) && bookings == old(bookings)
      ensures favorites == old(favorites) && users == old(users) && nextId == old(nextId)
    {
      var k := FindOwnReview(reviews, reviewId, userId);
      if k.None? {
        return false;
      }
      var i := k.value;
      RemoveById(reviews, i, ReviewId);
      DistinctByRemove(reviews, i, ReviewKey);
      DistinctByRemove(reviews, i, ReviewId);
      assert reviews[i] in reviews;
      reviews := reviews[..i] + reviews[i + 1..];
      found := true;
    }

    /** `FavoriteDeleteView`: only a favorite in the caller's own queryset is found and deleted. */
    method DeleteFavorite(userId: nat, favoriteId: nat) returns (found: bool)
      requires Valid()
      modifies this
      ensures Valid()
      ensures found <==> exists f :: f in old(favorites) && f.userId == userId && f.id == favoriteId
      ensures !found ==> favorites == old(favorites)
      ensures found ==> forall f :: f in favorites <==> f in old(favorites) && f.id != favoriteId
      ensures |favorites| == if found then |old(favorites)| - 1 else |old(favorites)|
      ensures hotels == old(hotels) && cities == old(cities) && bookings == old(bookings)
      ensures reviews == old(reviews) && users == old(users) && nextId == old(nextId)
    {
      var k := FindOwnFavorite(favorites, favoriteId, userId);
      if k.None? {
        return false;
      }
      var i := k.value;
      RemoveById(favorites, i, FavoriteId);
      DistinctByRemove(favorites, i, FavoriteKey);
      DistinctByRemove(favorites, i, FavoriteId);
      assert favorites[i] in favorites;
      favorites := favorites[..i] + favorites[i + 1..];
      found := true;
    }

    /** `UserRegisterSerializer`: validate, then `create` drops `password2` and inserts one user. */
    method Register(data: RegistrationData) returns (r: Result<User, RegistrationError>)
      requires Valid()
      modifies this
      ensures Valid()
      ensures var v := ValidateRegistration(old(users), data);
              (v.Err? ==> r == Err(v.error) && users == old(users) && nextId == old(nextId))
              && (v.Ok? ==> r == Ok(NewUser(old(nextId), v.value))
                            && users == old(users) + [r.value] && nextId == old(nextId) + 1)
      ensures |users| == if r.Ok? then |old(users)| + 1 else |old(users)|
      ensures hotels == old(hotels) && cities == old(cities) && reviews == old(reviews)
      ensures bookings == old(bookings) && favorites == old(favorites)
    {
      var v := ValidateRegistration(users, data);
      if v.Err? {
        return Err(v.error);
      }
      var u := NewUser(nextId, v.value);
      RegistrationKeepsUserInvariants(users, nextId, data);
      users := users + [u];
      nextId := nextId + 1;
      r := Ok(u);
    }
  }
}
