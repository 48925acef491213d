/**
 * The schema of the booking catalogue and the logic its model classes hold:
 * field bounds, the per-pair uniqueness constraints, a hotel's rating
 * aggregates and a booking's price. Money is in integer cents, dates are
 * day numbers, timestamps are integers supplied by the caller.
 */
module Models {
  import opened Wrappers
  import opened Querysets

  datatype Country = Country(id: nat, name: string)

  datatype City = City(id: nat, name: string, countryId: nat)

  /** `cityId` is a nullable foreign key. */
  datatype Hotel = Hotel(
    id: nat, name: string, description: string, countryId: nat, cityId: Option<nat>,
    stars: int, address: string, pricePerNight: int, createdAt: int)

  datatype Review = Review(id: nat, hotelId: nat, userId: nat, rating: int, comment: string, createdAt: int)

  datatype Booking = Booking(
    id: nat, hotelId: nat, userId: nat, checkIn: int, checkOut: int, guests: int,
    totalPrice: int, createdAt: int)

  datatype Favorite = Favorite(id: nat, userId: nat, hotelId: nat, createdAt: int)

  /** The password is kept as given: hashing by `create_user` is not modelled. */
  datatype User = User(id: nat, username: string, email: string, password: string, firstName: string, lastName: string)

  /** The smallest amount the `MinValueValidator(Decimal('0.01'))` validators admit, in cents. */
  const OneCent: int := 1

  predicate ValidStars(stars: int)    { 1 <= stars <= 5 }
  predicate ValidRating(rating: int)  { 1 <= rating <= 5 }
  predicate ValidGuests(guests: int)  { 1 <= guests <= 10 }

  predicate ValidHotel(h: Hotel)
  {
    ValidStars(h.stars) && h.pricePerNight >= OneCent
  }

  /** `Hotel.objects.get(id=...)`; None stands for `DoesNotExist`. */
  function FindHotel(hotels: seq<Hotel>, id: nat): (r: Option<Hotel>)
    ensures r.Some? ==> r.value in hotels && r.value.id == id
    ensures r.None? <==> forall h :: h in hotels ==> h.id != id
  {
    if hotels == [] then None
    else if hotels[0].id == id then Some(hotels[0])
    else FindHotel(hotels[1..], id)
  }

  // ---------------------------------------------------------------------
  // unique_together

  function ReviewKey(r: Review): (nat, nat)       { (r.hotelId, r.userId) }
  function FavoriteKey(f: Favorite): (nat, nat)   { (f.userId, f.hotelId) }

  /** `unique_together = ['hotel', 'user']` on reviews. */
  ghost predicate UniqueReviewPairs(reviews: seq<Review>)     { DistinctBy(reviews, ReviewKey) }

  /** `unique_together = ['user', 'hotel']` on favorites. */
  ghost predicate UniqueFavoritePairs(favorites: seq<Favorite>) { DistinctBy(favorites, FavoriteKey) }

  function CountReviewsOfPair(reviews: seq<Review>, hotelId: nat, userId: nat): nat
  {
    if reviews == [] then 0
    else (if ReviewKey(reviews[0]) == (hotelId, userId) then 1 else 0)
         + CountReviewsOfPair(reviews[1..], hotelId, userId)
  }

  /** Under the constraint the table holds at most one review per (hotel, user). */
  lemma {:induction false} UniqueReviewPairsAtMostOne(reviews: seq<Review>, hotelId: nat, userId: nat)
    requires UniqueReviewPairs(reviews)
    ensures CountReviewsOfPair(reviews, hotelId, userId) <= 1
  {
    if reviews != [] {
      var rest := reviews[1..];
      assert UniqueReviewPairs(rest) by {
        forall i, j | 0 <= i < j < |rest| ensures ReviewKey(rest[i]) != ReviewKey(rest[j]) {
          assert rest[i] == reviews[i + 1] && rest[j] == reviews[j + 1];
        }
      }
      UniqueReviewPairsAtMostOne(rest, hotelId, userId);
      if ReviewKey(reviews[0]) == (hotelId, userId) {
        NoOtherReviewOfPair(reviews, hotelId, userId);
      }
    }
  }

  lemma {:induction false} NoOtherReviewOfPair(reviews: seq<Review>, hotelId: nat, userId: nat)
    requires UniqueReviewPairs(reviews) && reviews != []
    requires ReviewKey(reviews[0]) == (hotelId, userId)
    ensures CountReviewsOfPair(reviews[1..], hotelId, userId) == 0
  {
    var rest := reviews[1..];
    if CountReviewsOfPair(rest, hotelId, userId) != 0 {
      var k := SomeReviewOfPair(rest, hotelId, userId);
      assert false;
    }
  }

  lemma {:induction false} SomeReviewOfPair(reviews: seq<Review>, hotelId: nat, userId: nat) returns (k: nat)
    requires CountReviewsOfPair(reviews, hotelId, userId) != 0
    ensures k < |reviews| && ReviewKey(reviews[k]) == (hotelId, userId)
  {
    if ReviewKey(reviews[0]) == (hotelId, userId) {
      k := 0;
    } else {
      k := SomeReviewOfPair(reviews[1..], hotelId, userId);
      k := k + 1;
    }
  }

  // ---------------------------------------------------------------------
  // Hotel.review_count, Hotel.average_rating

  /** Number of reviews of the hotel (`self.reviews.count()`). */
  function ReviewCount(reviews: seq<Review>, hotelId: nat): (n: nat)
    ensures n <= |reviews|
    ensures n == 0 <==> forall r :: r in reviews ==> r.hotelId != hotelId
  {
    if reviews == [] then 0
    else
      assert reviews == [reviews[0]] + reviews[1..];
      (if reviews[0].hotelId == hotelId then 1 else 0) + ReviewCount(reviews[1..], hotelId)
  }

  /** Sum of the ratings of the hotel's reviews, as the database aggregates it. */
  function RatingSum(reviews: seq<Review>, hotelId: nat): int
  {
    if reviews == [] then 0
    else (if reviews[0].hotelId == hotelId then reviews[0].rating else 0) + RatingSum(reviews[1..], hotelId)
  }

  ghost predicate ValidRatings(reviews: seq<Review>)
  {
    forall r :: r in reviews ==> ValidRating(r.rating)
  }

  /** With every rating in 1..5 the sum lies between one and five points per review. */
  lemma {:induction false} RatingSumBounds(reviews: seq<Review>, hotelId: nat)
    requires ValidRatings(reviews)
    ensures ReviewCount(reviews, hotelId) <= RatingSum(reviews, hotelId) <= 5 * ReviewCount(reviews, hotelId)
  {
    if reviews != [] {
      assert reviews[0] in reviews;
      RatingSumBounds(reviews[1..], hotelId);
    }
  }

  /** `Avg('rating')` over the hotel's reviews: NULL (None) when it has none. */
  function MeanRating(reviews: seq<Review>, hotelId: nat): (m: Option<real>)
    ensures m.None? <==> ReviewCount(reviews, hotelId) == 0
  {
    var n := ReviewCount(reviews, hotelId);
    if n == 0 then None else Some(RatingSum(reviews, hotelId) as real / n as real)
  }

  /** `Hotel.average_rating` before the rounding to one decimal: 0.0 with no reviews, else the mean. */
  function AverageRating(reviews: seq<Review>, hotelId: nat): (avg: real)
    ensures ReviewCount(reviews, hotelId) == 0 ==> avg == 0.0
    ensures ReviewCount(reviews, hotelId) > 0 ==>
              avg * ReviewCount(reviews, hotelId) as real == RatingSum(reviews, hotelId) as real
  {
    match MeanRating(reviews, hotelId)
    case None => 0.0
    case Some(m) => m
  }

  lemma DivMul(s: real, d: real)
    requires d > 0.0
    ensures (s / d) * d == s
  {
  }

  lemma QuotientBounds(s: real, d: real)
    requires 0.0 < d <= s <= 5.0 * d
    ensures 1.0 <= s / d <= 5.0
  {
    DivMul(s, d);
  }

  lemma MeanBounds(sum: int, n: int)
    requires 0 < n <= sum <= 5 * n
    ensures 1.0 <= sum as real / n as real <= 5.0
  {
    assert (5 * n) as real == 5.0 * n as real;
    QuotientBounds(sum as real, n as real);
  }

  /** A reviewed hotel's average lies in [1, 5]. */
  lemma AverageRatingBounds(reviews: seq<Review>, hotelId: nat)
    requires ValidRatings(reviews)
    requires ReviewCount(reviews, hotelId) > 0
    ensures 1.0 <= AverageRating(reviews, hotelId) <= 5.0
  {
    RatingSumBounds(reviews, hotelId);
    MeanBounds(RatingSum(reviews, hotelId), ReviewCount(reviews, hotelId));
  }

  // ---------------------------------------------------------------------
  // Booking.calculate_total_price, Booking.save

  /** `(check_out - check_in).days`. */
  function Nights(checkIn: int, checkOut: int): int
  {
    checkOut - checkIn
  }

  /** `Booking.calculate_total_price`: nightly rate times nights, or 0 for an empty or reversed stay. */
  function StayPrice(pricePerNight: int, checkIn: int, checkOut: int): (total: int)
    ensures checkIn < checkOut ==> total == pricePerNight * Nights(checkIn, checkOut)
    ensures checkOut <= checkIn ==> total == 0
  {
    var nights := Nights(checkIn, checkOut);
    if nights <= 0 then 0 else pricePerNight * nights
  }

  /** A non-empty stay at a valid rate costs at least one night, hence at least 0.01. */
  lemma TotalPriceAtLeastOneNight(pricePerNight: int, checkIn: int, checkOut: int)
    requires pricePerNight >= OneCent && checkIn < checkOut
    ensures StayPrice(pricePerNight, checkIn, checkOut) >= pricePerNight >= OneCent
  {
    var n := checkOut - checkIn;
    assert pricePerNight * n == pricePerNight + pricePerNight * (n - 1);
    assert pricePerNight * (n - 1) >= 0;
  }

  /** The total `save` leaves behind: `if not self.total_price` replaces an unset or zero total. */
  function SavedTotal(current: Option<int>, computed: int): (r: Option<int>)
    ensures r.Some?
    ensures (current.None? || current == Some(0)) ==> r == Some(computed)
    ensures current.Some? && current.value != 0 ==> r == current
  {
    if current.None? || current.value == 0 then Some(computed) else current
  }

  /** Saving twice leaves the same total as saving once. */
  lemma SavedTotalIdempotent(current: Option<int>, computed: int)
    ensures SavedTotal(SavedTotal(current, computed), computed) == SavedTotal(current, computed)
  {
  }

  /** A booking instance before and while it is saved; `save` fills `totalPrice` in place. */
  class BookingRecord {
    const hotel: Hotel
    const userId: nat
    const checkIn: int
    const checkOut: int
    const guests: int
    var totalPrice: Option<int>

    constructor (hotel: Hotel, userId: nat, checkIn: int, checkOut: int, guests: int, totalPrice: Option<int>)
      ensures this.hotel == hotel && this.userId == userId
      ensures this.checkIn == checkIn && this.checkOut == checkOut && this.guests == guests
      ensures this.totalPrice == totalPrice
    {
      this.hotel, this.userId := hotel, userId;
      this.checkIn, this.checkOut, this.guests := checkIn, checkOut, guests;
      this.totalPrice := totalPrice;
    }

    /** `Booking.calculate_total_price` on this instance. */
    function CalculateTotalPrice(): (total: int)
    {
      StayPrice(hotel.pricePerNight, checkIn, checkOut)
    }

    /** `Booking.save` up to the write to the table, which the store performs. */
    method Save()
      modifies this
      ensures totalPrice == SavedTotal(old(totalPrice), CalculateTotalPrice())
      ensures totalPrice.Some?
    {
      if totalPrice.None? || totalPrice.value == 0 {
        totalPrice := Some(CalculateTotalPrice());
      }
    }

    /** The row as written to the table. */
    function Row(id: nat, createdAt: int): (b: Booking)
      reads this
      requires totalPrice.Some?
      ensures b.hotelId == hotel.id && b.userId == userId && b.totalPrice == totalPrice.value
      ensures b.checkIn == checkIn && b.checkOut == checkOut && b.guests == guests
      ensures b.id == id && b.createdAt == createdAt
    {
      Booking(id, hotel.id, userId, checkIn, checkOut, guests, totalPrice.value, createdAt)
    }
  }
}
