/**
 * The request validation of the review, hotel-list and booking serializers.
 * A serializer's `is_valid` first runs the field-level checks (a related row
 * must exist, the model's validators), collecting the errors of every field;
 * only when all fields pass does it run the object-level `validate` hook,
 * which returns its input unchanged or raises.
 */
module Serializers {
  import opened Wrappers
  import opened Text
  import opened Querysets
  import opened Models

  // ---------------------------------------------------------------------
  // BookingCreateSerializer

  /** The writable fields of a booking request; `guests` falls back to the model default. */
  datatype BookingRequest = BookingRequest(hotelId: nat, checkIn: int, checkOut: int, guests: Option<int>)

  datatype BookingError =
    | InvalidBookingFields(unknownHotel: bool, guestsOutOfRange: bool)
    | CheckOutNotAfterCheckIn
    | CheckInInPast

  /** `default=1` on `Booking.guests`. */
  function Guests(data: BookingRequest): (g: int)
    ensures data.guests.None? ==> g == 1
    ensures data.guests.Some? ==> g == data.guests.value
  {
    match data.guests
    case None => 1
    case Some(g) => g
  }

  /** `BookingCreateSerializer.validate`: the date order is checked before the lower bound `today`. */
  function ValidateBooking(data: BookingRequest, today: int): (r: Result<BookingRequest, BookingError>)
    ensures r.Ok? <==> data.checkIn < data.checkOut && today <= data.checkIn
    ensures r.Ok? ==> r.value == data
    ensures data.checkIn >= data.checkOut ==> r == Err(CheckOutNotAfterCheckIn)
    ensures data.checkIn < data.checkOut && data.checkIn < today ==> r == Err(CheckInInPast)
  {
    if data.checkIn >= data.checkOut then Err(CheckOutNotAfterCheckIn)
    else if data.checkIn < today then Err(CheckInInPast)
    else Ok(data)
  }

  /** `is_valid` on a booking request: hotel and guests fields, then `validate`. */
  function ValidateBookingRequest(hotels: seq<Hotel>, data: BookingRequest, today: int)
    : (r: Result<BookingRequest, BookingError>)
    ensures r.Ok? <==>
              FindHotel(hotels, data.hotelId).Some? && ValidGuests(Guests(data))
              && data.checkIn < data.checkOut && today <= data.checkIn
    ensures r.Ok? ==> r.value == data
    ensures FindHotel(hotels, data.hotelId).None? || !ValidGuests(Guests(data)) ==>
              r == Err(InvalidBookingFields(FindHotel(hotels, data.hotelId).None?, !ValidGuests(Guests(data))))
    ensures FindHotel(hotels, data.hotelId).Some? && ValidGuests(Guests(data)) ==> r == ValidateBooking(data, today)
  {
    var unknownHotel := FindHotel(hotels, data.hotelId).None?;
    var badGuests := !ValidGuests(Guests(data));
    if unknownHotel || badGuests then Err(InvalidBookingFields(unknownHotel, badGuests))
    else ValidateBooking(data, today)
  }

  /** A request that passes validation has a stay of at least one night and a price of at least 0.01. */
  lemma ValidatedBookingPrice(hotels: seq<Hotel>, data: BookingRequest, today: int)
    requires forall h :: h in hotels ==> ValidHotel(h)
    requires ValidateBookingRequest(hotels, data, today).Ok?
    ensures Nights(data.checkIn, data.checkOut) >= 1
    ensures var h := FindHotel(hotels, data.hotelId).value;
            StayPrice(h.pricePerNight, data.checkIn, data.checkOut) == h.pricePerNight * Nights(data.checkIn, data.checkOut)
            && StayPrice(h.pricePerNight, data.checkIn, data.checkOut) >= OneCent
  {
    var h := FindHotel(hotels, data.hotelId).value;
    TotalPriceAtLeastOneNight(h.pricePerNight, data.checkIn, data.checkOut);
  }

  // ---------------------------------------------------------------------
  // ReviewSerializer

  datatype ReviewRequest = ReviewRequest(hotelId: nat, rating: int, comment: string)

  datatype ReviewError =
    | InvalidReviewFields(unknownHotel: bool, ratingOutOfRange: bool, blankComment: bool, nullInComment: bool)
    | AlreadyReviewed

  predicate HasReview(reviews: seq<Review>, hotelId: nat, userId: nat)
  {
    exists r :: r in reviews && ReviewKey(r) == (hotelId, userId)
  }

  /** `ReviewSerializer.validate`: at most one review per user and hotel. */
  function ValidateReview(reviews: seq<Review>, userId: nat, attrs: ReviewRequest): (r: Result<ReviewRequest, ReviewError>)
    ensures r.Ok? <==> forall x :: x in reviews ==> !(x.userId == userId && x.hotelId == attrs.hotelId)
    ensures r.Ok? ==> r.value == attrs
    ensures r.Err? ==> r.error == AlreadyReviewed
  {
    if HasReview(reviews, attrs.hotelId, userId) then Err(AlreadyReviewed) else Ok(attrs)
  }

  /**
   * `is_valid` on a review request: the hotel must exist, the rating lie in
   * 1..5 and the comment, stripped of surrounding whitespace, be non-blank
   * (a `TextField` without `blank=True`) and free of NUL characters (the
   * `ProhibitNullCharactersValidator` every character field carries, which
   * runs on the stripped value and only when it is not blank); then
   * `validate` runs on the stripped attributes, which are what gets saved.
   */
  function ValidateReviewRequest(hotels: seq<Hotel>, reviews: seq<Review>, userId: nat, attrs: ReviewRequest)
    : (r: Result<ReviewRequest, ReviewError>)
    ensures r.Ok? <==>
              FindHotel(hotels, attrs.hotelId).Some? && ValidRating(attrs.rating) && !AllSpace(attrs.comment)
              && '\0' !in Strip(attrs.comment) && !HasReview(reviews, attrs.hotelId, userId)
    ensures r.Ok? ==> r.value == attrs.(comment := Strip(attrs.comment))
    ensures FindHotel(hotels, attrs.hotelId).None? || !ValidRating(attrs.rating) || AllSpace(attrs.comment)
            || '\0' in Strip(attrs.comment) ==>
              r == Err(InvalidReviewFields(FindHotel(hotels, attrs.hotelId).None?, !ValidRating(attrs.rating),
                                           AllSpace(attrs.comment), '\0' in Strip(attrs.comment)))
    ensures AllSpace(attrs.comment) ==> '\0' !in Strip(attrs.comment)
    ensures FindHotel(hotels, attrs.hotelId).Some? && ValidRating(attrs.rating) && !AllSpace(attrs.comment)
            && '\0' !in Strip(attrs.comment) ==>
              r == ValidateReview(reviews, userId, attrs.(comment := Strip(attrs.comment)))
  {
    var cleaned := attrs.(comment := Strip(attrs.comment));
    StripBlank(attrs.comment);
    var unknownHotel := FindHotel(hotels, attrs.hotelId).None?;
    var badRating := !ValidRating(attrs.rating);
    var blank := cleaned.comment == "";
    var nul := '\0' in cleaned.comment;
    if unknownHotel || badRating || blank || nul then Err(InvalidReviewFields(unknownHotel, badRating, blank, nul))
    else ValidateReview(reviews, userId, cleaned)
  }

  /** A whitespace-only comment is blank once stripped, and is refused. */
  lemma WhitespaceCommentRejected(hotels: seq<Hotel>, reviews: seq<Review>, userId: nat, hotelId: nat, rating: int)
    ensures var r := ValidateReviewRequest(hotels, reviews, userId, ReviewRequest(hotelId, rating, "   "));
            r.Err? && r.error.InvalidReviewFields? && r.error.blankComment
  {
    assert AllSpace("   ");
  }

  /** A comment with a NUL character inside is refused. */
  lemma NullCharacterCommentRejected(hotels: seq<Hotel>, reviews: seq<Review>, userId: nat, hotelId: nat, rating: int)
    ensures var r := ValidateReviewRequest(hotels, reviews, userId, ReviewRequest(hotelId, rating, "a\0b"));
            r.Err? && r.error.InvalidReviewFields? && r.error.nullInComment && !r.error.blankComment
  {
    StripUnpadded("a\0b");
    assert "a\0b"[1] == '\0';
  }

  /** Once a user's review of a hotel is in the table, a second one for the same pair is refused. */
  lemma SecondReviewRejected(reviews: seq<Review>, row: Review, attrs: ReviewRequest)
    requires row.hotelId == attrs.hotelId
    ensures ValidateReview(reviews + [row], row.userId, attrs) == Err(AlreadyReviewed)
  {
    assert row in reviews + [row];
  }

  // ---------------------------------------------------------------------
  // HotelListSerializer

  /** `obj.reviews.all()`. */
  function HotelReviews(reviews: seq<Review>, hotelId: nat): (rs: seq<Review>)
    ensures forall r :: r in rs <==> r in reviews && r.hotelId == hotelId
  {
    Filter(reviews, (r: Review) => r.hotelId == hotelId)
  }

  function SumRatings(rs: seq<Review>): int
  {
    if rs == [] then 0 else rs[0].rating + SumRatings(rs[1..])
  }

  /** `m` added up `n` times: `m * n` without a nonlinear product. */
  function Repeated(m: real, n: nat): real
  {
    if n == 0 then 0.0 else m + Repeated(m, n - 1)
  }

  lemma {:induction false} RepeatedIsProduct(m: real, n: nat)
    ensures Repeated(m, n) == m * n as real
  {
    if n > 0 {
      RepeatedIsProduct(m, n - 1);
      assert m * n as real == m + m * (n - 1) as real;
    }
  }

  /** `sum(ratings) / len(reviews)`, Python's true division, and 0 for no reviews. */
  function MeanOf(rs: seq<Review>): (m: real)
    ensures rs == [] ==> m == 0.0
    ensures Repeated(m, |rs|) == SumRatings(rs) as real
  {
    if rs == [] then 0.0
    else
      var sum, count := SumRatings(rs) as real, |rs| as real;
      DivMul(sum, count);
      RepeatedIsProduct(sum / count, |rs|);
      sum / count
  }

  /**
   * `get_average_rating`: 0 for a hotel without reviews; otherwise the mean,
   * added once per review, gives the sum of the ratings.
   */
  function ListAverageRating(reviews: seq<Review>, hotelId: nat): (avg: real)
    ensures HotelReviews(reviews, hotelId) == [] ==> avg == 0.0
    ensures Repeated(avg, |HotelReviews(reviews, hotelId)|) == SumRatings(HotelReviews(reviews, hotelId)) as real
  {
    MeanOf(HotelReviews(reviews, hotelId))
  }

  /** `get_review_count`: zero exactly when no review is of the hotel. */
  function ListReviewCount(reviews: seq<Review>, hotelId: nat): (n: nat)
    ensures n == 0 <==> forall r :: r in reviews ==> r.hotelId != hotelId
  {
    var rs := HotelReviews(reviews, hotelId);
    assert rs != [] ==> rs[0] in rs;
    |rs|
  }

  /** The fetched reviews of a hotel add up to the database's count and sum. */
  lemma {:induction false} HotelReviewsAggregate(reviews: seq<Review>, hotelId: nat)
    ensures |HotelReviews(reviews, hotelId)| == ReviewCount(reviews, hotelId)
    ensures SumRatings(HotelReviews(reviews, hotelId)) == RatingSum(reviews, hotelId)
  {
    if reviews != [] {
      HotelReviewsAggregate(reviews[1..], hotelId);
    }
  }

  /**
   * The list serializer's in-process mean and count agree with the model's
   * `average_rating` (before it rounds) and `review_count`.
   */
  lemma ListAverageAgreesWithModel(reviews: seq<Review>, hotelId: nat)
    ensures ListAverageRating(reviews, hotelId) == AverageRating(reviews, hotelId)
    ensures ListReviewCount(reviews, hotelId) == ReviewCount(reviews, hotelId)
  {
    HotelReviewsAggregate(reviews, hotelId);
  }
}
