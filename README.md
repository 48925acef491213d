# Travel agency booking API — a Dafny model

This project models the decision logic of a Django hotel-booking service: its
models (`hotels/models.py`), the request serializers (`hotels/serializers.py`
and the two `UserRegisterSerializer` copies under `accounts/`), the REST views
(`hotels/api/views.py`) and the unused filter set (`hotels/api/filters.py`).
The database becomes a store of tables. Each table is a sequence of rows, a
queryset `.filter(...)` is a sequence filter, and `.order_by(...)` is a sort
under a total preorder. Money is integer cents (`Decimal('0.01')` is 1). Dates
are integer day numbers. `created_at` timestamps and `timezone.now().date()`
are parameters (`now`, `today`).

The modules follow the program:

- `Wrappers`: `Option` and `Result`.
- `Text`: the `icontains` and `iexact` lookups with ASCII case folding, the whitespace stripping of character fields, and the name order.
- `Querysets`:
  - `filter`, including the "only if the parameter is present" step of the views;
  - `get`;
  - `order_by` as an insertion sort proved to be a sorted permutation;
  - distinct keys, for `unique_together`.
- `Models`: `hotels/models.py`.
  - The field bounds and the uniqueness constraints.
  - `average_rating` and `review_count`.
  - `calculate_total_price`.
  - `Booking.save` as a method of the class `BookingRecord`, which fills `totalPrice` in place.
- `Serializers`: booking validation, review validation, and the list serializer's rating aggregates.
- `Registration`: the three identical `UserRegisterSerializer`s. All three write to the same `auth_user` table, because `CustomUser` keeps that table name.
- `HotelSearch`: `HotelListView.get_queryset`, the country list and the city list.
  - One `method` narrows the queryset filter by filter.
  - A second method orders it.
- `HotelFilterSet`: `HotelFilter` and how it relates to the view.
- `BookingApi`: a `Store` class whose fields are the tables.
  - Its methods are the write endpoints: create a review, create a booking, add a favorite, delete a review, delete a favorite, register.
  - The invariant `Valid()` is required and re-established by every method. It holds:
    - one review per (hotel, user) and one favorite per (user, hotel);
    - distinct usernames, and every stored email in `normalize_email` form;
    - ratings in 1..5, and bookings with 1..10 guests and a total of at least 0.01;
    - distinct ids for reviews and favorites;
    - an existing hotel behind every review, favorite and booking.
  - The per-user lists are pure filter functions.

DRF runs validation in a fixed order, and the model keeps it:

1. The field-level checks run first. Every character field strips surrounding whitespace (`trim_whitespace`), then the blank check, a related row that must exist, the model's validators and the `validate_<field>` hooks run on the stripped value. The errors of every field are collected.
2. The object-level `validate` hook runs only when every field passes.

Points where the code's behaviour is easy to mistake, and what the model does:

- With no `sort_by`, hotels come in the model's default order, newest `created_at` first (`hotels/models.py:98`). Identifier order is not what the code does.
- No sort key is tie-broken by identifier. The contracts promise nothing about ties.
- Under `rating_desc`, where hotels without reviews land depends on the database's NULL ordering. The model puts them last, as SQLite does in a descending order (PostgreSQL puts NULLs first there). The contracts speak only of reviewed hotels.
- The view's search matches the city name exactly, ignoring case (`city__name__iexact`). Only the unused `HotelFilter` matches a substring of the city name. `HotelFilterSet.FilterSetWiderThanView` exhibits the difference.
- `email`, `first_name` and `last_name` are optional on Django's `AbstractUser` (`blank=True`). A registration may omit them; `validate_email` then does not run, and `create_user` stores "". Many users may therefore share the empty email.
- `validate_email` looks the email up exactly, but `create_user` stores it through `normalize_email`, which lower-cases the domain. A second "a@X.com" therefore finds only "a@x.com" in the table and is accepted, and two users end up with the same stored email (`Registration.NormalizedEmailAdmitsDuplicate`). The store promises that stored emails are normalized, not that they are distinct.
- Whitespace around a comment, a username, an email, a password or the filter set's `search` is stripped before anything else sees it. An all-whitespace comment is blank, " bob" clashes with "bob", and "pw " confirms "pw".
- The booking view prices a stay as `price_per_night * nights` with no guard, and then `save` keeps that nonzero total. `BookingApi.ViewPriceAgreesAfterValidation` shows that this equals `calculate_total_price` on every validated request.

## Model

| member | source | states |
|---|---|---|
| Text.LowerStr | hotels/api/views.py:56-58 | lower-casing keeps the length and lowers each character |
| Text.IExactImpliesIContains | hotels/api/filters.py:26 | an `iexact` match is also an `icontains` match |
| Text.IContainsDoesNotImplyIExact | hotels/api/views.py:58 | "Rome" contains "Rom" but is not equal to it, ignoring case |
| Text.Strip | accounts/api/serializers.py:14-18 | the stripped value is no longer than the input and neither starts nor ends with whitespace |
| Text.StripBlank | hotels/serializers.py:45-69 | a value strips to "" exactly when it is all whitespace |
| Text.StripPadded | hotels/api/filters.py:18 | the stripped value occurs in the input with only whitespace before and after it |
| Text.StripIdempotent | accounts/api/serializers.py:14-18 | stripping twice is stripping once |
| Text.LastIndexOf | accounts/api/serializers.py:38-41 | the position of the last occurrence of a character, or none exactly when it does not occur |
| Text.NameLeqTotal | hotels/api/views.py:74 | any two names are comparable by `order_by('name')` |
| Text.NameLeqTransitive | hotels/api/views.py:74 | the name order is transitive |
| Querysets.Filter | hotels/api/views.py:30-59 | `.filter` keeps each qualifying row with its multiplicity, only qualifying rows, in their original order |
| Querysets.FilterWhen | hotels/api/views.py:31-32 | a step whose parameter is absent keeps every row; otherwise it keeps exactly the qualifying rows |
| Querysets.FirstIndex | hotels/api/views.py:187 | `get` finds the first row with the condition, or reports that no row has it |
| Querysets.FilterFilter | hotels/api/views.py:26-59 | two successive filters equal one filter by both conditions |
| Querysets.FilterAll | hotels/api/views.py:27 | a condition every row meets removes nothing |
| Querysets.FilterExt | hotels/api/views.py:26-59 | conditions that agree on every row filter alike |
| Querysets.FilterWhenAfterFilter | hotels/api/views.py:26-59 | one more conditional step after filters `p` is a single filter by `p` and the step's condition |
| Querysets.InsertBy | hotels/api/views.py:62-74 | inserting into a sorted queryset adds exactly one row and keeps it sorted |
| Querysets.SortBy | hotels/api/views.py:62-74 | `order_by` returns a permutation of its input, sorted by any total preorder |
| Querysets.DistinctByAppend | hotels/models.py:168 | appending a row with a new key keeps keys unique |
| Querysets.DistinctByRemove | hotels/api/views.py:185-188 | deleting a row keeps keys unique |
| Models.FindHotel | hotels/api/views.py:157 | `Hotel.objects.get(id=...)` returns a hotel with that id, or `DoesNotExist` exactly when none has it |
| Models.UniqueReviewPairsAtMostOne | hotels/models.py:168 | under `unique_together` a (hotel, user) pair has at most one review |
| Models.ReviewCount | hotels/models.py:106-109 | the count is at most the table size, and 0 exactly when no review is about the hotel |
| Models.RatingSumBounds | hotels/models.py:148-152 | with ratings in 1..5, the sum lies between the count and five times the count |
| Models.MeanRating | hotels/api/views.py:72-73 | `Avg('reviews__rating')` is NULL exactly for a hotel without reviews |
| Models.AverageRating | hotels/models.py:100-104 | 0.0 without reviews; otherwise the mean times the count is the sum of ratings |
| Models.AverageRatingBounds | hotels/models.py:100-104 | a reviewed hotel's average lies in [1, 5] |
| Models.StayPrice | hotels/models.py:205-210 | the rate times the nights when check-out is after check-in, 0 otherwise |
| Models.TotalPriceAtLeastOneNight | hotels/models.py:205-210 | a stay of at least one night at a valid rate costs at least that rate, so at least 0.01 |
| Models.SavedTotal | hotels/models.py:212-216 | `save` fills an unset or zero total from the computed price and keeps a nonzero one |
| Models.SavedTotalIdempotent | hotels/models.py:212-216 | saving twice gives the same total as saving once |
| Models.BookingRecord.constructor | hotels/models.py:171-203 | a booking instance holds the given hotel, user, dates, guests and total |
| Models.BookingRecord.Save | hotels/models.py:212-216 | the instance's total becomes `SavedTotal` of the old total and `calculate_total_price` |
| Models.BookingRecord.Row | hotels/models.py:171-203 | the row written to the table carries the instance's fields and its saved total |
| Serializers.Guests | hotels/models.py:189-193 | an omitted guest count defaults to 1 |
| Serializers.ValidateBooking | hotels/serializers.py:206-220 | passes exactly when check-in is before check-out and not before today, returning the data unchanged; the date-order error wins |
| Serializers.ValidateBookingRequest | hotels/serializers.py:200-220 | unknown hotel or guests outside 1..10 is a field error; otherwise the result of `validate` |
| Serializers.ValidatedBookingPrice | hotels/serializers.py:206-220 | a validated booking has at least one night and a total of at least 0.01 |
| Serializers.ValidateReview | hotels/serializers.py:59-69 | passes, returning the attributes unchanged, exactly when the user has not reviewed the hotel |
| Serializers.ValidateReviewRequest | hotels/serializers.py:45-69 | the comment is stripped first; unknown hotel, rating outside 1..5, an all-whitespace comment or a NUL character in the comment is a field error (a blank comment is never also reported for NUL); otherwise the result of `validate` on the stripped comment |
| Serializers.NullCharacterCommentRejected | hotels/serializers.py:45-69 | the comment "a\0b" is refused for its NUL character, not as blank |
| Serializers.WhitespaceCommentRejected | hotels/serializers.py:45-69 | a comment of three spaces is reported as blank |
| Serializers.SecondReviewRejected | hotels/serializers.py:59-69 | after a user's review of a hotel is stored, a second one is refused |
| Serializers.HotelReviews | hotels/serializers.py:105 | `obj.reviews.all()` holds exactly the reviews of that hotel |
| Serializers.HotelReviewsAggregate | hotels/serializers.py:104-112 | the fetched reviews' length and rating sum equal the database count and sum |
| Serializers.MeanOf | hotels/serializers.py:106-109 | Python's `sum / len` of the ratings: 0 for no reviews, and a value that, added once per review, gives the sum of the ratings |
| Serializers.ListAverageRating | hotels/serializers.py:104-109 | 0 for a hotel without reviews; the mean, added once per review of the hotel, gives the sum of their ratings (`RepeatedIsProduct`: that is mean × count) |
| Serializers.RepeatedIsProduct | hotels/serializers.py:106-109 | adding a value `n` times gives the value times `n` |
| Serializers.ListReviewCount | hotels/serializers.py:111-112 | zero exactly when no review is of the hotel |
| Serializers.ListAverageAgreesWithModel | hotels/serializers.py:104-112 | `get_average_rating` and `get_review_count` equal the unrounded `average_rating` and `review_count` |
| Registration.ValidateUsername | accounts/serializers.py:48-51 | passes, returning the value, exactly when no user has that username |
| Registration.ValidateEmail | accounts/api/serializers.py:43-46 | passes, returning the value, exactly when no user has that email |
| Registration.ValidatePasswords | hotels/serializers.py:177-182 | passes, returning the attributes, exactly when the passwords match; otherwise an error keyed on "password" |
| Registration.Cleaned | accounts/api/serializers.py:13-29 | every supplied field is stripped, an omitted one stays omitted |
| Registration.ValidateRegistration | accounts/api/serializers.py:13-51 | after stripping: passes exactly when the username is new, the email (if supplied) is new and the passwords match, returning the stripped data; a taken username or supplied email is reported under its key, and a username that is free or an email that is omitted or free never is; a mismatch is reported only when the fields pass |
| Registration.PaddingIgnored | accounts/api/serializers.py:13-51 | validating the stripped request gives the same outcome as the request |
| Registration.PaddingExamples | accounts/api/serializers.py:13-51 | " bob" is refused when "bob" exists; "pw " confirms "pw" |
| Registration.NormalizeEmail | accounts/api/serializers.py:38-41 | with an '@' in the stripped value, the part after the last '@' is lower-cased and the rest kept; without one the value is kept |
| Registration.NormalizeEmailIdempotent | accounts/api/serializers.py:38-41 | a normalized email normalizes to itself |
| Registration.NormalizedEmailAdmitsDuplicate | accounts/api/serializers.py:38-46 | "a@X.com" registered twice is accepted twice and both users store "a@x.com" |
| Registration.NewUser | accounts/serializers.py:38-41 | the user is built from every field but `password2`; an omitted first or last name is stored as "", and the email as `normalize_email` of the value or of "" |
| Registration.EmailErrors | accounts/api/serializers.py:43-46 | `validate_email` reports `EmailTaken` exactly when an email is supplied and some user has it; an omitted email reports nothing |
| Registration.OrBlank | accounts/api/serializers.py:38-41 | an omitted optional field is stored as "", a supplied one as given |
| Registration.RegistrationsWithoutEmail | accounts/api/serializers.py:38-46 | two registrations that both omit the email, with different usernames, are both accepted and both store "" |
| Registration.SecondRegistrationRejected | hotels/serializers.py:189-197 | once a user is stored, a registration whose stripped username is that user's, or whose stripped email is the email as stored, is refused |
| Registration.RegistrationKeepsUserInvariants | accounts/api/serializers.py:38-51 | inserting an accepted registration keeps usernames distinct and every stored email normalized |
| HotelSearch.SortOrderOf | hotels/api/views.py:62-76 | any `sort_by` other than the five keys leaves the default order |
| HotelSearch.CityName | hotels/api/views.py:58 | the city name is that of a city with the hotel's city id; a hotel has one exactly when its city id is set and names a city |
| HotelSearch.HotelBeforeTotalPreorder | hotels/api/views.py:62-74 | every sort key is a total preorder |
| HotelSearch.SortedByMeaning | hotels/api/views.py:62-74 | sorting by a key gives a permutation that is non-decreasing or non-increasing in that key; rating order among reviewed hotels is by mean descending, then name |
| HotelSearch.NarrowHotels | hotels/api/views.py:26-59 | the six conditional filter steps equal one filter by the whole query |
| HotelSearch.OrderHotels | hotels/api/views.py:61-76 | the result is a permutation, ordered by the chosen key; otherwise newest first |
| HotelSearch.ListHotels | hotels/api/views.py:26-76 | exactly the matching hotels with their multiplicity, in the order `sort_by` asks for |
| HotelSearch.NoQueryKeepsAll | hotels/api/views.py:26-59 | with no parameters every hotel matches |
| HotelSearch.MorePartsNarrow | hotels/api/views.py:26-59 | adding parameters to a query can only drop hotels |
| HotelSearch.ByNameTotalPreorder | hotels/models.py:42 | ordering by name is a total preorder |
| HotelSearch.ListCountries | hotels/api/views.py:121-124 | every country, sorted by name |
| HotelSearch.ListCities | hotels/api/views.py:132-137 | exactly the cities of the requested country (all when none is given), sorted by name |
| HotelSearch.ExampleMinPrice | hotels/api/views.py:45-48 | `min_price=100` keeps the 150.00 hotel and drops the 90.00 one |
| HotelSearch.ExampleSearch | hotels/api/views.py:53-59 | `search=Rome` keeps the hotel in Rome and drops the one in Paris |
| HotelSearch.ExampleSortByPrice | hotels/api/views.py:63-64 | `price_asc` lists the 90.00 hotel before the 150.00 one |
| HotelFilterSet.FilterSearch | hotels/api/filters.py:20-27 | keeps exactly the hotels whose name, description or city name contains the value, as a subsequence |
| HotelFilterSet.ApplyHotelFilter | hotels/api/filters.py:5-31 | exactly the hotels meeting every declared filter, in their order; the price bounds are inclusive; the search term is applied stripped, and only when it is not blank |
| HotelFilterSet.SearchPaddingIgnored | hotels/api/filters.py:18 | a search term and its stripped form select the same hotels |
| HotelFilterSet.BlankSearchSkipped | hotels/api/filters.py:18 | an all-whitespace search term selects what no search term selects |
| HotelFilterSet.IContainsStripped | hotels/api/filters.py:18-27 | a field containing a term also contains the stripped term |
| HotelFilterSet.FilterSearchStripped | hotels/api/filters.py:18-27 | a hotel `filter_search` keeps for a term it also keeps for the stripped term |
| HotelFilterSet.CitylessHotelSearch | hotels/api/filters.py:26 | a hotel without a city matches the search only through its name or description |
| HotelFilterSet.ViewSearchWithinFilterSearch | hotels/api/filters.py:23-27 | every hotel the view's search keeps, `filter_search` keeps |
| HotelFilterSet.ViewWithinFilterSet | hotels/api/filters.py:9-27 | every hotel the view lists, the filter set admits |
| HotelFilterSet.FilterSetWiderThanView | hotels/api/filters.py:26 | searching "Rom" finds a hotel in Rome through the filter set but not through the view |
| BookingApi.BookingViewPrice | hotels/api/views.py:102-108 | the view's total equals `calculate_total_price` when check-out is after check-in |
| BookingApi.ViewPriceNegativeForReversedDates | hotels/api/views.py:106-107 | for reversed dates the view's formula is negative where the model's is 0 |
| BookingApi.BookingTestScenarios | hotels/tests.py:75-132 | the four test bookings: accepted and priced by the view at 200.00 for one night, two date-order errors, one past-date error |
| BookingApi.ViewPriceAgreesAfterValidation | hotels/api/views.py:102-108 | on a validated request the view's total is the model's price, at least the rate and at least 0.01, and `save` keeps it |
| BookingApi.CheckFavorite | hotels/api/views.py:155-160 | fails with unknown hotel or already favorite; passes exactly when the hotel exists and the pair is new |
| BookingApi.SecondFavoriteRejected | hotels/api/views.py:158-160 | once a pair is stored, adding it again is refused |
| BookingApi.UserBookings | hotels/api/views.py:116-117 | exactly the caller's bookings, each as many times as it occurs in the table, in table order |
| BookingApi.UserFavorites | hotels/api/views.py:145-146 | exactly the caller's favorites, each as many times as it occurs in the table, in table order |
| BookingApi.UserReviews | hotels/api/views.py:178-179 | exactly the caller's reviews, each as many times as it occurs in the table, in table order |
| BookingApi.FindOwnReview | hotels/api/views.py:187 | finds a review with that id by the caller, or not-found exactly when none exists |
| BookingApi.FindOwnFavorite | hotels/api/views.py:169-170 | finds a favorite with that id among the caller's, or not-found exactly when none exists |
| BookingApi.RemoveById | hotels/api/views.py:188 | deleting a row from rows with distinct ids removes exactly the rows with its id |
| BookingApi.Store.CreateReview | hotels/api/views.py:87-93 | a rejected review changes nothing; an accepted one appends exactly one row by the caller with the stripped comment; the invariant is kept |
| BookingApi.Store.CreateBooking | hotels/api/views.py:97-108 | a rejected booking changes nothing; an accepted one appends exactly one row whose total is the stay price, at least the nightly rate |
| BookingApi.Store.AddFavorite | hotels/api/views.py:150-161 | a duplicate or unknown hotel changes nothing; otherwise exactly one row is appended; one favorite per pair is kept |
| BookingApi.Store.DeleteReview | hotels/api/views.py:185-197 | found exactly when the caller owns a review with that id; then only that review is removed, else nothing changes |
| BookingApi.Store.DeleteFavorite | hotels/api/views.py:165-170 | found exactly when the caller owns a favorite with that id; then only that favorite is removed, else nothing changes |
| BookingApi.Store.Register | hotels/serializers.py:184-187 | a rejected registration changes nothing; an accepted one adds exactly the user `create_user` builds from the stripped data; usernames stay distinct and stored emails normalized |

## Left out

- The ORM and SQL. Tables are sequences, and row order follows insertion. The database's NULL ordering under `rating_desc` is not stated.
- `OrderHotels`: it does not state where hotels without reviews land under `rating_desc`, because that depends on the database.
- Ties under any sort key. The code adds no tie-break, so the contracts promise nothing about tied rows.
- `BookingApi.UserBookings`, `BookingApi.UserReviews`: the default ordering `-created_at` of bookings and reviews (`hotels/models.py:167`, `hotels/models.py:224`) is not modelled; the lists keep table order. Favorites have no default ordering.
- `Models.AverageRating`: it does not model `round(avg, 1)`. The mean is exact. Likewise `Serializers.ListAverageRating` is an exact quotient, not a float.
- Decimal arithmetic, replaced by integer cents. `max_digits=10` is not enforced.
- The query-string prices `min_price` and `max_price` are taken as cents already. A value that does not parse as a number is not modelled; the real ORM raises on it.
- The view's `country`, `city` and `stars` parameters (`hotels/api/views.py:32`, `:37`, `:42`) and the city list's `country` (`hotels/api/views.py:136`) are modelled as already-parsed natural numbers. A non-integer value, on which the ORM raises `ValueError`, is not modelled. Neither is a negative id such as `country=-1`, which the code answers with an empty list; `Option<nat>` cannot express it.
- `timezone.now()` and `auto_now_add`. Both are parameters of the operations.
- Unicode case folding and database collation. Only ASCII letters are folded, and names compare by character code. `normalize_email` lower-cases the domain with the same ASCII folding.
- Unicode whitespace. `Strip` removes the ASCII whitespace set of Python's `str.strip` (space, tab to carriage return, and the four separators 0x1C-0x1F); other Unicode spaces are kept.
- `normalize_username`, the NFKC normalization `create_user` applies to the username. The stored username is the stripped one.
- Case-insensitive email lookup. `email=value` is an exact comparison, as on SQLite and PostgreSQL; a collation that ignores case would reject the second "a@X.com".
- Authentication, JWT issuance and permission classes. The caller's id is a parameter.
- Registration.ValidateRegistration: its "passes exactly when" covers only the checks modelled. Django's `validate_password` is a foreign validator and is left out. So are these built-in field checks that DRF derives from the auth `User` model:
  - required and blank usernames and passwords, also after stripping;
  - `max_length` of 150 on username, first and last name, and 254 on email (a new 151-character username is refused by the code and accepted by the model);
  - the NUL-character check that every character field carries, on every registration field;
  - the username character set and email syntax;
  - the model's own `UniqueValidator` on username, which rejects the same inputs as `validate_username`.
- Serializers.ValidateReviewRequest, Serializers.ValidateBookingRequest: the "required" error for an omitted field is not modelled. A review request always carries its hotel, rating and comment, and a booking request its hotel and dates; only the booking's guest count may be omitted. The review comment has no `max_length` (a `TextField`).
- Registration.RegistrationKeepsUserInvariants: it no longer promises distinct emails, and neither does `BookingApi.Store.Valid()`, because the code does not keep them distinct: its lookup is exact while the stored email is normalized (`Registration.NormalizedEmailAdmitsDuplicate`).
- Password hashing in `create_user`. The password is stored as given.
- The race between the uniqueness pre-checks and the database constraint. Operations are sequential, and uniqueness is an invariant of the store.
- Updating an existing booking through `save`. Only the insert path of `Booking.save` is exercised by the store.
- Server-side HTML views, images, admin, URL routing, fixture scripts and cascade deletes.
- Hotel, country and city creation. The catalogue is given to the store's constructor.
