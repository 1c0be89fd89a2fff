# Car-rental booking controller, modelled in Dafny

This project models the booking controller of a car-rental backend. The
controller does five things:

- it checks whether a car is free for a date range;
- it searches the cars listed at a location for those free in a range;
- it creates a booking once the car is found free;
- it lists the bookings of a renter, or of an owner;
- it lets a car's owner change the status of a booking.

The document store becomes two in-memory sequences: bookings and cars.
Dates are integers compared by order, and identifiers are naturals.

Files:

- `collections.dfy` (module `Collections`): `Option`, an order-preserving
  `Filter`, and the subsequence relation. `Filter` stands for the store's
  `find` queries and for the `filter` pipelines.
- `bookings.dfy` (module `Bookings`): the `Car` and `Booking` records, the
  error messages, and the inclusive overlap test. It also holds the
  availability check, the search, the listings sorted newest first, the
  lookups by id, and the no-double-booking invariant with its lemmas.
- `booking_store.dfy` (module `BookingStore`): class `Store`. It holds the
  booking collection as a `seq<Booking>` field. `CreateBooking` and
  `ChangeBookingStatus` update it in place. `Store.Valid()` states four
  facts about the collection:
  - booking ids are unique;
  - each booking's owner and price were copied from its car;
  - no two bookings of one car overlap;
  - every id is below the id generator.
- `date_labels.dfy` (module `DateLabels`): the date label with its
  "Not specified" fallback, the `"<start> to <end>"` range label, and a
  splitter that recovers both labels from a range label.
- `scenarios.dfy` (module `Scenarios`): client methods that replay a
  search-and-book scenario through the contracts alone. The scenario has
  car R at "NYC", a booking for June 1-5, an overlapping request, a
  touching request, a disjoint request, a refused status change and a
  cancellation.

Each failure the controller reports as `{success: false, message}` is a
`Bookings.Error` value, and `Error.Message()` gives its text. The texts are
"Car is not available for the selected dates", "Booking not found" and
"Unauthorized". A missing car gives the runtime's `TypeError` text.

Two points where the code differs from what a reader might expect:

- The availability query ignores status, so a cancelled booking still
  blocks its car (`StatusDoesNotAffectAvailability`); `NoDoubleBooking`
  therefore covers all bookings.
- The comment at bookingController.js:90 says the price is calculated from
  the dates; the code copies `Car_Price` unchanged, and so does the model.

## Model

| member | source | states |
|---|---|---|
| `Bookings.CheckAvailability` | controllers/bookingController.js:5-12 | A car is free for `[bookDate, purchaseDate]` iff no stored booking of that car starts on or before `purchaseDate` and ends on or after `bookDate`. Status is not consulted. |
| `Bookings.SameDayHandoverConflicts` | controllers/bookingController.js:5-12 | The overlap test is inclusive: a request that starts on the day an existing booking ends is refused. |
| `Bookings.StatusDoesNotAffectAvailability` | controllers/bookingController.js:5-12 | Overwriting any booking's status, to "cancelled" or anything else, changes no availability answer. |
| `Collections.Filter` | controllers/bookingController.js:56-57 | A filter keeps exactly the elements that pass. It keeps their order (a subsequence) and their multiplicities (no deduplication). |
| `Bookings.SearchAvailableCars` | controllers/bookingController.js:40-57 | The search returns a subsequence of the stored cars, in store order and with duplicates kept. A car is in it iff it is at the location, its flag is set and it passes the availability check. Every returned car has its flag set. |
| `Bookings.FindCar` | controllers/bookingController.js:88 | The car lookup returns a stored car with the requested id, or nothing iff no stored car has that id. |
| `BookingStore.Store.CreateBooking` | controllers/bookingController.js:83-100 | On an overlap it returns "not available" and the store is unchanged; a missing car returns `CarNotFound`, also leaving the store unchanged. Otherwise it appends exactly one booking with a fresh id, the requester as user, the car's owner and price, the given dates, the default status and the creation time. Earlier bookings are unchanged, and `Valid()` (which includes no double booking) is preserved. |
| `Bookings.AppendKeepsNoDoubleBooking` | controllers/bookingController.js:83-100 | Appending a booking whose interval passed the availability check keeps "no two bookings of one car overlap". Hence any sequence of bookings created one after another satisfies it. |
| `Bookings.FindBooking` | controllers/bookingController.js:214-218 | The booking lookup gives the position of the first booking with the id, or nothing iff no booking has it. |
| `BookingStore.Store.ChangeBookingStatus` | controllers/bookingController.js:214-225 | It returns "Booking not found" iff no booking has the id, and "Unauthorized" iff the booking's owner is not the caller; both leave the store unchanged. Otherwise it sets that booking's status to the given value, unvalidated. Every other field and every other booking stay as they were. |
| `Bookings.StatusChangeKeepsNoDoubleBooking` | controllers/bookingController.js:224-225 | Overwriting a status keeps the no-double-booking invariant. |
| `Bookings.SortNewestFirst` | controllers/bookingController.js:124 | The listing sort yields a permutation of its input ordered by `createdAt`, newest first. |
| `Bookings.UserBookings` | controllers/bookingController.js:121-124 | The user listing holds exactly the caller's bookings, each as often as stored, newest first. It has no role check. |
| `Bookings.OwnerBookings` | controllers/bookingController.js:146-153 | A caller whose role is not "owner" gets "Unauthorized", and only that caller does; the result does not depend on the store. Otherwise the result holds exactly the bookings whose owner is the caller, newest first. |
| `DateLabels.AbsentDateLabel` | controllers/bookingController.js:15-16 | `formatDate` labels an absent date "Not specified", whatever the locale renderer. |
| `DateLabels.RangeLabelParts` | controllers/bookingController.js:25-28 | `getBookingDateRange` yields the start date's label, then " to ", then the end date's label, and nothing else. |
| `DateLabels.AbsentLabelIsDistinct` | controllers/bookingController.js:15-21 | When the locale rendering never yields "Not specified", that label identifies exactly the absent dates. |
| `DateLabels.SplitRangeOfJoin` | controllers/bookingController.js:28 | Joining two labels with " to " and splitting at the first " to " gives back both labels, provided the first does not contain " to". |
| `DateLabels.SplitRangeRoundTrip` | controllers/bookingController.js:25-28 | The range label is the start label, " to ", then the end label. Splitting it at the first " to " gives back both labels whenever the start label does not contain " to". |

## Left out

- Document-store I/O is not modelled. This covers query execution, `populate` of cars and users, `select("-user.password")` and `save()`. The collections are in-memory sequences instead.
- The HTTP layer is not modelled: request and response objects, the JSON response shapes, the success messages and `console.log`. Operations return `Result` values instead.
- Locale rendering of a present date (`toLocaleDateString`) is a parameter `locale: int -> string`. Parsing dates with `new Date(...)` is not modelled; dates are integers. Any falsy date value is folded into `DateInput.Absent`.
- The search response's date labels and `requestedDates` are not modelled. Neither are the `bookingDates` objects attached to bookings, beyond the label functions themselves.
- Booking id generation is a counter `nextId`. The real store hands out unique object ids; only their uniqueness is modelled.
- The creation timestamp is passed in as `now`. The default status of a new booking comes from the booking schema. The schema file, models/Booking.js, is not part of this model, so the status is a `Store` constructor parameter.
- Concurrency is not modelled. The handlers run as `async` code, and `Promise.all` runs the per-car checks concurrently. Two concurrent `createBooking` calls can both pass the check before either writes. The model is sequential, so its no-double-booking invariant does not cover that race.
- The booking schema's validation of `status` on `save()` is not modelled: the model assumes the schema accepts any string. If models/Booking.js restricts `status` to an enumeration, a rejected `save()` is one of the unmodelled storage exceptions below.
- Storage exceptions are not modelled: the catch-all `catch` that reports them as `{success: false}`. A failed car lookup is the one exception modelled (`CarNotFound`), and it leaves the store unchanged.
- Absent or malformed dates in a create or search request are not modelled. `CreateBooking` and `SearchAvailableCars` take integer dates.
- Changes to cars are not modelled. Cars are read-only here, so owner and price copied into a booking stay equal to the car's.
- `getBookingDetails` is commented out in the source and is not modelled.
- Bookings.SortNewestFirst: the order among bookings with equal `createdAt` is left unspecified by its contract, as the store's sort leaves it unspecified.
