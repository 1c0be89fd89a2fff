/**
 * The booking collection and the car collection as in-memory sequences, and
 * the read-only operations of the booking controller over them: the
 * availability check, the availability search, the user and owner listings
 * and the lookups by id. Dates are integers compared by order; identifiers are naturals.
 */
module Bookings {

  import opened Collections

  type Id = nat

  /** A stored car document, as far as bookings are concerned (`price` is `Car_Price`). */
  datatype Car = Car(id: Id, location: string, isAvailable: bool, owner: Id, price: int)

  /** A stored booking document; `status` is a free-form string. */
  datatype Booking = Booking(
    id: Id,
    car: Id,
    user: Id,
    owner: Id,
    bookDate: int,
    purchaseDate: int,
    price: int,
    status: string,
    createdAt: int)

  /** The failures the controller reports as `{success: false, message}`. */
  datatype Error = NotAvailable | CarNotFound | BookingNotFound | Unauthorized
  {
    function Message(): string
    {
      match this
      case NotAvailable => "Car is not available for the selected dates"
      // the runtime's TypeError when `Car.findById` yields null and `Car_Price` is read from it
      case CarNotFound => "Cannot read properties of null (reading 'Car_Price')"
      case BookingNotFound => "Booking not found"
      case Unauthorized => "Unauthorized"
    }
  }

  datatype Result<+T> = Ok(value: T) | Err(error: Error)

  const OWNER_ROLE := "owner"

  // ---------------------------------------------------------------------------
  // Availability

  /**
   * The inclusive overlap test of the availability query: `existing` is a
   * booking of `car` that starts no later than the requested end and ends no
   * earlier than the requested start. The status of `existing` plays no part.
   */
  predicate Overlaps(existing: Booking, car: Id, bookDate: int, purchaseDate: int)
  {
    existing.car == car && existing.bookDate <= purchaseDate && existing.purchaseDate >= bookDate
  }

  /** The availability check: the overlap query returns no booking. */
  function CheckAvailability(bookings: seq<Booking>, car: Id, bookDate: int, purchaseDate: int): (free: bool)
    ensures free <==> forall i :: 0 <= i < |bookings| ==> !Overlaps(bookings[i], car, bookDate, purchaseDate)
  {
    var conflicts := Filter(bookings, (existing: Booking) => Overlaps(existing, car, bookDate, purchaseDate));
    assert forall i :: 0 <= i < |bookings| && Overlaps(bookings[i], car, bookDate, purchaseDate) ==>
      bookings[i] in conflicts;
    |conflicts| == 0
  }

  /** A booking that ends on the day a request starts still blocks it: the test is inclusive. */
  lemma SameDayHandoverConflicts(bookings: seq<Booking>, i: nat, until: int)
    requires i < |bookings|
    requires bookings[i].bookDate <= bookings[i].purchaseDate <= until
    ensures !CheckAvailability(bookings, bookings[i].car, bookings[i].purchaseDate, until)
  {
  }

  /** Overwriting a status, to "cancelled" or anything else, never frees or blocks a car. */
  lemma StatusDoesNotAffectAvailability(bookings: seq<Booking>, i: nat, status: string, car: Id, bookDate: int, purchaseDate: int)
    requires i < |bookings|
    ensures CheckAvailability(bookings[i := bookings[i].(status := status)], car, bookDate, purchaseDate)
            == CheckAvailability(bookings, car, bookDate, purchaseDate)
  {
  }

  // ---------------------------------------------------------------------------
  // The no-double-booking invariant

  /** No two distinct bookings of the same car overlap under the inclusive test. */
  predicate NoDoubleBooking(bookings: seq<Booking>)
  {
    forall i, j :: 0 <= i < |bookings| && 0 <= j < |bookings| && i != j ==>
      !Overlaps(bookings[i], bookings[j].car, bookings[j].bookDate, bookings[j].purchaseDate)
  }

  /** Appending a booking whose interval passed the availability check keeps the invariant. */
  lemma AppendKeepsNoDoubleBooking(bookings: seq<Booking>, added: Booking)
    requires NoDoubleBooking(bookings)
    requires CheckAvailability(bookings, added.car, added.bookDate, added.purchaseDate)
    ensures NoDoubleBooking(bookings + [added])
  {
  }

  /** Overwriting a status keeps the invariant. */
  lemma StatusChangeKeepsNoDoubleBooking(bookings: seq<Booking>, i: nat, status: string)
    requires i < |bookings|
    requires NoDoubleBooking(bookings)
    ensures NoDoubleBooking(bookings[i := bookings[i].(status := status)])
  {
  }

  // ---------------------------------------------------------------------------
  // Search

  /** The store query of the search: cars at `location` whose availability flag is set. */
  predicate Listed(car: Car, location: string)
  {
    car.location == location && car.isAvailable
  }

  /**
   * The cars offered for a search: those listed at `location` that pass the
   * availability check for the requested dates, in the order the store
   * returned them, duplicates kept.
   */
  function SearchAvailableCars(cars: seq<Car>, bookings: seq<Booking>, location: string, bookDate: int, purchaseDate: int): (found: seq<Car>)
    ensures IsSubsequence(found, cars)
    ensures forall c :: c in found <==>
      c in cars && Listed(c, location) && CheckAvailability(bookings, c.id, bookDate, purchaseDate)
    ensures forall c ::
      (multiset(found)[c] ==
       if Listed(c, location) && CheckAvailability(bookings, c.id, bookDate, purchaseDate)
       then multiset(cars)[c] else 0)
    ensures forall c :: c in found ==> c.isAvailable
  {
    var listed := Filter(cars, (c: Car) => Listed(c, location));
    var free := Filter(listed, (c: Car) => CheckAvailability(bookings, c.id, bookDate, purchaseDate));
    SubsequenceTransitive(free, listed, cars);
    free
  }

  // ---------------------------------------------------------------------------
  // Listings, newest first

  predicate NewestFirst(bookings: seq<Booking>)
  {
    forall i, j :: 0 <= i < j < |bookings| ==> bookings[i].createdAt >= bookings[j].createdAt
  }

  function InsertByCreatedAt(b: Booking, sorted: seq<Booking>): (r: seq<Booking>)
    requires NewestFirst(sorted)
    ensures NewestFirst(r)
    ensures multiset(r) == multiset(sorted) + multiset{b}
  {
    if sorted == [] then [b]
    else if b.createdAt >= sorted[0].createdAt then [b] + sorted
    else
      var rest := InsertByCreatedAt(b, sorted[1..]);
      assert sorted == [sorted[0]] + sorted[1..];
      assert forall k :: 0 <= k < |rest| ==> rest[k].createdAt <= sorted[0].createdAt by {
        forall k | 0 <= k < |rest| ensures rest[k].createdAt <= sorted[0].createdAt {
          assert rest[k] in multiset(rest);
          assert rest[k] == b || rest[k] in sorted[1..];
        }
      }
      [sorted[0]] + rest
  }

  /** The `sort({createdAt: -1})` of the listing queries; the order among equal timestamps is unspecified. */
  function SortNewestFirst(bookings: seq<Booking>): (r: seq<Booking>)
    ensures NewestFirst(r)
    ensures multiset(r) == multiset(bookings)
  {
    if bookings == [] then []
    else
      assert bookings == [bookings[0]] + bookings[1..];
      InsertByCreatedAt(bookings[0], SortNewestFirst(bookings[1..]))
  }

  /** The bookings made by `user`, newest first. */
  function UserBookings(bookings: seq<Booking>, user: Id): (r: seq<Booking>)
    ensures NewestFirst(r)
    ensures forall b :: multiset(r)[b] == if b.user == user then multiset(bookings)[b] else 0
  {
    SortNewestFirst(Filter(bookings, (b: Booking) => b.user == user))
  }

  /** The bookings of cars owned by `caller`, newest first; refused to callers whose role is not "owner". */
  function OwnerBookings(bookings: seq<Booking>, role: string, caller: Id): (r: Result<seq<Booking>>)
    ensures role != OWNER_ROLE <==> r == Err(Unauthorized)
    ensures r.Ok? ==> NewestFirst(r.value)
    ensures r.Ok? ==> forall b :: multiset(r.value)[b] == if b.owner == caller then multiset(bookings)[b] else 0
  {
    if role != OWNER_ROLE then Err(Unauthorized)
    else Ok(SortNewestFirst(Filter(bookings, (b: Booking) => b.owner == caller)))
  }

  // ---------------------------------------------------------------------------
  // Lookups by id

  /** `Car.findById`: the first car with the given id, if any. */
  function FindCar(cars: seq<Car>, id: Id): (r: Option<Car>)
    ensures r.Some? ==> r.value in cars && r.value.id == id
    ensures r.None? <==> forall c :: c in cars ==> c.id != id
  {
    if cars == [] then None
    else if cars[0].id == id then Some(cars[0])
    else FindCar(cars[1..], id)
  }

  /** `Booking.findById`: the position of the first booking with the given id, if any. */
  function FindBooking(bookings: seq<Booking>, id: Id): (r: Option<nat>)
    ensures r.Some? ==> r.value < |bookings| && bookings[r.value].id == id
    ensures r.Some? ==> forall j :: 0 <= j < r.value ==> bookings[j].id != id
    ensures r.None? <==> forall j :: 0 <= j < |bookings| ==> bookings[j].id != id
  {
    if bookings == [] then None
    else if bookings[0].id == id then Some(0)
    else match FindBooking(bookings[1..], id)
      case None => None
      case Some(k) => Some(k + 1)
  }

  /** A booking's owner and price were copied from the car it reserves. */
  ghost predicate CopiedFromCar(b: Booking, cars: seq<Car>)
  {
    exists c :: c in cars && c.id == b.car && c.owner == b.owner && c.price == b.price
  }
}
