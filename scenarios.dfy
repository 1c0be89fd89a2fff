/**
 * Clients of the model that walk through a search-and-book scenario, using
 * only the contracts of the operations. Car R at "NYC" is owned by user 1;
 * dates are integers compared by order, written here in yyyymmdd form.
 */
module Scenarios {

  import opened Collections
  import opened Bookings
  import opened BookingStore

  const OWNER: Id := 1
  const RENTER: Id := 2
  const OTHER: Id := 3
  const R := Car(10, "NYC", true, OWNER, 500)

  /** With R booked for June 1-5, a search inside that period leaves R out and one after it offers R. */
  method SearchScenario()
  {
    var booked := Booking(0, R.id, RENTER, OWNER, 20240601, 20240605, 500, "pending", 100);
    var inside := SearchAvailableCars([R], [booked], "NYC", 20240603, 20240604);
    assert Overlaps([booked][0], R.id, 20240603, 20240604);
    assert R !in inside;
    var after := SearchAvailableCars([R], [booked], "NYC", 20240606, 20240610);
    assert R in [R] && Listed(R, "NYC");
    assert R in after;
  }

  /** An overlapping or touching request is refused and changes nothing; a disjoint one succeeds. */
  method CreateScenario()
  {
    var store := new Store([R], "pending");
    assert FindCar(store.cars, R.id).Some?;
    var first := store.CreateBooking(RENTER, R.id, 20240601, 20240605, 100);
    assert first.Ok? && first.value.owner == OWNER && first.value.price == 500;
    assert store.bookings == [first.value];

    var clash := store.CreateBooking(OTHER, R.id, 20240603, 20240604, 101);
    assert Overlaps(store.bookings[0], R.id, 20240603, 20240604);
    assert clash == Err(NotAvailable);
    assert clash.error.Message() == "Car is not available for the selected dates";

    var touching := store.CreateBooking(OTHER, R.id, 20240520, 20240601, 102);
    assert Overlaps(store.bookings[0], R.id, 20240520, 20240601);
    assert touching == Err(NotAvailable);

    var second := store.CreateBooking(OTHER, R.id, 20240606, 20240610, 103);
    assert second.Ok?;
    assert |store.bookings| == 2;
  }

  /** Only R's owner may change a booking's status, and a cancelled booking still blocks R. */
  method StatusScenario()
  {
    var store := new Store([R], "pending");
    assert FindCar(store.cars, R.id).Some?;
    var first := store.CreateBooking(RENTER, R.id, 20240601, 20240605, 100);
    assert first.Ok? && store.bookings == [first.value];
    var firstId := first.value.id;
    assert store.bookings[0].id == firstId && store.bookings[0].owner == OWNER;

    var denied := store.ChangeBookingStatus(RENTER, firstId, "cancelled");
    assert denied == Err(Unauthorized);
    var missing := store.ChangeBookingStatus(OWNER, store.nextId, "cancelled");
    assert missing == Err(BookingNotFound);

    assert store.bookings == [first.value];
    var cancelled := store.ChangeBookingStatus(OWNER, firstId, "cancelled");
    assert cancelled.Ok? && store.bookings[0].status == "cancelled";
    var again := store.CreateBooking(OTHER, R.id, 20240602, 20240603, 104);
    assert Overlaps(store.bookings[0], R.id, 20240602, 20240603);
    assert again == Err(NotAvailable);

    var listed := OwnerBookings(store.bookings, "user", OWNER);
    assert listed == Err(Unauthorized);
  }
}
