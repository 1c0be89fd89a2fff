/**
 * The two handlers of the booking controller that write to the booking
 * collection, over a store object that holds the collection. The car
 * collection is read-only here. Identifiers of new bookings come from a
 * counter (standing for the store's unique document ids) and the creation
 * time is passed in by the caller (standing for the store's clock).
 */
module BookingStore {

  import opened Collections
  import opened Bookings

  class Store {
    var bookings: seq<Booking>
    const cars: seq<Car>
    /** The status the booking schema gives a new booking. */
    const defaultStatus: string
    var nextId: Id

    /**
     * Booking ids are unique and below `nextId`, every booking's owner and
     * price come from its car, and no car is booked twice for overlapping dates.
     */
    ghost predicate Valid()
      reads this
    {
      && (forall i :: 0 <= i < |bookings| ==> bookings[i].id < nextId)
      && (forall i, j :: 0 <= i < j < |bookings| ==> bookings[i].id != bookings[j].id)
      && (forall i :: 0 <= i < |bookings| ==> CopiedFromCar(bookings[i], cars))
      && NoDoubleBooking(bookings)
    }

    constructor (cars: seq<Car>, defaultStatus: string)
      ensures Valid()
      ensures bookings == [] && this.cars == cars && this.defaultStatus == defaultStatus
    {
      this.cars := cars;
      this.defaultStatus := defaultStatus;
      bookings := [];
      nextId := 0;
    }

    /**
     * `createBooking`: re-checks availability, then looks the car up and
     * appends one booking that copies the car's owner and price.
     */
    method CreateBooking(user: Id, car: Id, bookDate: int, purchaseDate: int, now: int) returns (r: Result<Booking>)
      requires Valid()
      modifies this
      ensures Valid()
      ensures r.Ok? <==> CheckAvailability(old(bookings), car, bookDate, purchaseDate) && FindCar(cars, car).Some?
      ensures !CheckAvailability(old(bookings), car, bookDate, purchaseDate) ==> r == Err(NotAvailable)
      ensures CheckAvailability(old(bookings), car, bookDate, purchaseDate) && FindCar(cars, car).None? ==>
        r == Err(CarNotFound)
      ensures r.Err? ==> bookings == old(bookings) && nextId == old(nextId)
      ensures r.Ok? ==> bookings == old(bookings) + [r.value]
      ensures r.Ok? ==>
        && r.value.car == car && r.value.user == user
        && r.value.owner == FindCar(cars, car).value.owner
        && r.value.price == FindCar(cars, car).value.price
        && r.value.bookDate == bookDate && r.value.purchaseDate == purchaseDate
        && r.value.status == defaultStatus && r.value.createdAt == now
      ensures r.Ok? ==> r.value.id == old(nextId) && nextId == old(nextId) + 1
      ensures r.Ok? ==> forall i :: 0 <= i < |old(bookings)| ==> old(bookings)[i].id != r.value.id
    {
      if !CheckAvailability(bookings, car, bookDate, purchaseDate) {
        return Err(NotAvailable);
      }
      var carData := FindCar(cars, car);
      if carData.None? {
        return Err(CarNotFound);
      }
      var added := Booking(nextId, car, user, carData.value.owner, bookDate, purchaseDate,
                           carData.value.price, defaultStatus, now);
      AppendKeepsNoDoubleBooking(bookings, added);
      bookings := bookings + [added];
      nextId := nextId + 1;
      r := Ok(added);
    }

    /**
     * `changeBookingStatus`: only the owner recorded on the booking may
     * change it; the new status is stored as given.
     */
    method ChangeBookingStatus(caller: Id, bookingId: Id, status: string) returns (r: Result<Booking>)
      requires Valid()
      modifies this
      ensures Valid()
      ensures nextId == old(nextId)
      ensures r == Err(BookingNotFound) <==> forall i :: 0 <= i < |old(bookings)| ==> old(bookings)[i].id != bookingId
      ensures r == Err(Unauthorized) <==>
        exists i :: 0 <= i < |old(bookings)| && old(bookings)[i].id == bookingId && old(bookings)[i].owner != caller
      ensures r.Err? ==> r.error in {BookingNotFound, Unauthorized} && bookings == old(bookings)
      ensures r.Ok? ==> r.value.id == bookingId && r.value.owner == caller && r.value.status == status
      ensures |bookings| == |old(bookings)|
      ensures forall i :: 0 <= i < |bookings| ==>
        bookings[i] == if r.Ok? && old(bookings)[i].id == bookingId then r.value else old(bookings)[i]
      ensures forall i :: 0 <= i < |bookings| ==> bookings[i] == old(bookings)[i].(status := bookings[i].status)
    {
      var found := FindBooking(bookings, bookingId);
      if found.None? {
        return Err(BookingNotFound);
      }
      var k := found.value;
      if bookings[k].owner != caller {
        return Err(Unauthorized);
      }
      var updated := bookings[k].(status := status);
      StatusChangeKeepsNoDoubleBooking(bookings, k, status);
      bookings := bookings[k := updated];
      r := Ok(updated);
    }
  }
}
