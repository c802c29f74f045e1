/**
 * The three persistent entities the booking handlers work on. Dates are
 * calendar days counted as integers, so "the day after d" is d + 1 and the
 * difference of two dates is a whole number of days.
 */
module Models {

  /** A calendar date as a day number. */
  type Date = int

  /** The four booking states; the status selector admits no others. */
  datatype Status = Pending | Confirmed | Completed | Cancelled

  /** The five vehicle categories offered by the vehicle and search forms. */
  datatype VehicleType = Car | Van | Truck | Suv | Motorcycle

  /** An account. The password hash is not modelled. */
  datatype User = User(
    id: nat,
    username: string,
    email: string,
    firstName: string,
    lastName: string,
    phone: string,
    isAdmin: bool)

  /** A rentable vehicle; `isAvailable` is the administrative "offered at all" flag. */
  datatype Vehicle = Vehicle(
    id: nat,
    make: string,
    model: string,
    year: int,
    licensePlate: string,
    vehicleType: VehicleType,
    capacity: int,
    color: string,
    dailyRate: real,
    isAvailable: bool,
    description: string,
    features: string)

  /** The payment record kept with a booking: masked card number, holder, expiry. There is no CVV field. */
  datatype PaymentInfo = PaymentInfo(cardNumber: string, cardHolder: string, expiryDate: string)

  /** A reservation of one vehicle by one user over an inclusive date range. */
  datatype Booking = Booking(
    id: nat,
    userId: nat,
    vehicleId: nat,
    startDate: Date,
    endDate: Date,
    totalPrice: real,
    status: Status,
    paymentInfo: PaymentInfo,
    notes: string)

  /** Primary keys, as first-class functions for lookups by id. */
  function VehicleId(v: Vehicle): nat { v.id }
  function BookingId(b: Booking): nat { b.id }

  /** The user table's uniqueness constraints: ids, usernames and emails are pairwise distinct. */
  predicate UsersUnique(users: seq<User>)
  {
    forall i, j :: 0 <= i < j < |users| ==>
      users[i].id != users[j].id && users[i].username != users[j].username && users[i].email != users[j].email
  }

  /** Some stored user has this email (a `filter_by(email=...)` query that finds a row). */
  predicate EmailTaken(users: seq<User>, email: string)
  {
    exists i :: 0 <= i < |users| && users[i].email == email
  }

  /** Some stored user has this username. */
  predicate UsernameTaken(users: seq<User>, username: string)
  {
    exists i :: 0 <= i < |users| && users[i].username == username
  }
}
