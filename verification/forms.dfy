/**
 * The input forms the handlers validate before acting. Each form is a record
 * of its submitted fields, and its validity predicate is the conjunction of
 * the field validators:
 *  - a required field rejects an empty or all-blank text, and a zero number;
 *  - an optional field that is left blank skips its remaining validators;
 *  - a length bound counts characters;
 *  - a selector admits only its listed choices.
 */
module Forms {
  import opened Wrappers
  import opened Models
  import Utils

  // ---------------------------------------------------------------------
  // Field validators
  // ---------------------------------------------------------------------

  /**
   * The blank characters stripped before a required-field test: space, tab,
   * line feed, carriage return, vertical tab and form feed.
   */
  predicate IsBlankChar(c: char)
  {
    c == ' ' || c == '\t' || c == '\n' || c == '\r' || c == '\U{B}' || c == '\U{C}'
  }

  predicate Blank(s: string)
  {
    forall i :: 0 <= i < |s| ==> IsBlankChar(s[i])
  }

  /** A required text field with a length bound. */
  predicate RequiredText(s: string, minLen: nat, maxLen: nat)
  {
    !Blank(s) && minLen <= |s| <= maxLen
  }

  /** An optional text field with a maximum length: blank input stops validation. */
  predicate OptionalText(s: string, maxLen: nat)
  {
    Blank(s) || |s| <= maxLen
  }

  // ---------------------------------------------------------------------
  // Choice lists
  // ---------------------------------------------------------------------

  function StatusName(status: Status): string
  {
    match status
    case Pending => "pending"
    case Confirmed => "confirmed"
    case Completed => "completed"
    case Cancelled => "cancelled"
  }

  /** The status selector: a submitted value is one of the four status names. */
  function ParseStatus(s: string): (r: Option<Status>)
    ensures r.Some? ==> StatusName(r.value) == s
  {
    if s == "pending" then Some(Pending)
    else if s == "confirmed" then Some(Confirmed)
    else if s == "completed" then Some(Completed)
    else if s == "cancelled" then Some(Cancelled)
    else None
  }

  /** Every status is offered by the selector under its own name. */
  lemma StatusNameRoundTrip(status: Status)
    ensures ParseStatus(StatusName(status)) == Some(status)
  {
    match status
    case Pending =>
    case Confirmed =>
    case Completed =>
    case Cancelled =>
  }

  function VehicleTypeName(t: VehicleType): string
  {
    match t
    case Car => "car"
    case Van => "van"
    case Truck => "truck"
    case Suv => "suv"
    case Motorcycle => "motorcycle"
  }

  /** The vehicle-type selector: one of the five type names. */
  function ParseVehicleType(s: string): (r: Option<VehicleType>)
    ensures r.Some? ==> VehicleTypeName(r.value) == s
  {
    if s == "car" then Some(Car)
    else if s == "van" then Some(Van)
    else if s == "truck" then Some(Truck)
    else if s == "suv" then Some(Suv)
    else if s == "motorcycle" then Some(Motorcycle)
    else None
  }

  /** Every vehicle type is offered by the selector under its own name. */
  lemma VehicleTypeNameRoundTrip(t: VehicleType)
    ensures ParseVehicleType(VehicleTypeName(t)) == Some(t)
  {
    match t
    case Car =>
    case Van =>
    case Truck =>
    case Suv =>
    case Motorcycle =>
  }

  // ---------------------------------------------------------------------
  // Registration
  // ---------------------------------------------------------------------

  datatype RegistrationForm = RegistrationForm(
    username: string,
    email: string,
    password: string,
    confirmPassword: string,
    firstName: string,
    lastName: string,
    phone: string)

  /**
   * Registration is accepted when every field is in range, the confirmation
   * matches, and neither the username nor the email is already stored.
   */
  predicate RegistrationFormValid(f: RegistrationForm, users: seq<User>)
  {
    && RequiredText(f.username, 3, 20)
    && !Blank(f.email)
    && !Blank(f.password) && |f.password| >= 6
    && !Blank(f.confirmPassword) && f.confirmPassword == f.password
    && RequiredText(f.firstName, 0, 64)
    && RequiredText(f.lastName, 0, 64)
    && RequiredText(f.phone, 0, 20)
    && !UsernameTaken(users, f.username)
    && !EmailTaken(users, f.email)
  }

  /**
   * The uniqueness validators are what keep the user table's constraints: a
   * user registered from an accepted form, under a fresh id, can be added
   * without creating a duplicate username or email.
   */
  lemma RegistrationKeepsUsersUnique(users: seq<User>, f: RegistrationForm, u: User)
    requires UsersUnique(users) && RegistrationFormValid(f, users)
    requires u.username == f.username && u.email == f.email
    requires forall i :: 0 <= i < |users| ==> users[i].id != u.id
    ensures UsersUnique(users + [u])
    ensures 3 <= |u.username| <= 20
  {
    var r := users + [u];
    forall i, j | 0 <= i < j < |r|
      ensures r[i].id != r[j].id && r[i].username != r[j].username && r[i].email != r[j].email
    {
      if j == |users| {
        assert r[i] == users[i];
      }
    }
  }

  // ---------------------------------------------------------------------
  // Vehicle
  // ---------------------------------------------------------------------

  datatype VehicleForm = VehicleForm(
    make: string,
    model: string,
    year: int,
    licensePlate: string,
    vehicleType: string,
    capacity: int,
    color: string,
    dailyRate: real,
    isAvailable: bool,
    description: string,
    features: string)

  /** The vehicle form's validators; a number field that is required also rejects zero. */
  predicate VehicleFormValid(f: VehicleForm)
  {
    && RequiredText(f.make, 0, 64)
    && RequiredText(f.model, 0, 64)
    && f.year != 0 && 1900 <= f.year <= 2100
    && RequiredText(f.licensePlate, 0, 20)
    && !Blank(f.vehicleType) && ParseVehicleType(f.vehicleType).Some?
    && f.capacity != 0 && 1 <= f.capacity <= 50
    && RequiredText(f.color, 0, 20)
    && f.dailyRate != 0.0 && f.dailyRate >= 0.0
    && OptionalText(f.description, 1000)
    && OptionalText(f.features, 500)
  }

  /**
   * The daily-rate range admits zero, but the required-field check rejects
   * it first: an accepted vehicle form always has a strictly positive rate.
   */
  lemma VehicleFormRatePositive(f: VehicleForm)
    requires VehicleFormValid(f)
    ensures f.dailyRate > 0.0
    ensures Utils.BookingPrice(f.dailyRate, 0, 0) > 0.0
  {
  }

  // ---------------------------------------------------------------------
  // Booking
  // ---------------------------------------------------------------------

  /**
   * A submitted booking form. A date is None when its field was not
   * submitted; a `...Malformed` flag records a submitted date text that did
   * not parse (an empty box included). The field keeps reporting that error
   * even when the handler later replaces the date's value.
   */
  datatype BookingForm = BookingForm(
    startDate: Option<Date>,
    endDate: Option<Date>,
    startDateMalformed: bool,
    endDateMalformed: bool,
    cardNumber: string,
    cardHolder: string,
    expiryDate: string,
    cvv: string,
    notes: string)

  /** The end-date validator: it only compares when both dates were parsed. */
  predicate EndDateValid(f: BookingForm)
  {
    !(f.startDate.Some? && f.endDate.Some? && f.endDate.value < f.startDate.value)
  }

  predicate BookingFormValid(f: BookingForm)
  {
    && f.startDate.Some? && f.endDate.Some?
    && !f.startDateMalformed && !f.endDateMalformed
    && RequiredText(f.cardNumber, 13, 19)
    && RequiredText(f.cardHolder, 0, 100)
    && RequiredText(f.expiryDate, 5, 5)
    && RequiredText(f.cvv, 3, 4)
    && OptionalText(f.notes, 500)
    && EndDateValid(f)
  }

  /**
   * The end-date check rejects exactly a range that ends before it starts; a
   * single-day booking (end equal to start) is accepted. An accepted form
   * therefore covers at least one day and, at a non-negative rate, has a
   * non-negative price.
   */
  lemma BookingFormDates(f: BookingForm, dailyRate: real)
    requires f.startDate.Some? && f.endDate.Some?
    ensures EndDateValid(f) <==> f.startDate.value <= f.endDate.value
    ensures BookingFormValid(f) ==> Utils.BookingDays(f.startDate.value, f.endDate.value) >= 1
    ensures BookingFormValid(f) && dailyRate >= 0.0 ==>
      Utils.BookingPrice(dailyRate, f.startDate.value, f.endDate.value) >= 0.0
  {
  }

  // ---------------------------------------------------------------------
  // Search
  // ---------------------------------------------------------------------

  /**
   * The search form; an empty vehicle type means "all types", a date left
   * blank is None, and `dateMalformed` records a non-blank date text that did
   * not parse.
   */
  datatype SearchForm = SearchForm(
    vehicleType: string,
    startDate: Option<Date>,
    endDate: Option<Date>,
    dateMalformed: bool,
    maxPrice: Option<real>,
    capacity: Option<int>)

  /** The type must be a listed choice; the dates are optional and not compared with each other. */
  predicate SearchFormValid(f: SearchForm)
  {
    && (f.vehicleType == "" || ParseVehicleType(f.vehicleType).Some?)
    && !f.dateMalformed
    && (f.maxPrice.Some? ==> f.maxPrice.value >= 0.0)
    && (f.capacity.Some? ==> f.capacity.value >= 1)
  }

  /** The search form with every field left empty. */
  const EmptySearch: SearchForm := SearchForm("", None, None, false, None, None)

  // ---------------------------------------------------------------------
  // Booking status (administrator)
  // ---------------------------------------------------------------------

  datatype BookingStatusForm = BookingStatusForm(status: string, notes: string)

  predicate BookingStatusFormValid(f: BookingStatusForm)
  {
    !Blank(f.status) && ParseStatus(f.status).Some? && OptionalText(f.notes, 500)
  }
}
