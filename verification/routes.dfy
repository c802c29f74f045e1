/**
 * The request handlers' pure parts: lookups by primary key, the vehicle
 * search, the card-number mask stored with a booking, and the per-status
 * counts in the administrator's report. The handlers that change the store
 * are methods of `App.Store`.
 */
module Routes {
  import opened Wrappers
  import opened Models
  import opened Utils
  import opened Forms

  // ---------------------------------------------------------------------
  // Lookups and filters over tables
  // ---------------------------------------------------------------------

  /** Position of the first row with the given primary key, or None (a "not found" response). */
  function IndexOfId<T>(rows: seq<T>, idOf: T -> nat, id: nat): (r: Option<nat>)
    ensures r.Some? ==> r.value < |rows| && idOf(rows[r.value]) == id
    ensures r.Some? ==> forall j :: 0 <= j < r.value ==> idOf(rows[j]) != id
    ensures r.None? <==> forall j :: 0 <= j < |rows| ==> idOf(rows[j]) != id
  {
    if rows == [] then None
    else if idOf(rows[0]) == id then Some(0)
    else
      var rest := IndexOfId(rows[1..], idOf, id);
      assert forall j :: 1 <= j < |rows| ==> rows[j] == rows[1..][j - 1];
      match rest
      case None => None
      case Some(k) => Some(k + 1)
  }

  /** The rows a query filter keeps, in table order. */
  function Filter<T(==,!new)>(rows: seq<T>, keep: T -> bool): (r: seq<T>)
    ensures |r| <= |rows|
    ensures forall x :: x in r <==> x in rows && keep(x)
  {
    if rows == [] then []
    else
      var rest := Filter(rows[1..], keep);
      assert forall x :: x in rows <==> x == rows[0] || x in rows[1..];
      if keep(rows[0]) then [rows[0]] + rest else rest
  }

  // ---------------------------------------------------------------------
  // Search
  // ---------------------------------------------------------------------

  /** A request range clashes with an active booking, whatever its vehicle. */
  predicate BlocksRange(b: Booking, startDate: Date, endDate: Date)
  {
    IsActive(b.status) && OverlapCases(b.startDate, b.endDate, startDate, endDate)
  }

  lemma AvailableUnfold(bookings: seq<Booking>, vehicleId: nat, startDate: Date, endDate: Date)
    requires bookings != []
    ensures IsVehicleAvailable(bookings, vehicleId, startDate, endDate) <==>
      !Conflicts(bookings[0], vehicleId, startDate, endDate) &&
      IsVehicleAvailable(bookings[1..], vehicleId, startDate, endDate)
  {
    var tail := bookings[1..];
    assert forall i :: 1 <= i < |bookings| ==> bookings[i] == tail[i - 1];
    if !IsVehicleAvailable(bookings, vehicleId, startDate, endDate) {
      var i :| 0 <= i < |bookings| && Conflicts(bookings[i], vehicleId, startDate, endDate);
      if i > 0 {
        assert Conflicts(tail[i - 1], vehicleId, startDate, endDate);
      }
    }
    if !IsVehicleAvailable(tail, vehicleId, startDate, endDate) {
      var i :| 0 <= i < |tail| && Conflicts(tail[i], vehicleId, startDate, endDate);
      assert Conflicts(bookings[i + 1], vehicleId, startDate, endDate);
    }
  }

  /**
   * The vehicle ids of every active booking that clashes with the range,
   * whatever vehicle it is for. A vehicle is among them exactly when the
   * per-vehicle availability test fails for it.
   */
  function UnavailableVehicleIds(bookings: seq<Booking>, startDate: Date, endDate: Date): (ids: seq<nat>)
    ensures forall id :: id in ids <==> !IsVehicleAvailable(bookings, id, startDate, endDate)
  {
    if bookings == [] then []
    else
      var b := bookings[0];
      var rest := UnavailableVehicleIds(bookings[1..], startDate, endDate);
      var ids := (if BlocksRange(b, startDate, endDate) then [b.vehicleId] else []) + rest;
      assert forall id :: id in ids <==> !IsVehicleAvailable(bookings, id, startDate, endDate) by {
        forall id ensures id in ids <==> !IsVehicleAvailable(bookings, id, startDate, endDate) {
          AvailableUnfold(bookings, id, startDate, endDate);
        }
      }
      ids
  }

  /**
   * The vehicle list for a submitted search form. It starts from the
   * vehicles flagged available. A form that fails validation applies no
   * filter. Each filter applies only when its field is non-empty and
   * non-zero, and the filters are conjunctive. When both dates are given,
   * vehicles with a clashing active booking are dropped.
   */
  function SearchVehicles(vehicles: seq<Vehicle>, bookings: seq<Booking>, f: SearchForm): (r: seq<Vehicle>)
    ensures forall v :: v in r ==> v in vehicles && v.isAvailable
  {
    var flagged := Filter(vehicles, (v: Vehicle) => v.isAvailable);
    if !SearchFormValid(f) then flagged
    else
      var byType :=
        if f.vehicleType != "" then Filter(flagged, (v: Vehicle) => VehicleTypeName(v.vehicleType) == f.vehicleType)
        else flagged;
      var byPrice :=
        if f.maxPrice.Some? && f.maxPrice.value != 0.0 then
          var maxPrice := f.maxPrice.value;
          Filter(byType, (v: Vehicle) => v.dailyRate <= maxPrice)
        else byType;
      var byCapacity :=
        if f.capacity.Some? && f.capacity.value != 0 then
          var minCapacity := f.capacity.value;
          Filter(byPrice, (v: Vehicle) => v.capacity >= minCapacity)
        else byPrice;
      if f.startDate.Some? && f.endDate.Some? then
        var ids := UnavailableVehicleIds(bookings, f.startDate.value, f.endDate.value);
        if ids != [] then Filter(byCapacity, (v: Vehicle) => v.id !in ids) else byCapacity
      else byCapacity
  }

  // ---------------------------------------------------------------------
  // Search dates kept in the session
  // ---------------------------------------------------------------------

  /** The date range a search leaves in the user's session. */
  datatype SessionDates = SessionDates(startDate: Date, endDate: Date)

  /**
   * The session after a submitted search: an accepted form giving both dates
   * stores them, replacing any earlier range; any other search leaves the
   * session as it was.
   */
  function SessionAfterSearch(session: Option<SessionDates>, f: SearchForm): (r: Option<SessionDates>)
    ensures r != session ==> SearchFormValid(f) && f.startDate.Some? && f.endDate.Some?
    ensures SearchFormValid(f) && f.startDate.Some? && f.endDate.Some? ==>
      r.Some? && r.value.startDate == f.startDate.value && r.value.endDate == f.endDate.value
  {
    if SearchFormValid(f) && f.startDate.Some? && f.endDate.Some? then
      Some(SessionDates(f.startDate.value, f.endDate.value))
    else session
  }

  /**
   * The booking form as the booking handler validates it: when the session
   * holds a search range, that range replaces the submitted dates, on every
   * request; the other fields are the submitted ones.
   */
  function WithSessionDates(form: BookingForm, session: Option<SessionDates>): (r: BookingForm)
    ensures r.cardNumber == form.cardNumber && r.cardHolder == form.cardHolder && r.expiryDate == form.expiryDate
    ensures r.cvv == form.cvv && r.notes == form.notes
    ensures r.startDateMalformed == form.startDateMalformed && r.endDateMalformed == form.endDateMalformed
    ensures session.None? ==> r == form
    ensures session.Some? ==> r.startDate == Some(session.value.startDate) && r.endDate == Some(session.value.endDate)
  {
    match session
    case None => form
    case Some(d) => form.(startDate := Some(d.startDate), endDate := Some(d.endDate))
  }

  /**
   * After a search with both dates, the dates typed into any later booking
   * form are ignored as long as they parse: two forms that differ only in
   * their parsed dates are validated, checked and priced over the same
   * range, the searched one.
   */
  lemma SearchDatesOverrideBooking(session: Option<SessionDates>, f: SearchForm, form1: BookingForm, form2: BookingForm)
    requires SearchFormValid(f) && f.startDate.Some? && f.endDate.Some?
    requires form1.(startDate := None, endDate := None) == form2.(startDate := None, endDate := None)
    ensures var after := SessionAfterSearch(session, f);
      && WithSessionDates(form1, after) == WithSessionDates(form2, after)
      && WithSessionDates(form1, after).startDate == f.startDate
      && WithSessionDates(form1, after).endDate == f.endDate
  {
  }

  /**
   * A submitted date that did not parse rejects the booking form, whatever
   * range the session supplies.
   */
  lemma MalformedDateRejected(form: BookingForm, session: Option<SessionDates>)
    requires form.startDateMalformed || form.endDateMalformed
    ensures !BookingFormValid(WithSessionDates(form, session))
  {
  }

  /**
   * The search criteria judged one vehicle at a time, with the
   * per-vehicle availability test in place of the id exclusion list.
   */
  predicate SearchMatches(v: Vehicle, bookings: seq<Booking>, f: SearchForm)
  {
    && v.isAvailable
    && (f.vehicleType != "" ==> VehicleTypeName(v.vehicleType) == f.vehicleType)
    && (f.maxPrice.Some? && f.maxPrice.value > 0.0 ==> v.dailyRate <= f.maxPrice.value)
    && (f.capacity.Some? ==> v.capacity >= f.capacity.value)
    && (f.startDate.Some? && f.endDate.Some? ==>
          IsVehicleAvailable(bookings, v.id, f.startDate.value, f.endDate.value))
  }

  /**
   * For an accepted form, a vehicle is listed exactly when it matches every
   * given criterion; in particular, the exclusion list built from all
   * clashing bookings removes the same vehicles as the per-vehicle test.
   */
  lemma SearchMembership(vehicles: seq<Vehicle>, bookings: seq<Booking>, f: SearchForm)
    requires SearchFormValid(f)
    ensures forall v :: v in SearchVehicles(vehicles, bookings, f) <==> v in vehicles && SearchMatches(v, bookings, f)
  {
    if f.startDate.Some? && f.endDate.Some? {
      var ids := UnavailableVehicleIds(bookings, f.startDate.value, f.endDate.value);
      if ids == [] {
        forall v: Vehicle ensures IsVehicleAvailable(bookings, v.id, f.startDate.value, f.endDate.value) {
          assert v.id !in ids;
        }
      }
    }
  }

  /** With no criteria, the search lists exactly the vehicles flagged available, in table order. */
  lemma EmptySearchListsFlagged(vehicles: seq<Vehicle>, bookings: seq<Booking>)
    ensures SearchVehicles(vehicles, bookings, EmptySearch) == Filter(vehicles, (v: Vehicle) => v.isAvailable)
  {
  }

  /**
   * A form that fails validation applies no criterion at all: the result is
   * every vehicle flagged available, whatever type, price ceiling, capacity
   * or dates it asked for.
   */
  lemma InvalidSearchListsFlagged(vehicles: seq<Vehicle>, bookings: seq<Booking>, f: SearchForm)
    requires !SearchFormValid(f)
    ensures SearchVehicles(vehicles, bookings, f) == Filter(vehicles, (v: Vehicle) => v.isAvailable)
    ensures forall v :: v in SearchVehicles(vehicles, bookings, f) <==> v in vehicles && v.isAvailable
  {
  }

  /**
   * A maximum rate of zero is submitted but, being zero, does not filter:
   * the result is the same as with no maximum rate.
   */
  lemma ZeroMaxPriceIgnored(vehicles: seq<Vehicle>, bookings: seq<Booking>, f: SearchForm)
    ensures SearchVehicles(vehicles, bookings, f.(maxPrice := Some(0.0))) ==
            SearchVehicles(vehicles, bookings, f.(maxPrice := None))
  {
  }

  // ---------------------------------------------------------------------
  // Payment record
  // ---------------------------------------------------------------------

  const CardMaskPrefix: string := "xxxx-xxxx-xxxx-"

  /** The last four characters of a string, or all of a shorter one. */
  function LastFour(s: string): (r: string)
    ensures |r| == if |s| >= 4 then 4 else |s|
    ensures r == s[|s| - |r|..]
  {
    if |s| >= 4 then s[|s| - 4..] else s
  }

  /** The stored card number: a fixed mask followed by the card's last four characters. */
  function MaskCardNumber(cardNumber: string): (m: string)
  {
    CardMaskPrefix + LastFour(cardNumber)
  }

  /** The payment record kept with a booking: the masked number, holder and expiry; never the CVV. */
  function PaymentFromForm(f: BookingForm): PaymentInfo
  {
    PaymentInfo(MaskCardNumber(f.cardNumber), f.cardHolder, f.expiryDate)
  }

  /**
   * For an accepted booking form the stored number is always nineteen
   * characters: the mask and then the card's last four, so at least nine
   * characters of the card are never stored.
   */
  lemma MaskKeepsOnlyLastFour(f: BookingForm)
    requires BookingFormValid(f)
    ensures var m := PaymentFromForm(f).cardNumber;
      && |m| == 19
      && m[..15] == CardMaskPrefix
      && m[15..] == f.cardNumber[|f.cardNumber| - 4..]
      && |f.cardNumber| - 4 >= 9
  {
  }

  // ---------------------------------------------------------------------
  // Status counts
  // ---------------------------------------------------------------------

  /** Number of bookings in the given status. */
  function CountStatus(bookings: seq<Booking>, status: Status): (n: nat)
    ensures n <= |bookings|
    ensures n == 0 <==> forall i :: 0 <= i < |bookings| ==> bookings[i].status != status
  {
    if bookings == [] then 0
    else
      var rest := CountStatus(bookings[1..], status);
      assert forall i :: 1 <= i < |bookings| ==> bookings[i] == bookings[1..][i - 1];
      (if bookings[0].status == status then 1 else 0) + rest
  }

  /** Every booking is in exactly one of the four statuses, so the four counts add up to the total. */
  lemma {:induction false} StatusCountsCoverAll(bookings: seq<Booking>)
    ensures CountStatus(bookings, Pending) + CountStatus(bookings, Confirmed)
          + CountStatus(bookings, Completed) + CountStatus(bookings, Cancelled) == |bookings|
  {
    if bookings != [] {
      StatusCountsCoverAll(bookings[1..]);
    }
  }

  /**
   * Replacing one booking moves it from its old status's count to its new
   * status's count; every other count stays the same.
   */
  lemma {:induction false} CountAfterUpdate(bookings: seq<Booking>, i: nat, b: Booking, status: Status)
    requires i < |bookings|
    ensures CountStatus(bookings[i := b], status) ==
      CountStatus(bookings, status) - (if bookings[i].status == status then 1 else 0) + (if b.status == status then 1 else 0)
  {
    if i > 0 {
      CountAfterUpdate(bookings[1..], i - 1, b, status);
      assert bookings[i := b][1..] == bookings[1..][i - 1 := b];
    }
  }

  datatype StatusReport = StatusReport(pending: nat, confirmed: nat, completed: nat, cancelled: nat)

  /**
   * The report's per-status counts, shown only to an administrator; they
   * always account for every booking.
   */
  function AdminStatusReport(current: User, bookings: seq<Booking>): (r: Option<StatusReport>)
    ensures r.Some? <==> current.isAdmin
    ensures r.Some? ==>
      && r.value.pending == CountStatus(bookings, Pending)
      && r.value.confirmed == CountStatus(bookings, Confirmed)
      && r.value.completed == CountStatus(bookings, Completed)
      && r.value.cancelled == CountStatus(bookings, Cancelled)
    ensures r.Some? ==> r.value.pending + r.value.confirmed + r.value.completed + r.value.cancelled == |bookings|
  {
    if !current.isAdmin then None
    else
      StatusCountsCoverAll(bookings);
      Some(StatusReport(
        CountStatus(bookings, Pending), CountStatus(bookings, Confirmed),
        CountStatus(bookings, Completed), CountStatus(bookings, Cancelled)))
  }
}
