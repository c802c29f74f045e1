/**
 * The application's store: the user, vehicle and booking tables, and the
 * handlers that change them. Requests are taken one at a time. Each
 * handler either refuses and changes nothing, or makes its one change.
 */
module App {
  import opened Wrappers
  import opened Models
  import opened Utils
  import opened Forms
  import opened Routes

  /** How a handler ended. */
  datatype Outcome =
    | Success
    | NotFound          // the id names no row
    | AccessDenied      // not an administrator, or not the booking's owner
    | NotBookable       // the vehicle is not offered for booking
    | FormRejected      // the submitted form failed validation
    | DatesUnavailable  // an active booking of the vehicle clashes with the range
    | NotCancellable    // the booking is neither pending nor confirmed
    | HasBookings       // bookings still reference the vehicle
    | DuplicateUser     // the user table's uniqueness constraint refused the row

  // ---------------------------------------------------------------------
  // Table invariants
  // ---------------------------------------------------------------------

  predicate VehicleExists(vehicles: seq<Vehicle>, id: nat)
  {
    exists i :: 0 <= i < |vehicles| && vehicles[i].id == id
  }

  predicate UserExists(users: seq<User>, id: nat)
  {
    exists i :: 0 <= i < |users| && users[i].id == id
  }

  /** Some booking, in any status, references the vehicle. */
  predicate HasBookingFor(bookings: seq<Booking>, vehicleId: nat)
  {
    exists i :: 0 <= i < |bookings| && bookings[i].vehicleId == vehicleId
  }

  /** Vehicle ids are distinct and every stored rate is non-negative. */
  predicate VehiclesConsistent(vehicles: seq<Vehicle>)
  {
    && (forall i, j :: 0 <= i < j < |vehicles| ==> vehicles[i].id != vehicles[j].id)
    && (forall i :: 0 <= i < |vehicles| ==> vehicles[i].dailyRate >= 0.0)
  }

  /**
   * Booking ids are distinct and below the next id to be issued; every
   * booking has an ordered range and a non-negative price, and references a
   * stored vehicle and a stored user.
   */
  predicate BookingsConsistent(bookings: seq<Booking>, users: seq<User>, vehicles: seq<Vehicle>, nextBookingId: nat)
  {
    && (forall i, j :: 0 <= i < j < |bookings| ==> bookings[i].id != bookings[j].id)
    && (forall i :: 0 <= i < |bookings| ==>
          && bookings[i].id < nextBookingId
          && bookings[i].startDate <= bookings[i].endDate
          && bookings[i].totalPrice >= 0.0
          && VehicleExists(vehicles, bookings[i].vehicleId)
          && UserExists(users, bookings[i].userId))
  }

  predicate StoreInvariant(users: seq<User>, vehicles: seq<Vehicle>, bookings: seq<Booking>, nextUserId: nat, nextBookingId: nat)
  {
    && UsersUnique(users)
    && (forall i :: 0 <= i < |users| ==> users[i].id < nextUserId)
    && VehiclesConsistent(vehicles)
    && BookingsConsistent(bookings, users, vehicles, nextBookingId)
  }

  /** No two active bookings of one vehicle share a day. */
  predicate NoDoubleBooking(bookings: seq<Booking>)
  {
    forall i, j ::
      (0 <= i < j < |bookings| && bookings[i].vehicleId == bookings[j].vehicleId
       && IsActive(bookings[i].status) && IsActive(bookings[j].status)) ==>
      !RangesOverlap(bookings[i].startDate, bookings[i].endDate, bookings[j].startDate, bookings[j].endDate)
  }

  // ---------------------------------------------------------------------
  // Double booking
  // ---------------------------------------------------------------------

  /**
   * A request whose range shares a day with an active booking of the same
   * vehicle fails the availability test: of two overlapping requests taken
   * one after the other, the second is refused.
   */
  lemma ClashingRequestRejected(bookings: seq<Booking>, k: nat, startDate: Date, endDate: Date)
    requires k < |bookings| && IsActive(bookings[k].status)
    requires bookings[k].startDate <= bookings[k].endDate && startDate <= endDate
    requires RangesOverlap(bookings[k].startDate, bookings[k].endDate, startDate, endDate)
    ensures !IsVehicleAvailable(bookings, bookings[k].vehicleId, startDate, endDate)
  {
    OverlapCasesIsIntervalOverlap(bookings[k].startDate, bookings[k].endDate, startDate, endDate);
    assert Conflicts(bookings[k], bookings[k].vehicleId, startDate, endDate);
  }

  /** Adding a booking that passed the availability test keeps active bookings of a vehicle apart. */
  lemma AvailableAppendKeepsNoDoubleBooking(bookings: seq<Booking>, b: Booking)
    requires NoDoubleBooking(bookings) && RangesWellFormed(bookings)
    requires b.startDate <= b.endDate
    requires IsVehicleAvailable(bookings, b.vehicleId, b.startDate, b.endDate)
    ensures NoDoubleBooking(bookings + [b])
  {
    var all := bookings + [b];
    forall i, j | 0 <= i < j < |all| && all[i].vehicleId == all[j].vehicleId
      && IsActive(all[i].status) && IsActive(all[j].status)
      ensures !RangesOverlap(all[i].startDate, all[i].endDate, all[j].startDate, all[j].endDate)
    {
      if j == |bookings| {
        assert all[i] == bookings[i];
        assert !Conflicts(bookings[i], b.vehicleId, b.startDate, b.endDate);
        OverlapCasesIsIntervalOverlap(bookings[i].startDate, bookings[i].endDate, b.startDate, b.endDate);
      } else {
        assert all[i] == bookings[i] && all[j] == bookings[j];
      }
    }
  }

  /** Moving a booking to a status that does not hold the vehicle keeps active bookings apart. */
  lemma DeactivateKeepsNoDoubleBooking(bookings: seq<Booking>, k: nat, status: Status)
    requires NoDoubleBooking(bookings) && k < |bookings| && !IsActive(status)
    ensures NoDoubleBooking(bookings[k := bookings[k].(status := status)])
  {
  }

  /**
   * The administrator's status override does not keep active bookings
   * apart: reopening a cancelled booking that overlaps an active one of the
   * same vehicle yields a double booking.
   */
  lemma AdminReopenCanDoubleBook(a: Booking, b: Booking)
    requires a.vehicleId == b.vehicleId && IsActive(a.status) && b.status == Cancelled
    requires RangesOverlap(a.startDate, a.endDate, b.startDate, b.endDate)
    ensures NoDoubleBooking([a, b])
    ensures !NoDoubleBooking([a, b][1 := b.(status := Pending)])
  {
    var reopened := [a, b][1 := b.(status := Pending)];
    assert reopened[0] == a && reopened[1] == b.(status := Pending);
  }

  /**
   * Appending a booking under the next id, with an ordered range, a
   * non-negative price and existing references, keeps the store consistent.
   */
  lemma AppendBookingKeepsInvariant(users: seq<User>, vehicles: seq<Vehicle>, bookings: seq<Booking>,
                                    nextUserId: nat, nextBookingId: nat, b: Booking)
    requires StoreInvariant(users, vehicles, bookings, nextUserId, nextBookingId)
    requires b.id == nextBookingId && b.startDate <= b.endDate && b.totalPrice >= 0.0
    requires VehicleExists(vehicles, b.vehicleId) && UserExists(users, b.userId)
    ensures StoreInvariant(users, vehicles, bookings + [b], nextUserId, nextBookingId + 1)
  {
    var all := bookings + [b];
    assert forall i :: 0 <= i < |bookings| ==> all[i] == bookings[i];
  }

  /** The table without the row at position k. */
  function RemoveAt(vehicles: seq<Vehicle>, k: nat): (rest: seq<Vehicle>)
    requires k < |vehicles|
    ensures |rest| == |vehicles| - 1
    ensures forall i :: 0 <= i < |rest| ==> rest[i] == vehicles[if i < k then i else i + 1]
  {
    vehicles[..k] + vehicles[k + 1..]
  }

  /**
   * Removing the row at position k keeps the table consistent and keeps
   * exactly the vehicles with another id.
   */
  lemma RemoveVehicleKeepsOthers(vehicles: seq<Vehicle>, k: nat)
    requires VehiclesConsistent(vehicles) && k < |vehicles|
    ensures VehiclesConsistent(RemoveAt(vehicles, k))
    ensures forall v :: v in RemoveAt(vehicles, k) <==> v in vehicles && v.id != vehicles[k].id
  {
    var rest := RemoveAt(vehicles, k);
    forall i, j | 0 <= i < j < |rest| ensures rest[i].id != rest[j].id {
      assert rest[i] == vehicles[if i < k then i else i + 1];
      assert rest[j] == vehicles[if j < k then j else j + 1];
    }
    forall v | v in vehicles && v.id != vehicles[k].id ensures v in rest {
      var i :| 0 <= i < |vehicles| && vehicles[i] == v;
      assert rest[if i < k then i else i - 1] == v;
    }
    forall v | v in rest ensures v in vehicles && v.id != vehicles[k].id {
      var i :| 0 <= i < |rest| && rest[i] == v;
      var j := if i < k then i else i + 1;
      assert vehicles[j] == v && j != k;
    }
  }

  /** A vehicle with another id is still found after the removal. */
  lemma RemoveVehicleKeepsReferences(vehicles: seq<Vehicle>, k: nat, id: nat)
    requires k < |vehicles| && id != vehicles[k].id && VehicleExists(vehicles, id)
    ensures VehicleExists(RemoveAt(vehicles, k), id)
  {
    var i :| 0 <= i < |vehicles| && vehicles[i].id == id;
    assert RemoveAt(vehicles, k)[if i < k then i else i - 1].id == id;
  }

  // ---------------------------------------------------------------------
  // The store
  // ---------------------------------------------------------------------

  class Store {
    var users: seq<User>
    var vehicles: seq<Vehicle>
    var bookings: seq<Booking>
    var nextUserId: nat
    var nextBookingId: nat

    predicate Valid()
      reads this
    {
      StoreInvariant(users, vehicles, bookings, nextUserId, nextBookingId)
    }

    /** A store opened on existing tables and id counters. */
    constructor (users: seq<User>, vehicles: seq<Vehicle>, bookings: seq<Booking>, nextUserId: nat, nextBookingId: nat)
      requires StoreInvariant(users, vehicles, bookings, nextUserId, nextBookingId)
      ensures Valid()
      ensures this.users == users && this.vehicles == vehicles && this.bookings == bookings
      ensures this.nextUserId == nextUserId && this.nextBookingId == nextBookingId
    {
      this.users := users;
      this.vehicles := vehicles;
      this.bookings := bookings;
      this.nextUserId := nextUserId;
      this.nextBookingId := nextBookingId;
    }

    /**
     * The administrator bootstrap: adds the administrator account unless one
     * with its email exists. Afterwards the account exists (unless its
     * username was taken by another account), and a second run changes
     * nothing.
     */
    method InitializeAdmin() returns (out: Outcome)
      requires Valid()
      modifies this
      ensures Valid()
      ensures users == WithAdmin(old(users), old(nextUserId))
      ensures nextUserId == old(nextUserId) + (|users| - |old(users)|)
      ensures vehicles == old(vehicles) && bookings == old(bookings) && nextBookingId == old(nextBookingId)
      ensures out == Success <==> EmailTaken(users, AdminEmail)
      ensures out == Success || out == DuplicateUser
      ensures old(EmailTaken(users, AdminEmail)) ==> users == old(users) && nextUserId == old(nextUserId)
    {
      if EmailTaken(users, AdminEmail) {
        return Success;
      }
      if UsernameTaken(users, AdminUsername) {
        return DuplicateUser;
      }
      WithAdminKeepsUsersUnique(users, nextUserId);
      var grown := users + [AdminUser(nextUserId)];
      assert forall id :: UserExists(users, id) ==> UserExists(grown, id) by {
        forall id | UserExists(users, id) ensures UserExists(grown, id) {
          var i :| 0 <= i < |users| && users[i].id == id;
          assert grown[i] == users[i];
        }
      }
      users := grown;
      nextUserId := nextUserId + 1;
      out := Success;
    }

    /**
     * Book a vehicle. When the session holds a searched range, it replaces
     * the submitted dates before validation. Refused, with nothing changed,
     * when the vehicle does not exist, is not offered, the form is invalid,
     * or an active booking of the vehicle clashes with the range. Otherwise exactly one pending booking
     * is added, priced from the vehicle's rate and holding only the masked
     * card number.
     */
    method BookVehicle(current: User, vehicleId: nat, submitted: BookingForm, session: Option<SessionDates>) returns (out: Outcome)
      requires Valid() && current in users
      modifies this
      ensures Valid()
      ensures users == old(users) && vehicles == old(vehicles) && nextUserId == old(nextUserId)
      ensures var form := WithSessionDates(submitted, session);
        match IndexOfId(vehicles, VehicleId, vehicleId)
        case None => out == NotFound
        case Some(k) =>
          if !vehicles[k].isAvailable then out == NotBookable
          else if !BookingFormValid(form) then out == FormRejected
          else if !IsVehicleAvailable(old(bookings), vehicleId, form.startDate.value, form.endDate.value) then out == DatesUnavailable
          else out == Success
      ensures out != Success ==> bookings == old(bookings) && nextBookingId == old(nextBookingId)
      ensures out == Success ==>
        && IndexOfId(vehicles, VehicleId, vehicleId).Some?
        && var v := vehicles[IndexOfId(vehicles, VehicleId, vehicleId).value];
        && var form := WithSessionDates(submitted, session);
        && var s, e := form.startDate.value, form.endDate.value;
        && bookings == old(bookings) + [Booking(old(nextBookingId), current.id, vehicleId, s, e,
                                               BookingPrice(v.dailyRate, s, e), Pending, PaymentFromForm(form), form.notes)]
        && nextBookingId == old(nextBookingId) + 1
      ensures NoDoubleBooking(old(bookings)) ==> NoDoubleBooking(bookings)
    {
      var found := IndexOfId(vehicles, VehicleId, vehicleId);
      if found.None? {
        return NotFound;
      }
      var vehicle := vehicles[found.value];
      if !vehicle.isAvailable {
        return NotBookable;
      }
      var form := WithSessionDates(submitted, session);
      if !BookingFormValid(form) {
        return FormRejected;
      }
      var startDate, endDate := form.startDate.value, form.endDate.value;
      if !IsVehicleAvailable(bookings, vehicle.id, startDate, endDate) {
        return DatesUnavailable;
      }
      var totalPrice := BookingPrice(vehicle.dailyRate, startDate, endDate);
      var booking := Booking(nextBookingId, current.id, vehicle.id, startDate, endDate,
                             totalPrice, Pending, PaymentFromForm(form), form.notes);
      assert UserExists(users, current.id) by {
        var i :| 0 <= i < |users| && users[i] == current;
      }
      assert VehicleExists(vehicles, vehicle.id);
      AppendBookingKeepsInvariant(users, vehicles, bookings, nextUserId, nextBookingId, booking);
      if NoDoubleBooking(bookings) {
        AvailableAppendKeepsNoDoubleBooking(bookings, booking);
      }
      var grown := bookings + [booking];
      bookings := grown;
      nextBookingId := nextBookingId + 1;
      out := Success;
    }

    /**
     * A user cancels a booking. Refused, with nothing changed, when the
     * booking does not exist, belongs to someone else, or is neither pending
     * nor confirmed; otherwise only that booking's status changes, to
     * cancelled.
     */
    method CancelBooking(current: User, bookingId: nat) returns (out: Outcome)
      requires Valid()
      modifies this
      ensures Valid()
      ensures users == old(users) && vehicles == old(vehicles)
      ensures nextUserId == old(nextUserId) && nextBookingId == old(nextBookingId)
      ensures match IndexOfId(old(bookings), BookingId, bookingId)
        case None => out == NotFound && bookings == old(bookings)
        case Some(k) =>
          if old(bookings)[k].userId != current.id then out == AccessDenied && bookings == old(bookings)
          else if !IsActive(old(bookings)[k].status) then out == NotCancellable && bookings == old(bookings)
          else out == Success && bookings == old(bookings)[k := old(bookings)[k].(status := Cancelled)]
      ensures NoDoubleBooking(old(bookings)) ==> NoDoubleBooking(bookings)
    {
      var found := IndexOfId(bookings, BookingId, bookingId);
      if found.None? {
        return NotFound;
      }
      var k := found.value;
      if bookings[k].userId != current.id {
        return AccessDenied;
      }
      if !IsActive(bookings[k].status) {
        return NotCancellable;
      }
      if NoDoubleBooking(bookings) {
        DeactivateKeepsNoDoubleBooking(bookings, k, Cancelled);
      }
      bookings := bookings[k := bookings[k].(status := Cancelled)];
      out := Success;
    }

    /**
     * An administrator deletes a vehicle. Refused, with nothing changed, for
     * a non-administrator, an unknown id, or a vehicle that any booking
     * references; otherwise only that vehicle leaves the table.
     */
    method DeleteVehicle(current: User, vehicleId: nat) returns (out: Outcome)
      requires Valid()
      modifies this
      ensures Valid()
      ensures users == old(users) && bookings == old(bookings)
      ensures nextUserId == old(nextUserId) && nextBookingId == old(nextBookingId)
      ensures !current.isAdmin ==> out == AccessDenied && vehicles == old(vehicles)
      ensures current.isAdmin ==> match IndexOfId(old(vehicles), VehicleId, vehicleId)
        case None => out == NotFound && vehicles == old(vehicles)
        case Some(k) =>
          if HasBookingFor(bookings, vehicleId) then out == HasBookings && vehicles == old(vehicles)
          else out == Success && vehicles == RemoveAt(old(vehicles), k)
      ensures out == Success ==> forall v :: v in vehicles <==> v in old(vehicles) && v.id != vehicleId
    {
      if !current.isAdmin {
        return AccessDenied;
      }
      var found := IndexOfId(vehicles, VehicleId, vehicleId);
      if found.None? {
        return NotFound;
      }
      if HasBookingFor(bookings, vehicleId) {
        return HasBookings;
      }
      var k := found.value;
      RemoveVehicleKeepsOthers(vehicles, k);
      forall i | 0 <= i < |bookings| ensures VehicleExists(RemoveAt(vehicles, k), bookings[i].vehicleId) {
        RemoveVehicleKeepsReferences(vehicles, k, bookings[i].vehicleId);
      }
      vehicles := RemoveAt(vehicles, k);
      out := Success;
    }

    /**
     * An administrator sets a booking's status and notes from the status
     * form, whatever the previous status. Refused, with nothing changed, for
     * a non-administrator, an unknown id or an invalid form.
     */
    method ManageBooking(current: User, bookingId: nat, form: BookingStatusForm) returns (out: Outcome)
      requires Valid()
      modifies this
      ensures Valid()
      ensures users == old(users) && vehicles == old(vehicles)
      ensures nextUserId == old(nextUserId) && nextBookingId == old(nextBookingId)
      ensures !current.isAdmin ==> out == AccessDenied && bookings == old(bookings)
      ensures current.isAdmin ==> match IndexOfId(old(bookings), BookingId, bookingId)
        case None => out == NotFound && bookings == old(bookings)
        case Some(k) =>
          if !BookingStatusFormValid(form) then out == FormRejected && bookings == old(bookings)
          else
            var updated := old(bookings)[k].(status := ParseStatus(form.status).value, notes := form.notes);
            out == Success && bookings == old(bookings)[k := updated]
    {
      if !current.isAdmin {
        return AccessDenied;
      }
      var found := IndexOfId(bookings, BookingId, bookingId);
      if found.None? {
        return NotFound;
      }
      if !BookingStatusFormValid(form) {
        return FormRejected;
      }
      var k := found.value;
      bookings := bookings[k := bookings[k].(status := ParseStatus(form.status).value, notes := form.notes)];
      out := Success;
    }
  }

  /** Two accepted booking forms for the same vehicle over overlapping ranges. */
  lemma SampleFormsValid()
    ensures BookingFormValid(BookingForm(Some(0), Some(6), false, false, "4111111111111111", "A", "12/30", "123", ""))
    ensures BookingFormValid(BookingForm(Some(4), Some(9), false, false, "5500000000000004", "B", "11/29", "456", ""))
  {
    assert !IsBlankChar('4') && !IsBlankChar('5') && !IsBlankChar('A') && !IsBlankChar('B') && !IsBlankChar('1');
    assert "4111111111111111"[0] == '4' && "5500000000000004"[0] == '5';
    assert "A"[0] == 'A' && "B"[0] == 'B' && "12/30"[0] == '1' && "11/29"[0] == '1' && "123"[0] == '1';
    assert "456"[0] == '4';
  }

  /**
   * A client of the handlers' contracts. At a daily rate of 100, a seven-day
   * booking costs 630. A second user, whose session holds an overlapping
   * searched range, submits a form without dates: the searched range is
   * used, and the request is refused.
   */
  method RebookAfterCancellation()
  {
    var owner := User(1, "alice", "alice@example.com", "Alice", "Smith", "555-0001", false);
    var other := User(2, "bob", "bob@example.com", "Bob", "Jones", "555-0002", false);
    var van := Vehicle(1, "Ford", "Transit", 2020, "AB-123", Van, 8, "white", 100.0, true, "", "");
    var store := new Store([owner, other], [van], [], 3, 1);
    var first := BookingForm(Some(0), Some(6), false, false, "4111111111111111", "A", "12/30", "123", "");
    var second := BookingForm(None, None, false, false, "5500000000000004", "B", "11/29", "456", "");
    var searched := SessionAfterSearch(None, SearchForm("", Some(4), Some(9), false, None, None));
    assert WithSessionDates(second, searched) == second.(startDate := Some(4), endDate := Some(9));
    SampleFormsValid();
    PriceExamples();
    assert IndexOfId(store.vehicles, VehicleId, 1) == Some(0);

    var out := store.BookVehicle(owner, 1, first, None);
    assert out == Success;
    var held := Booking(1, 1, 1, 0, 6, 630.0, Pending, PaymentFromForm(first), "");
    assert store.bookings == [held];

    ClashingRequestRejected(store.bookings, 0, 4, 9);
    out := store.BookVehicle(other, 1, second, searched);
    assert out == DatesUnavailable;

    CancelThenRebook(store, owner, other, second, searched);
  }

  /**
   * Continuing the scenario above: once the owner cancels the only booking,
   * the refused six-day request over the searched range goes through, at 600.
   */
  method CancelThenRebook(store: Store, owner: User, other: User, form: BookingForm, session: Option<SessionDates>)
    requires store.Valid() && owner in store.users && other in store.users && other.id == 2
    requires session == Some(SessionDates(4, 9)) && BookingFormValid(WithSessionDates(form, session))
    requires |store.vehicles| == 1 && store.vehicles[0].id == 1
    requires store.vehicles[0].isAvailable && store.vehicles[0].dailyRate == 100.0
    requires |store.bookings| == 1 && store.bookings[0].id == 1 && store.bookings[0].userId == owner.id
    requires store.bookings[0].vehicleId == 1 && IsActive(store.bookings[0].status)
    modifies store
  {
    assert IndexOfId(store.bookings, BookingId, 1) == Some(0);
    var out := store.CancelBooking(owner, 1);
    assert out == Success;
    assert |store.bookings| == 1 && store.bookings[0].status == Cancelled;
    assert IsVehicleAvailable(store.bookings, 1, 4, 9);

    assert IndexOfId(store.vehicles, VehicleId, 1) == Some(0);
    out := store.BookVehicle(other, 1, form, session);
    assert out == Success;
    PriceExamples();
    assert |store.bookings| == 2 && store.bookings[1].totalPrice == 600.0 && store.bookings[1].userId == 2;
  }
}
