/**
 * The helpers the booking handlers call: the price of a date range, the
 * per-vehicle availability test, and the administrator bootstrap.
 */
module Utils {
  import opened Models

  // ---------------------------------------------------------------------
  // Pricing
  // ---------------------------------------------------------------------

  /** Number of days a booking covers; both end points count. */
  function BookingDays(startDate: Date, endDate: Date): int
  {
    endDate - startDate + 1
  }

  /** The branch of the discount ladder that fires. */
  datatype DiscountTier = NoDiscount | WeekDiscount | MonthDiscount

  /**
   * The ladder is tested week-first, so every booking long enough for the
   * month tier has already taken the week tier: the month tier never fires.
   */
  function Tier(days: int): (t: DiscountTier)
    ensures t != MonthDiscount
    ensures t == NoDiscount <==> days < 7
  {
    if days >= 7 then WeekDiscount
    else if days >= 30 then MonthDiscount
    else NoDiscount
  }

  /** Price of a booking before rounding to cents. */
  function BookingPrice(dailyRate: real, startDate: Date, endDate: Date): (price: real)
    ensures startDate <= endDate && 0.0 <= dailyRate ==>
      0.0 <= price <= dailyRate * BookingDays(startDate, endDate) as real
  {
    var days := BookingDays(startDate, endDate);
    var total := dailyRate * days as real;
    assert startDate <= endDate && 0.0 <= dailyRate ==> 0.0 <= total;
    match Tier(days)
    case WeekDiscount => total * 0.9
    case MonthDiscount => total * 0.8
    case NoDiscount => total
  }

  /** A booking of fewer than seven days pays the full daily rate for each day. */
  lemma ShortBookingFullPrice(dailyRate: real, startDate: Date, endDate: Date)
    requires startDate <= endDate < startDate + 6
    ensures BookingDays(startDate, endDate) >= 1
    ensures BookingPrice(dailyRate, startDate, endDate) == dailyRate * BookingDays(startDate, endDate) as real
  {
  }

  /** Every booking of seven days or more, a month-long one included, gets ten percent off. */
  lemma LongBookingTenPercentOff(dailyRate: real, startDate: Date, endDate: Date)
    requires endDate >= startDate + 6
    ensures BookingPrice(dailyRate, startDate, endDate) == dailyRate * BookingDays(startDate, endDate) as real * 0.9
  {
  }

  /** A booking of thirty days or more is never charged at the twenty percent discount. */
  lemma MonthDiscountNeverApplied(dailyRate: real, startDate: Date, endDate: Date)
    requires endDate >= startDate + 29 && dailyRate > 0.0
    ensures BookingPrice(dailyRate, startDate, endDate) != dailyRate * BookingDays(startDate, endDate) as real * 0.8
  {
    var total := dailyRate * BookingDays(startDate, endDate) as real;
    assert total >= dailyRate * 30.0;
    LongBookingTenPercentOff(dailyRate, startDate, endDate);
  }

  /** Worked prices at a daily rate of 100: one day, six days, one week, thirty days. */
  lemma PriceExamples()
    ensures BookingPrice(100.0, 10, 10) == 100.0
    ensures BookingPrice(100.0, 4, 9) == 600.0
    ensures BookingPrice(100.0, 0, 6) == 630.0
    ensures BookingPrice(100.0, 0, 29) == 2700.0
  {
  }

  // ---------------------------------------------------------------------
  // Availability
  // ---------------------------------------------------------------------

  /** Statuses that hold a vehicle: pending and confirmed. */
  predicate IsActive(status: Status)
  {
    status == Pending || status == Confirmed
  }

  /**
   * The overlap test as the availability query writes it: the booking
   * covers the requested start, or covers the requested end, or lies inside
   * the requested range.
   */
  predicate OverlapCases(bookingStart: Date, bookingEnd: Date, startDate: Date, endDate: Date)
  {
    || (bookingStart <= startDate && bookingEnd >= startDate)
    || (bookingStart <= endDate && bookingEnd >= endDate)
    || (bookingStart >= startDate && bookingEnd <= endDate)
  }

  /** The standard test: two inclusive ranges share a day. */
  predicate RangesOverlap(start1: Date, end1: Date, start2: Date, end2: Date)
  {
    start1 <= end2 && start2 <= end1
  }

  /** For ranges that are not reversed, the three cases say exactly that the ranges share a day. */
  lemma OverlapCasesIsIntervalOverlap(bookingStart: Date, bookingEnd: Date, startDate: Date, endDate: Date)
    requires bookingStart <= bookingEnd && startDate <= endDate
    ensures OverlapCases(bookingStart, bookingEnd, startDate, endDate) <==>
            RangesOverlap(bookingStart, bookingEnd, startDate, endDate)
  {
  }

  /** For ranges that are not reversed, the three-case test does not depend on which range is the booking. */
  lemma OverlapCasesSymmetric(bookingStart: Date, bookingEnd: Date, startDate: Date, endDate: Date)
    requires bookingStart <= bookingEnd && startDate <= endDate
    ensures OverlapCases(bookingStart, bookingEnd, startDate, endDate) <==>
            OverlapCases(startDate, endDate, bookingStart, bookingEnd)
  {
    OverlapCasesIsIntervalOverlap(bookingStart, bookingEnd, startDate, endDate);
    OverlapCasesIsIntervalOverlap(startDate, endDate, bookingStart, bookingEnd);
  }

  /**
   * With a reversed requested range (end before start, which the search form
   * allows) the three cases flag a booking that covers the requested end
   * day, while a reversed range contains no day, so the interval test finds
   * no overlap.
   */
  lemma ReversedRangeOverlapDisagrees()
    ensures OverlapCases(3, 9, 10, 5) && !RangesOverlap(3, 9, 10, 5)
  {
  }

  /** A booking that blocks this vehicle over this range: same vehicle, active, overlapping. */
  predicate Conflicts(b: Booking, vehicleId: nat, startDate: Date, endDate: Date)
  {
    b.vehicleId == vehicleId && IsActive(b.status) && OverlapCases(b.startDate, b.endDate, startDate, endDate)
  }

  /** The rows the availability query returns, in table order. */
  function ConflictingBookings(bookings: seq<Booking>, vehicleId: nat, startDate: Date, endDate: Date): (r: seq<Booking>)
    ensures |r| <= |bookings|
    ensures forall b :: b in r ==> b in bookings && Conflicts(b, vehicleId, startDate, endDate)
    ensures r == [] <==> forall i :: 0 <= i < |bookings| ==> !Conflicts(bookings[i], vehicleId, startDate, endDate)
  {
    if bookings == [] then []
    else
      var rest := ConflictingBookings(bookings[1..], vehicleId, startDate, endDate);
      assert forall i :: 1 <= i < |bookings| ==> bookings[i] == bookings[1..][i - 1];
      if Conflicts(bookings[0], vehicleId, startDate, endDate) then [bookings[0]] + rest else rest
  }

  /** The vehicle is free over the range: the availability query found no rows. */
  function IsVehicleAvailable(bookings: seq<Booking>, vehicleId: nat, startDate: Date, endDate: Date): (ok: bool)
    ensures ok <==> !exists i :: 0 <= i < |bookings| && Conflicts(bookings[i], vehicleId, startDate, endDate)
  {
    |ConflictingBookings(bookings, vehicleId, startDate, endDate)| == 0
  }

  /** With no bookings at all, every vehicle is free over every range. */
  lemma NoBookingsAllAvailable(vehicleId: nat, startDate: Date, endDate: Date)
    ensures IsVehicleAvailable([], vehicleId, startDate, endDate)
  {
  }

  /** A booking of another vehicle, or one that is cancelled or completed, never changes the answer. */
  lemma IrrelevantBookingIgnored(bookings: seq<Booking>, b: Booking, vehicleId: nat, startDate: Date, endDate: Date)
    requires b.vehicleId != vehicleId || !IsActive(b.status)
    ensures IsVehicleAvailable(bookings + [b], vehicleId, startDate, endDate) ==
            IsVehicleAvailable(bookings, vehicleId, startDate, endDate)
  {
    var all := bookings + [b];
    assert forall i :: 0 <= i < |bookings| ==> all[i] == bookings[i];
    assert !Conflicts(all[|bookings|], vehicleId, startDate, endDate);
  }

  /** Every stored booking has its end on or after its start. */
  predicate RangesWellFormed(bookings: seq<Booking>)
  {
    forall i :: 0 <= i < |bookings| ==> bookings[i].startDate <= bookings[i].endDate
  }

  /**
   * Over well-formed ranges the query answers the standard question: no
   * active booking of this vehicle shares a day with the requested range.
   */
  lemma AvailableIffNoActiveOverlap(bookings: seq<Booking>, vehicleId: nat, startDate: Date, endDate: Date)
    requires RangesWellFormed(bookings) && startDate <= endDate
    ensures IsVehicleAvailable(bookings, vehicleId, startDate, endDate) <==>
      forall i :: 0 <= i < |bookings| && bookings[i].vehicleId == vehicleId && IsActive(bookings[i].status) ==>
        !RangesOverlap(bookings[i].startDate, bookings[i].endDate, startDate, endDate)
  {
    forall i | 0 <= i < |bookings|
      ensures Conflicts(bookings[i], vehicleId, startDate, endDate) <==>
        bookings[i].vehicleId == vehicleId && IsActive(bookings[i].status) &&
        RangesOverlap(bookings[i].startDate, bookings[i].endDate, startDate, endDate)
    {
      OverlapCasesIsIntervalOverlap(bookings[i].startDate, bookings[i].endDate, startDate, endDate);
    }
  }

  // ---------------------------------------------------------------------
  // Administrator bootstrap
  // ---------------------------------------------------------------------

  const AdminUsername: string := "admin"
  const AdminEmail: string := "admin@vehiclebooking.com"

  /** The account the bootstrap creates; its password is not modelled. */
  function AdminUser(id: nat): User
  {
    User(id, AdminUsername, AdminEmail, "Admin", "User", "555-123-4567", true)
  }

  /**
   * The user table after the bootstrap: unchanged when an account with the
   * administrator email exists; otherwise the administrator is added, unless
   * the username "admin" is already taken, in which case the table's
   * uniqueness constraint refuses the row and nothing is stored.
   */
  function WithAdmin(users: seq<User>, freshId: nat): (r: seq<User>)
    ensures users <= r && |r| <= |users| + 1
    ensures EmailTaken(users, AdminEmail) || UsernameTaken(users, AdminUsername) ==> r == users
    ensures !EmailTaken(users, AdminEmail) && !UsernameTaken(users, AdminUsername) ==>
      && |r| == |users| + 1
      && r[|users|].id == freshId && r[|users|].isAdmin
      && r[|users|].username == AdminUsername && r[|users|].email == AdminEmail
    ensures !UsernameTaken(users, AdminUsername) ==> EmailTaken(r, AdminEmail)
  {
    if EmailTaken(users, AdminEmail) then users
    else if UsernameTaken(users, AdminUsername) then users
    else
      var r := users + [AdminUser(freshId)];
      assert r[|users|].email == AdminEmail;
      r
  }

  /** Running the bootstrap a second time changes nothing. */
  lemma WithAdminIdempotent(users: seq<User>, freshId: nat, laterId: nat)
    ensures WithAdmin(WithAdmin(users, freshId), laterId) == WithAdmin(users, freshId)
  {
    var once := WithAdmin(users, freshId);
    if once != users {
      assert once[|users|].email == AdminEmail;
      assert EmailTaken(once, AdminEmail);
    }
  }

  /**
   * Given a fresh id, the bootstrap keeps the user table's uniqueness
   * constraints, so exactly one account carries the administrator email
   * whenever one does.
   */
  lemma WithAdminKeepsUsersUnique(users: seq<User>, freshId: nat)
    requires UsersUnique(users)
    requires forall i :: 0 <= i < |users| ==> users[i].id < freshId
    ensures UsersUnique(WithAdmin(users, freshId))
  {
    var r := WithAdmin(users, freshId);
    if r != users {
      assert r == users + [AdminUser(freshId)];
      forall i, j | 0 <= i < j < |r|
        ensures r[i].id != r[j].id && r[i].username != r[j].username && r[i].email != r[j].email
      {
        if j == |users| {
          assert r[i] == users[i];
          assert r[i].username != AdminUsername;
          assert r[i].email != AdminEmail;
        }
      }
    }
  }
}
