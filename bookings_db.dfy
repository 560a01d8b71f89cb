/** The customers and bookings tables of utils/database.py:15-35 and the three
    operations of utils/bookings_db.py on them: get-or-create a customer by
    e-mail address, save a booking, and list the bookings joined with their
    customers, newest first.

    Both tables are in-memory sequences in insertion order. Each table has an
    AUTOINCREMENT id: the last id it issued is kept beside it, and a new row
    gets one more than that. `created_at` defaults to the current timestamp;
    here it is the parameter `now`. */
module BookingsDb {
  import opened Text

  datatype Customer = Customer(id: nat, name: string, email: string, phone: string)

  datatype BookingRow = BookingRow(
    id: nat,
    customerId: nat,
    clinic: string,
    service: string,
    date: string,
    time: string,
    createdAt: nat)

  /** The fields `save_booking_db` reads from a finished booking. */
  datatype BookingRecord = BookingRecord(
    name: string,
    email: string,
    phone: string,
    clinic: string,
    service: string,
    date: string,
    time: string)

  /** One row of the listing query. */
  datatype BookingView = BookingView(
    bookingId: nat,
    customerName: string,
    email: string,
    phone: string,
    clinic: string,
    service: string,
    date: string,
    time: string,
    createdAt: nat)

  datatype Tables = Tables(
    customers: seq<Customer>,
    bookings: seq<BookingRow>,
    lastCustomerId: nat,
    lastBookingId: nat)

  /** A customer row has the given id. */
  predicate HasCustomer(cs: seq<Customer>, id: nat) {
    exists k | 0 <= k < |cs| :: cs[k].id == id
  }

  /** The invariant the schema and the insert paths keep: ids increase in
      insertion order and never pass the table's counter, e-mail addresses are
      unique (utils/database.py:19), and every booking names an existing
      customer. */
  predicate WellFormed(t: Tables) {
    (forall i, j :: 0 <= i < j < |t.customers| ==>
       t.customers[i].id < t.customers[j].id && t.customers[i].email != t.customers[j].email) &&
    (forall i :: 0 <= i < |t.customers| ==> 1 <= t.customers[i].id <= t.lastCustomerId) &&
    (forall i, j :: 0 <= i < j < |t.bookings| ==> t.bookings[i].id < t.bookings[j].id) &&
    (forall i :: 0 <= i < |t.bookings| ==>
       1 <= t.bookings[i].id <= t.lastBookingId && HasCustomer(t.customers, t.bookings[i].customerId))
  }

  function EmptyTables(): Tables {
    Tables([], [], 0, 0)
  }

  // ---------------------------------------------------------------------------
  // Get or create a customer
  // ---------------------------------------------------------------------------

  /** `SELECT id FROM customers WHERE email = ?`, first row. */
  function FindCustomer(cs: seq<Customer>, email: string): (r: Option<Customer>)
    ensures r.None? <==> forall k :: 0 <= k < |cs| ==> cs[k].email != email
    ensures r.Some? ==> r.value in cs && r.value.email == email
    decreases |cs|
  {
    if |cs| == 0 then None
    else if cs[0].email == email then Some(cs[0])
    else
      var r := FindCustomer(cs[1..], email);
      assert forall k :: 0 < k < |cs| ==> cs[k] == cs[1..][k - 1];
      r
  }

  /** `get_or_create_customer`: the tables afterwards and the id it returns.
      A known address returns its row's id; an unknown one inserts one row. */
  function GetOrCreate(t: Tables, name: string, email: string, phone: string): (r: (Tables, nat))
    ensures r.0.bookings == t.bookings && r.0.lastBookingId == t.lastBookingId
    ensures exists k :: 0 <= k < |r.0.customers| && r.0.customers[k].id == r.1 && r.0.customers[k].email == email
  {
    match FindCustomer(t.customers, email)
    case Some(c) =>
      (t, c.id)
    case None =>
      var id := t.lastCustomerId + 1;
      var r := (t.(customers := t.customers + [Customer(id, name, email, phone)], lastCustomerId := id), id);
      assert r.0.customers[|t.customers|].id == id;
      r
  }

  /** A known address: the id of its row, and no table changes; in particular
      the stored name and phone are not updated. */
  lemma GetOrCreateKnown(t: Tables, name: string, email: string, phone: string, k: nat)
    requires WellFormed(t)
    requires k < |t.customers| && t.customers[k].email == email
    ensures GetOrCreate(t, name, email, phone) == (t, t.customers[k].id)
  {
    var c := FindCustomer(t.customers, email);
    var j :| 0 <= j < |t.customers| && t.customers[j] == c.value;
    assert t.customers[j].email == t.customers[k].email;
  }

  /** An unknown address: exactly one row (name, email, phone) is appended,
      with an id larger than every id issued before. */
  lemma GetOrCreateUnknown(t: Tables, name: string, email: string, phone: string)
    requires WellFormed(t)
    requires forall k :: 0 <= k < |t.customers| ==> t.customers[k].email != email
    ensures var (t', id) := GetOrCreate(t, name, email, phone);
      && t'.customers == t.customers + [Customer(id, name, email, phone)]
      && t'.bookings == t.bookings
      && id > t.lastCustomerId
      && (forall k :: 0 <= k < |t.customers| ==> t.customers[k].id < id)
  {
  }

  /** Get-or-create keeps the invariant, so e-mail addresses stay unique over
      any sequence of calls. */
  lemma GetOrCreateKeepsWellFormed(t: Tables, name: string, email: string, phone: string)
    requires WellFormed(t)
    ensures WellFormed(GetOrCreate(t, name, email, phone).0)
  {
    var t' := GetOrCreate(t, name, email, phone).0;
    if FindCustomer(t.customers, email).None? {
      forall i | 0 <= i < |t.bookings|
        ensures HasCustomer(t'.customers, t'.bookings[i].customerId)
      {
        var k :| 0 <= k < |t.customers| && t.customers[k].id == t.bookings[i].customerId;
        assert t'.customers[k] == t.customers[k];
      }
    }
  }

  // ---------------------------------------------------------------------------
  // Save a booking
  // ---------------------------------------------------------------------------

  /** `save_booking_db`: get or create the customer, then insert one booking
      row carrying the customer's id and the clinic, service, date and time as
      given. */
  function Save(t: Tables, rec: BookingRecord, now: nat): (r: Tables)
    ensures |r.bookings| == |t.bookings| + 1 && r.bookings[..|t.bookings|] == t.bookings
    ensures |r.customers| >= |t.customers| && r.customers[..|t.customers|] == t.customers
  {
    var g := GetOrCreate(t, rec.name, rec.email, rec.phone);
    var id := g.0.lastBookingId + 1;
    var row := BookingRow(id, g.1, rec.clinic, rec.service, rec.date, rec.time, now);
    var r := g.0.(bookings := g.0.bookings + [row], lastBookingId := id);
    assert r.bookings[..|t.bookings|] == t.bookings;
    r
  }

  /** The saved row: one more booking, whose customer is the one holding the
      record's e-mail address and whose other fields are the record's; the
      customers change only as get-or-create changes them. */
  lemma SaveAppendsOneRow(t: Tables, rec: BookingRecord, now: nat)
    requires WellFormed(t)
    ensures var r := Save(t, rec, now);
      var row := r.bookings[|t.bookings|];
      && r.customers == GetOrCreate(t, rec.name, rec.email, rec.phone).0.customers
      && row.id > t.lastBookingId
      && (exists k :: 0 <= k < |r.customers| && r.customers[k].id == row.customerId && r.customers[k].email == rec.email)
      && row.clinic == rec.clinic && row.service == rec.service
      && row.date == rec.date && row.time == rec.time && row.createdAt == now
  {
  }

  /** Saving keeps the invariant. */
  lemma SaveKeepsWellFormed(t: Tables, rec: BookingRecord, now: nat)
    requires WellFormed(t)
    ensures WellFormed(Save(t, rec, now))
  {
    GetOrCreateKeepsWellFormed(t, rec.name, rec.email, rec.phone);
    var g := GetOrCreate(t, rec.name, rec.email, rec.phone);
    var r := Save(t, rec, now);
    assert r.customers == g.0.customers;
    forall i | 0 <= i < |r.bookings|
      ensures 1 <= r.bookings[i].id <= r.lastBookingId && HasCustomer(r.customers, r.bookings[i].customerId)
    {
      if i == |t.bookings| {
        var k :| 0 <= k < |g.0.customers| && g.0.customers[k].id == g.1 && g.0.customers[k].email == rec.email;
        assert r.customers[k].id == r.bookings[i].customerId;
      } else {
        assert r.bookings[i] == g.0.bookings[i];
      }
    }
  }

  // ---------------------------------------------------------------------------
  // The listing
  // ---------------------------------------------------------------------------

  /** The customer with the given id, by primary key. */
  function CustomerById(cs: seq<Customer>, id: nat): (r: Option<Customer>)
    ensures r.None? <==> !HasCustomer(cs, id)
    ensures r.Some? ==> r.value in cs && r.value.id == id
    decreases |cs|
  {
    if |cs| == 0 then None
    else if cs[0].id == id then Some(cs[0])
    else
      var r := CustomerById(cs[1..], id);
      assert forall k :: 0 < k < |cs| ==> cs[k] == cs[1..][k - 1];
      r
  }

  function ViewOf(b: BookingRow, c: Customer): BookingView {
    BookingView(b.id, c.name, c.email, c.phone, b.clinic, b.service, b.date, b.time, b.createdAt)
  }

  /** `FROM bookings b JOIN customers c ON b.customer_id = c.id`, in the order
      of the bookings table. */
  function JoinRows(cs: seq<Customer>, bs: seq<BookingRow>): seq<BookingView>
  {
    if |bs| == 0 then []
    else
      var b := bs[|bs| - 1];
      JoinRows(cs, bs[..|bs| - 1]) +
        (match CustomerById(cs, b.customerId) case Some(c) => [ViewOf(b, c)] case None => [])
  }

  predicate SortedNewestFirst(rows: seq<BookingView>) {
    forall i, j :: 0 <= i < j < |rows| ==> rows[i].createdAt >= rows[j].createdAt
  }

  /** Puts `r` in front of the first row no newer than it. */
  function InsertByCreated(r: BookingView, rows: seq<BookingView>): seq<BookingView>
    decreases |rows|
  {
    if |rows| == 0 || rows[0].createdAt <= r.createdAt then [r] + rows
    else [rows[0]] + InsertByCreated(r, rows[1..])
  }

  function SortNewestFirst(rows: seq<BookingView>): seq<BookingView>
    decreases |rows|
  {
    if |rows| == 0 then [] else InsertByCreated(rows[0], SortNewestFirst(rows[1..]))
  }

  /** `get_all_bookings_df`: the joined rows, `ORDER BY b.created_at DESC`.
      SQL leaves the order of rows with equal timestamps open; this model
      keeps them in table order. */
  function AllBookings(t: Tables): seq<BookingView> {
    SortNewestFirst(JoinRows(t.customers, t.bookings))
  }

  lemma {:induction false} InsertByCreatedPermutes(r: BookingView, rows: seq<BookingView>)
    ensures multiset(InsertByCreated(r, rows)) == multiset(rows) + multiset{r}
    decreases |rows|
  {
    if |rows| > 0 && rows[0].createdAt > r.createdAt {
      InsertByCreatedPermutes(r, rows[1..]);
      assert rows == [rows[0]] + rows[1..];
    }
  }

  lemma {:induction false} InsertByCreatedSorted(r: BookingView, rows: seq<BookingView>)
    requires SortedNewestFirst(rows)
    ensures SortedNewestFirst(InsertByCreated(r, rows))
    decreases |rows|
  {
    if |rows| > 0 && rows[0].createdAt > r.createdAt {
      var tail := InsertByCreated(r, rows[1..]);
      InsertByCreatedSorted(r, rows[1..]);
      InsertByCreatedPermutes(r, rows[1..]);
      forall x | x in tail
        ensures x.createdAt <= rows[0].createdAt
      {
        assert x in multiset(tail);
        assert x == r || x in multiset(rows[1..]);
      }
      assert InsertByCreated(r, rows) == [rows[0]] + tail;
    }
  }

  lemma {:induction false} SortNewestFirstCorrect(rows: seq<BookingView>)
    ensures SortedNewestFirst(SortNewestFirst(rows))
    ensures multiset(SortNewestFirst(rows)) == multiset(rows)
    decreases |rows|
  {
    if |rows| > 0 {
      SortNewestFirstCorrect(rows[1..]);
      InsertByCreatedSorted(rows[0], SortNewestFirst(rows[1..]));
      InsertByCreatedPermutes(rows[0], SortNewestFirst(rows[1..]));
      assert rows == [rows[0]] + rows[1..];
    }
  }

  /** When every booking's customer exists, the join has one row per booking,
      in table order, carrying that customer's name, e-mail and phone. */
  lemma {:induction false} JoinRowsOnePerBooking(cs: seq<Customer>, bs: seq<BookingRow>)
    requires forall i :: 0 <= i < |bs| ==> HasCustomer(cs, bs[i].customerId)
    ensures |JoinRows(cs, bs)| == |bs|
    ensures forall i :: 0 <= i < |bs| ==>
      JoinRows(cs, bs)[i] == ViewOf(bs[i], CustomerById(cs, bs[i].customerId).value)
    decreases |bs|
  {
    if |bs| > 0 {
      var init := bs[..|bs| - 1];
      JoinRowsOnePerBooking(cs, init);
      assert forall i :: 0 <= i < |init| ==> init[i] == bs[i];
    }
  }

  /** The listing is the join, newest first: the same rows, one per booking,
      sorted by `created_at` descending. */
  lemma AllBookingsListing(t: Tables)
    requires WellFormed(t)
    ensures SortedNewestFirst(AllBookings(t))
    ensures multiset(AllBookings(t)) == multiset(JoinRows(t.customers, t.bookings))
    ensures |AllBookings(t)| == |t.bookings|
  {
    var joined := JoinRows(t.customers, t.bookings);
    SortNewestFirstCorrect(joined);
    JoinRowsOnePerBooking(t.customers, t.bookings);
    assert |AllBookings(t)| == |multiset(AllBookings(t))| == |multiset(joined)| == |joined|;
  }

  /** A saved booking shows up in the listing with the record's fields. */
  lemma SavedBookingIsListed(t: Tables, rec: BookingRecord, now: nat)
    requires WellFormed(t)
    ensures var r := Save(t, rec, now);
      exists v :: v in AllBookings(r) && v.email == rec.email && v.clinic == rec.clinic &&
        v.service == rec.service && v.date == rec.date && v.time == rec.time && v.createdAt == now
  {
    var r := Save(t, rec, now);
    SaveKeepsWellFormed(t, rec, now);
    SaveAppendsOneRow(t, rec, now);
    JoinRowsOnePerBooking(r.customers, r.bookings);
    var n := |t.bookings|;
    var joined := JoinRows(r.customers, r.bookings);
    var v := joined[n];
    var c := CustomerById(r.customers, r.bookings[n].customerId).value;
    var k :| 0 <= k < |r.customers| && r.customers[k].id == r.bookings[n].customerId && r.customers[k].email == rec.email;
    var j :| 0 <= j < |r.customers| && r.customers[j] == c;
    assert r.customers[j].id == r.customers[k].id;
    assert v in multiset(joined);
    AllBookingsListing(r);
    assert v in multiset(AllBookings(r));
  }

  // ---------------------------------------------------------------------------
  // The tables as a store
  // ---------------------------------------------------------------------------

  /** The database file: the two tables and their AUTOINCREMENT counters,
      changed in place by the insert statements. */
  class BookingStore {
    var customers: seq<Customer>
    var bookings: seq<BookingRow>
    var lastCustomerId: nat
    var lastBookingId: nat

    function Snapshot(): Tables
      reads this
    {
      Tables(customers, bookings, lastCustomerId, lastBookingId)
    }

    predicate Valid()
      reads this
    {
      WellFormed(Snapshot())
    }

    /** `init_db` on a fresh file: both tables empty. */
    constructor ()
      ensures Valid() && Snapshot() == EmptyTables()
    {
      customers := [];
      bookings := [];
      lastCustomerId := 0;
      lastBookingId := 0;
    }

    /** The lookup `SELECT id FROM customers WHERE email = ?`, a scan of the
        table. */
    method FindCustomerByEmail(email: string) returns (r: Option<Customer>)
      ensures r == FindCustomer(customers, email)
    {
      var i := 0;
      while i < |customers|
        invariant 0 <= i <= |customers|
        invariant forall k :: 0 <= k < i ==> customers[k].email != email
        invariant FindCustomer(customers, email) == FindCustomer(customers[i..], email)
      {
        if customers[i].email == email {
          return Some(customers[i]);
        }
        assert customers[i..][1..] == customers[i + 1..];
        i := i + 1;
      }
      return None;
    }

    /** `get_or_create_customer`. */
    method GetOrCreateCustomer(name: string, email: string, phone: string) returns (id: nat)
      requires Valid()
      modifies this
      ensures (Snapshot(), id) == GetOrCreate(old(Snapshot()), name, email, phone)
      ensures Valid()
    {
      GetOrCreateKeepsWellFormed(Snapshot(), name, email, phone);
      var found := FindCustomerByEmail(email);
      if found.Some? {
        id := found.value.id;
      } else {
        lastCustomerId := lastCustomerId + 1;
        id := lastCustomerId;
        customers := customers + [Customer(id, name, email, phone)];
      }
    }

    /** `save_booking_db`. */
    method SaveBooking(rec: BookingRecord, now: nat)
      requires Valid()
      modifies this
      ensures Snapshot() == Save(old(Snapshot()), rec, now)
      ensures Valid()
    {
      SaveKeepsWellFormed(Snapshot(), rec, now);
      var customerId := GetOrCreateCustomer(rec.name, rec.email, rec.phone);
      lastBookingId := lastBookingId + 1;
      bookings := bookings + [BookingRow(lastBookingId, customerId, rec.clinic, rec.service, rec.date, rec.time, now)];
    }

    /** `get_all_bookings_df`. */
    method AllBookingRows() returns (rows: seq<BookingView>)
      requires Valid()
      ensures rows == AllBookings(Snapshot())
      ensures SortedNewestFirst(rows) && |rows| == |bookings|
    {
      AllBookingsListing(Snapshot());
      rows := AllBookings(Snapshot());
    }
  }
}
