/**
 * How the services measure how full a resource is on a day: the sum of
 * party sizes of its active bookings, the number of its active bookings,
 * or the number of all its bookings (cancelled ones included). Also the
 * C# 32-bit `int` arithmetic the capacity checks are written in.
 */
module Occupancy {
  import opened Calendar
  import opened Entities
  import opened Text

  // ---------------------------------------------------------------------
  // 32-bit integers

  /** The value of `x` reduced to a 32-bit two's-complement `int`. */
  function Wrap32(x: int): (r: int)
    ensures InInt32(r)
    ensures InInt32(x) ==> r == x
  {
    (x - Int32Min) % 0x1_0000_0000 + Int32Min
  }

  /** Reducing an intermediate result does not change the final one, so a
      chain of unchecked operations equals the reduced exact value. */
  lemma Wrap32Add(x: int, y: int)
    ensures Wrap32(Wrap32(x) + y) == Wrap32(x + y)
  {
    var q := (x - Int32Min) / 0x1_0000_0000;
    assert x - Int32Min == 0x1_0000_0000 * q + (x - Int32Min) % 0x1_0000_0000;
  }

  /** `a + b` on C# `int` in an unchecked context. */
  function Add32(a: int, b: int): (r: int)
    ensures InInt32(r)
    ensures InInt32(a + b) ==> r == a + b
  {
    Wrap32(a + b)
  }

  /** `a - b` on C# `int` in an unchecked context. */
  function Sub32(a: int, b: int): (r: int)
    ensures InInt32(r)
    ensures InInt32(a - b) ==> r == a - b
  {
    Wrap32(a - b)
  }

  /** `x++` on C# `int` in an unchecked context. */
  function Inc32(x: Int32): Int32 {
    if x == Int32Max then Int32Min else x + 1
  }

  lemma Inc32IsAdd32(x: Int32)
    ensures Inc32(x) == Add32(x, 1)
  {
  }

  /** The value of `x` after `n` increments. */
  function Incremented(x: Int32, n: nat): Int32 {
    if n == 0 then x else Inc32(Incremented(x, n - 1))
  }

  /** `n` increments add `n`, reduced to `int`. */
  lemma {:induction false} IncrementedWraps(x: Int32, n: nat)
    ensures Incremented(x, n) == Wrap32(x + n)
  {
    if n > 0 {
      IncrementedWraps(x, n - 1);
      Inc32IsAdd32(Incremented(x, n - 1));
      Wrap32Add(x + n - 1, 1);
    }
  }

  // ---------------------------------------------------------------------
  // Measures of a day's bookings

  /** The seats of a resource as the booking engines and the map read
      them: `PostiTotali > 0 ? PostiTotali : 1`. */
  function Capacity(p: Postazione): (c: Int32)
    ensures c >= 1 && (p.postiTotali >= 1 ==> c == p.postiTotali)
  {
    if p.postiTotali > 0 then p.postiTotali else 1
  }

  /** The row is a booking of resource `id` on day `d`. */
  predicate OnDay(r: Prenotazione, id: int, d: int) {
    r.postazioneId == id && Day(r.dataPrenotazione) == d
  }

  /** The row is an active (not cancelled) booking of resource `id` on day `d`. */
  predicate ActiveOn(r: Prenotazione, id: int, d: int) {
    OnDay(r, id, d) && !r.isCancellata
  }

  /** The sum of `NumeroPersone` over the active bookings of `id` on day `d`. */
  function PeopleBooked(store: seq<Prenotazione>, id: int, d: int): int
  {
    if store == [] then 0
    else
      var last := store[|store| - 1];
      PeopleBooked(store[..|store| - 1], id, d) + (if ActiveOn(last, id, d) then last.numeroPersone else 0)
  }

  /** The number of active bookings of `id` on day `d`. */
  function ActiveCount(store: seq<Prenotazione>, id: int, d: int): (n: nat)
    ensures n <= |store|
  {
    if store == [] then 0
    else ActiveCount(store[..|store| - 1], id, d) + (if ActiveOn(store[|store| - 1], id, d) then 1 else 0)
  }

  /** The number of bookings of `id` on day `d`, cancelled ones included. */
  function RowCount(store: seq<Prenotazione>, id: int, d: int): (n: nat)
    ensures n <= |store|
    ensures n >= ActiveCount(store, id, d)
  {
    if store == [] then 0
    else RowCount(store[..|store| - 1], id, d) + (if OnDay(store[|store| - 1], id, d) then 1 else 0)
  }

  lemma {:induction false} PeopleBookedAppend(a: seq<Prenotazione>, b: seq<Prenotazione>, id: int, d: int)
    ensures PeopleBooked(a + b, id, d) == PeopleBooked(a, id, d) + PeopleBooked(b, id, d)
    decreases |b|
  {
    if b != [] {
      assert (a + b)[..|a + b| - 1] == a + b[..|b| - 1];
      PeopleBookedAppend(a, b[..|b| - 1], id, d);
    } else {
      assert a + b == a;
    }
  }

  lemma {:induction false} ActiveCountAppend(a: seq<Prenotazione>, b: seq<Prenotazione>, id: int, d: int)
    ensures ActiveCount(a + b, id, d) == ActiveCount(a, id, d) + ActiveCount(b, id, d)
    decreases |b|
  {
    if b != [] {
      assert (a + b)[..|a + b| - 1] == a + b[..|b| - 1];
      ActiveCountAppend(a, b[..|b| - 1], id, d);
    } else {
      assert a + b == a;
    }
  }

  lemma {:induction false} RowCountAppend(a: seq<Prenotazione>, b: seq<Prenotazione>, id: int, d: int)
    ensures RowCount(a + b, id, d) == RowCount(a, id, d) + RowCount(b, id, d)
    decreases |b|
  {
    if b != [] {
      assert (a + b)[..|a + b| - 1] == a + b[..|b| - 1];
      RowCountAppend(a, b[..|b| - 1], id, d);
    } else {
      assert a + b == a;
    }
  }

  /** Every active booking is for at least one person. */
  predicate PositiveParties(store: seq<Prenotazione>) {
    forall k :: 0 <= k < |store| && !store[k].isCancellata ==> store[k].numeroPersone >= 1
  }

  /** When every active party is at least one person, the people booked are
      at least the number of active bookings. */
  lemma {:induction false} PeopleAtLeastBookings(store: seq<Prenotazione>, id: int, d: int)
    requires PositiveParties(store)
    ensures PeopleBooked(store, id, d) >= ActiveCount(store, id, d)
    decreases |store|
  {
    if store != [] {
      var init := store[..|store| - 1];
      assert PositiveParties(init) by {
        forall k | 0 <= k < |init| && !init[k].isCancellata ensures init[k].numeroPersone >= 1 {
          assert init[k] == store[k];
        }
      }
      PeopleAtLeastBookings(init, id, d);
    }
  }

  /** Every active booking is for exactly one person. */
  predicate SingleSeats(store: seq<Prenotazione>) {
    forall k :: 0 <= k < |store| && !store[k].isCancellata ==> store[k].numeroPersone == 1
  }

  /** When every active booking is one seat, counting bookings and summing
      party sizes agree. */
  lemma {:induction false} PeopleEqualsBookings(store: seq<Prenotazione>, id: int, d: int)
    requires SingleSeats(store)
    ensures PeopleBooked(store, id, d) == ActiveCount(store, id, d)
    decreases |store|
  {
    if store != [] {
      var init := store[..|store| - 1];
      assert SingleSeats(init) by {
        forall k | 0 <= k < |init| && !init[k].isCancellata ensures init[k].numeroPersone == 1 {
          assert init[k] == store[k];
        }
      }
      PeopleEqualsBookings(init, id, d);
    }
  }

  /** Rows that do not book `id` on `d` leave every measure unchanged. */
  lemma {:induction false} UnrelatedRows(rows: seq<Prenotazione>, id: int, d: int)
    requires forall k :: 0 <= k < |rows| ==> !OnDay(rows[k], id, d)
    ensures PeopleBooked(rows, id, d) == 0 && ActiveCount(rows, id, d) == 0 && RowCount(rows, id, d) == 0
    decreases |rows|
  {
    if rows != [] {
      UnrelatedRows(rows[..|rows| - 1], id, d);
    }
  }
}
