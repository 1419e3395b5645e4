/**
 * The live booking engine (`PrenotazioneService.EseguiPrenotazioneMultiplaAsync`):
 * a cart of (resource, party size) lines for one day is booked all or
 * nothing inside a transaction. Restaurant tables admit parties up to their
 * seat count; every other resource is exclusive for the day.
 *
 * Each line is checked against the bookings already saved: rows staged for
 * earlier lines of the same cart are not visible to the check.
 */
module Booking {
  import opened Wrappers
  import opened Calendar
  import opened Text
  import opened Entities
  import opened Occupancy
  import opened Db

  datatype CartLine = CartLine(postazioneId: int, numeroPersone: Int32)

  datatype PrenotaRequest = PrenotaRequest(data: DateTime, note: Option<string>, elementi: Option<seq<CartLine>>)

  datatype Refusal =
    | EmptyCart
    | PastDate
    | NotFound(id: int)
    | Insufficient(nome: string, richiesti: Int32, rimasti: Int32)
    | Occupied(nome: string)
    | TechnicalError

  datatype Esito = Booked(count: int) | Refused(reason: Refusal)

  datatype Check = Admit | Deny(reason: Refusal)

  /** The engine's test of one cart line against the saved bookings of day `d`.
      An occupancy sum outside `int` makes the query throw. */
  function CheckLine(catalog: seq<Postazione>, store: seq<Prenotazione>, line: CartLine, d: int): Check {
    match FindPostazione(catalog, line.postazioneId)
    case None => Deny(NotFound(line.postazioneId))
    case Some(p) =>
      var occ := PeopleBooked(store, p.id, d);
      if !InInt32(occ) then Deny(TechnicalError)
      else if p.tipo == Ristorante then
        var cap := Capacity(p);
        if Add32(occ, line.numeroPersone) > cap
        then Deny(Insufficient(p.nome, line.numeroPersone, Sub32(cap, occ)))
        else Admit
      else if occ > 0 then Deny(Occupied(p.nome))
      else Admit
  }

  /** The row the engine stages for an admitted line. */
  function NewRow(line: CartLine, data: DateTime, userId: string, utcNow: DateTime): (r: Prenotazione)
    ensures r.postazioneId == line.postazioneId && r.numeroPersone == line.numeroPersone
    ensures r.dataPrenotazione == data && r.userId == userId && r.dataCreazione == utcNow
    ensures !r.isCancellata && r.note.None?
  {
    Prenotazione(0, data, utcNow, userId, line.numeroPersone, false, None, line.postazioneId, 0)
  }

  datatype Plan = Ready(rows: seq<Prenotazione>) | Stop(reason: Refusal)

  /** The rows staged for `lines`, or the refusal of the first line that fails. */
  function StageLines(catalog: seq<Postazione>, store: seq<Prenotazione>, lines: seq<CartLine>,
                      data: DateTime, userId: string, utcNow: DateTime): Plan
  {
    if lines == [] then Ready([])
    else
      match StageLines(catalog, store, lines[..|lines| - 1], data, userId, utcNow)
      case Stop(r) => Stop(r)
      case Ready(rows) =>
        var line := lines[|lines| - 1];
        match CheckLine(catalog, store, line, Day(data))
        case Deny(r) => Stop(r)
        case Admit => Ready(rows + [NewRow(line, data, userId, utcNow)])
  }

  /** What the engine decides before saving: the refusals for an empty cart
      and a past day (compared as UTC dates), then the line checks. */
  function PlanBooking(request: PrenotaRequest, catalog: seq<Postazione>, store: seq<Prenotazione>,
                       userId: string, utcNow: DateTime): Plan
  {
    if request.elementi.None? || request.elementi.value == [] then Stop(EmptyCart)
    else if Day(request.data) < Day(utcNow) then Stop(PastDate)
    else StageLines(catalog, store, request.elementi.value, request.data, userId, utcNow)
  }

  /** The `foreach` over the cart, adding one staged row per admitted line. */
  method StageCart(catalog: seq<Postazione>, store: seq<Prenotazione>, lines: seq<CartLine>,
                   data: DateTime, userId: string, utcNow: DateTime) returns (plan: Plan)
    ensures plan == StageLines(catalog, store, lines, data, userId, utcNow)
  {
    var rows: seq<Prenotazione> := [];
    var i := 0;
    while i < |lines|
      invariant 0 <= i <= |lines|
      invariant StageLines(catalog, store, lines[..i], data, userId, utcNow) == Ready(rows)
    {
      var line := lines[i];
      assert lines[..i + 1][..i] == lines[..i];
      var check := CheckLine(catalog, store, line, Day(data));
      if check.Deny? {
        StopPropagates(catalog, store, lines, i + 1, data, userId, utcNow);
        assert lines[..|lines|] == lines;
        return Stop(check.reason);
      }
      rows := rows + [NewRow(line, data, userId, utcNow)];
      i := i + 1;
    }
    assert lines[..i] == lines;
    return Ready(rows);
  }

  /** Once a prefix of the cart is refused, the whole cart is refused for the same reason. */
  lemma {:induction false} StopPropagates(catalog: seq<Postazione>, store: seq<Prenotazione>, lines: seq<CartLine>,
                                          n: int, data: DateTime, userId: string, utcNow: DateTime)
    requires 0 <= n <= |lines|
    requires StageLines(catalog, store, lines[..n], data, userId, utcNow).Stop?
    ensures StageLines(catalog, store, lines, data, userId, utcNow)
         == StageLines(catalog, store, lines[..n], data, userId, utcNow)
    decreases |lines| - n
  {
    if n < |lines| {
      assert lines[..n + 1][..n] == lines[..n];
      StopPropagates(catalog, store, lines, n + 1, data, userId, utcNow);
    } else {
      assert lines[..n] == lines;
    }
  }

  /** The whole request: validation, staging, then one `SaveChanges` and
      commit. A failing save rolls back and reports a technical error. */
  method EseguiPrenotazioneMultipla(db: Database, request: PrenotaRequest, userId: string,
                                    utcNow: DateTime, fault: bool) returns (e: Esito)
    requires db.Valid()
    modifies db
    ensures db.Valid()
    ensures db.postazioni == old(db.postazioni) && db.users == old(db.users)
    ensures db.menus == old(db.menus) && db.notifiche == old(db.notifiche)
    ensures match PlanBooking(request, old(db.postazioni), old(db.prenotazioni), userId, utcNow)
      case Stop(r) => e == Refused(r) && db.prenotazioni == old(db.prenotazioni)
      case Ready(rows) =>
        if !fault && AllFitSchema(rows) then
          e == Booked(|request.elementi.value|)
          && db.prenotazioni == old(db.prenotazioni) + NumberBookings(rows, old(db.nextPrenotazioneId))
        else e == Refused(TechnicalError) && db.prenotazioni == old(db.prenotazioni)
  {
    if request.elementi.None? || request.elementi.value == [] {
      return Refused(EmptyCart);
    }
    if Day(request.data) < Day(utcNow) {
      return Refused(PastDate);
    }
    var lines := request.elementi.value;
    var plan := StageCart(db.postazioni, db.prenotazioni, lines, request.data, userId, utcNow);
    if plan.Stop? {
      return Refused(plan.reason);
    }
    ReadyRowsMatchCart(db.postazioni, db.prenotazioni, lines, request.data, userId, utcNow);
    ReadyRowsReference(db.postazioni, db.prenotazioni, lines, request.data, userId, utcNow);
    var ok := db.SaveBookings(plan.rows, fault);
    if ok {
      e := Booked(|lines|);
    } else {
      e := Refused(TechnicalError);
    }
  }

  // ---------------------------------------------------------------------
  // Properties of the plan

  /** The cart is staged iff every line is admitted, and then there is one
      row per line, in cart order, carrying the line's resource and party
      size, the requested day, the caller and the creation time. */
  lemma {:induction false} ReadyRowsMatchCart(catalog: seq<Postazione>, store: seq<Prenotazione>, lines: seq<CartLine>,
                                              data: DateTime, userId: string, utcNow: DateTime)
    ensures StageLines(catalog, store, lines, data, userId, utcNow).Ready?
        <==> forall k :: 0 <= k < |lines| ==> CheckLine(catalog, store, lines[k], Day(data)) == Admit
    ensures StageLines(catalog, store, lines, data, userId, utcNow).Ready? ==>
      StageLines(catalog, store, lines, data, userId, utcNow).rows
        == seq(|lines|, k requires 0 <= k < |lines| => NewRow(lines[k], data, userId, utcNow))
    decreases |lines|
  {
    if lines != [] {
      var init := lines[..|lines| - 1];
      ReadyRowsMatchCart(catalog, store, init, data, userId, utcNow);
      assert forall k :: 0 <= k < |init| ==> init[k] == lines[k];
      var plan := StageLines(catalog, store, lines, data, userId, utcNow);
      if plan.Ready? {
        var rest := StageLines(catalog, store, init, data, userId, utcNow);
        assert rest.Ready?;
        assert plan.rows == rest.rows + [NewRow(lines[|lines| - 1], data, userId, utcNow)];
      }
    }
  }

  /** Every staged row names a resource of the catalog, so the foreign key
      never refuses the engine's batch. */
  lemma ReadyRowsReference(catalog: seq<Postazione>, store: seq<Prenotazione>, lines: seq<CartLine>,
                           data: DateTime, userId: string, utcNow: DateTime)
    requires StageLines(catalog, store, lines, data, userId, utcNow).Ready?
    ensures AllReference(catalog, StageLines(catalog, store, lines, data, userId, utcNow).rows)
  {
    ReadyRowsMatchCart(catalog, store, lines, data, userId, utcNow);
    var rows := StageLines(catalog, store, lines, data, userId, utcNow).rows;
    forall k | 0 <= k < |rows| ensures FindPostazione(catalog, rows[k].postazioneId).Some? {
      assert CheckLine(catalog, store, lines[k], Day(data)) == Admit;
      assert rows[k] == NewRow(lines[k], data, userId, utcNow);
    }
  }

  /** A refusal for a missing resource names the resource of a line of the
      cart that is not in the table; and a line whose resource is missing
      always makes the cart fail. */
  lemma {:induction false} NotFoundNamesMissingLine(catalog: seq<Postazione>, store: seq<Prenotazione>, lines: seq<CartLine>,
                                                    data: DateTime, userId: string, utcNow: DateTime)
    ensures var plan := StageLines(catalog, store, lines, data, userId, utcNow);
      plan.Stop? && plan.reason.NotFound? ==>
        exists k :: 0 <= k < |lines| && lines[k].postazioneId == plan.reason.id
          && FindPostazione(catalog, lines[k].postazioneId).None?
    ensures (exists k :: 0 <= k < |lines| && FindPostazione(catalog, lines[k].postazioneId).None?) ==>
      StageLines(catalog, store, lines, data, userId, utcNow).Stop?
    decreases |lines|
  {
    ReadyRowsMatchCart(catalog, store, lines, data, userId, utcNow);
    if lines != [] {
      var init := lines[..|lines| - 1];
      NotFoundNamesMissingLine(catalog, store, init, data, userId, utcNow);
      var plan := StageLines(catalog, store, lines, data, userId, utcNow);
      if plan.Stop? && plan.reason.NotFound? {
        var rest := StageLines(catalog, store, init, data, userId, utcNow);
        if rest.Stop? {
          var k :| 0 <= k < |init| && init[k].postazioneId == plan.reason.id
            && FindPostazione(catalog, init[k].postazioneId).None?;
          assert lines[k] == init[k];
        } else {
          assert lines[|lines| - 1].postazioneId == plan.reason.id;
        }
      }
    }
  }

  /** The refusals before the line checks: an empty or missing cart, then a
      day before today (UTC); a booking for today is not in the past. */
  lemma RequestRefusals(request: PrenotaRequest, catalog: seq<Postazione>, store: seq<Prenotazione>,
                        userId: string, utcNow: DateTime)
    ensures PlanBooking(request, catalog, store, userId, utcNow) == Stop(EmptyCart)
        <==> request.elementi.None? || request.elementi.value == []
    ensures PlanBooking(request, catalog, store, userId, utcNow) == Stop(PastDate)
        <==> request.elementi.Some? && request.elementi.value != [] && Day(request.data) < Day(utcNow)
  {
    if request.elementi.Some? && request.elementi.value != [] && Day(request.data) >= Day(utcNow) {
      NeverEarlyRefusal(catalog, store, request.elementi.value, request.data, userId, utcNow);
    }
  }

  lemma {:induction false} NeverEarlyRefusal(catalog: seq<Postazione>, store: seq<Prenotazione>, lines: seq<CartLine>,
                                             data: DateTime, userId: string, utcNow: DateTime)
    ensures StageLines(catalog, store, lines, data, userId, utcNow) != Stop(EmptyCart)
    ensures StageLines(catalog, store, lines, data, userId, utcNow) != Stop(PastDate)
    decreases |lines|
  {
    if lines != [] {
      NeverEarlyRefusal(catalog, store, lines[..|lines| - 1], data, userId, utcNow);
    }
  }

  // ---------------------------------------------------------------------
  // The admission rules

  /** A restaurant table admits a party iff it fits in the seats left, as
      long as the sum does not overflow `int`. */
  lemma RestaurantAdmission(catalog: seq<Postazione>, store: seq<Prenotazione>, p: Postazione, n: Int32, d: int)
    requires UniquePostazioneIds(catalog) && p in catalog && p.tipo == Ristorante
    requires 0 <= PeopleBooked(store, p.id, d) <= Int32Max && PeopleBooked(store, p.id, d) + n <= Int32Max
    ensures CheckLine(catalog, store, CartLine(p.id, n), d) == Admit
        <==> PeopleBooked(store, p.id, d) + n <= Capacity(p)
    ensures CheckLine(catalog, store, CartLine(p.id, n), d) != Admit ==>
      CheckLine(catalog, store, CartLine(p.id, n), d)
        == Deny(Insufficient(p.nome, n, Capacity(p) - PeopleBooked(store, p.id, d)))
  {
    FindByUniqueId(catalog, p);
  }

  /** Any other resource admits a booking iff it has no active booking that
      day (when every active booking is for at least one person). */
  lemma ExclusiveAdmission(catalog: seq<Postazione>, store: seq<Prenotazione>, p: Postazione, n: Int32, d: int)
    requires UniquePostazioneIds(catalog) && p in catalog && p.tipo != Ristorante
    requires PositiveParties(store) && PeopleBooked(store, p.id, d) <= Int32Max
    ensures CheckLine(catalog, store, CartLine(p.id, n), d) == Admit <==> ActiveCount(store, p.id, d) == 0
    ensures CheckLine(catalog, store, CartLine(p.id, n), d) != Admit ==>
      CheckLine(catalog, store, CartLine(p.id, n), d) == Deny(Occupied(p.nome))
  {
    FindByUniqueId(catalog, p);
    PeopleAtLeastBookings(store, p.id, d);
    if ActiveCount(store, p.id, d) == 0 {
      ZeroBookingsZeroPeople(store, p.id, d);
    }
  }

  lemma {:induction false} ZeroBookingsZeroPeople(store: seq<Prenotazione>, id: int, d: int)
    requires ActiveCount(store, id, d) == 0
    ensures PeopleBooked(store, id, d) == 0
    decreases |store|
  {
    if store != [] {
      ZeroBookingsZeroPeople(store[..|store| - 1], id, d);
    }
  }

  /** The engine does not look at `IsAbilitata`: a disabled resource is
      bookable like an enabled one. */
  lemma DisabledResourceBookable(catalog: seq<Postazione>, store: seq<Prenotazione>, i: int, line: CartLine, d: int)
    requires 0 <= i < |catalog| && UniquePostazioneIds(catalog)
    requires line.postazioneId == catalog[i].id
    ensures var flipped := catalog[i := catalog[i].(isAbilitata := !catalog[i].isAbilitata)];
      CheckLine(flipped, store, line, d) == CheckLine(catalog, store, line, d)
  {
    var flipped := catalog[i := catalog[i].(isAbilitata := !catalog[i].isAbilitata)];
    assert UniquePostazioneIds(flipped) by {
      forall a, b | 0 <= a < b < |flipped| ensures flipped[a].id != flipped[b].id {
        assert flipped[a].id == catalog[a].id && flipped[b].id == catalog[b].id;
      }
    }
    FindByUniqueId(catalog, catalog[i]);
    FindByUniqueId(flipped, flipped[i]);
  }

  // ---------------------------------------------------------------------
  // The capacity invariant

  /** No restaurant table holds more people than seats on any day, and no
      other resource has more than one active booking on any day. */
  ghost predicate CapacityRespected(catalog: seq<Postazione>, store: seq<Prenotazione>) {
    && PositiveParties(store)
    && (forall p, d :: p in catalog && p.tipo == Ristorante ==> PeopleBooked(store, p.id, d) <= Capacity(p))
    && (forall p, d :: p in catalog && p.tipo != Ristorante ==> ActiveCount(store, p.id, d) <= 1)
  }

  /** The cart names each resource at most once. */
  predicate DistinctResources(lines: seq<CartLine>) {
    forall i, j :: 0 <= i < j < |lines| ==> lines[i].postazioneId != lines[j].postazioneId
  }

  /** Every party has at least one person and, added to its table's seat
      count, stays within `int`. */
  predicate ReasonableParties(catalog: seq<Postazione>, lines: seq<CartLine>) {
    forall k :: 0 <= k < |lines| ==>
      1 <= lines[k].numeroPersone
      && forall p :: p in catalog && p.id == lines[k].postazioneId ==> Capacity(p) + lines[k].numeroPersone <= Int32Max
  }

  lemma {:induction false} RenumberedMeasures(rows: seq<Prenotazione>, first: int, id: int, d: int)
    ensures PeopleBooked(NumberBookings(rows, first), id, d) == PeopleBooked(rows, id, d)
    ensures ActiveCount(NumberBookings(rows, first), id, d) == ActiveCount(rows, id, d)
    ensures RowCount(NumberBookings(rows, first), id, d) == RowCount(rows, id, d)
    decreases |rows|
  {
    if rows != [] {
      var n := |rows|;
      assert NumberBookings(rows, first)[..n - 1] == NumberBookings(rows[..n - 1], first);
      RenumberedMeasures(rows[..n - 1], first, id, d);
    }
  }

  lemma RenumberedPositive(rows: seq<Prenotazione>, first: int)
    requires PositiveParties(rows)
    ensures PositiveParties(NumberBookings(rows, first))
  {
  }

  /** The measures of rows in which only row `k` books `id` on `d`. */
  lemma SingleMatch(rows: seq<Prenotazione>, k: int, id: int, d: int)
    requires 0 <= k < |rows| && OnDay(rows[k], id, d) && !rows[k].isCancellata
    requires forall j :: 0 <= j < |rows| && j != k ==> !OnDay(rows[j], id, d)
    ensures PeopleBooked(rows, id, d) == rows[k].numeroPersone
    ensures ActiveCount(rows, id, d) == 1
  {
    var a, b := rows[..k], rows[k + 1..];
    assert rows == a + [rows[k]] + b;
    UnrelatedRows(a, id, d);
    assert forall j :: 0 <= j < |b| ==> b[j] == rows[k + 1 + j];
    UnrelatedRows(b, id, d);
    PeopleBookedAppend(a + [rows[k]], b, id, d);
    PeopleBookedAppend(a, [rows[k]], id, d);
    ActiveCountAppend(a + [rows[k]], b, id, d);
    ActiveCountAppend(a, [rows[k]], id, d);
    assert [rows[k]][..0] == [];
  }

  /** A successful cart that names each resource once, with parties of at
      least one person that cannot overflow, keeps every table within its
      seats and every other resource single-booked. */
  lemma EngineKeepsCapacity(request: PrenotaRequest, catalog: seq<Postazione>, store: seq<Prenotazione>,
                            userId: string, utcNow: DateTime, first: int)
    requires UniquePostazioneIds(catalog) && CapacityRespected(catalog, store)
    requires PlanBooking(request, catalog, store, userId, utcNow).Ready?
    requires DistinctResources(request.elementi.value) && ReasonableParties(catalog, request.elementi.value)
    ensures CapacityRespected(catalog, store + NumberBookings(PlanBooking(request, catalog, store, userId, utcNow).rows, first))
  {
    var lines := request.elementi.value;
    ReadyRowsMatchCart(catalog, store, lines, request.data, userId, utcNow);
    var rows := PlanBooking(request, catalog, store, userId, utcNow).rows;
    var saved := NumberBookings(rows, first);
    var after := store + saved;
    assert PositiveParties(rows);
    RenumberedPositive(rows, first);
    assert PositiveParties(after) by {
      forall k | 0 <= k < |after| && !after[k].isCancellata ensures after[k].numeroPersone >= 1 {
        if k >= |store| {
          assert after[k] == saved[k - |store|];
        }
      }
    }
    forall p, d | p in catalog
      ensures p.tipo == Ristorante ==> PeopleBooked(after, p.id, d) <= Capacity(p)
      ensures p.tipo != Ristorante ==> ActiveCount(after, p.id, d) <= 1
    {
      PeopleBookedAppend(store, saved, p.id, d);
      ActiveCountAppend(store, saved, p.id, d);
      RenumberedMeasures(rows, first, p.id, d);
      ResourceDayAfterCart(catalog, store, lines, request.data, userId, utcNow, rows, p, d);
    }
  }

  /** The bookings a staged cart adds to one resource on one day stay within
      what the invariant allows. */
  lemma ResourceDayAfterCart(catalog: seq<Postazione>, store: seq<Prenotazione>, lines: seq<CartLine>,
                             data: DateTime, userId: string, utcNow: DateTime,
                             rows: seq<Prenotazione>, p: Postazione, d: int)
    requires UniquePostazioneIds(catalog) && CapacityRespected(catalog, store) && p in catalog
    requires DistinctResources(lines) && ReasonableParties(catalog, lines)
    requires forall k :: 0 <= k < |lines| ==> CheckLine(catalog, store, lines[k], Day(data)) == Admit
    requires rows == seq(|lines|, k requires 0 <= k < |lines| => NewRow(lines[k], data, userId, utcNow))
    ensures p.tipo == Ristorante ==> PeopleBooked(store, p.id, d) + PeopleBooked(rows, p.id, d) <= Capacity(p)
    ensures p.tipo != Ristorante ==> ActiveCount(store, p.id, d) + ActiveCount(rows, p.id, d) <= 1
  {
    if k :| 0 <= k < |lines| && lines[k].postazioneId == p.id && d == Day(data) {
      SingleMatch(rows, k, p.id, d);
      assert CheckLine(catalog, store, lines[k], d) == Admit;
      FindByUniqueId(catalog, p);
      if p.tipo != Ristorante {
        ExclusiveAdmission(catalog, store, p, lines[k].numeroPersone, d);
        assert CartLine(p.id, lines[k].numeroPersone) == lines[k];
      }
    } else {
      UnrelatedRows(rows, p.id, d);
    }
  }

  // ---------------------------------------------------------------------
  // Where the invariant breaks

  /** Two lines for the same four-seat table, for three and two people, are
      each checked against the empty day and both admitted: five people. */
  lemma DuplicateLinesOverbook(utcNow: DateTime)
    ensures var table := Postazione(1, "rist-1", "Tavolo 1", Ristorante, true, 0, 0, 0, 0, 4);
      var request := PrenotaRequest(utcNow, None, Some([CartLine(1, 3), CartLine(1, 2)]));
      var plan := PlanBooking(request, [table], [], "u", utcNow);
      plan.Ready? && PeopleBooked(plan.rows, 1, Day(utcNow)) == 5 > Capacity(table)
  {
    var table := Postazione(1, "rist-1", "Tavolo 1", Ristorante, true, 0, 0, 0, 0, 4);
    var lines := [CartLine(1, 3), CartLine(1, 2)];
    ReadyRowsMatchCart([table], [], lines, utcNow, "u", utcNow);
    var rows := StageLines([table], [], lines, utcNow, "u", utcNow).rows;
    assert rows[..1][..0] == [];
    assert rows[..|rows| - 1] == rows[..1];
  }

  /** With one person already at a four-seat table, a party of 2147483647
      wraps `occupied + requested` to a negative number and is admitted. */
  lemma WrapAroundOverbook(utcNow: DateTime)
    ensures var table := Postazione(1, "rist-1", "Tavolo 1", Ristorante, true, 0, 0, 0, 0, 4);
      var store := [NewPrenotazione(1, utcNow, "v", utcNow)];
      CheckLine([table], store, CartLine(1, Int32Max), Day(utcNow)) == Admit
      && PeopleBooked(store, 1, Day(utcNow)) + Int32Max > Capacity(table)
  {
    var store := [NewPrenotazione(1, utcNow, "v", utcNow)];
    assert store[..0] == [];
    assert PeopleBooked(store, 1, Day(utcNow)) == 1;
  }
}
