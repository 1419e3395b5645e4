/**
 * The restaurant service (`RistorazioneService`): the list of tables with
 * their seats taken on a day, and the booking of a number of seats at one
 * table. Seats are counted as rows, one row per seat, and a user who holds
 * a desk (any resource that is not a table) that day cannot book a table.
 */
module Ristorazione {
  import opened Wrappers
  import opened Calendar
  import opened Text
  import opened Entities
  import opened Occupancy
  import opened Db
  import Booking

  /** `PostiTotali > 0 ? PostiTotali : 4`. */
  function TableCapacity(p: Postazione): (c: Int32)
    ensures c >= 1
    ensures p.postiTotali >= 1 ==> c == p.postiTotali
    ensures p.postiTotali < 1 ==> c == 4
  {
    if p.postiTotali > 0 then p.postiTotali else 4
  }

  // ---------------------------------------------------------------------
  // GetTavoliAsync

  /** One entry of the table list. */
  datatype TavoloView = TavoloView(id: int, nome: string, postiOccupati: nat, postiTotali: Int32)

  function ViewOf(p: Postazione, store: seq<Prenotazione>, d: int): TavoloView {
    TavoloView(p.id, p.nome, ActiveCount(store, p.id, d), TableCapacity(p))
  }

  /** The tables (every resource of type "Ristorante", enabled or not), in
      catalog order, each with its active rows on the requested day, which
      is today (local) when none is given. */
  function GetTavoli(catalog: seq<Postazione>, store: seq<Prenotazione>, data: Option<DateTime>, today: DateTime)
    : (r: seq<TavoloView>)
    ensures |r| <= |catalog|
    ensures forall v :: v in r ==>
      exists p :: p in catalog && p.tipo == Ristorante && v == ViewOf(p, store, Day(data.GetOr(today)))
    ensures forall p :: p in catalog && p.tipo == Ristorante ==> ViewOf(p, store, Day(data.GetOr(today))) in r
  {
    if catalog == [] then []
    else
      var rest := GetTavoli(catalog[1..], store, data, today);
      assert forall p :: p in catalog[1..] ==> p in catalog;
      if catalog[0].tipo == Ristorante then [ViewOf(catalog[0], store, Day(data.GetOr(today)))] + rest
      else rest
  }

  // ---------------------------------------------------------------------
  // PrenotaTavoloAsync

  datatype TavoloRequest = TavoloRequest(postazioneId: Int32, data: DateTime, numeroPosti: Int32)

  datatype TavoloRefusal =
    | InvalidPartySize
    | PastDate
    | TableNotFound
    | NotATable
    | DeskAlreadyBooked
    | NotEnoughSeats(rimasti: Int32)
    | SaveError
    | UnexpectedError

  datatype EsitoTavolo = Confirmed(persone: Int32) | Refused(reason: TavoloRefusal)

  /** The user has an active booking on day `d` of a resource that exists and
      is not a restaurant table. */
  predicate HoldsDesk(catalog: seq<Postazione>, store: seq<Prenotazione>, userId: string, d: int) {
    exists k :: 0 <= k < |store| && store[k].userId == userId && Day(store[k].dataPrenotazione) == d
      && !store[k].isCancellata
      && FindPostazione(catalog, store[k].postazioneId).Some?
      && FindPostazione(catalog, store[k].postazioneId).value.tipo != Ristorante
  }

  /** `n` rows for one seat each at the table, with the entity defaults. */
  function SeatRows(postazioneId: int, data: DateTime, userId: string, n: int, utcNow: DateTime): seq<Prenotazione> {
    seq(if n > 0 then n else 0, _ => NewPrenotazione(postazioneId, data, userId, utcNow))
  }

  datatype TablePlan = Seats(rows: seq<Prenotazione>) | Deny(reason: TavoloRefusal)

  /** What the service decides before saving: the guards in source order. A
      row count outside `int` makes the query throw. */
  function PlanTavolo(request: Option<TavoloRequest>, catalog: seq<Postazione>, store: seq<Prenotazione>,
                      userId: string, utcNow: DateTime): TablePlan
  {
    if request.None? || request.value.numeroPosti <= 0 then Deny(InvalidPartySize)
    else
      var q := request.value;
      var d := Day(q.data);
      if d < Day(utcNow) then Deny(PastDate)
      else match FindPostazione(catalog, q.postazioneId)
        case None => Deny(TableNotFound)
        case Some(p) =>
          if p.tipo != Ristorante then Deny(NotATable)
          else if HoldsDesk(catalog, store, userId, d) then Deny(DeskAlreadyBooked)
          else
            var occ := ActiveCount(store, q.postazioneId, d);
            if !InInt32(occ) then Deny(UnexpectedError)
            else
              var cap := TableCapacity(p);
              if Add32(occ, q.numeroPosti) > cap then Deny(NotEnoughSeats(Sub32(cap, occ)))
              else Seats(SeatRows(q.postazioneId, q.data, userId, q.numeroPosti, utcNow))
  }

  /** The `for` loop adding one row per requested seat. */
  method StageSeats(postazioneId: int, data: DateTime, userId: string, n: Int32, utcNow: DateTime)
    returns (rows: seq<Prenotazione>)
    ensures |rows| == (if n > 0 then n else 0)
    ensures forall k :: 0 <= k < |rows| ==> rows[k] == NewPrenotazione(postazioneId, data, userId, utcNow)
  {
    rows := [];
    var i := 0;
    while i < n
      invariant 0 <= i && |rows| == i
      invariant if n > 0 then i <= n else i == 0
      invariant forall k :: 0 <= k < |rows| ==> rows[k] == NewPrenotazione(postazioneId, data, userId, utcNow)
    {
      rows := rows + [NewPrenotazione(postazioneId, data, userId, utcNow)];
      i := i + 1;
    }
  }

  /** The whole call: the guards, the rows staged in the loop, then one save
      inside a transaction; a failed save rolls back. */
  method PrenotaTavolo(db: Database, request: Option<TavoloRequest>, userId: string, utcNow: DateTime, fault: bool)
    returns (e: EsitoTavolo)
    requires db.Valid()
    modifies db
    ensures db.Valid()
    ensures db.postazioni == old(db.postazioni) && db.users == old(db.users)
    ensures db.menus == old(db.menus) && db.notifiche == old(db.notifiche)
    ensures match PlanTavolo(request, old(db.postazioni), old(db.prenotazioni), userId, utcNow)
      case Deny(r) => e == Refused(r) && db.prenotazioni == old(db.prenotazioni)
      case Seats(rows) =>
        if !fault && AllFitSchema(rows) then
          e == Confirmed(request.value.numeroPosti)
          && db.prenotazioni == old(db.prenotazioni) + NumberBookings(rows, old(db.nextPrenotazioneId))
        else e == Refused(SaveError) && db.prenotazioni == old(db.prenotazioni)
  {
    if request.None? || request.value.numeroPosti <= 0 {
      return Refused(InvalidPartySize);
    }
    var q := request.value;
    if Day(q.data) < Day(utcNow) {
      return Refused(PastDate);
    }
    var found := FindPostazione(db.postazioni, q.postazioneId);
    if found.None? {
      return Refused(TableNotFound);
    }
    var p := found.value;
    if p.tipo != Ristorante {
      return Refused(NotATable);
    }
    if HoldsDesk(db.postazioni, db.prenotazioni, userId, Day(q.data)) {
      return Refused(DeskAlreadyBooked);
    }
    var occ := ActiveCount(db.prenotazioni, q.postazioneId, Day(q.data));
    if !InInt32(occ) {
      return Refused(UnexpectedError);
    }
    var cap := TableCapacity(p);
    if Add32(occ, q.numeroPosti) > cap {
      return Refused(NotEnoughSeats(Sub32(cap, occ)));
    }
    var rows := StageSeats(q.postazioneId, q.data, userId, q.numeroPosti, utcNow);
    assert rows == SeatRows(q.postazioneId, q.data, userId, q.numeroPosti, utcNow);
    var ok := db.SaveBookings(rows, fault);
    if ok {
      e := Confirmed(q.numeroPosti);
    } else {
      e := Refused(SaveError);
    }
  }

  // ---------------------------------------------------------------------
  // Properties

  /** The seat rows book `n` single seats at the table on the requested day
      and nothing at any other table or on any other day. */
  lemma {:induction false} SeatRowsMeasures(postazioneId: int, data: DateTime, userId: string, n: nat, utcNow: DateTime,
                                            id: int, d: int)
    ensures var rows := SeatRows(postazioneId, data, userId, n, utcNow);
      && SingleSeats(rows)
      && ActiveCount(rows, id, d) == (if id == postazioneId && d == Day(data) then n else 0)
      && PeopleBooked(rows, id, d) == ActiveCount(rows, id, d)
      && RowCount(rows, id, d) == ActiveCount(rows, id, d)
    decreases n
  {
    var rows := SeatRows(postazioneId, data, userId, n, utcNow);
    if n > 0 {
      assert rows[..n - 1] == SeatRows(postazioneId, data, userId, n - 1, utcNow);
      SeatRowsMeasures(postazioneId, data, userId, n - 1, utcNow, id, d);
    }
  }

  /** The refusals that come before the table is looked at: a missing
      request or a party of no one, then a day before today (UTC). */
  lemma RequestRefusals(request: Option<TavoloRequest>, catalog: seq<Postazione>, store: seq<Prenotazione>,
                        userId: string, utcNow: DateTime)
    ensures PlanTavolo(request, catalog, store, userId, utcNow) == Deny(InvalidPartySize)
        <==> request.None? || request.value.numeroPosti <= 0
    ensures PlanTavolo(request, catalog, store, userId, utcNow) == Deny(PastDate)
        <==> request.Some? && request.value.numeroPosti > 0 && Day(request.value.data) < Day(utcNow)
  {
  }

  /** A valid request for a resource that is missing, or is not a table, is
      refused for that reason. */
  lemma TableLookupRefusals(q: TavoloRequest, catalog: seq<Postazione>, store: seq<Prenotazione>,
                            userId: string, utcNow: DateTime)
    requires UniquePostazioneIds(catalog)
    requires q.numeroPosti > 0 && Day(q.data) >= Day(utcNow)
    ensures PlanTavolo(Some(q), catalog, store, userId, utcNow) == Deny(TableNotFound)
        <==> forall p :: p in catalog ==> p.id != q.postazioneId
    ensures PlanTavolo(Some(q), catalog, store, userId, utcNow) == Deny(NotATable)
        <==> exists p :: p in catalog && p.id == q.postazioneId && p.tipo != Ristorante
  {
    if p :| p in catalog && p.id == q.postazioneId {
      FindByUniqueId(catalog, p);
    }
  }

  /** A user with an active desk booking that day is refused any table. */
  lemma DeskHolderRefused(q: TavoloRequest, catalog: seq<Postazione>, store: seq<Prenotazione>,
                          userId: string, utcNow: DateTime, k: int)
    requires UniquePostazioneIds(catalog)
    requires q.numeroPosti > 0 && Day(q.data) >= Day(utcNow)
    requires exists p :: p in catalog && p.id == q.postazioneId && p.tipo == Ristorante
    requires 0 <= k < |store| && store[k].userId == userId && !store[k].isCancellata
    requires Day(store[k].dataPrenotazione) == Day(q.data)
    requires exists p :: p in catalog && p.id == store[k].postazioneId && p.tipo != Ristorante
    ensures PlanTavolo(Some(q), catalog, store, userId, utcNow) == Deny(DeskAlreadyBooked)
  {
    var t :| t in catalog && t.id == q.postazioneId && t.tipo == Ristorante;
    FindByUniqueId(catalog, t);
    var p :| p in catalog && p.id == store[k].postazioneId && p.tipo != Ristorante;
    FindByUniqueId(catalog, p);
  }

  /** Past the guards, a table admits the request iff the active rows of
      that day plus the seats asked for fit its capacity, and a refusal
      reports the seats left. */
  lemma TableAdmission(q: TavoloRequest, catalog: seq<Postazione>, store: seq<Prenotazione>,
                       userId: string, utcNow: DateTime, p: Postazione)
    requires UniquePostazioneIds(catalog) && p in catalog && p.id == q.postazioneId && p.tipo == Ristorante
    requires q.numeroPosti > 0 && Day(q.data) >= Day(utcNow)
    requires !HoldsDesk(catalog, store, userId, Day(q.data))
    requires ActiveCount(store, p.id, Day(q.data)) + q.numeroPosti <= Int32Max
    ensures PlanTavolo(Some(q), catalog, store, userId, utcNow).Seats?
        <==> ActiveCount(store, p.id, Day(q.data)) + q.numeroPosti <= TableCapacity(p)
    ensures !PlanTavolo(Some(q), catalog, store, userId, utcNow).Seats? ==>
      PlanTavolo(Some(q), catalog, store, userId, utcNow)
        == Deny(NotEnoughSeats(TableCapacity(p) - ActiveCount(store, p.id, Day(q.data))))
  {
    FindByUniqueId(catalog, p);
  }

  /** A confirmed request adds exactly `NumeroPosti` rows, each one seat for
      the caller at the table on the requested day, not cancelled. */
  lemma ConfirmedRows(request: Option<TavoloRequest>, catalog: seq<Postazione>, store: seq<Prenotazione>,
                      userId: string, utcNow: DateTime)
    requires PlanTavolo(request, catalog, store, userId, utcNow).Seats?
    ensures var rows := PlanTavolo(request, catalog, store, userId, utcNow).rows;
      && request.Some? && |rows| == request.value.numeroPosti
      && forall k :: 0 <= k < |rows| ==>
        rows[k].postazioneId == request.value.postazioneId && rows[k].userId == userId
        && rows[k].dataPrenotazione == request.value.data && rows[k].numeroPersone == 1
        && !rows[k].isCancellata
  {
  }

  /** No table has more active rows on any day than its capacity. */
  ghost predicate TablesWithinSeats(catalog: seq<Postazione>, store: seq<Prenotazione>) {
    forall p, d :: p in catalog && p.tipo == Ristorante ==> ActiveCount(store, p.id, d) <= TableCapacity(p)
  }

  /** A confirmed request keeps every table within its seats, as long as the
      seats asked for, added to the table's capacity, stay within `int`. */
  lemma ServiceKeepsSeats(request: Option<TavoloRequest>, catalog: seq<Postazione>, store: seq<Prenotazione>,
                          userId: string, utcNow: DateTime, first: int)
    requires UniquePostazioneIds(catalog) && TablesWithinSeats(catalog, store)
    requires PlanTavolo(request, catalog, store, userId, utcNow).Seats?
    requires forall p :: p in catalog && p.id == request.value.postazioneId ==>
      TableCapacity(p) + request.value.numeroPosti <= Int32Max
    ensures TablesWithinSeats(catalog, store + NumberBookings(PlanTavolo(request, catalog, store, userId, utcNow).rows, first))
  {
    var q := request.value;
    var rows := PlanTavolo(request, catalog, store, userId, utcNow).rows;
    SeatsAdmitted(request, catalog, store, userId, utcNow);
    var after := store + NumberBookings(rows, first);
    forall p, d | p in catalog && p.tipo == Ristorante
      ensures ActiveCount(after, p.id, d) <= TableCapacity(p)
    {
      ActiveCountAppend(store, NumberBookings(rows, first), p.id, d);
      Booking.RenumberedMeasures(rows, first, p.id, d);
      SeatRowsMeasures(q.postazioneId, q.data, userId, q.numeroPosti, utcNow, p.id, d);
      if p.id == q.postazioneId {
        FindByUniqueId(catalog, p);
      }
    }
  }

  /** A confirmed request names an existing table with room for all the
      seats asked for, and stages one row per seat. */
  lemma SeatsAdmitted(request: Option<TavoloRequest>, catalog: seq<Postazione>, store: seq<Prenotazione>,
                      userId: string, utcNow: DateTime)
    requires TablesWithinSeats(catalog, store)
    requires PlanTavolo(request, catalog, store, userId, utcNow).Seats?
    requires forall p :: p in catalog && p.id == request.value.postazioneId ==>
      TableCapacity(p) + request.value.numeroPosti <= Int32Max
    ensures var q := request.value;
      && FindPostazione(catalog, q.postazioneId).Some?
      && ActiveCount(store, q.postazioneId, Day(q.data)) + q.numeroPosti
         <= TableCapacity(FindPostazione(catalog, q.postazioneId).value)
      && PlanTavolo(request, catalog, store, userId, utcNow).rows
         == SeatRows(q.postazioneId, q.data, userId, q.numeroPosti, utcNow)
  {
    var q := request.value;
    var p := FindPostazione(catalog, q.postazioneId).value;
    assert ActiveCount(store, p.id, Day(q.data)) <= TableCapacity(p);
  }

  /** With one person already booked, a request for 2147483647 seats wraps
      `occupied + requested` to a negative number and is admitted. */
  lemma SeatWrapAround(utcNow: DateTime)
    ensures var table := Postazione(1, "rist-1", "Tavolo 1", Ristorante, true, 0, 0, 0, 0, 4);
      var store := [NewPrenotazione(1, utcNow, "v", utcNow)];
      PlanTavolo(Some(TavoloRequest(1, utcNow, Int32Max)), [table], store, "u", utcNow).Seats?
      && ActiveCount(store, 1, Day(utcNow)) + Int32Max > TableCapacity(table)
  {
    var store := [NewPrenotazione(1, utcNow, "v", utcNow)];
    assert store[..0] == [];
    assert ActiveCount(store, 1, Day(utcNow)) == 1;
  }

  /** The service counts rows while the cart engine records whole parties in
      one row: after a party of four fills a four-seat table through the
      cart, the service still admits three more seats, seven people in all. */
  lemma CountIgnoresPartySize(utcNow: DateTime)
    ensures var table := Postazione(1, "rist-1", "Tavolo 1", Ristorante, true, 0, 0, 0, 0, 4);
      var party := Prenotazione(1, utcNow, utcNow, "v", 4, false, None, 1, 0);
      var plan := PlanTavolo(Some(TavoloRequest(1, utcNow, 3)), [table], [party], "u", utcNow);
      && PeopleBooked([party], 1, Day(utcNow)) == TableCapacity(table)
      && plan.Seats? && PeopleBooked([party] + plan.rows, 1, Day(utcNow)) == 7
  {
    var party := Prenotazione(1, utcNow, utcNow, "v", 4, false, None, 1, 0);
    assert [party][..0] == [];
    assert ActiveCount([party], 1, Day(utcNow)) == 1;
    assert PeopleBooked([party], 1, Day(utcNow)) == 4;
    var rows := SeatRows(1, utcNow, "u", 3, utcNow);
    SeatRowsMeasures(1, utcNow, "u", 3, utcNow, 1, Day(utcNow));
    PeopleBookedAppend([party], rows, 1, Day(utcNow));
  }
}
