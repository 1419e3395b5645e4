/**
 * The restaurant controller's own booking action
 * (`RistorazioneController.PrenotaTavolo`): every table is taken to have
 * four seats, every row booked that day counts as a taken seat (cancelled
 * ones too), the resource is not looked up (an unknown id fails only at the
 * save, on the foreign key), and the desk test is computed but never applied.
 */
module RistorazioneWeb {
  import opened Wrappers
  import opened Calendar
  import opened Text
  import opened Entities
  import opened Occupancy
  import opened Db
  import opened Claims
  import Booking
  import Ristorazione

  /** The seat count the controller assumes for every table. */
  const FixedSeats: int := 4

  datatype WebRefusal = SeatsLeft(rimasti: Int32) | Failure

  datatype WebEsito = Ok(persone: Int32) | BadRequest(reason: WebRefusal)

  datatype WebPlan = Stage(rows: seq<Prenotazione>) | Reject(reason: WebRefusal)

  /** What the action decides before saving. A missing body throws when its
      date is read, and a count outside `int` makes the query throw; both end
      in the catch-all failure. Rows carry the local time of the call. */
  function PlanWeb(request: Option<Ristorazione.TavoloRequest>, store: seq<Prenotazione>,
                   userId: string, localNow: DateTime): WebPlan
  {
    if request.None? then Reject(Failure)
    else
      var q := request.value;
      var count := RowCount(store, q.postazioneId, Day(q.data));
      if !InInt32(count) then Reject(Failure)
      else if Add32(count, q.numeroPosti) > FixedSeats then Reject(SeatsLeft(Sub32(FixedSeats, count)))
      else Stage(Ristorazione.SeatRows(q.postazioneId, q.data, userId, q.numeroPosti, localNow))
  }

  /** The whole action: the caller id from the claims, the seat check, the
      loop adding one row per seat, then one save. */
  method PrenotaTavolo(db: Database, user: Principal, request: Option<Ristorazione.TavoloRequest>,
                       localNow: DateTime, fault: bool) returns (e: WebEsito)
    requires db.Valid()
    modifies db
    ensures db.Valid()
    ensures db.postazioni == old(db.postazioni) && db.users == old(db.users)
    ensures db.menus == old(db.menus) && db.notifiche == old(db.notifiche)
    ensures match PlanWeb(request, old(db.prenotazioni), CallerId(user), localNow)
      case Reject(r) => e == BadRequest(r) && db.prenotazioni == old(db.prenotazioni)
      case Stage(rows) =>
        if !fault && AllFitSchema(rows) && AllReference(old(db.postazioni), rows) then
          e == Ok(request.value.numeroPosti)
          && db.prenotazioni == old(db.prenotazioni) + NumberBookings(rows, old(db.nextPrenotazioneId))
        else e == BadRequest(Failure) && db.prenotazioni == old(db.prenotazioni)
  {
    var userId := CallerId(user);
    if request.None? {
      return BadRequest(Failure);
    }
    var q := request.value;
    var count := RowCount(db.prenotazioni, q.postazioneId, Day(q.data));
    if !InInt32(count) {
      return BadRequest(Failure);
    }
    if Add32(count, q.numeroPosti) > FixedSeats {
      return BadRequest(SeatsLeft(Sub32(FixedSeats, count)));
    }
    var rows := Ristorazione.StageSeats(q.postazioneId, q.data, userId, q.numeroPosti, localNow);
    assert rows == Ristorazione.SeatRows(q.postazioneId, q.data, userId, q.numeroPosti, localNow);
    var ok := db.SaveBookings(rows, fault);
    if ok {
      e := Ok(q.numeroPosti);
    } else {
      e := BadRequest(Failure);
    }
  }

  // ---------------------------------------------------------------------
  // Properties

  /** The request is admitted iff the rows of that table and day, cancelled
      ones included, plus the seats asked for are at most four; a refusal
      reports four minus the rows. */
  lemma WebAdmission(q: Ristorazione.TavoloRequest, store: seq<Prenotazione>, userId: string, localNow: DateTime)
    requires RowCount(store, q.postazioneId, Day(q.data)) + q.numeroPosti <= Int32Max
    requires RowCount(store, q.postazioneId, Day(q.data)) <= Int32Max
    ensures PlanWeb(Some(q), store, userId, localNow).Stage?
        <==> RowCount(store, q.postazioneId, Day(q.data)) + q.numeroPosti <= FixedSeats
    ensures !PlanWeb(Some(q), store, userId, localNow).Stage? ==>
      PlanWeb(Some(q), store, userId, localNow)
        == Reject(SeatsLeft(FixedSeats - RowCount(store, q.postazioneId, Day(q.data))))
  {
  }

  /** An admitted request stages exactly `NumeroPosti` rows (none for a
      count of zero or less), each one seat for the caller at the table on
      the requested day. */
  lemma WebStagedRows(q: Ristorazione.TavoloRequest, store: seq<Prenotazione>, userId: string, localNow: DateTime)
    requires PlanWeb(Some(q), store, userId, localNow).Stage?
    ensures var rows := PlanWeb(Some(q), store, userId, localNow).rows;
      && |rows| == (if q.numeroPosti > 0 then q.numeroPosti else 0)
      && forall k :: 0 <= k < |rows| ==>
        rows[k].postazioneId == q.postazioneId && rows[k].userId == userId
        && rows[k].dataPrenotazione == q.data && rows[k].numeroPersone == 1
        && !rows[k].isCancellata && rows[k].dataCreazione == localNow
  {
  }

  /** The controller never looks the table up: the foreign key is what
      refuses a request for an unknown id, unless it asks for no seats and
      so stages no row. */
  lemma WebForeignKey(catalog: seq<Postazione>, q: Ristorazione.TavoloRequest, store: seq<Prenotazione>,
                      userId: string, localNow: DateTime)
    requires PlanWeb(Some(q), store, userId, localNow).Stage?
    ensures AllReference(catalog, PlanWeb(Some(q), store, userId, localNow).rows)
        <==> q.numeroPosti <= 0 || FindPostazione(catalog, q.postazioneId).Some?
  {
    WebStagedRows(q, store, userId, localNow);
    var rows := PlanWeb(Some(q), store, userId, localNow).rows;
    if q.numeroPosti > 0 {
      assert rows[0].postazioneId == q.postazioneId;
    }
  }

  /** Four cancelled bookings fill a table as far as the controller is
      concerned: no seat is left. */
  lemma CancelledRowsBlock(t: DateTime)
    ensures var gone := NewPrenotazione(1, t, "v", t).(isCancellata := true);
      var store := [gone, gone, gone, gone];
      && ActiveCount(store, 1, Day(t)) == 0
      && PlanWeb(Some(Ristorazione.TavoloRequest(1, t, 1)), store, "u", t) == Reject(SeatsLeft(0))
  {
    var gone := NewPrenotazione(1, t, "v", t).(isCancellata := true);
    var store := [gone, gone, gone, gone];
    var d := Day(t);
    assert [gone][..0] == [];
    assert RowCount([gone], 1, d) == 1 && ActiveCount([gone], 1, d) == 0;
    assert [gone, gone][..1] == [gone];
    assert RowCount([gone, gone], 1, d) == 2 && ActiveCount([gone, gone], 1, d) == 0;
    assert [gone, gone, gone][..2] == [gone, gone];
    assert RowCount([gone, gone, gone], 1, d) == 3 && ActiveCount([gone, gone, gone], 1, d) == 0;
    assert store[..3] == [gone, gone, gone];
    assert RowCount(store, 1, d) == 4 && ActiveCount(store, 1, d) == 0;
  }

  /** A user who holds a desk that day is refused a table by the service but
      gets one from the controller. */
  lemma DeskRuleNotEnforced(t: DateTime)
    ensures var desk := Postazione(1, "desk-1", "Desk 1", Singola, true, 0, 0, 0, 0, 1);
      var table := Postazione(2, "rist-1", "Tavolo 1", Ristorante, true, 0, 0, 0, 0, 4);
      var store := [NewPrenotazione(1, t, "u", t)];
      var q := Ristorazione.TavoloRequest(2, t, 1);
      && Ristorazione.HoldsDesk([desk, table], store, "u", Day(t))
      && Ristorazione.PlanTavolo(Some(q), [desk, table], store, "u", t) == Ristorazione.Deny(Ristorazione.DeskAlreadyBooked)
      && PlanWeb(Some(q), store, "u", t).Stage?
  {
    var desk := Postazione(1, "desk-1", "Desk 1", Singola, true, 0, 0, 0, 0, 1);
    var table := Postazione(2, "rist-1", "Tavolo 1", Ristorante, true, 0, 0, 0, 0, 4);
    var store := [NewPrenotazione(1, t, "u", t)];
    assert FindPostazione([desk, table], 1) == Some(desk);
    assert [desk, table][1..] == [table];
    assert FindPostazione([desk, table], 2) == Some(table);
    assert store[..0] == [];
    assert RowCount(store, 2, Day(t)) == 0;
  }

  /** Left to itself, the controller keeps every resource at four rows or
      fewer per day, as long as the seats asked for cannot overflow `int`. */
  lemma WebKeepsFourRows(request: Option<Ristorazione.TavoloRequest>, store: seq<Prenotazione>,
                         userId: string, localNow: DateTime, first: int, id: int)
    requires forall d :: RowCount(store, id, d) <= FixedSeats
    requires PlanWeb(request, store, userId, localNow).Stage?
    requires request.value.numeroPosti <= Int32Max - FixedSeats
    ensures var after := store + NumberBookings(PlanWeb(request, store, userId, localNow).rows, first);
      forall d :: RowCount(after, id, d) <= FixedSeats
  {
    var q := request.value;
    var rows := PlanWeb(request, store, userId, localNow).rows;
    var n := if q.numeroPosti > 0 then q.numeroPosti else 0;
    WebStaged(q, store, userId, localNow);
    forall d | true
      ensures RowCount(store + NumberBookings(rows, first), id, d) <= FixedSeats
    {
      RowCountAppend(store, NumberBookings(rows, first), id, d);
      Booking.RenumberedMeasures(rows, first, id, d);
      Ristorazione.SeatRowsMeasures(q.postazioneId, q.data, userId, n, localNow, id, d);
    }
  }

  /** An admitted request had room for its seats and stages one row per
      seat. */
  lemma WebStaged(q: Ristorazione.TavoloRequest, store: seq<Prenotazione>, userId: string, localNow: DateTime)
    requires PlanWeb(Some(q), store, userId, localNow).Stage?
    requires q.numeroPosti <= Int32Max - FixedSeats
    ensures RowCount(store, q.postazioneId, Day(q.data)) <= FixedSeats ==>
      RowCount(store, q.postazioneId, Day(q.data)) + q.numeroPosti <= FixedSeats
    ensures PlanWeb(Some(q), store, userId, localNow).rows
         == Ristorazione.SeatRows(q.postazioneId, q.data, userId, if q.numeroPosti > 0 then q.numeroPosti else 0, localNow)
  {
  }
}
