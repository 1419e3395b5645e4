/**
 * The single-resource booking command, in its two copies
 * (`SharedService.Command` and `PostazioneCommandService.EseguiPrenotazioneAsync`):
 * the resource must exist and must have no booking at all that day,
 * cancelled ones included; then one row is added for the user's Guid. The
 * row is the one the second copy builds, which stamps its creation time
 * from the UTC clock, the `now` parameter here; the first copy's entity has
 * no creation time, party size or cancellation flag and sets none of them.
 */
module SingleBooking {
  import opened Wrappers
  import opened Calendar
  import opened Text
  import opened Entities
  import opened Occupancy
  import opened Db

  datatype PrenotaPostazioneCommand = PrenotaPostazioneCommand(postazioneId: Int32, data: DateTime, userId: Guid)

  /** The exceptions the command throws. */
  datatype CommandError = NoSuchResource | AlreadyTaken | SaveFailed

  /** `Done` is the `true` the command returns; it never returns `false`. */
  datatype CommandOutcome = Done | Thrown(error: CommandError)

  /** Some row books resource `id` on day `d`, whatever its state. */
  predicate IsOccupata(store: seq<Prenotazione>, id: int, d: int) {
    exists k :: 0 <= k < |store| && OnDay(store[k], id, d)
  }

  /** The guards, in source order: the error thrown, or none. */
  function Guard(catalog: seq<Postazione>, store: seq<Prenotazione>, cmd: PrenotaPostazioneCommand): Option<CommandError> {
    if FindPostazione(catalog, cmd.postazioneId).None? then Some(NoSuchResource)
    else if IsOccupata(store, cmd.postazioneId, Day(cmd.data)) then Some(AlreadyTaken)
    else None
  }

  /** The row the command adds: the resource, the day, the Guid as text. */
  function CommandRow(cmd: PrenotaPostazioneCommand, now: DateTime): (r: Prenotazione)
    ensures r.postazioneId == cmd.postazioneId && r.dataPrenotazione == cmd.data
    ensures r.userId == GuidText(cmd.userId) && r.dataCreazione == now
    ensures FitsSchema(r)
  {
    NewPrenotazione(cmd.postazioneId, cmd.data, GuidText(cmd.userId), now)
  }

  method EseguiPrenotazione(db: Database, cmd: PrenotaPostazioneCommand, now: DateTime, fault: bool)
    returns (o: CommandOutcome)
    requires db.Valid()
    modifies db
    ensures db.Valid()
    ensures db.postazioni == old(db.postazioni) && db.users == old(db.users)
    ensures db.menus == old(db.menus) && db.notifiche == old(db.notifiche)
    ensures match Guard(old(db.postazioni), old(db.prenotazioni), cmd)
      case Some(err) => o == Thrown(err) && db.prenotazioni == old(db.prenotazioni)
      case None =>
        if !fault then
          o == Done && db.prenotazioni == old(db.prenotazioni) + [CommandRow(cmd, now).(id := old(db.nextPrenotazioneId))]
        else o == Thrown(SaveFailed) && db.prenotazioni == old(db.prenotazioni)
  {
    var postazione := FindPostazione(db.postazioni, cmd.postazioneId);
    if postazione.None? {
      return Thrown(NoSuchResource);
    }
    if IsOccupata(db.prenotazioni, cmd.postazioneId, Day(cmd.data)) {
      return Thrown(AlreadyTaken);
    }
    var row := CommandRow(cmd, now);
    var ok := db.SaveBookings([row], fault);
    assert NumberBookings([row], old(db.nextPrenotazioneId)) == [row.(id := old(db.nextPrenotazioneId))];
    if !ok {
      return Thrown(SaveFailed);
    }
    return Done;
  }

  // ---------------------------------------------------------------------
  // Properties

  /** A resource is taken on a day iff it has at least one row that day,
      counting cancelled rows. */
  lemma {:induction false} OccupataIffRows(store: seq<Prenotazione>, id: int, d: int)
    ensures IsOccupata(store, id, d) <==> RowCount(store, id, d) > 0
    decreases |store|
  {
    if store != [] {
      var init := store[..|store| - 1];
      OccupataIffRows(init, id, d);
      if IsOccupata(init, id, d) {
        var k :| 0 <= k < |init| && OnDay(init[k], id, d);
        assert store[k] == init[k];
      }
      if IsOccupata(store, id, d) && !OnDay(store[|store| - 1], id, d) {
        var k :| 0 <= k < |store| && OnDay(store[k], id, d);
        assert init[k] == store[k];
      }
    }
  }

  /** A cancelled booking still blocks the resource for its day. */
  lemma CancelledBlocks(catalog: seq<Postazione>, store: seq<Prenotazione>, cmd: PrenotaPostazioneCommand, k: int)
    requires FindPostazione(catalog, cmd.postazioneId).Some?
    requires 0 <= k < |store| && OnDay(store[k], cmd.postazioneId, Day(cmd.data)) && store[k].isCancellata
    ensures Guard(catalog, store, cmd) == Some(AlreadyTaken)
  {
  }

  /** Once the command has added its row, repeating it for the same
      resource and day, by anyone, throws `AlreadyTaken`. */
  lemma RepeatRefused(catalog: seq<Postazione>, store: seq<Prenotazione>, cmd: PrenotaPostazioneCommand,
                      now: DateTime, first: int, again: PrenotaPostazioneCommand)
    requires Guard(catalog, store, cmd).None?
    requires again.postazioneId == cmd.postazioneId && Day(again.data) == Day(cmd.data)
    ensures Guard(catalog, store + [CommandRow(cmd, now).(id := first)], again) == Some(AlreadyTaken)
  {
    var after := store + [CommandRow(cmd, now).(id := first)];
    assert OnDay(after[|store|], cmd.postazioneId, Day(cmd.data));
  }

  /** The command keeps every resource at one row per day or fewer. */
  lemma CommandKeepsSingleRow(catalog: seq<Postazione>, store: seq<Prenotazione>, cmd: PrenotaPostazioneCommand,
                              now: DateTime, first: int, id: int)
    requires forall d :: RowCount(store, id, d) <= 1
    requires Guard(catalog, store, cmd).None?
    ensures forall d :: RowCount(store + [CommandRow(cmd, now).(id := first)], id, d) <= 1
  {
    var row := CommandRow(cmd, now).(id := first);
    forall d | true
      ensures RowCount(store + [row], id, d) <= 1
    {
      RowCountAppend(store, [row], id, d);
      assert [row][..0] == [];
      if OnDay(row, id, d) {
        OccupataIffRows(store, id, d);
      }
    }
  }
}
