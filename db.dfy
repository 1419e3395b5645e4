/**
 * The database the services share (the EF Core `TemplateDbContext` over
 * MySQL): one sequence per table, identity counters for the integer keys,
 * and the constraints the schema enforces.
 */
module Db {
  import opened Wrappers
  import opened Calendar
  import opened Entities

  /** `Postazioni.FindAsync(id)`: the resource with that key, if any. */
  function FindPostazione(catalog: seq<Postazione>, id: int): (r: Option<Postazione>)
    ensures r.Some? ==> r.value in catalog && r.value.id == id
    ensures r.None? ==> forall p :: p in catalog ==> p.id != id
  {
    if catalog == [] then None
    else if catalog[0].id == id then Some(catalog[0])
    else FindPostazione(catalog[1..], id)
  }

  /** The resource name joined to a booking row (`p.Postazione.Nome`); a
      row whose resource is missing contributes a null name, which string
      concatenation and `string.Join` print as empty. */
  function NameOf(catalog: seq<Postazione>, id: int): (r: string)
    ensures FindPostazione(catalog, id).Some? ==> r == FindPostazione(catalog, id).value.nome
    ensures FindPostazione(catalog, id).None? ==> r == ""
  {
    match FindPostazione(catalog, id)
    case Some(p) => p.nome
    case None => ""
  }

  predicate UniquePostazioneIds(catalog: seq<Postazione>) {
    forall i, j :: 0 <= i < j < |catalog| ==> catalog[i].id != catalog[j].id
  }

  /** Unique keys stay unique once the first row is dropped. */
  lemma TailIdsUnique(catalog: seq<Postazione>)
    requires catalog != [] && UniquePostazioneIds(catalog)
    ensures UniquePostazioneIds(catalog[1..])
  {
    var tail := catalog[1..];
    forall i, j | 0 <= i < j < |tail| ensures tail[i].id != tail[j].id {
      assert tail[i] == catalog[i + 1] && tail[j] == catalog[j + 1];
    }
  }

  /** With unique keys, the lookup finds every resource in the table by its key. */
  lemma FindByUniqueId(catalog: seq<Postazione>, p: Postazione)
    requires UniquePostazioneIds(catalog) && p in catalog
    ensures FindPostazione(catalog, p.id) == Some(p)
  {
    if catalog[0] != p {
      assert p in catalog[1..];
      FindByUniqueId(catalog[1..], p);
    }
  }

  /** Rows numbered by the identity column, starting at `first`. */
  function NumberBookings(rows: seq<Prenotazione>, first: int): (r: seq<Prenotazione>)
    ensures |r| == |rows|
    ensures forall k :: 0 <= k < |rows| ==> r[k] == rows[k].(id := first + k)
  {
    seq(|rows|, k requires 0 <= k < |rows| => rows[k].(id := first + k))
  }

  function NumberPostazioni(rows: seq<Postazione>, first: int): (r: seq<Postazione>)
    ensures |r| == |rows|
    ensures forall k :: 0 <= k < |rows| ==> r[k] == rows[k].(id := first + k)
  {
    seq(|rows|, k requires 0 <= k < |rows| => rows[k].(id := first + k))
  }

  predicate AllFitSchema(rows: seq<Prenotazione>) {
    forall k :: 0 <= k < |rows| ==> FitsSchema(rows[k])
  }

  /** The foreign key from `Prenotazioni.PostazioneId` to `Postazioni.Id`:
      every row names a resource of the catalog. */
  predicate AllReference(catalog: seq<Postazione>, rows: seq<Prenotazione>) {
    forall k :: 0 <= k < |rows| ==> FindPostazione(catalog, rows[k].postazioneId).Some?
  }

  predicate UniqueWeekStarts(menus: seq<MenuSettimanale>) {
    forall i, j :: 0 <= i < j < |menus| ==> menus[i].weekStart != menus[j].weekStart
  }

  /** `MenuSettimanali.FirstOrDefault(m => m.WeekStart == start)`, as the
      position of that menu. */
  function FindMenu(menus: seq<MenuSettimanale>, start: DateTime): (r: Option<nat>)
    ensures r.Some? ==> r.value < |menus| && menus[r.value].weekStart == start
    ensures r.Some? ==> forall j :: 0 <= j < r.value ==> menus[j].weekStart != start
    ensures r.None? <==> forall j :: 0 <= j < |menus| ==> menus[j].weekStart != start
  {
    if menus == [] then None
    else if menus[0].weekStart == start then Some(0)
    else
      var k := FindMenu(menus[1..], start);
      assert forall j :: 1 <= j < |menus| ==> menus[j] == menus[1..][j - 1];
      if k.None? then None else Some(k.value + 1)
  }

  predicate UniqueUserIds(users: seq<User>) {
    forall i, j :: 0 <= i < j < |users| ==> users[i].id != users[j].id
  }

  class Database {
    var postazioni: seq<Postazione>
    var prenotazioni: seq<Prenotazione>
    var users: seq<User>
    var menus: seq<MenuSettimanale>
    var notifiche: seq<Notifica>
    /** The next values of the identity columns. */
    var nextPostazioneId: int
    var nextPrenotazioneId: int
    var nextMenuId: int
    var nextNotificaId: int

    /** Keys are unique and below their identity counters, every booking row
        fits its column limits and names a resource of the catalog, there is at most one menu per week (the
        unique index on `WeekStart`) and every menu has seven days. */
    ghost predicate Valid()
      reads this
    {
      && nextPostazioneId >= 1 && nextPrenotazioneId >= 1 && nextMenuId >= 1 && nextNotificaId >= 1
      && UniquePostazioneIds(postazioni)
      && (forall p :: p in postazioni ==> 1 <= p.id < nextPostazioneId)
      && (forall i, j :: 0 <= i < j < |prenotazioni| ==> prenotazioni[i].id != prenotazioni[j].id)
      && (forall r :: r in prenotazioni ==> 1 <= r.id < nextPrenotazioneId)
      && AllFitSchema(prenotazioni)
      && AllReference(postazioni, prenotazioni)
      && UniqueUserIds(users)
      && UniqueWeekStarts(menus)
      && (forall m :: m in menus ==> |m.giorni| == 7 && 1 <= m.id < nextMenuId)
      && (forall n :: n in notifiche ==> 1 <= n.id < nextNotificaId)
    }

    constructor Empty()
      ensures Valid()
      ensures postazioni == [] && prenotazioni == [] && users == [] && menus == [] && notifiche == []
    {
      postazioni, prenotazioni, users, menus, notifiche := [], [], [], [], [];
      nextPostazioneId, nextPrenotazioneId, nextMenuId, nextNotificaId := 1, 1, 1, 1;
    }

    /** `SaveChanges` after adding booking rows: the rows get fresh keys and
        are appended, unless the server rejects the batch (`fault`, a row
        over its column limits, or a row naming no resource, which the
        foreign key refuses), in which case nothing is written. */
    method SaveBookings(rows: seq<Prenotazione>, fault: bool) returns (ok: bool)
      requires Valid()
      modifies this
      ensures Valid()
      ensures ok <==> !fault && AllFitSchema(rows) && AllReference(postazioni, rows)
      ensures ok ==> prenotazioni == old(prenotazioni) + NumberBookings(rows, old(nextPrenotazioneId))
      ensures !ok ==> prenotazioni == old(prenotazioni)
      ensures postazioni == old(postazioni) && users == old(users)
      ensures menus == old(menus) && notifiche == old(notifiche)
    {
      ok := !fault && AllFitSchema(rows) && AllReference(postazioni, rows);
      if ok {
        BookingsAppended(prenotazioni, rows, nextPrenotazioneId);
        ReferencesAppended(postazioni, prenotazioni, rows, nextPrenotazioneId);
        prenotazioni := prenotazioni + NumberBookings(rows, nextPrenotazioneId);
        nextPrenotazioneId := nextPrenotazioneId + |rows|;
      }
    }

    /** `SaveChanges` after `Postazioni.AddRange(rows)`. */
    method SavePostazioni(rows: seq<Postazione>)
      requires Valid()
      modifies this
      ensures Valid()
      ensures postazioni == old(postazioni) + NumberPostazioni(rows, old(nextPostazioneId))
      ensures prenotazioni == old(prenotazioni) && users == old(users)
      ensures menus == old(menus) && notifiche == old(notifiche)
    {
      PostazioniAppended(postazioni, rows, nextPostazioneId);
      CatalogGrowthKeepsReferences(postazioni, NumberPostazioni(rows, nextPostazioneId), prenotazioni);
      postazioni := postazioni + NumberPostazioni(rows, nextPostazioneId);
      nextPostazioneId := nextPostazioneId + |rows|;
    }
  }

  /** Numbering rows that name resources of the catalog keeps the foreign key. */
  lemma ReferencesAppended(catalog: seq<Postazione>, table: seq<Prenotazione>, rows: seq<Prenotazione>, first: int)
    requires AllReference(catalog, table) && AllReference(catalog, rows)
    ensures AllReference(catalog, table + NumberBookings(rows, first))
  {
    var after := table + NumberBookings(rows, first);
    forall k | 0 <= k < |after| ensures FindPostazione(catalog, after[k].postazioneId).Some? {
      if k >= |table| {
        assert after[k].postazioneId == rows[k - |table|].postazioneId;
      }
    }
  }

  /** A resource found in the catalog is still found once more resources are appended. */
  lemma {:induction false} FoundAfterAppend(catalog: seq<Postazione>, more: seq<Postazione>, id: int)
    requires FindPostazione(catalog, id).Some?
    ensures FindPostazione(catalog + more, id) == FindPostazione(catalog, id)
  {
    assert (catalog + more)[0] == catalog[0];
    if catalog[0].id != id {
      assert (catalog + more)[1..] == catalog[1..] + more;
      FoundAfterAppend(catalog[1..], more, id);
    }
  }

  /** Appending resources never breaks the foreign key of the booking rows. */
  lemma CatalogGrowthKeepsReferences(catalog: seq<Postazione>, more: seq<Postazione>, table: seq<Prenotazione>)
    requires AllReference(catalog, table)
    ensures AllReference(catalog + more, table)
  {
    forall k | 0 <= k < |table| ensures FindPostazione(catalog + more, table[k].postazioneId).Some? {
      FoundAfterAppend(catalog, more, table[k].postazioneId);
    }
  }

  /** Booking rows numbered from the counter keep the keys unique and below
      the advanced counter, and every row within its column limits. */
  lemma BookingsAppended(table: seq<Prenotazione>, rows: seq<Prenotazione>, first: int)
    requires forall i, j :: 0 <= i < j < |table| ==> table[i].id != table[j].id
    requires forall r :: r in table ==> 1 <= r.id < first
    requires AllFitSchema(table) && AllFitSchema(rows) && first >= 1
    ensures var after := table + NumberBookings(rows, first);
      && (forall i, j :: 0 <= i < j < |after| ==> after[i].id != after[j].id)
      && (forall r :: r in after ==> 1 <= r.id < first + |rows|)
      && AllFitSchema(after)
  {
    var numbered := NumberBookings(rows, first);
    var after := table + numbered;
    forall r | r in after ensures 1 <= r.id < first + |rows| {
      if r !in table {
        var k :| 0 <= k < |numbered| && numbered[k] == r;
      }
    }
    forall k | 0 <= k < |after| ensures FitsSchema(after[k]) {
      if k >= |table| {
        assert after[k] == rows[k - |table|].(id := first + k - |table|);
      }
    }
    forall i, j | 0 <= i < j < |after| ensures after[i].id != after[j].id {
      if i < |table| && j >= |table| {
        assert after[i] in table;
      }
    }
  }

  /** Resources numbered from the counter keep the keys unique and below the
      advanced counter. */
  lemma PostazioniAppended(table: seq<Postazione>, rows: seq<Postazione>, first: int)
    requires UniquePostazioneIds(table)
    requires forall p :: p in table ==> 1 <= p.id < first
    requires first >= 1
    ensures var after := table + NumberPostazioni(rows, first);
      && UniquePostazioneIds(after)
      && (forall p :: p in after ==> 1 <= p.id < first + |rows|)
  {
    var numbered := NumberPostazioni(rows, first);
    var after := table + numbered;
    forall p | p in after ensures 1 <= p.id < first + |rows| {
      if p !in table {
        var k :| 0 <= k < |numbered| && numbered[k] == p;
      }
    }
    forall i, j | 0 <= i < j < |after| ensures after[i].id != after[j].id {
      if i < |table| && j >= |table| {
        assert after[i] in table;
      }
    }
  }
}
