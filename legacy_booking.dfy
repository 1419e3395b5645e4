/**
 * The older booking engine of the web project
 * (`Features/Prenotazione/PrenotazioneService.EseguiPrenotazioneMultiplaAsync`):
 * a list of resource ids booked for one day with one shared party size.
 * Every resource, restaurant tables included, must be free that day; the
 * party must fit each resource's seats; and the lookup must find exactly as
 * many resources as ids were sent, so a repeated id is refused.
 */
module LegacyBooking {
  import opened Wrappers
  import opened Calendar
  import opened Text
  import opened Entities
  import opened Occupancy
  import opened Db

  datatype LegacyRequest = LegacyRequest(postazioniIds: Option<seq<int>>, data: DateTime, numeroPersone: Int32, note: Option<string>)

  datatype LegacyRefusal =
    | NothingSelected
    | AlreadyBooked(nomi: seq<string>)
    | SomeMissing
    | TooManyPeople(nome: string, persone: Int32, max: Int32)
    | TechnicalError

  datatype LegacyEsito = Booked(count: int) | Refused(reason: LegacyRefusal)

  datatype LegacyPlan = Ready(rows: seq<Prenotazione>) | Stop(reason: LegacyRefusal)


  /** The names of the resources of the active bookings of day `d` whose
      resource is one of `ids`, in table order. */
  function OccupiedNames(catalog: seq<Postazione>, store: seq<Prenotazione>, ids: seq<int>, d: int): (r: seq<string>)
    ensures |r| == 0 <==> forall k :: 0 <= k < |store| ==>
      !(store[k].postazioneId in ids && Day(store[k].dataPrenotazione) == d && !store[k].isCancellata)
  {
    if store == [] then []
    else
      var last := store[|store| - 1];
      var init := OccupiedNames(catalog, store[..|store| - 1], ids, d);
      assert forall k :: 0 <= k < |store| - 1 ==> store[..|store| - 1][k] == store[k];
      if last.postazioneId in ids && Day(last.dataPrenotazione) == d && !last.isCancellata
      then init + [NameOf(catalog, last.postazioneId)]
      else init
  }

  /** LINQ `Distinct`: the first occurrence of each value, in order. */
  function Distinct(s: seq<string>): (r: seq<string>)
    ensures forall x :: x in r <==> x in s
    ensures forall i, j :: 0 <= i < j < |r| ==> r[i] != r[j]
  {
    if s == [] then []
    else
      var init := Distinct(s[..|s| - 1]);
      assert forall x :: x in s <==> x in s[..|s| - 1] || x == s[|s| - 1];
      if s[|s| - 1] in init then init else init + [s[|s| - 1]]
  }

  /** `Postazioni.Where(p => ids.Contains(p.Id))`, in table order. */
  function Selected(catalog: seq<Postazione>, ids: seq<int>): (r: seq<Postazione>)
    ensures |r| <= |catalog|
    ensures forall p :: p in r <==> p in catalog && p.id in ids
  {
    if catalog == [] then []
    else
      var rest := Selected(catalog[1..], ids);
      assert forall p :: p in catalog <==> p == catalog[0] || p in catalog[1..];
      if catalog[0].id in ids then [catalog[0]] + rest else rest
  }

  function LegacyRow(p: Postazione, request: LegacyRequest, userId: string, now: DateTime): (r: Prenotazione)
    ensures r.postazioneId == p.id && r.numeroPersone == request.numeroPersone && r.note == request.note
    ensures r.dataPrenotazione == request.data && r.userId == userId && !r.isCancellata && r.dataCreazione == now
  {
    Prenotazione(0, request.data, now, userId, request.numeroPersone, false, request.note, p.id, 0)
  }

  /** The seat-count check and the staged rows for the selected resources. */
  function StageSelected(selected: seq<Postazione>, request: LegacyRequest, userId: string, now: DateTime): LegacyPlan
  {
    if selected == [] then Ready([])
    else
      match StageSelected(selected[..|selected| - 1], request, userId, now)
      case Stop(r) => Stop(r)
      case Ready(rows) =>
        var p := selected[|selected| - 1];
        var cap := if p.postiTotali > 0 then p.postiTotali else 1;
        if request.numeroPersone > cap then Stop(TooManyPeople(p.nome, request.numeroPersone, cap))
        else Ready(rows + [LegacyRow(p, request, userId, now)])
  }

  /** What the legacy engine decides before saving. */
  function PlanLegacy(request: LegacyRequest, catalog: seq<Postazione>, store: seq<Prenotazione>,
                      userId: string, now: DateTime): LegacyPlan
  {
    if request.postazioniIds.None? || request.postazioniIds.value == [] then Stop(NothingSelected)
    else
      var ids := request.postazioniIds.value;
      var occupied := OccupiedNames(catalog, store, ids, Day(request.data));
      if occupied != [] then Stop(AlreadyBooked(Distinct(occupied)))
      else
        var selected := Selected(catalog, ids);
        if |selected| != |ids| then Stop(SomeMissing)
        else StageSelected(selected, request, userId, now)
  }

  /** The `foreach` over the selected resources. */
  method StageSelectedLoop(selected: seq<Postazione>, request: LegacyRequest, userId: string, now: DateTime)
    returns (plan: LegacyPlan)
    ensures plan == StageSelected(selected, request, userId, now)
  {
    var rows: seq<Prenotazione> := [];
    var i := 0;
    while i < |selected|
      invariant 0 <= i <= |selected|
      invariant StageSelected(selected[..i], request, userId, now) == Ready(rows)
    {
      var p := selected[i];
      assert selected[..i + 1][..i] == selected[..i];
      var cap := if p.postiTotali > 0 then p.postiTotali else 1;
      if request.numeroPersone > cap {
        StagedStopPropagates(selected, i + 1, request, userId, now);
        return Stop(TooManyPeople(p.nome, request.numeroPersone, cap));
      }
      rows := rows + [LegacyRow(p, request, userId, now)];
      i := i + 1;
    }
    assert selected[..i] == selected;
    return Ready(rows);
  }

  lemma {:induction false} StagedStopPropagates(selected: seq<Postazione>, n: int, request: LegacyRequest, userId: string, now: DateTime)
    requires 0 <= n <= |selected|
    requires StageSelected(selected[..n], request, userId, now).Stop?
    ensures StageSelected(selected, request, userId, now) == StageSelected(selected[..n], request, userId, now)
    decreases |selected| - n
  {
    if n < |selected| {
      assert selected[..n + 1][..n] == selected[..n];
      StagedStopPropagates(selected, n + 1, request, userId, now);
    } else {
      assert selected[..n] == selected;
    }
  }

  /** The whole request, inside a transaction that is rolled back on any
      failure. Rows are created at the local time `now`. */
  method EseguiPrenotazioneMultiplaLegacy(db: Database, request: LegacyRequest, userId: string,
                                          now: DateTime, fault: bool) returns (e: LegacyEsito)
    requires db.Valid()
    modifies db
    ensures db.Valid()
    ensures db.postazioni == old(db.postazioni) && db.users == old(db.users)
    ensures db.menus == old(db.menus) && db.notifiche == old(db.notifiche)
    ensures match PlanLegacy(request, old(db.postazioni), old(db.prenotazioni), userId, now)
      case Stop(r) => e == Refused(r) && db.prenotazioni == old(db.prenotazioni)
      case Ready(rows) =>
        if !fault && AllFitSchema(rows) then
          e == Booked(|request.postazioniIds.value|)
          && db.prenotazioni == old(db.prenotazioni) + NumberBookings(rows, old(db.nextPrenotazioneId))
        else e == Refused(TechnicalError) && db.prenotazioni == old(db.prenotazioni)
  {
    if request.postazioniIds.None? || request.postazioniIds.value == [] {
      return Refused(NothingSelected);
    }
    var ids := request.postazioniIds.value;
    var occupied := OccupiedNames(db.postazioni, db.prenotazioni, ids, Day(request.data));
    if occupied != [] {
      return Refused(AlreadyBooked(Distinct(occupied)));
    }
    var selected := Selected(db.postazioni, ids);
    if |selected| != |ids| {
      return Refused(SomeMissing);
    }
    var plan := StageSelectedLoop(selected, request, userId, now);
    if plan.Stop? {
      return Refused(plan.reason);
    }
    SelectedRowsReference(db.postazioni, ids, request, userId, now);
    var ok := db.SaveBookings(plan.rows, fault);
    if ok {
      e := Booked(|ids|);
    } else {
      e := Refused(TechnicalError);
    }
  }

  // ---------------------------------------------------------------------
  // Counting selected resources

  function IdsOf(ps: seq<Postazione>): (r: seq<int>)
    ensures |r| == |ps| && forall k :: 0 <= k < |ps| ==> r[k] == ps[k].id
  {
    seq(|ps|, k requires 0 <= k < |ps| => ps[k].id)
  }

  predicate DistinctInts(s: seq<int>) {
    forall i, j :: 0 <= i < j < |s| ==> s[i] != s[j]
  }

  lemma DistinctSnoc(s: seq<int>)
    requires s != []
    ensures DistinctInts(s) <==> DistinctInts(s[..|s| - 1]) && s[|s| - 1] !in s[..|s| - 1]
  {
    var init := s[..|s| - 1];
    if DistinctInts(s) {
      forall i, j | 0 <= i < j < |init| ensures init[i] != init[j] {
        assert init[i] == s[i] && init[j] == s[j];
      }
    }
    if DistinctInts(init) && s[|s| - 1] !in init {
      forall i, j | 0 <= i < j < |s| ensures s[i] != s[j] {
        assert s[i] == init[i];
        if j < |s| - 1 {
          assert s[j] == init[j];
        }
      }
    }
  }

  lemma DistinctCons(x: int, t: seq<int>)
    ensures DistinctInts([x] + t) <==> DistinctInts(t) && x !in t
  {
    var s := [x] + t;
    if DistinctInts(s) {
      forall i, j | 0 <= i < j < |t| ensures t[i] != t[j] {
        assert t[i] == s[i + 1] && t[j] == s[j + 1];
      }
      forall j | 0 <= j < |t| ensures t[j] != x {
        assert s[j + 1] == t[j] && s[0] == x;
      }
    }
    if DistinctInts(t) && x !in t {
      forall i, j | 0 <= i < j < |s| ensures s[i] != s[j] {
        assert s[j] == t[j - 1];
        if i > 0 {
          assert s[i] == t[i - 1];
        }
      }
    }
  }

  lemma {:induction false} SetOfSeqSize(s: seq<int>)
    ensures |set x | x in s| <= |s|
    ensures |set x | x in s| == |s| <==> DistinctInts(s)
    decreases |s|
  {
    if s != [] {
      var init := s[..|s| - 1];
      var last := s[|s| - 1];
      SetOfSeqSize(init);
      DistinctSnoc(s);
      var a := set x | x in init;
      var b := set x | x in s;
      assert b == a + {last} by {
        assert forall x :: x in s <==> x in init || x == last;
      }
      if last in a {
        assert b == a;
      } else {
        assert |b| == |a| + 1;
      }
    }
  }

  lemma {:induction false} SelectedDistinct(catalog: seq<Postazione>, ids: seq<int>)
    requires UniquePostazioneIds(catalog)
    ensures DistinctInts(IdsOf(Selected(catalog, ids)))
    decreases |catalog|
  {
    if catalog != [] {
      var rest := Selected(catalog[1..], ids);
      TailIdsUnique(catalog);
      SelectedDistinct(catalog[1..], ids);
      if catalog[0].id in ids {
        IdsOfCons(catalog[0], rest);
        HeadNotSelectedAgain(catalog, ids);
        DistinctCons(catalog[0].id, IdsOf(rest));
      }
    }
  }

  lemma IdsOfCons(p: Postazione, ps: seq<Postazione>)
    ensures IdsOf([p] + ps) == [p.id] + IdsOf(ps)
  {
    var l := IdsOf([p] + ps);
    var r := [p.id] + IdsOf(ps);
    forall k | 0 <= k < |l| ensures l[k] == r[k] {
      if k > 0 {
        assert ([p] + ps)[k] == ps[k - 1];
      }
    }
    assert l == r;
  }

  /** With unique keys, the first resource's id is not among the ids
      selected from the rest of the table. */
  lemma HeadNotSelectedAgain(catalog: seq<Postazione>, ids: seq<int>)
    requires catalog != [] && UniquePostazioneIds(catalog)
    ensures catalog[0].id !in IdsOf(Selected(catalog[1..], ids))
  {
    var tail := catalog[1..];
    var rest := Selected(tail, ids);
    forall k | 0 <= k < |rest| ensures IdsOf(rest)[k] != catalog[0].id {
      assert rest[k] in tail;
      var j :| 0 <= j < |tail| && tail[j] == rest[k];
      assert catalog[j + 1] == rest[k];
    }
  }

  /** The lookup returns as many resources as ids were sent iff the ids are
      pairwise different and every one of them is in the table. */
  lemma SelectionComplete(catalog: seq<Postazione>, ids: seq<int>)
    requires UniquePostazioneIds(catalog)
    ensures |Selected(catalog, ids)| == |ids|
        <==> DistinctInts(ids) && forall k :: 0 <= k < |ids| ==> FindPostazione(catalog, ids[k]).Some?
  {
    var sel := IdsOf(Selected(catalog, ids));
    SelectedDistinct(catalog, ids);
    SetOfSeqSize(sel);
    SetOfSeqSize(ids);
    var a := set x | x in sel;
    var b := set x | x in ids;
    SelectedIdsRequested(catalog, ids);
    if forall k :: 0 <= k < |ids| ==> FindPostazione(catalog, ids[k]).Some? {
      RequestedIdsSelected(catalog, ids);
    }
    if |sel| == |ids| {
      SubsetSameSize(a, b);
      SelectedIdsFound(catalog, ids);
      forall k | 0 <= k < |ids| ensures FindPostazione(catalog, ids[k]).Some? {
        assert ids[k] in b;
      }
    }
  }

  /** The lookup selects only requested ids. */
  lemma SelectedIdsRequested(catalog: seq<Postazione>, ids: seq<int>)
    ensures (set x | x in IdsOf(Selected(catalog, ids))) <= (set x | x in ids)
  {
    var selected := Selected(catalog, ids);
    forall x | x in IdsOf(selected) ensures x in ids {
      var k :| 0 <= k < |selected| && IdsOf(selected)[k] == x;
      assert selected[k] in selected;
    }
  }

  /** Every selected id has its resource in the table. */
  lemma SelectedIdsFound(catalog: seq<Postazione>, ids: seq<int>)
    ensures forall x :: x in IdsOf(Selected(catalog, ids)) ==> FindPostazione(catalog, x).Some?
  {
    var selected := Selected(catalog, ids);
    forall x | x in IdsOf(selected) ensures FindPostazione(catalog, x).Some? {
      var k :| 0 <= k < |selected| && IdsOf(selected)[k] == x;
      assert selected[k] in catalog;
    }
  }

  /** A requested id whose resource is in the table gets selected. */
  lemma RequestedIdsSelected(catalog: seq<Postazione>, ids: seq<int>)
    requires forall k :: 0 <= k < |ids| ==> FindPostazione(catalog, ids[k]).Some?
    ensures (set x | x in IdsOf(Selected(catalog, ids))) == (set x | x in ids)
  {
    SelectedIdsRequested(catalog, ids);
    var selected := Selected(catalog, ids);
    forall x | x in ids ensures x in IdsOf(selected) {
      var k :| 0 <= k < |ids| && ids[k] == x;
      var p := FindPostazione(catalog, x).value;
      assert p in selected;
      var m :| 0 <= m < |selected| && selected[m] == p;
      assert IdsOf(selected)[m] == x;
    }
  }

  lemma SubsetSameSize(a: set<int>, b: set<int>)
    requires a <= b && |a| >= |b|
    ensures a == b
  {
    var d := b - a;
    assert b == a + d;
    assert a * d == {};
    assert |d| == 0;
  }

  // ---------------------------------------------------------------------
  // Properties of the legacy plan

  /** A list that names a resource twice is always refused. */
  lemma RepeatedIdRefused(request: LegacyRequest, catalog: seq<Postazione>, store: seq<Prenotazione>,
                          userId: string, now: DateTime)
    requires UniquePostazioneIds(catalog)
    requires request.postazioniIds.Some? && !DistinctInts(request.postazioniIds.value)
    ensures PlanLegacy(request, catalog, store, userId, now).Stop?
  {
    SelectionComplete(catalog, request.postazioniIds.value);
  }

  lemma {:induction false} StageSelectedRows(selected: seq<Postazione>, request: LegacyRequest, userId: string, now: DateTime)
    ensures StageSelected(selected, request, userId, now).Ready? <==>
      forall k :: 0 <= k < |selected| ==>
        request.numeroPersone <= (if selected[k].postiTotali > 0 then selected[k].postiTotali else 1)
    ensures StageSelected(selected, request, userId, now).Ready? ==>
      StageSelected(selected, request, userId, now).rows
        == seq(|selected|, k requires 0 <= k < |selected| => LegacyRow(selected[k], request, userId, now))
    decreases |selected|
  {
    if selected != [] {
      var init := selected[..|selected| - 1];
      StageSelectedRows(init, request, userId, now);
      assert forall k :: 0 <= k < |init| ==> init[k] == selected[k];
    }
  }

  /** Every row staged for the selected resources names a resource of the
      catalog, so the foreign key never refuses the legacy batch. */
  lemma SelectedRowsReference(catalog: seq<Postazione>, ids: seq<int>, request: LegacyRequest,
                              userId: string, now: DateTime)
    requires StageSelected(Selected(catalog, ids), request, userId, now).Ready?
    ensures AllReference(catalog, StageSelected(Selected(catalog, ids), request, userId, now).rows)
  {
    var selected := Selected(catalog, ids);
    StageSelectedRows(selected, request, userId, now);
    var rows := StageSelected(selected, request, userId, now).rows;
    forall k | 0 <= k < |rows| ensures FindPostazione(catalog, rows[k].postazioneId).Some? {
      assert rows[k] == LegacyRow(selected[k], request, userId, now);
      assert selected[k] in catalog;
    }
  }

  /** A successful legacy request had every requested resource free that
      day, found in the table and large enough for the party; it stages one
      row per requested resource with the shared party size and note. */
  lemma LegacySuccess(request: LegacyRequest, catalog: seq<Postazione>, store: seq<Prenotazione>,
                      userId: string, now: DateTime)
    requires UniquePostazioneIds(catalog)
    requires PlanLegacy(request, catalog, store, userId, now).Ready?
    ensures request.postazioniIds.Some? && DistinctInts(request.postazioniIds.value)
    ensures var ids := request.postazioniIds.value;
      var rows := PlanLegacy(request, catalog, store, userId, now).rows;
      && |rows| == |ids|
      && (forall k :: 0 <= k < |ids| ==> ActiveCount(store, ids[k], Day(request.data)) == 0)
      && (forall k :: 0 <= k < |ids| ==>
            FindPostazione(catalog, ids[k]).Some?
            && request.numeroPersone <= Capacity(FindPostazione(catalog, ids[k]).value))
      && (forall r :: r in rows ==>
            r.postazioneId in ids && r.numeroPersone == request.numeroPersone
            && r.note == request.note && r.dataPrenotazione == request.data && !r.isCancellata)
      && (forall k :: 0 <= k < |ids| ==> exists r :: r in rows && r.postazioneId == ids[k])
  {
    var ids := request.postazioniIds.value;
    var selected := Selected(catalog, ids);
    var rows := PlanLegacy(request, catalog, store, userId, now).rows;
    assert OccupiedNames(catalog, store, ids, Day(request.data)) == [];
    assert |selected| == |ids| && StageSelected(selected, request, userId, now) == Ready(rows);
    SelectionComplete(catalog, ids);
    forall k | 0 <= k < |ids| ensures ActiveCount(store, ids[k], Day(request.data)) == 0 {
      NoOccupiedNoActive(catalog, store, ids, Day(request.data), ids[k]);
    }
    StagedForEveryId(catalog, ids, request, userId, now, rows);
    StagedRowsShape(catalog, ids, request, userId, now, rows);
  }

  /** Every id of a complete selection has its resource, large enough for
      the party, and a staged row. */
  lemma StagedForEveryId(catalog: seq<Postazione>, ids: seq<int>, request: LegacyRequest,
                         userId: string, now: DateTime, rows: seq<Prenotazione>)
    requires forall k :: 0 <= k < |ids| ==> FindPostazione(catalog, ids[k]).Some?
    requires StageSelected(Selected(catalog, ids), request, userId, now) == Ready(rows)
    ensures forall k :: 0 <= k < |ids| ==>
      FindPostazione(catalog, ids[k]).Some?
      && request.numeroPersone <= Capacity(FindPostazione(catalog, ids[k]).value)
      && exists r :: r in rows && r.postazioneId == ids[k]
  {
    var selected := Selected(catalog, ids);
    StageSelectedRows(selected, request, userId, now);
    forall k | 0 <= k < |ids|
      ensures request.numeroPersone <= Capacity(FindPostazione(catalog, ids[k]).value)
      ensures exists r :: r in rows && r.postazioneId == ids[k]
    {
      var p := FindPostazione(catalog, ids[k]).value;
      assert p in selected;
      var m :| 0 <= m < |selected| && selected[m] == p;
      assert rows[m] == LegacyRow(p, request, userId, now);
    }
  }

  /** Every staged row books one of the ids with the request's party size,
      note and day. */
  lemma StagedRowsShape(catalog: seq<Postazione>, ids: seq<int>, request: LegacyRequest,
                        userId: string, now: DateTime, rows: seq<Prenotazione>)
    requires StageSelected(Selected(catalog, ids), request, userId, now) == Ready(rows)
    ensures |rows| == |Selected(catalog, ids)|
    ensures forall r :: r in rows ==>
      r.postazioneId in ids && r.numeroPersone == request.numeroPersone
      && r.note == request.note && r.dataPrenotazione == request.data && !r.isCancellata
  {
    var selected := Selected(catalog, ids);
    StageSelectedRows(selected, request, userId, now);
    forall r | r in rows ensures r.postazioneId in ids {
      var m :| 0 <= m < |rows| && rows[m] == r;
      assert selected[m] in selected;
    }
  }

  lemma {:induction false} NoOccupiedNoActive(catalog: seq<Postazione>, store: seq<Prenotazione>, ids: seq<int>, d: int, id: int)
    requires OccupiedNames(catalog, store, ids, d) == [] && id in ids
    ensures ActiveCount(store, id, d) == 0
    decreases |store|
  {
    if store != [] {
      var init := store[..|store| - 1];
      assert OccupiedNames(catalog, init, ids, d) == [] by {
        assert forall k :: 0 <= k < |init| ==> init[k] == store[k];
      }
      NoOccupiedNoActive(catalog, init, ids, d, id);
    }
  }

  /** A name is in the list iff it is the name of the resource of an active
      booking of that day for one of the requested ids. */
  lemma {:induction false} OccupiedNamesMembers(catalog: seq<Postazione>, store: seq<Prenotazione>, ids: seq<int>, d: int)
    ensures forall n :: n in OccupiedNames(catalog, store, ids, d) <==>
      exists k :: 0 <= k < |store| && store[k].postazioneId in ids && Day(store[k].dataPrenotazione) == d
                  && !store[k].isCancellata && NameOf(catalog, store[k].postazioneId) == n
    decreases |store|
  {
    if store != [] {
      var init := store[..|store| - 1];
      OccupiedNamesMembers(catalog, init, ids, d);
      assert forall k :: 0 <= k < |init| ==> init[k] == store[k];
    }
  }

  /** The refusal for booked resources happens iff one of the requested
      resources has an active booking that day, and it lists, each once,
      exactly the names of the resources so booked. */
  lemma AlreadyBookedIff(request: LegacyRequest, catalog: seq<Postazione>, store: seq<Prenotazione>,
                         userId: string, now: DateTime)
    requires request.postazioniIds.Some? && request.postazioniIds.value != []
    ensures PlanLegacy(request, catalog, store, userId, now).Stop?
         && PlanLegacy(request, catalog, store, userId, now).reason.AlreadyBooked?
        <==> exists k :: 0 <= k < |store| && store[k].postazioneId in request.postazioniIds.value
               && Day(store[k].dataPrenotazione) == Day(request.data) && !store[k].isCancellata
    ensures var plan := PlanLegacy(request, catalog, store, userId, now);
      plan.Stop? && plan.reason.AlreadyBooked? ==>
        && plan.reason.nomi != []
        && (forall i, j :: 0 <= i < j < |plan.reason.nomi| ==> plan.reason.nomi[i] != plan.reason.nomi[j])
        && forall n :: n in plan.reason.nomi <==>
             exists k :: 0 <= k < |store| && store[k].postazioneId in request.postazioniIds.value
                         && Day(store[k].dataPrenotazione) == Day(request.data) && !store[k].isCancellata
                         && NameOf(catalog, store[k].postazioneId) == n
  {
    var ids := request.postazioniIds.value;
    var occupied := OccupiedNames(catalog, store, ids, Day(request.data));
    OccupiedNamesMembers(catalog, store, ids, Day(request.data));
    if occupied == [] {
      StageNeverAlreadyBooked(Selected(catalog, ids), request, userId, now);
    } else {
      assert occupied[0] in Distinct(occupied);
    }
  }

  lemma {:induction false} StageNeverAlreadyBooked(selected: seq<Postazione>, request: LegacyRequest, userId: string, now: DateTime)
    ensures var plan := StageSelected(selected, request, userId, now);
      plan.Stop? ==> plan.reason.TooManyPeople?
    decreases |selected|
  {
    if selected != [] {
      StageNeverAlreadyBooked(selected[..|selected| - 1], request, userId, now);
    }
  }
}
