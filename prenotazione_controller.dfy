/**
 * The booking page's controller (`PrenotazioneController`): the `Prenota`
 * action that hands the cart to the booking engine, the weekly menu it
 * serves to the page, and the company notices it passes on.
 */
module PrenotazioneWeb {
  import opened Wrappers
  import opened Calendar
  import opened Text
  import opened Entities
  import opened Db
  import opened Claims
  import Booking
  import ClientMenu
  import Notices

  /** The reply's message: the controller's own empty-cart text, or the
      engine's outcome. */
  datatype Problem = CarrelloVuoto | Engine(reason: Booking.Refusal)

  /** The HTTP reply; `ServerError` is the exception a null body raises
      when its cart is read. */
  datatype Response = Ok(booked: int) | BadRequest(problem: Problem) | ServerError

  /** `Prenota`: an invalid model state or an empty cart is refused before
      the engine runs; otherwise the owner is taken from the claims and the
      engine's success or refusal becomes `Ok` or `BadRequest`. */
  method Prenota(db: Database, user: Principal, request: Option<Booking.PrenotaRequest>, modelValid: bool,
                 utcNow: DateTime, fault: bool) returns (r: Response)
    requires db.Valid()
    modifies db
    ensures db.Valid()
    ensures db.postazioni == old(db.postazioni) && db.users == old(db.users)
    ensures db.menus == old(db.menus) && db.notifiche == old(db.notifiche)
    ensures !modelValid ==> r == BadRequest(CarrelloVuoto) && db.prenotazioni == old(db.prenotazioni)
    ensures modelValid && request.None? ==> r == ServerError && db.prenotazioni == old(db.prenotazioni)
    ensures modelValid && request.Some? && (request.value.elementi.None? || request.value.elementi.value == []) ==>
      r == BadRequest(CarrelloVuoto) && db.prenotazioni == old(db.prenotazioni)
    ensures modelValid && request.Some? && request.value.elementi.Some? && request.value.elementi.value != [] ==>
      match Booking.PlanBooking(request.value, old(db.postazioni), old(db.prenotazioni), CallerId(user), utcNow)
      case Stop(reason) => r == BadRequest(Engine(reason)) && db.prenotazioni == old(db.prenotazioni)
      case Ready(rows) =>
        if !fault && AllFitSchema(rows) then
          r == Ok(|request.value.elementi.value|)
          && db.prenotazioni == old(db.prenotazioni) + NumberBookings(rows, old(db.nextPrenotazioneId))
        else r == BadRequest(Engine(Booking.TechnicalError)) && db.prenotazioni == old(db.prenotazioni)
  {
    if !modelValid {
      return BadRequest(CarrelloVuoto);
    }
    if request.None? {
      return ServerError;
    }
    var q := request.value;
    if q.elementi.None? || q.elementi.value == [] {
      return BadRequest(CarrelloVuoto);
    }
    var userId := CallerId(user);
    var esito := Booking.EseguiPrenotazioneMultipla(db, q, userId, utcNow, fault);
    if esito.Booked? {
      r := Ok(esito.count);
    } else {
      r := BadRequest(Engine(esito.reason));
    }
  }

  /** What `Prenota` answers, as a function of the request and the saved
      tables. */
  function PrenotaReply(request: Option<Booking.PrenotaRequest>, modelValid: bool, catalog: seq<Postazione>,
                        store: seq<Prenotazione>, userId: string, utcNow: DateTime, fault: bool): Response
  {
    if !modelValid then BadRequest(CarrelloVuoto)
    else if request.None? then ServerError
    else if request.value.elementi.None? || request.value.elementi.value == [] then BadRequest(CarrelloVuoto)
    else match Booking.PlanBooking(request.value, catalog, store, userId, utcNow)
      case Stop(reason) => BadRequest(Engine(reason))
      case Ready(rows) =>
        if !fault && AllFitSchema(rows) then Ok(|request.value.elementi.value|)
        else BadRequest(Engine(Booking.TechnicalError))
  }

  /** The controller's guard shadows the engine's own empty-cart check: the
      engine's empty-cart refusal never reaches the page, and a success
      reports one booking per cart line, at least one. */
  lemma GuardShadowsEngine(request: Option<Booking.PrenotaRequest>, modelValid: bool, catalog: seq<Postazione>,
                           store: seq<Prenotazione>, userId: string, utcNow: DateTime, fault: bool)
    ensures PrenotaReply(request, modelValid, catalog, store, userId, utcNow, fault) != BadRequest(Engine(Booking.EmptyCart))
    ensures PrenotaReply(request, modelValid, catalog, store, userId, utcNow, fault).Ok? ==>
      request.Some? && request.value.elementi.Some?
      && PrenotaReply(request, modelValid, catalog, store, userId, utcNow, fault).booked == |request.value.elementi.value| >= 1
  {
    if modelValid && request.Some? && request.value.elementi.Some? && request.value.elementi.value != [] {
      Booking.RequestRefusals(request.value, catalog, store, userId, utcNow);
    }
  }

  // ---------------------------------------------------------------------
  // The weekly menu

  /** The dictionary `MapMenu` builds, in insertion order. */
  function MenuEntries(menu: MenuSettimanale): (r: seq<(string, Option<string>)>)
    requires |menu.giorni| == 7
    ensures |r| == 7
    ensures forall i :: 0 <= i < 7 ==> r[i] == (ClientMenu.ShortNames[i], menu.giorni[i])
  {
    seq(7, i requires 0 <= i < 7 => (ClientMenu.ShortNames[i], menu.giorni[i]))
  }

  /** `MapMenu`: the seven days under Lun..Dom, or null when every day is
      null or blank. */
  function MapMenu(menu: MenuSettimanale): (r: Option<seq<(string, Option<string>)>>)
    requires |menu.giorni| == 7
    ensures r.Some? <==> exists i :: 0 <= i < 7 && !IsNullOrWhiteSpace(menu.giorni[i])
    ensures r.Some? ==> r.value == MenuEntries(menu)
  {
    if exists i :: 0 <= i < 7 && !IsNullOrWhiteSpace(menu.giorni[i]) then Some(MenuEntries(menu)) else None
  }

  /** `GetMenuSettimanaleForDate`: the first menu stored for the week of
      `date`, mapped; null when there is none. */
  function MenuForDate(menus: seq<MenuSettimanale>, date: DateTime): (r: Option<seq<(string, Option<string>)>>)
    requires forall m :: m in menus ==> |m.giorni| == 7
    ensures r.Some? ==> exists k :: (0 <= k < |menus| && menus[k].weekStart == WeekStart(date)
      && MapMenu(menus[k]) == r)
    ensures (forall k :: 0 <= k < |menus| ==> menus[k].weekStart != WeekStart(date)) ==> r.None?
    ensures forall k :: (0 <= k < |menus| && menus[k].weekStart == WeekStart(date)
      && (forall j :: 0 <= j < k ==> menus[j].weekStart != WeekStart(date))) ==> r == MapMenu(menus[k])
  {
    var k := FindMenu(menus, WeekStart(date));
    if k.None? then None else MapMenu(menus[k.value])
  }

  /** The dictionary as the page receives it after JSON serialisation. */
  function ToJson(entries: seq<(string, Option<string>)>): (r: ClientMenu.Json)
    ensures r.JObj? && |r.members| == |entries|
    ensures forall i :: 0 <= i < |entries| ==> (r.members[i].0 == entries[i].0
      && r.members[i].1 == (if entries[i].1.Some? then ClientMenu.JStr(entries[i].1.value) else ClientMenu.JNull))
  {
    ClientMenu.JObj(seq(|entries|, i requires 0 <= i < |entries| =>
      (entries[i].0, if entries[i].1.Some? then ClientMenu.JStr(entries[i].1.value) else ClientMenu.JNull)))
  }

  /** A short label is its own short key on the page. */
  lemma ShortNamesAreFixed(i: int)
    requires 0 <= i < 7
    ensures ClientMenu.ShortKey(ClientMenu.ShortNames[i]) == ClientMenu.ShortNames[i]
  {
    var s := ClientMenu.ShortNames[i];
    var lower := Lower(s);
    assert lower[0] == LowerChar(s[0]);
    assert lower !in ClientMenu.FullNames && lower != "constructor" && lower != "__proto__" by {
      assert |lower| == 3;
    }
  }

  /** A day the page shows: a non-null, non-empty text. */
  predicate Shown(day: Option<string>) {
    day.Some? && day.value != ""
  }

  /** What the page's normalisation keeps of the served menu. */
  function ClientDays(menu: MenuSettimanale): map<string, ClientMenu.Json>
    requires |menu.giorni| == 7
  {
    ClientMenu.Normalized(ToJson(MenuEntries(menu)).members)
  }

  lemma DayShown(menu: MenuSettimanale, i: int)
    requires |menu.giorni| == 7 && 0 <= i < 7 && Shown(menu.giorni[i])
    ensures ClientMenu.ShortNames[i] in ClientDays(menu)
    ensures ClientDays(menu)[ClientMenu.ShortNames[i]] == ClientMenu.JStr(menu.giorni[i].value)
  {
    var entries := ToJson(MenuEntries(menu)).members;
    ShortNamesAreFixed(i);
    forall j | i < j < 7 ensures ClientMenu.ShortKey(entries[j].0) != ClientMenu.ShortNames[i] {
      ShortNamesAreFixed(j);
    }
    assert ClientMenu.LastFor(entries, ClientMenu.ShortNames[i], i);
    ClientMenu.LastWriterWins(entries, ClientMenu.ShortNames[i], i);
  }

  /** Every key the page keeps is one of the labels, and its day is shown. */
  lemma KeyIsShownDay(menu: MenuSettimanale, k: string)
    requires |menu.giorni| == 7 && k in ClientDays(menu)
    ensures exists i :: 0 <= i < 7 && k == ClientMenu.ShortNames[i] && Shown(menu.giorni[i])
  {
    var entries := ToJson(MenuEntries(menu)).members;
    ClientMenu.NormalizedSound(entries, k);
    var i :| 0 <= i < |entries| && ClientMenu.ShortKey(entries[i].0) == k
      && entries[i].1 == ClientMenu.Normalized(entries)[k];
    ShortNamesAreFixed(i);
  }

  /** The menu the server sends survives the page's normalisation: every
      day with a non-empty text is shown under its label, and null or empty
      days are dropped. A whitespace-only day, which the server alone would
      not count as a menu, is still shown. */
  lemma MenuReachesClient(menu: MenuSettimanale, jsonParse: string -> Option<ClientMenu.Json>)
    requires |menu.giorni| == 7 && MapMenu(menu).Some?
    ensures ClientMenu.NormalizeMenu(ToJson(MapMenu(menu).value), jsonParse) == ClientMenu.Menu(ClientDays(menu))
    ensures forall i :: 0 <= i < 7 ==> (ClientMenu.ShortNames[i] in ClientDays(menu) <==> Shown(menu.giorni[i]))
    ensures forall i :: 0 <= i < 7 && Shown(menu.giorni[i]) ==>
      ClientDays(menu)[ClientMenu.ShortNames[i]] == ClientMenu.JStr(menu.giorni[i].value)
    ensures forall k :: k in ClientDays(menu) ==> k in ClientMenu.ShortNames
  {
    ClientDaysSpec(menu);
    ServedMenuNormalizes(menu, jsonParse);
  }

  /** The page's days are the shown days of the menu, under their short names. */
  lemma ClientDaysSpec(menu: MenuSettimanale)
    requires |menu.giorni| == 7 && MapMenu(menu).Some?
    ensures forall i :: 0 <= i < 7 ==> (ClientMenu.ShortNames[i] in ClientDays(menu) <==> Shown(menu.giorni[i]))
    ensures forall i :: 0 <= i < 7 && Shown(menu.giorni[i]) ==>
      ClientDays(menu)[ClientMenu.ShortNames[i]] == ClientMenu.JStr(menu.giorni[i].value)
    ensures forall k :: k in ClientDays(menu) ==> k in ClientMenu.ShortNames
  {
    forall i | 0 <= i < 7 && Shown(menu.giorni[i])
      ensures ClientMenu.ShortNames[i] in ClientDays(menu)
      ensures ClientDays(menu)[ClientMenu.ShortNames[i]] == ClientMenu.JStr(menu.giorni[i].value)
    {
      DayShown(menu, i);
    }
    forall k | k in ClientDays(menu)
      ensures exists i :: 0 <= i < 7 && k == ClientMenu.ShortNames[i] && Shown(menu.giorni[i])
    {
      KeyIsShownDay(menu, k);
    }
  }

  /** A served menu is never turned back into null by the page. */
  lemma ServedMenuNormalizes(menu: MenuSettimanale, jsonParse: string -> Option<ClientMenu.Json>)
    requires |menu.giorni| == 7 && MapMenu(menu).Some?
    ensures ClientMenu.NormalizeMenu(ToJson(MapMenu(menu).value), jsonParse) == ClientMenu.Menu(ClientDays(menu))
  {
    var i :| 0 <= i < 7 && !IsNullOrWhiteSpace(menu.giorni[i]);
    assert Shown(menu.giorni[i]);
    DayShown(menu, i);
    var json := ToJson(MenuEntries(menu));
    assert ClientMenu.Entries(json) == json.members;
    assert |ClientDays(menu)| > 0;
  }

  /** A day holding only spaces counts as no menu on the server, but is
      shown by the page when another day has a menu. */
  lemma WhitespaceDayShown(jsonParse: string -> Option<ClientMenu.Json>)
    ensures var menu := MenuSettimanale(1, 0, [Some(" "), Some("Pasta"), None, None, None, None, None]);
      && IsNullOrWhiteSpace(menu.giorni[0])
      && MapMenu(menu).Some?
      && ClientMenu.NormalizeMenu(ToJson(MapMenu(menu).value), jsonParse).Menu?
      && "Lun" in ClientMenu.NormalizeMenu(ToJson(MapMenu(menu).value), jsonParse).days
  {
    var menu := MenuSettimanale(1, 0, [Some(" "), Some("Pasta"), None, None, None, None, None]);
    assert !IsNullOrWhiteSpace(menu.giorni[1]) by {
      assert !IsWhiteSpace("Pasta"[0]);
    }
    assert IsNullOrWhiteSpace(menu.giorni[0]) by {
      assert forall k :: 0 <= k < |" "| ==> IsWhiteSpace(" "[k]);
    }
    MenuReachesClient(menu, jsonParse);
  }
}
