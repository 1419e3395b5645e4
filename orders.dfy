/**
 * The two lists of a user's orders: the "latest orders" widget
 * (`UltimiOrdiniViewComponent`), which lists the four most recently
 * created bookings and marks those created less than an hour ago as
 * cancellable, and the reserved area (`AreaRiservataController.Index`),
 * which lists the ten bookings with the latest booked day and the five
 * resources booked most often.
 */
module Orders {
  import opened Wrappers
  import opened Calendar
  import opened Text
  import opened Entities
  import opened Db
  import opened Claims
  import opened Ranking
  import ClientCart

  // ---------------------------------------------------------------------
  // Shared pieces

  /** `(now - data).TotalHours < 1`: strictly less than one hour has
      elapsed, which includes every `data` later than `now`. */
  predicate Cancellabile(now: DateTime, data: DateTime) {
    now - data < TicksPerHour
  }

  /** The resource name, with the party size in brackets when it is more
      than one. */
  function Descrizione(nome: string, persone: int): (r: string)
    ensures |r| >= |nome| && r[..|nome|] == nome
    ensures persone <= 1 <==> r == nome
  {
    nome + (if persone > 1 then " (x" + FormatInt(persone) + ")" else "")
  }

  /** The caller's bookings that are not cancelled, in table order. */
  function Attive(store: seq<Prenotazione>, userId: string): (r: seq<Prenotazione>)
    ensures |r| <= |store|
    ensures forall p :: p in r <==> p in store && p.userId == userId && !p.isCancellata
  {
    if store == [] then []
    else
      var init := Attive(store[..|store| - 1], userId);
      var p := store[|store| - 1];
      assert forall x :: x in store <==> x in store[..|store| - 1] || x == p;
      if p.userId == userId && !p.isCancellata then init + [p] else init
  }

  function ByCreation(p: Prenotazione): (int, int) { (p.dataCreazione, 0) }

  function ByBookedDay(p: Prenotazione): (int, int) { (p.dataPrenotazione, 0) }

  // ---------------------------------------------------------------------
  // The latest-orders widget

  datatype UltimoOrdine = UltimoOrdine(id: int, tipo: string, descrizione: string, data: DateTime, prezzo: int, cancellabile: bool)

  /** The query's projection; `Cancellabile` starts out false. */
  function UltimoOf(catalog: seq<Postazione>, p: Prenotazione): UltimoOrdine {
    var tipo := match FindPostazione(catalog, p.postazioneId) case Some(q) => q.tipo case None => "";
    UltimoOrdine(p.id, tipo, Descrizione(NameOf(catalog, p.postazioneId), p.numeroPersone), p.dataCreazione, p.prezzo, false)
  }

  /** The user id the widget reads: the name identifier, else the identity
      name; no principal at all gives none. */
  function WidgetUserId(user: Option<Principal>): Option<string> {
    if user.None? then None
    else if user.value.nameIdentifier.Some? then user.value.nameIdentifier
    else user.value.name
  }

  /** The four most recently created active bookings of the caller. */
  function Recenti(store: seq<Prenotazione>, userId: string): (r: seq<Prenotazione>)
    ensures |r| <= 4
  {
    Take(SortDesc(Attive(store, userId), ByCreation), 4)
  }

  /** What the widget shows, cancellability included. */
  function UltimiOrdini(catalog: seq<Postazione>, store: seq<Prenotazione>, user: Option<Principal>, now: DateTime)
    : (r: seq<UltimoOrdine>)
    ensures |r| <= 4
  {
    var userId := WidgetUserId(user);
    if IsNullOrEmpty(userId) then []
    else
      Marcati(Proiettati(catalog, Recenti(store, userId.value)), now)
  }

  /** The entries of the query's list, each cancellable iff it was created less than
      an hour before `now`. */
  function Marcati(query: seq<UltimoOrdine>, now: DateTime): (r: seq<UltimoOrdine>)
    ensures |r| == |query|
    ensures forall k :: 0 <= k < |r| ==> r[k] == Marcato(query[k], now)
  {
    seq(|query|, k requires 0 <= k < |query| => Marcato(query[k], now))
  }

  /** The query's projection of `rows`. */
  function Proiettati(catalog: seq<Postazione>, rows: seq<Prenotazione>): (r: seq<UltimoOrdine>)
    ensures |r| == |rows|
    ensures forall k :: 0 <= k < |r| ==> r[k] == UltimoOf(catalog, rows[k])
  {
    seq(|rows|, k requires 0 <= k < |rows| => UltimoOf(catalog, rows[k]))
  }

  /** The loop body: an entry is cancellable iff its creation time is less
      than an hour before `now`. */
  function Marcato(o: UltimoOrdine, now: DateTime): (r: UltimoOrdine)
    ensures r.cancellabile <==> now - o.data < TicksPerHour
    ensures r.(cancellabile := o.cancellabile) == o
  {
    o.(cancellabile := Cancellabile(now, o.data))
  }

  /** `InvokeAsync`: the query fills a list with `Cancellabile` false, then
      a `foreach` sets it on every entry against one reading of the clock. */
  method InvokeAsync(catalog: seq<Postazione>, store: seq<Prenotazione>, user: Option<Principal>, now: DateTime)
    returns (r: seq<UltimoOrdine>)
    ensures r == UltimiOrdini(catalog, store, user, now)
  {
    var userId := WidgetUserId(user);
    if IsNullOrEmpty(userId) {
      return [];
    }
    var rows := Recenti(store, userId.value);
    r := MarkAll(Proiettati(catalog, rows), now);
  }

  /** The query's list, then the `foreach` over it. */
  method MarkAll(query: seq<UltimoOrdine>, now: DateTime) returns (r: seq<UltimoOrdine>)
    ensures r == Marcati(query, now)
  {
    var ordini := new UltimoOrdine[|query|](k requires 0 <= k < |query| => query[k]);
    for i := 0 to ordini.Length
      invariant forall k :: 0 <= k < i ==> ordini[k] == Marcato(query[k], now)
      invariant forall k :: i <= k < ordini.Length ==> ordini[k] == query[k]
    {
      ordini[i] := Marcato(ordini[i], now);
    }
    r := ordini[..];
  }

  /** The widget lists only the caller's active bookings, newest creation
      first, at most four, with no active booking left out that was created
      later than one shown; each entry is cancellable iff it was created
      less than an hour before `now`. */
  lemma UltimiOrdiniSpec(catalog: seq<Postazione>, store: seq<Prenotazione>, user: Option<Principal>, now: DateTime)
    ensures var userId := WidgetUserId(user);
      IsNullOrEmpty(userId) ==> UltimiOrdini(catalog, store, user, now) == []
    ensures var userId := WidgetUserId(user);
      !IsNullOrEmpty(userId) ==>
        var rows := Recenti(store, userId.value);
        && |rows| == (if |Attive(store, userId.value)| < 4 then |Attive(store, userId.value)| else 4)
        && (forall p :: p in rows ==> p in store && p.userId == userId.value && !p.isCancellata)
        && (forall i, j :: 0 <= i < j < |rows| ==> rows[i].dataCreazione >= rows[j].dataCreazione)
        && (forall p :: p in Attive(store, userId.value) && p !in rows ==>
              forall k :: 0 <= k < |rows| ==> rows[k].dataCreazione >= p.dataCreazione)
        && |UltimiOrdini(catalog, store, user, now)| == |rows|
        && (forall k :: 0 <= k < |rows| ==>
              (UltimiOrdini(catalog, store, user, now)[k].cancellabile <==> now - rows[k].dataCreazione < TicksPerHour))
  {
    var userId := WidgetUserId(user);
    if !IsNullOrEmpty(userId) {
      TakeOfSorted(Attive(store, userId.value), ByCreation, 4);
    }
  }

  /** A sorted prefix keeps its elements from the input, in key order, and
      nothing left out ranks before anything kept. */
  lemma TakeOfSorted(xs: seq<Prenotazione>, key: Prenotazione -> (int, int), n: nat)
    ensures var kept := Take(SortDesc(xs, key), n);
      && (forall p :: p in kept ==> p in xs)
      && (forall i, j :: 0 <= i < j < |kept| ==> key(kept[i]).0 >= key(kept[j]).0)
      && (forall p :: p in xs && p !in kept ==> forall k :: 0 <= k < |kept| ==> key(kept[k]).0 >= key(p).0)
  {
    TopOfSort(xs, key, n);
  }

  // ---------------------------------------------------------------------
  // The reserved area

  /** An order line; `Id` is never set. Its `Cancellabile` is computed from
      `Data`, which here is the booked day. */
  datatype OrdineViewModel = OrdineViewModel(id: int, data: DateTime, descrizione: string, prezzo: int)

  datatype AcquistoFrequente = AcquistoFrequente(descrizione: string, quantita: int)

  datatype AreaRiservataViewModel = AreaRiservataViewModel(
    nome: Option<string>, email: string, ruolo: string,
    ultimiOrdini: seq<OrdineViewModel>, acquistiFrequenti: seq<AcquistoFrequente>)

  /** The one role fallback of this page: a missing claim reads "Utente". */
  const RuoloPredefinito: string := "Utente"

  function OrdineOf(catalog: seq<Postazione>, p: Prenotazione): OrdineViewModel {
    OrdineViewModel(0, p.dataPrenotazione, Descrizione(NameOf(catalog, p.postazioneId), p.numeroPersone), p.prezzo)
  }

  function ByCount(a: AcquistoFrequente): (int, int) { (a.quantita, 0) }

  /** The names of the resources of `rows`, each with no amount. */
  function Names(catalog: seq<Postazione>, rows: seq<Prenotazione>): (r: seq<(string, int)>)
    ensures |r| == |rows|
    ensures forall k :: 0 <= k < |rows| ==> r[k] == (NameOf(catalog, rows[k].postazioneId), 0)
  {
    seq(|rows|, k requires 0 <= k < |rows| => (NameOf(catalog, rows[k].postazioneId), 0))
  }

  /** One entry per distinct resource name with its number of bookings,
      in the order the names first occur. */
  function Acquisti(catalog: seq<Postazione>, rows: seq<Prenotazione>): (r: seq<AcquistoFrequente>)
    ensures |r| == |GroupBy(Names(catalog, rows))|
    ensures forall k :: 0 <= k < |r| ==>
      r[k] == AcquistoFrequente(GroupBy(Names(catalog, rows))[k].name, GroupBy(Names(catalog, rows))[k].count)
  {
    var groups := GroupBy(Names(catalog, rows));
    seq(|groups|, k requires 0 <= k < |groups| => AcquistoFrequente(groups[k].name, groups[k].count))
  }

  /** The five most booked of them. */
  function Frequenti(catalog: seq<Postazione>, rows: seq<Prenotazione>): (r: seq<AcquistoFrequente>)
    ensures |r| <= 5
  {
    Take(SortDesc(Acquisti(catalog, rows), ByCount), 5)
  }

  /** `Index`. The identity's user id is parsed as a GUID (`parseGuid`, the
      framework's `Guid.TryParse`, whose failure leaves the empty GUID) to
      find the user record; the bookings are matched on the id text. */
  function AreaRiservata(users: seq<User>, catalog: seq<Postazione>, store: seq<Prenotazione>, user: Principal,
                         parseGuid: string -> Option<Guid>): AreaRiservataViewModel
  {
    var userId := user.nameIdentifier.GetOr(user.name.GetOr(""));
    var known := user.nameIdentifier.Some? || user.name.Some?;
    var guid := if known then parseGuid(userId).GetOr(0) else 0;
    var found := FindUserById(users, guid);
    var mine := if known then Attive(store, userId) else [];
    AreaRiservataViewModel(
      if found.Some? then Some(found.value.firstName.GetOr("") + " " + found.value.lastName.GetOr("")) else user.name,
      if found.Some? then found.value.email.GetOr("") else "",
      user.ruolo.GetOr(RuoloPredefinito),
      Ordini(catalog, mine),
      Frequenti(catalog, mine))
  }

  /** The ten bookings with the latest booked day. */
  function UltimeDieci(mine: seq<Prenotazione>): (r: seq<Prenotazione>)
    ensures |r| <= 10
  {
    Take(SortDesc(mine, ByBookedDay), 10)
  }

  /** Their order lines, in the same order. */
  function Ordini(catalog: seq<Postazione>, mine: seq<Prenotazione>): (r: seq<OrdineViewModel>)
    ensures |r| == |UltimeDieci(mine)|
    ensures forall k :: 0 <= k < |r| ==> r[k] == OrdineOf(catalog, UltimeDieci(mine)[k])
  {
    var rows := UltimeDieci(mine);
    seq(|rows|, k requires 0 <= k < |rows| => OrdineOf(catalog, rows[k]))
  }

  /** `Users.FirstOrDefault(u => u.Id == id)`. */
  function FindUserById(users: seq<User>, id: Guid): (r: Option<User>)
    ensures r.Some? ==> r.value in users && r.value.id == id
    ensures r.None? ==> forall u :: u in users ==> u.id != id
  {
    if users == [] then None
    else if users[0].id == id then Some(users[0])
    else FindUserById(users[1..], id)
  }

  /** The page's order list is the order lines of the caller's active
      bookings, the caller being the name identifier, else the identity
      name. */
  lemma AreaOrdini(users: seq<User>, catalog: seq<Postazione>, store: seq<Prenotazione>, user: Principal,
                   parseGuid: string -> Option<Guid>)
    requires user.nameIdentifier.Some? || user.name.Some?
    ensures AreaRiservata(users, catalog, store, user, parseGuid).ultimiOrdini
      == Ordini(catalog, Attive(store, user.nameIdentifier.GetOr(user.name.GetOr(""))))
  {
  }

  /** The order lines of a user: at most ten, latest booked day first, each
      for one of the user's active bookings and showing its booked day, none
      left out booked for a later day than one shown. */
  lemma OrderListSpec(catalog: seq<Postazione>, store: seq<Prenotazione>, userId: string)
    ensures var kept := UltimeDieci(Attive(store, userId));
      var ordini := Ordini(catalog, Attive(store, userId));
      && |ordini| == |kept| <= 10
      && (forall k :: 0 <= k < |kept| ==>
            (kept[k] in store && kept[k].userId == userId && !kept[k].isCancellata
             && ordini[k].data == kept[k].dataPrenotazione))
      && (forall i, j :: 0 <= i < j < |kept| ==> kept[i].dataPrenotazione >= kept[j].dataPrenotazione)
      && (forall p :: p in Attive(store, userId) && p !in kept ==>
            forall k :: 0 <= k < |kept| ==> kept[k].dataPrenotazione >= p.dataPrenotazione)
  {
    var mine := Attive(store, userId);
    var kept := UltimeDieci(mine);
    TakeOfSorted(mine, ByBookedDay, 10);
    forall k | 0 <= k < |kept| ensures kept[k] in store && kept[k].userId == userId && !kept[k].isCancellata {
      assert kept[k] in kept;
    }
  }

  /** Before the cut each name appears once, with its number of bookings. */
  lemma AcquistiSpec(catalog: seq<Postazione>, rows: seq<Prenotazione>)
    ensures var a := Acquisti(catalog, rows);
      forall i, j :: 0 <= i < j < |a| ==> a[i].descrizione != a[j].descrizione
    ensures forall x :: x in Acquisti(catalog, rows) ==> x.quantita == CountOf(Names(catalog, rows), x.descrizione) > 0
  {
    var groups := GroupBy(Names(catalog, rows));
    var a := Acquisti(catalog, rows);
    GroupBySpec(Names(catalog, rows));
    forall x | x in a ensures x.quantita == CountOf(Names(catalog, rows), x.descrizione) > 0 {
      var k :| 0 <= k < |a| && a[k] == x;
      assert groups[k] in groups;
    }
  }

  /** Frequent purchases: at most five distinct names, most booked first,
      each with the number of the given bookings on a resource of that
      name. */
  lemma FrequentiSpec(catalog: seq<Postazione>, rows: seq<Prenotazione>)
    ensures var f := Frequenti(catalog, rows);
      && (forall i, j :: 0 <= i < j < |f| ==> f[i].quantita >= f[j].quantita)
      && (forall i, j :: 0 <= i < j < |f| ==> f[i].descrizione != f[j].descrizione)
      && (forall x :: x in f ==> x.quantita == CountOf(Names(catalog, rows), x.descrizione) > 0)
  {
    var a := Acquisti(catalog, rows);
    AcquistiSpec(catalog, rows);
    var sorted := SortDesc(a, ByCount);
    SortDescSpec(a, ByCount);
    var f := Take(sorted, 5);
    forall x | x in f ensures x in a {
      assert x in multiset(sorted);
    }
    PermutationKeepsNamesDistinct(a, sorted, (x: AcquistoFrequente) => x.descrizione);
  }

  /** The header falls back to the identity name and an empty email when
      no user record matches, and to "Utente" when the role claim is
      missing, where every other page reads a missing role as "User". */
  lemma HeaderFallbacks(users: seq<User>, catalog: seq<Postazione>, store: seq<Prenotazione>, user: Principal,
                        parseGuid: string -> Option<Guid>)
    requires forall u :: u in users ==> u.id != 0
    requires forall s :: parseGuid(s).None?
    ensures var vm := AreaRiservata(users, catalog, store, user, parseGuid);
      vm.nome == user.name && vm.email == ""
    ensures user.ruolo.None? ==> AreaRiservata(users, catalog, store, user, parseGuid).ruolo == RuoloPredefinito != RoleOf(user)
  {
  }

  /** A booking made two hours ago for a later day is not cancellable in
      the widget, which measures from the creation time, but is in the
      reserved area, which measures from the booked day. */
  lemma WidgetAndAreaDisagree(catalog: seq<Postazione>, p: Prenotazione, now: DateTime)
    requires p.dataCreazione + 2 * TicksPerHour == now
    requires p.dataPrenotazione > now
    ensures !Cancellabile(now, p.dataCreazione)
    ensures Cancellabile(now, OrdineOf(catalog, p).data)
  {
  }

  /** Exactly one hour after creation an order is no longer cancellable,
      and it never becomes cancellable again later. */
  lemma CancellableWindow(data: DateTime, now: DateTime, later: DateTime)
    requires now <= later
    ensures now == data + TicksPerHour ==> !Cancellabile(now, data)
    ensures !Cancellabile(now, data) ==> !Cancellabile(later, data)
    ensures now < data + TicksPerHour <==> Cancellabile(now, data)
  {
  }

  /** The page and the server describe a booked line differently: the page
      adds the party size only for restaurant lines, the server for any line
      of more than one person. */
  lemma DescriptionsDisagree()
    ensures var room := ClientCart.CartItem(ClientCart.MapItem(1, "Sala Riunioni", Riunioni, 8, 0, false), 3);
      && ClientCart.StoricoOf(room).descrizione == "Sala Riunioni"
      && Descrizione("Sala Riunioni", 3) == "Sala Riunioni (x3)"
    ensures var table := ClientCart.CartItem(ClientCart.MapItem(2, "Tavolo 1", Ristorante, 4, 0, false), 1);
      && ClientCart.StoricoOf(table).descrizione == "Tavolo 1 (x1)"
      && Descrizione("Tavolo 1", 1) == "Tavolo 1"
  {
    assert FormatInt(3) == "3" by {
      assert FormatNat(3) == [DigitChar(3)];
    }
    assert FormatInt(1) == "1" by {
      assert FormatNat(1) == [DigitChar(1)];
    }
    assert Riunioni != Ristorante by {
      assert |Riunioni| != |Ristorante|;
    }
  }
}
