/**
 * The super-admin pages (`SuperAdminController`): the role guard every
 * action starts with, the dashboard statistics (`BuildStatsAsync`), the
 * daily series of the last seven days, the spend per section with its
 * name-and-type classification, and the per-user detail page.
 */
module SuperAdmin {
  import opened Wrappers
  import opened Calendar
  import opened Text
  import opened Entities
  import opened Db
  import opened Claims
  import opened Ranking
  import Orders

  // ---------------------------------------------------------------------
  // Role guard

  /** What an action answers: `Forbid()`, or its page. */
  datatype Reply<T> = Forbidden | Page(content: T)

  /** `User.FindFirst("Ruolo")?.Value != RuoliCostanti.SUPER_ADMIN`: only the
      exact role text passes; a missing claim does not. */
  predicate IsSuperAdmin(user: Principal) {
    user.ruolo == Some(RoleSuperAdmin)
  }

  // ---------------------------------------------------------------------
  // Counting and summing bookings

  /** The bookings that are not cancelled, in table order. */
  function NonCancellate(store: seq<Prenotazione>): (r: seq<Prenotazione>)
    ensures |r| <= |store|
    ensures forall p :: p in r <==> p in store && !p.isCancellata
  {
    if store == [] then []
    else
      var init := NonCancellate(store[..|store| - 1]);
      var p := store[|store| - 1];
      assert forall x :: x in store <==> x in store[..|store| - 1] || x == p;
      if p.isCancellata then init else init + [p]
  }

  /** The number of cancelled bookings. */
  function Cancellate(store: seq<Prenotazione>): (n: nat)
    ensures n <= |store|
  {
    if store == [] then 0
    else Cancellate(store[..|store| - 1]) + (if store[|store| - 1].isCancellata then 1 else 0)
  }

  /** Every booking is either cancelled or not. */
  lemma {:induction false} CancelledPlusActive(store: seq<Prenotazione>)
    ensures Cancellate(store) + |NonCancellate(store)| == |store|
    decreases |store|
  {
    if store != [] {
      CancelledPlusActive(store[..|store| - 1]);
    }
  }

  /** `Sum(p => p.Prezzo)`, in cents. */
  function Spend(rows: seq<Prenotazione>): int {
    if rows == [] then 0 else Spend(rows[..|rows| - 1]) + rows[|rows| - 1].prezzo
  }

  lemma {:induction false} SpendAppend(a: seq<Prenotazione>, b: seq<Prenotazione>)
    ensures Spend(a + b) == Spend(a) + Spend(b)
    decreases |b|
  {
    if b == [] {
      assert a + b == a;
    } else {
      assert (a + b)[..|a + b| - 1] == a + b[..|b| - 1];
      assert (a + b)[|a + b| - 1] == b[|b| - 1];
      SpendAppend(a, b[..|b| - 1]);
      assert Spend(a + b) == Spend(a + b[..|b| - 1]) + b[|b| - 1].prezzo;
    }
  }

  /** A total that only adds non-negative prices is non-negative. */
  lemma {:induction false} SpendNonNegative(rows: seq<Prenotazione>)
    requires forall p :: p in rows ==> p.prezzo >= 0
    ensures Spend(rows) >= 0
    decreases |rows|
  {
    if rows != [] {
      assert forall p :: p in rows[..|rows| - 1] ==> p in rows;
      SpendNonNegative(rows[..|rows| - 1]);
    }
  }

  /** The bookings that are not cancelled and whose day is `now` or later. */
  function Attive(store: seq<Prenotazione>, now: DateTime): (n: nat)
    ensures n <= |NonCancellate(store)|
  {
    if store == [] then 0
    else
      var p := store[|store| - 1];
      Attive(store[..|store| - 1], now) + (if !p.isCancellata && p.dataPrenotazione >= now then 1 else 0)
  }

  /** The bookings created in the week starting on day `monday`. `AddDays(7)`
      is taken on plain integers. */
  function CreatedInWeek(store: seq<Prenotazione>, monday: int): (n: nat)
    ensures n <= |store|
  {
    if store == [] then 0
    else
      var p := store[|store| - 1];
      CreatedInWeek(store[..|store| - 1], monday)
        + (if monday * TicksPerDay <= p.dataCreazione < (monday + 7) * TicksPerDay then 1 else 0)
  }

  /** `Users.CountAsync(u => u.Ruolo == role)`. */
  function UsersWithRole(users: seq<User>, role: string): (n: nat)
    ensures n <= |users|
  {
    if users == [] then 0
    else UsersWithRole(users[..|users| - 1], role) + (if users[|users| - 1].ruolo == Some(role) then 1 else 0)
  }

  // ---------------------------------------------------------------------
  // Average spend

  /** `Math.Round(total / count, 2)` on decimals, in cents: the quotient
      rounded to the nearest cent, ties to the even cent. */
  function RoundHalfEven(total: int, count: int): (r: int)
    requires count > 0
    ensures 2 * (r * count - total) <= count && 2 * (total - r * count) <= count
    ensures (2 * (r * count - total) == count || 2 * (total - r * count) == count) ==> r % 2 == 0
  {
    var q := total / count;
    var m := total % count;
    assert total == q * count + m;
    if 2 * m < count then q
    else if 2 * m > count then q + 1
    else if q % 2 == 0 then q
    else q + 1
  }

  /** The rounding gives the exact quotient whenever there is one. */
  lemma RoundExact(q: int, count: int)
    requires count > 0
    ensures RoundHalfEven(q * count, count) == q
  {
    var r := RoundHalfEven(q * count, count);
    var d := r - q;
    assert r * count - q * count == d * count;
    if d >= 1 {
      MulAtLeast(d, count);
    } else if d <= -1 {
      MulAtLeast(-d, count);
    }
  }

  lemma MulAtLeast(d: int, c: int)
    requires d >= 1 && c > 0
    ensures d * c >= c
  {
    assert d * c == (d - 1) * c + c;
    assert (d - 1) * c >= 0;
  }

  /** `SpesaMedia`: the spend over non-cancelled bookings divided by the
      number of all bookings, cancelled ones included; zero when there
      are none. */
  function SpesaMedia(store: seq<Prenotazione>): int {
    if |store| > 0 then RoundHalfEven(Spend(NonCancellate(store)), |store|) else 0
  }

  /** Cancelled bookings pull the average down: two bookings at the same
      price, one of them cancelled, average to half that price. */
  lemma CancelledDiluteAverage(p: Prenotazione, q: Prenotazione)
    requires !p.isCancellata && q.isCancellata && p.prezzo == 2 * q.prezzo
    ensures SpesaMedia([p, q]) == q.prezzo
  {
    assert [p, q][..1] == [p];
    assert [p][..0] == [];
    assert NonCancellate([p, q]) == [p];
    assert Spend([p]) == p.prezzo;
    RoundExact(q.prezzo, 2);
  }

  // ---------------------------------------------------------------------
  // Most-booked resources

  datatype PostazioneStats = PostazioneStats(nome: string, numPrenotazioni: int, spesaTotale: int)

  /** The resource name and price of each non-cancelled booking. */
  function NamedPrices(catalog: seq<Postazione>, store: seq<Prenotazione>): (r: seq<(string, int)>)
    ensures |r| == |NonCancellate(store)|
  {
    var rows := NonCancellate(store);
    seq(|rows|, k requires 0 <= k < |rows| => (NameOf(catalog, rows[k].postazioneId), rows[k].prezzo))
  }

  function PerPostazione(items: seq<(string, int)>): (r: seq<PostazioneStats>)
    ensures |r| == |GroupBy(items)|
    ensures forall k :: 0 <= k < |r| ==>
      r[k] == PostazioneStats(GroupBy(items)[k].name, GroupBy(items)[k].count, GroupBy(items)[k].total)
  {
    var groups := GroupBy(items);
    seq(|groups|, k requires 0 <= k < |groups| => PostazioneStats(groups[k].name, groups[k].count, groups[k].total))
  }

  function ByBookings(s: PostazioneStats): (int, int) { (s.numPrenotazioni, 0) }

  /** `PostazioniPiuPrenotate`: grouped by resource name, most bookings
      first, at most ten. */
  function PiuPrenotate(catalog: seq<Postazione>, store: seq<Prenotazione>): (r: seq<PostazioneStats>)
    ensures |r| <= 10
  {
    Take(SortDesc(PerPostazione(NamedPrices(catalog, store)), ByBookings), 10)
  }

  /** Each group is one name, counted and summed over the items with it. */
  lemma PerPostazioneSpec(items: seq<(string, int)>)
    ensures var s := PerPostazione(items);
      forall i, j :: 0 <= i < j < |s| ==> s[i].nome != s[j].nome
    ensures forall x :: x in PerPostazione(items) ==>
      x.numPrenotazioni == CountOf(items, x.nome) > 0 && x.spesaTotale == SumOf(items, x.nome)
    ensures forall name :: CountOf(items, name) > 0 ==> exists x :: x in PerPostazione(items) && x.nome == name
  {
    var groups := GroupBy(items);
    var s := PerPostazione(items);
    GroupBySpec(items);
    forall x | x in s ensures x.numPrenotazioni == CountOf(items, x.nome) > 0 && x.spesaTotale == SumOf(items, x.nome) {
      var k :| 0 <= k < |s| && s[k] == x;
      assert groups[k] in groups;
    }
    forall name | CountOf(items, name) > 0 ensures exists x :: x in s && x.nome == name {
      var g :| g in groups && g.name == name;
      var k :| 0 <= k < |groups| && groups[k] == g;
      assert s[k] in s;
    }
  }

  /** The most-booked list names distinct resources, each with its number
      of non-cancelled bookings and their spend, in decreasing number of
      bookings; a resource left out has no more bookings than any shown. */
  lemma PiuPrenotateSpec(catalog: seq<Postazione>, store: seq<Prenotazione>)
    ensures var items := NamedPrices(catalog, store);
      var top := PiuPrenotate(catalog, store);
      && (forall i, j :: 0 <= i < j < |top| ==> top[i].numPrenotazioni >= top[j].numPrenotazioni)
      && (forall i, j :: 0 <= i < j < |top| ==> top[i].nome != top[j].nome)
      && (forall x :: x in top ==> x.numPrenotazioni == CountOf(items, x.nome) > 0 && x.spesaTotale == SumOf(items, x.nome))
      && (forall x :: x in PerPostazione(items) && x !in top ==>
            forall k :: 0 <= k < |top| ==> top[k].numPrenotazioni >= x.numPrenotazioni)
  {
    var items := NamedPrices(catalog, store);
    var all := PerPostazione(items);
    PerPostazioneSpec(items);
    TopOfSort(all, ByBookings, 10);
    SortDescSpec(all, ByBookings);
    PermutationKeepsNamesDistinct(all, SortDesc(all, ByBookings), (x: PostazioneStats) => x.nome);
  }

  // ---------------------------------------------------------------------
  // Sections

  const SalaEventi: string := "Sala eventi"
  const SalaMeeting: string := "Sala meeting"
  const DevTeam: string := "Dev team"
  const DeskRoom: string := "Desk room"
  const SezioneRistorante: string := "Ristorante"

  /** The sections the page always lists, in this order before sorting. */
  const Sezioni: seq<string> := [SalaEventi, SalaMeeting, DevTeam, DeskRoom, SezioneRistorante]

  /** The section a resource name names, testing the keywords in order. */
  function SezioneOfNome(n: string): (r: Option<string>)
    ensures r.Some? ==> r.value in Sezioni
  {
    if ContainsIgnoreCase(n, "SALA EVENTI") then Some(SalaEventi)
    else if ContainsIgnoreCase(n, "MEETING") then Some(SalaMeeting)
    else if ContainsIgnoreCase(n, "DEV TEAM") then Some(DevTeam)
    else if ContainsIgnoreCase(n, "DESK ROOM") then Some(DeskRoom)
    else if ContainsIgnoreCase(n, "RISTORANTE") then Some(SezioneRistorante)
    else None
  }

  /** The section a resource type gives. */
  function SezioneOfTipo(t: string): (r: Option<string>)
    ensures r.Some? ==> r.value in Sezioni
  {
    if EqualsIgnoreCase(t, Riunioni) then Some(SalaMeeting)
    else if EqualsIgnoreCase(t, Ristorante) then Some(SezioneRistorante)
    else if EqualsIgnoreCase(t, Eventi) then Some(SalaEventi)
    else None
  }

  /** `NormalizeSezione`: the trimmed name decides when it holds a keyword,
      else the trimmed type, else the resource is a desk room. */
  function NormalizeSezione(nome: Option<string>, tipo: Option<string>): (r: string)
    ensures r in Sezioni
  {
    var byName := if !IsNullOrWhiteSpace(nome) then SezioneOfNome(Trim(nome.value)) else None;
    var byType := if !IsNullOrWhiteSpace(tipo) then SezioneOfTipo(Trim(tipo.value)) else None;
    if byName.Some? then byName.value
    else if byType.Some? then byType.value
    else DeskRoom
  }

  /** A word with no white space at its ends is its own trim. */
  lemma TrimWord(w: string)
    requires |w| > 0 && !IsWhiteSpace(w[0]) && !IsWhiteSpace(w[|w| - 1])
    ensures Trim(w) == w
  {
    assert TrimStart(w) == w;
    assert TrimEnd(w) == w;
  }

  lemma DifferentLengths(a: string, b: string)
    requires |a| != |b|
    ensures !EqualsIgnoreCase(a, b)
  {
    assert |Upper(a)| != |Upper(b)|;
  }

  /** When the name holds no keyword, the type decides. */
  lemma TypeDecides(nome: Option<string>, tipo: string)
    requires IsNullOrWhiteSpace(nome) || SezioneOfNome(Trim(nome.value)).None?
    requires |tipo| > 0 && !IsWhiteSpace(tipo[0]) && !IsWhiteSpace(tipo[|tipo| - 1])
    ensures NormalizeSezione(nome, Some(tipo)) == SezioneOfTipo(tipo).GetOr(DeskRoom)
  {
    TrimWord(tipo);
    assert !IsBlank(tipo);
  }

  /** No plain type names a section, so a "Team" or "Singola" resource
      whose name holds no keyword is a desk room: team rooms land in
      "Dev team" only through their name. */
  lemma PlainTypesAreDeskRooms(nome: Option<string>, tipo: string)
    requires tipo == Team || tipo == Singola
    requires IsNullOrWhiteSpace(nome) || SezioneOfNome(Trim(nome.value)).None?
    ensures NormalizeSezione(nome, Some(tipo)) == DeskRoom
  {
    TypeDecides(nome, tipo);
    DifferentLengths(tipo, Riunioni);
    DifferentLengths(tipo, Ristorante);
    DifferentLengths(tipo, Eventi);
  }

  /** The section each bookable type maps to when the name is silent. */
  lemma TypedSections(nome: Option<string>)
    requires IsNullOrWhiteSpace(nome) || SezioneOfNome(Trim(nome.value)).None?
    ensures NormalizeSezione(nome, Some(Riunioni)) == SalaMeeting
    ensures NormalizeSezione(nome, Some(Ristorante)) == SezioneRistorante
    ensures NormalizeSezione(nome, Some(Eventi)) == SalaEventi
    ensures NormalizeSezione(nome, None) == DeskRoom
  {
    TypeSection(nome, Riunioni, SalaMeeting);
    TypeSection(nome, Ristorante, SezioneRistorante);
    TypeSection(nome, Eventi, SalaEventi);
  }

  lemma TypeSection(nome: Option<string>, tipo: string, sezione: string)
    requires IsNullOrWhiteSpace(nome) || SezioneOfNome(Trim(nome.value)).None?
    requires (tipo, sezione) in [(Riunioni, SalaMeeting), (Ristorante, SezioneRistorante), (Eventi, SalaEventi)]
    ensures NormalizeSezione(nome, Some(tipo)) == sezione
  {
    TypeDecides(nome, tipo);
    TipoSections();
  }

  lemma TipoSections()
    ensures SezioneOfTipo(Riunioni) == Some(SalaMeeting)
    ensures SezioneOfTipo(Ristorante) == Some(SezioneRistorante)
    ensures SezioneOfTipo(Eventi) == Some(SalaEventi)
  {
    DifferentLengths(Ristorante, Riunioni);
    DifferentLengths(Eventi, Riunioni);
    DifferentLengths(Eventi, Ristorante);
  }

  /** When the trimmed name holds a keyword, the name decides. */
  lemma NameDecides(nome: string, tipo: Option<string>)
    requires !IsBlank(nome) && SezioneOfNome(Trim(nome)).Some?
    ensures NormalizeSezione(Some(nome), tipo) == SezioneOfNome(Trim(nome)).value
  {
  }

  lemma ShorterContainsNothingLonger(s: string, sub: string)
    requires |sub| > |s|
    ensures !ContainsIgnoreCase(s, sub)
  {
    assert |Upper(sub)| > |Upper(s)|;
  }

  /** The name wins over the type: a resource whose name mentions a
      meeting (and no event hall) is a meeting room, whatever its type,
      a restaurant-type one included. */
  lemma NameBeatsType(nome: string, tipo: Option<string>)
    requires ContainsIgnoreCase(Trim(nome), "MEETING") && !ContainsIgnoreCase(Trim(nome), "SALA EVENTI")
    ensures NormalizeSezione(Some(nome), tipo) == SalaMeeting
  {
    assert Trim(nome) != "" by {
      if Trim(nome) == "" {
        ShorterContainsNothingLonger(Trim(nome), "MEETING");
      }
    }
    NameDecides(nome, tipo);
  }

  datatype SpesaSezione = SpesaSezione(sezione: string, spesaTotale: int, numPrenotazioni: int)

  /** The section and price of each non-cancelled booking. */
  function SectionPrices(catalog: seq<Postazione>, store: seq<Prenotazione>): (r: seq<(string, int)>)
    ensures |r| == |NonCancellate(store)|
    ensures forall k :: 0 <= k < |r| ==> r[k].0 in Sezioni
  {
    SectionPricesOf(catalog, NonCancellate(store))
  }

  /** The section of each of `rows` with its price. */
  function SectionPricesOf(catalog: seq<Postazione>, rows: seq<Prenotazione>): (r: seq<(string, int)>)
    ensures |r| == |rows|
    ensures forall k :: 0 <= k < |r| ==> r[k].0 in Sezioni && r[k].1 == rows[k].prezzo
  {
    seq(|rows|, k requires 0 <= k < |rows| =>
      var pos := FindPostazione(catalog, rows[k].postazioneId);
      (NormalizeSezione(if pos.Some? then Some(pos.value.nome) else None,
                        if pos.Some? then Some(pos.value.tipo) else None),
       rows[k].prezzo))
  }

  /** `grouped.TryGetValue(sezione, ...)`, or a zero row. */
  function Lookup(groups: seq<Group>, sezione: string): SpesaSezione {
    var k := GroupIndex(groups, sezione);
    if k == -1 then SpesaSezione(sezione, 0, 0) else SpesaSezione(sezione, groups[k].total, groups[k].count)
  }

  function Lookups(items: seq<(string, int)>): (r: seq<SpesaSezione>)
    ensures |r| == |Sezioni|
    ensures forall k :: 0 <= k < |r| ==> r[k] == Lookup(GroupBy(items), Sezioni[k])
  {
    seq(|Sezioni|, k requires 0 <= k < |Sezioni| => Lookup(GroupBy(items), Sezioni[k]))
  }

  function BySpend(s: SpesaSezione): (int, int) { (s.spesaTotale, s.numPrenotazioni) }

  /** `GetSpesaPerSezione`. */
  function SpesaPerSezione(catalog: seq<Postazione>, store: seq<Prenotazione>): (r: seq<SpesaSezione>)
    ensures |r| == |Sezioni|
  {
    SortDesc(Lookups(SectionPrices(catalog, store)), BySpend)
  }

  /** The five rows the lookups should give: every section with its spend
      and its number of bookings. */
  function Reference(items: seq<(string, int)>): (r: seq<SpesaSezione>)
    ensures |r| == |Sezioni|
  {
    seq(|Sezioni|, k requires 0 <= k < |Sezioni| => SpesaSezione(Sezioni[k], SumOf(items, Sezioni[k]), CountOf(items, Sezioni[k])))
  }

  lemma LookupsAreReference(items: seq<(string, int)>)
    ensures Lookups(items) == Reference(items)
  {
    var groups := GroupBy(items);
    GroupBySpec(items);
    forall k | 0 <= k < |Sezioni| ensures Lookups(items)[k] == Reference(items)[k] {
      var s := Sezioni[k];
      var m := GroupIndex(groups, s);
      if m == -1 {
        assert CountOf(items, s) == 0;
        NoCountNoSum(items, s);
      } else {
        assert groups[m] in groups;
      }
    }
  }

  /** The page lists the five sections exactly once each, highest spend
      first and, at equal spend, more bookings first; each row holds the
      spend and the number of the non-cancelled bookings in its section,
      zero for a section nobody booked. */
  lemma SpesaPerSezioneSpec(catalog: seq<Postazione>, store: seq<Prenotazione>)
    ensures var items := SectionPrices(catalog, store);
      && SortedDesc(SpesaPerSezione(catalog, store), BySpend)
      && multiset(SpesaPerSezione(catalog, store)) == multiset(Reference(items))
  {
    var items := SectionPrices(catalog, store);
    LookupsAreReference(items);
    SortDescSpec(Lookups(items), BySpend);
  }

  /** Every non-cancelled booking falls in exactly one of the five
      sections, so the section counts add up to all of them and the
      section spends to the total spend. */
  lemma {:induction false} SectionsCoverAll(items: seq<(string, int)>)
    requires forall k :: 0 <= k < |items| ==> items[k].0 in Sezioni
    ensures CountOf(items, SalaEventi) + CountOf(items, SalaMeeting) + CountOf(items, DevTeam)
      + CountOf(items, DeskRoom) + CountOf(items, SezioneRistorante) == |items|
    ensures SumOf(items, SalaEventi) + SumOf(items, SalaMeeting) + SumOf(items, DevTeam)
      + SumOf(items, DeskRoom) + SumOf(items, SezioneRistorante) == PriceSum(items)
    decreases |items|
  {
    if items != [] {
      SectionsCoverAll(items[..|items| - 1]);
    }
  }

  function PriceSum(items: seq<(string, int)>): int {
    if items == [] then 0 else PriceSum(items[..|items| - 1]) + items[|items| - 1].1
  }

  /** The section rows carry the same prices as the bookings. */
  lemma SectionPricesSum(catalog: seq<Postazione>, store: seq<Prenotazione>)
    ensures PriceSum(SectionPrices(catalog, store)) == Spend(NonCancellate(store))
  {
    var rows := NonCancellate(store);
    PricesSum(catalog, rows, |rows|);
    assert SectionPricesOf(catalog, rows)[..|rows|] == SectionPricesOf(catalog, rows);
    assert rows[..|rows|] == rows;
  }

  lemma {:induction false} PricesSum(catalog: seq<Postazione>, rows: seq<Prenotazione>, n: nat)
    requires n <= |rows|
    ensures var items := SectionPricesOf(catalog, rows);
      PriceSum(items[..n]) == Spend(rows[..n])
    decreases n
  {
    var items := SectionPricesOf(catalog, rows);
    if n > 0 {
      PricesSum(catalog, rows, n - 1);
      var prefix := items[..n];
      assert prefix[..n - 1] == items[..n - 1];
      assert prefix[n - 1].1 == rows[n - 1].prezzo;
      assert PriceSum(prefix) == PriceSum(items[..n - 1]) + rows[n - 1].prezzo;
      var booked := rows[..n];
      assert booked[..n - 1] == rows[..n - 1];
      assert booked[n - 1] == rows[n - 1];
    }
  }

  // ---------------------------------------------------------------------
  // The last seven days

  datatype GiornataStats = GiornataStats(data: DateTime, numPrenotazioni: int, spesaTotale: int)

  /** The bookings created on day `d`. */
  function CreatedOn(store: seq<Prenotazione>, d: int): (r: seq<Prenotazione>)
    ensures |r| <= |store|
    ensures forall p :: p in r <==> p in store && Day(p.dataCreazione) == d
  {
    if store == [] then []
    else
      var init := CreatedOn(store[..|store| - 1], d);
      var p := store[|store| - 1];
      assert forall x :: x in store <==> x in store[..|store| - 1] || x == p;
      if Day(p.dataCreazione) == d then init + [p] else init
  }

  /** One day of the series: every booking created that day is counted,
      cancelled ones too, but only the others are summed. */
  function Giornata(store: seq<Prenotazione>, d: int): GiornataStats
    requires 0 <= d <= MaxDay
  {
    var rows := CreatedOn(store, d);
    GiornataStats(Midnight(d), |rows|, Spend(NonCancellate(rows)))
  }

  /** The series for the seven days ending on the day of `now`, oldest
      first; `AddDays(-6)` throws before 0001-01-07. */
  function StatsGiornaliere(store: seq<Prenotazione>, now: DateTime): (r: Option<seq<GiornataStats>>)
    ensures r.Some? <==> Day(now) >= 6
    ensures r.Some? ==> |r.value| == 7
  {
    if Day(now) < 6 then None
    else Some(Series(store, Day(now) - 6))
  }

  /** Seven days from day `first` on. */
  function Series(store: seq<Prenotazione>, first: int): (r: seq<GiornataStats>)
    requires 0 <= first && first + 6 <= MaxDay
    ensures |r| == 7
    ensures forall i :: 0 <= i < 7 ==> r[i] == Giornata(store, first + i)
  {
    seq(7, i requires 0 <= i < 7 => Giornata(store, first + i))
  }

  /** `GetStatsGiornaliere`: a `foreach` over the seven days appending one
      entry per day. */
  method GetStatsGiornaliere(store: seq<Prenotazione>, now: DateTime) returns (r: Option<seq<GiornataStats>>)
    ensures r == StatsGiornaliere(store, now)
  {
    var today := Day(now);
    if today < 6 {
      return None;
    }
    var stats := CollectSeries(store, today - 6);
    r := Some(stats);
  }

  /** The `foreach` of `GetStatsGiornaliere`: one entry appended per day. */
  method CollectSeries(store: seq<Prenotazione>, first: int) returns (stats: seq<GiornataStats>)
    requires 0 <= first && first + 6 <= MaxDay
    ensures stats == Series(store, first)
  {
    stats := [];
    for i := 0 to 7
      invariant |stats| == i
      invariant forall k :: 0 <= k < i ==> stats[k] == Giornata(store, first + k)
    {
      stats := stats + [Giornata(store, first + i)];
    }
  }

  /** The series covers seven consecutive days ending today, oldest
      first; each day counts every booking created on it and sums the
      prices of those that are not cancelled. */
  lemma StatsGiornaliereSpec(store: seq<Prenotazione>, now: DateTime)
    requires Day(now) >= 6
    ensures var s := StatsGiornaliere(store, now).value;
      forall i :: 0 <= i < 7 ==>
        && Day(s[i].data) == Day(now) - 6 + i
        && s[i].numPrenotazioni == |CreatedOn(store, Day(now) - 6 + i)|
        && s[i].spesaTotale == Spend(NonCancellate(CreatedOn(store, Day(now) - 6 + i)))
  {
    SeriesOf(store, Day(now) - 6);
  }

  /** Entry `i` of the series from day `first` is that day's count and spend. */
  lemma SeriesOf(store: seq<Prenotazione>, first: int)
    requires 0 <= first && first + 6 <= MaxDay
    ensures forall i :: 0 <= i < 7 ==>
      && Day(Series(store, first)[i].data) == first + i
      && Series(store, first)[i].numPrenotazioni == |CreatedOn(store, first + i)|
      && Series(store, first)[i].spesaTotale == Spend(NonCancellate(CreatedOn(store, first + i)))
  {
    forall i | 0 <= i < 7
      ensures Day(Series(store, first)[i].data) == first + i
      ensures Series(store, first)[i].numPrenotazioni == |CreatedOn(store, first + i)|
      ensures Series(store, first)[i].spesaTotale == Spend(NonCancellate(CreatedOn(store, first + i)))
    {
      GiornataOf(store, first + i);
    }
  }

  lemma GiornataOf(store: seq<Prenotazione>, d: int)
    requires 0 <= d <= MaxDay
    ensures Day(Giornata(store, d).data) == d
    ensures Giornata(store, d).numPrenotazioni == |CreatedOn(store, d)|
    ensures Giornata(store, d).spesaTotale == Spend(NonCancellate(CreatedOn(store, d)))
  {
  }

  /** A cancelled booking still counts on its day but adds nothing to the
      day's spend. */
  lemma CancelledCountsButCostsNothing(store: seq<Prenotazione>, p: Prenotazione, d: int)
    requires 0 <= d <= MaxDay && Day(p.dataCreazione) == d && p.isCancellata
    ensures Giornata(store + [p], d).numPrenotazioni == Giornata(store, d).numPrenotazioni + 1
    ensures Giornata(store + [p], d).spesaTotale == Giornata(store, d).spesaTotale
  {
    assert (store + [p])[..|store|] == store;
    var rows := CreatedOn(store, d);
    assert CreatedOn(store + [p], d) == rows + [p];
    assert (rows + [p])[..|rows|] == rows;
  }

  // ---------------------------------------------------------------------
  // The dashboard

  datatype Stats = Stats(
    totalUtenti: int,
    superAdmin: int, admin: int, utenti: int,
    totalPrenotazioni: int,
    prenotazioniAttive: int,
    prenotazioniCancellate: int,
    spesaTotale: int,
    spesaMedia: int,
    piuPrenotate: seq<PostazioneStats>,
    giornaliere: seq<GiornataStats>,
    spesaPerSezione: seq<SpesaSezione>,
    prenotazioniSettimanali: int)

  /** `BuildStatsAsync` at the local time `now`; `None` where the daily
      series throws. */
  function BuildStats(users: seq<User>, catalog: seq<Postazione>, store: seq<Prenotazione>, now: DateTime): (r: Option<Stats>)
    ensures r.Some? <==> Day(now) >= 6
  {
    var giornaliere := StatsGiornaliere(store, now);
    if giornaliere.None? then None
    else Some(Stats(
      |users|,
      UsersWithRole(users, RoleSuperAdmin), UsersWithRole(users, RoleAdmin), UsersWithRole(users, RoleUser),
      |store|,
      Attive(store, now),
      Cancellate(store),
      Spend(NonCancellate(store)),
      SpesaMedia(store),
      PiuPrenotate(catalog, store),
      giornaliere.value,
      SpesaPerSezione(catalog, store),
      CreatedInWeek(store, Day(WeekStart(now)))))
  }

  /** The dashboard's figures agree with each other: cancelled and active
      bookings make up the total, every booking in the future is not
      cancelled, and the sections share out the whole spend and all the
      non-cancelled bookings. */
  lemma DashboardConsistent(users: seq<User>, catalog: seq<Postazione>, store: seq<Prenotazione>, now: DateTime)
    requires Day(now) >= 6
    ensures var s := BuildStats(users, catalog, store, now).value;
      && s.prenotazioniCancellate + |NonCancellate(store)| == s.totalPrenotazioni
      && s.prenotazioniAttive + s.prenotazioniCancellate <= s.totalPrenotazioni
      && s.superAdmin <= s.totalUtenti && s.admin <= s.totalUtenti && s.utenti <= s.totalUtenti
    ensures var items := SectionPrices(catalog, store);
      && CountOf(items, SalaEventi) + CountOf(items, SalaMeeting) + CountOf(items, DevTeam)
         + CountOf(items, DeskRoom) + CountOf(items, SezioneRistorante) == |NonCancellate(store)|
      && SumOf(items, SalaEventi) + SumOf(items, SalaMeeting) + SumOf(items, DevTeam)
         + SumOf(items, DeskRoom) + SumOf(items, SezioneRistorante) == BuildStats(users, catalog, store, now).value.spesaTotale
  {
    CancelledPlusActive(store);
    SectionsCoverAll(SectionPrices(catalog, store));
    SectionPricesSum(catalog, store);
  }

  /** `Dashboard` and `StatsJson`: the guard, then the statistics. */
  method Dashboard(db: Database, user: Principal, now: DateTime) returns (r: Option<Reply<Stats>>)
    ensures !IsSuperAdmin(user) ==> r == Some(Forbidden)
    ensures IsSuperAdmin(user) ==>
      r == (var s := BuildStats(db.users, db.postazioni, db.prenotazioni, now); if s.Some? then Some(Page(s.value)) else None)
  {
    if !IsSuperAdmin(user) {
      return Some(Forbidden);
    }
    var giornaliere := GetStatsGiornaliere(db.prenotazioni, now);
    if giornaliere.None? {
      return None;
    }
    var s := BuildStats(db.users, db.postazioni, db.prenotazioni, now);
    r := Some(Page(s.value));
  }

  // ---------------------------------------------------------------------
  // Per-user details

  datatype UtenteDettaglio = UtenteDettaglio(
    id: string, email: Option<string>, nome: string, ruolo: Option<string>,
    numPrenotazioni: int, spesaTotale: int)

  /** The query's projection; the counters start at zero. A null name part
      concatenates as empty text. */
  function Projected(u: User): UtenteDettaglio {
    UtenteDettaglio(GuidText(u.id), u.email, u.firstName.GetOr("") + " " + u.lastName.GetOr(""), u.ruolo, 0, 0)
  }

  /** The detail with its counters: the user's non-cancelled bookings,
      matched on the GUID text, and their spend. */
  function Dettaglio(store: seq<Prenotazione>, u: User): (r: UtenteDettaglio)
    ensures r.(numPrenotazioni := 0, spesaTotale := 0) == Projected(u)
  {
    Counted(store, Projected(u))
  }

  /** The loop body: the entry's counters from the bookings under its id. */
  function Counted(store: seq<Prenotazione>, d: UtenteDettaglio): UtenteDettaglio {
    var mine := Orders.Attive(store, d.id);
    d.(numPrenotazioni := |mine|, spesaTotale := Spend(mine))
  }

  function ProjectedAll(users: seq<User>): (r: seq<UtenteDettaglio>)
    ensures |r| == |users|
    ensures forall k :: 0 <= k < |r| ==> r[k] == Projected(users[k])
  {
    seq(|users|, k requires 0 <= k < |users| => Projected(users[k]))
  }

  /** `UtentiDettagli`: the guard, the projection of every user, then a
      `foreach` that fills each entry's counters. */
  method UtentiDettagli(db: Database, user: Principal) returns (r: Reply<seq<UtenteDettaglio>>)
    ensures !IsSuperAdmin(user) ==> r == Forbidden
    ensures IsSuperAdmin(user) ==> r.Page? && |r.content| == |db.users|
    ensures IsSuperAdmin(user) ==> forall k :: 0 <= k < |db.users| ==> r.content[k] == Dettaglio(db.prenotazioni, db.users[k])
  {
    if !IsSuperAdmin(user) {
      return Forbidden;
    }
    var query := ProjectedAll(db.users);
    var utenti := CountAll(db.prenotazioni, query);
    r := Page(utenti);
  }

  /** The `foreach` over the projected list, filling each entry's counters. */
  method CountAll(store: seq<Prenotazione>, query: seq<UtenteDettaglio>) returns (r: seq<UtenteDettaglio>)
    ensures |r| == |query|
    ensures forall k :: 0 <= k < |r| ==> r[k] == Counted(store, query[k])
  {
    var utenti := new UtenteDettaglio[|query|](k requires 0 <= k < |query| => query[k]);
    for i := 0 to utenti.Length
      invariant forall k :: 0 <= k < i ==> utenti[k] == Counted(store, query[k])
      invariant forall k :: i <= k < utenti.Length ==> utenti[k] == query[k]
    {
      utenti[i] := Counted(store, utenti[i]);
    }
    r := utenti[..];
  }

  /** A new booking that is not cancelled adds one booking and its price
      to the detail of the user it belongs to and leaves every other
      detail as it was; a cancelled one changes nothing. */
  lemma DettaglioAfterBooking(store: seq<Prenotazione>, u: User, p: Prenotazione)
    ensures var before := Dettaglio(store, u);
      var after := Dettaglio(store + [p], u);
      if !p.isCancellata && p.userId == GuidText(u.id)
      then after == before.(numPrenotazioni := before.numPrenotazioni + 1, spesaTotale := before.spesaTotale + p.prezzo)
      else after == before
  {
    assert (store + [p])[..|store|] == store;
    var mine := Orders.Attive(store, GuidText(u.id));
    if !p.isCancellata && p.userId == GuidText(u.id) {
      assert Orders.Attive(store + [p], GuidText(u.id)) == mine + [p];
      assert (mine + [p])[..|mine|] == mine;
    }
  }
}
