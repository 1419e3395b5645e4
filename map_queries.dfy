/**
 * The floor-map queries (`Query`, `GetRistorante`) and the catalog seeding
 * (`EnsureSeeding`, `AggiungiGruppo`). The two copies of this code, in
 * `SharedService` and in `PostazioneQueries`, do the same thing and are
 * modelled once.
 *
 * The map counts every booking row of the day, cancelled ones included.
 */
module MapQueries {
  import opened Wrappers
  import opened Calendar
  import opened Text
  import opened Entities
  import opened Occupancy
  import opened Db
  import Booking
  import Ristorazione
  import RistorazioneWeb
  import SingleBooking

  // ---------------------------------------------------------------------
  // Query: the floor map

  datatype MapEntry = MapEntry(
    id: int, codiceSvg: string, nome: string, tipo: string,
    x: Int32, y: Int32, width: Int32, height: Int32,
    isOccupata: bool, postiTotali: Int32, postiOccupati: nat)

  /** The red colour: a restaurant table when full, any other resource as
      soon as it has a booking. */
  predicate IsRed(tipo: string, occupati: int, capienza: int) {
    if tipo == Ristorante then occupati >= capienza else occupati > 0
  }

  /** The map entry of one resource on day `d`; capacity defaults to 1. */
  function EntryOf(p: Postazione, store: seq<Prenotazione>, d: int): MapEntry {
    var occ := RowCount(store, p.id, d);
    var cap := Occupancy.Capacity(p);
    MapEntry(p.id, p.codiceUnivoco, p.nome, p.tipo, p.x, p.y, p.width, p.height, IsRed(p.tipo, occ, cap), cap, occ)
  }

  /** The entries of the enabled resources, in catalog order. */
  function MapOf(catalog: seq<Postazione>, store: seq<Prenotazione>, d: int): (r: seq<MapEntry>)
    ensures |r| <= |catalog|
    ensures forall e :: e in r ==> exists p :: p in catalog && p.isAbilitata && e == EntryOf(p, store, d)
    ensures forall p :: p in catalog && p.isAbilitata ==> EntryOf(p, store, d) in r
  {
    if catalog == [] then []
    else
      var rest := MapOf(catalog[1..], store, d);
      assert forall p :: p in catalog[1..] ==> p in catalog;
      if catalog[0].isAbilitata then [EntryOf(catalog[0], store, d)] + rest else rest
  }

  predicate UniqueEntryIds(r: seq<MapEntry>) {
    forall i, j :: 0 <= i < j < |r| ==> r[i].id != r[j].id
  }

  /** With unique keys, the map has one entry per resource. */
  lemma {:induction false} MapIdsUnique(catalog: seq<Postazione>, store: seq<Prenotazione>, d: int)
    requires UniquePostazioneIds(catalog)
    ensures UniqueEntryIds(MapOf(catalog, store, d))
    decreases |catalog|
  {
    if catalog != [] {
      TailIdsUnique(catalog);
      MapIdsUnique(catalog[1..], store, d);
      if catalog[0].isAbilitata {
        HeadIdFresh(catalog, store, d);
        ConsUnique(EntryOf(catalog[0], store, d), MapOf(catalog[1..], store, d));
      }
    }
  }

  /** No entry of the rest of the catalog carries the first resource's id. */
  lemma HeadIdFresh(catalog: seq<Postazione>, store: seq<Prenotazione>, d: int)
    requires catalog != [] && UniquePostazioneIds(catalog)
    ensures forall e :: e in MapOf(catalog[1..], store, d) ==> e.id != catalog[0].id
  {
    var tail := catalog[1..];
    forall e | e in MapOf(tail, store, d) ensures e.id != catalog[0].id {
      var p :| p in tail && p.isAbilitata && e == EntryOf(p, store, d);
      var k :| 0 <= k < |tail| && tail[k] == p;
      assert catalog[k + 1] == p;
    }
  }

  lemma ConsUnique(x: MapEntry, rest: seq<MapEntry>)
    requires UniqueEntryIds(rest)
    requires forall e :: e in rest ==> e.id != x.id
    ensures UniqueEntryIds([x] + rest)
  {
    var r := [x] + rest;
    forall i, j | 0 <= i < j < |r| ensures r[i].id != r[j].id {
      assert r[j] == rest[j - 1];
      if i == 0 {
        assert rest[j - 1] in rest;
      } else {
        assert r[i] == rest[i - 1];
      }
    }
  }

  // ---------------------------------------------------------------------
  // GetRistorante: the restaurant tables

  datatype TavoloDTO = TavoloDTO(id: int, nome: string, posti: Int32,
                                 x: Int32, y: Int32, width: Int32, height: Int32, isOccupato: bool)

  /** A table's entry: capacity defaults to 4, occupied once the rows of the
      day reach it. */
  function TavoloOf(p: Postazione, store: seq<Prenotazione>, d: int): TavoloDTO {
    var cap := Ristorazione.TableCapacity(p);
    TavoloDTO(p.id, p.nome, cap, p.x, p.y, p.width, p.height, RowCount(store, p.id, d) >= cap)
  }

  /** The enabled restaurant tables, in catalog order. */
  function RistoranteOf(catalog: seq<Postazione>, store: seq<Prenotazione>, d: int): (r: seq<TavoloDTO>)
    ensures |r| <= |catalog|
    ensures forall t :: t in r ==>
      exists p :: p in catalog && p.isAbilitata && p.tipo == Ristorante && t == TavoloOf(p, store, d)
    ensures forall p :: p in catalog && p.isAbilitata && p.tipo == Ristorante ==> TavoloOf(p, store, d) in r
  {
    if catalog == [] then []
    else
      var rest := RistoranteOf(catalog[1..], store, d);
      assert forall p :: p in catalog[1..] ==> p in catalog;
      if catalog[0].isAbilitata && catalog[0].tipo == Ristorante then [TavoloOf(catalog[0], store, d)] + rest
      else rest
  }

  // ---------------------------------------------------------------------
  // What the colours mean to the booking operations

  /** A resource other than a table is shown free iff the single-booking
      command would book it that day. */
  lemma FreeIffCommandBooks(catalog: seq<Postazione>, store: seq<Prenotazione>, p: Postazione,
                            cmd: SingleBooking.PrenotaPostazioneCommand)
    requires UniquePostazioneIds(catalog) && p in catalog && p.tipo != Ristorante
    requires cmd.postazioneId == p.id
    ensures !EntryOf(p, store, Day(cmd.data)).isOccupata <==> SingleBooking.Guard(catalog, store, cmd).None?
    ensures EntryOf(p, store, Day(cmd.data)).isOccupata ==>
      SingleBooking.Guard(catalog, store, cmd) == Some(SingleBooking.AlreadyTaken)
  {
    FindByUniqueId(catalog, p);
    SingleBooking.OccupataIffRows(store, p.id, Day(cmd.data));
  }

  /** A resource other than a table shown free is admitted by the cart
      engine, for any party size. */
  lemma FreeDeskAdmitted(catalog: seq<Postazione>, store: seq<Prenotazione>, p: Postazione, n: Int32, d: int)
    requires UniquePostazioneIds(catalog) && p in catalog && p.tipo != Ristorante
    requires !EntryOf(p, store, d).isOccupata
    ensures Booking.CheckLine(catalog, store, Booking.CartLine(p.id, n), d) == Booking.Admit
  {
    FindByUniqueId(catalog, p);
    Booking.ZeroBookingsZeroPeople(store, p.id, d);
  }

  /** A desk whose only booking was cancelled is shown red, yet the cart
      engine books it. */
  lemma RedButBookable(t: DateTime)
    ensures var desk := Postazione(1, "Desk-1", "Desk 1", Singola, true, 0, 0, 30, 30, 1);
      var store := [NewPrenotazione(1, t, "v", t).(isCancellata := true)];
      && EntryOf(desk, store, Day(t)).isOccupata
      && Booking.CheckLine([desk], store, Booking.CartLine(1, 1), Day(t)) == Booking.Admit
  {
    var store := [NewPrenotazione(1, t, "v", t).(isCancellata := true)];
    assert store[..0] == [];
    assert RowCount(store, 1, Day(t)) == 1;
    assert PeopleBooked(store, 1, Day(t)) == 0;
  }

  /** For a four-seat table, the restaurant view shows it occupied iff the
      restaurant controller refuses one more seat. */
  lemma OccupiedIffControllerRefuses(p: Postazione, store: seq<Prenotazione>, q: Ristorazione.TavoloRequest,
                                     userId: string, localNow: DateTime)
    requires Ristorazione.TableCapacity(p) == RistorazioneWeb.FixedSeats
    requires q.postazioneId == p.id && q.numeroPosti == 1
    requires RowCount(store, p.id, Day(q.data)) < Int32Max
    ensures TavoloOf(p, store, Day(q.data)).isOccupato
        <==> RistorazioneWeb.PlanWeb(Some(q), store, userId, localNow).Reject?
  {
    RistorazioneWeb.WebAdmission(q, store, userId, localNow);
  }

  /** The two views disagree on a table with no seat count: the map shows it
      as one seat, taken by a single booking; the restaurant view shows four
      seats and not occupied. */
  lemma ViewsDisagreeOnDefault(t: DateTime)
    ensures var table := Postazione(1, "rist-1", "Tavolo 1", Ristorante, true, 0, 0, 0, 0, 0);
      var store := [NewPrenotazione(1, t, "v", t)];
      && EntryOf(table, store, Day(t)).postiTotali == 1 && EntryOf(table, store, Day(t)).isOccupata
      && TavoloOf(table, store, Day(t)).posti == 4 && !TavoloOf(table, store, Day(t)).isOccupato
  {
    var store := [NewPrenotazione(1, t, "v", t)];
    assert store[..0] == [];
    assert RowCount(store, 1, Day(t)) == 1;
  }

  // ---------------------------------------------------------------------
  // AggiungiGruppo: a grid of desks

  /** The arguments of `AggiungiGruppo` other than the list and the counter. */
  datatype Group = Group(prefix: string, tipo: string, startX: Int32, startY: Int32,
                         rows: Int32, cols: Int32, width: Int32, height: Int32, gap: Int32)

  function Rows(g: Group): nat { if g.rows > 0 then g.rows else 0 }
  function Cols(g: Group): nat { if g.cols > 0 then g.cols else 0 }

  /** `i · step`, written as repeated addition. */
  function Offset(i: nat, step: int): (o: int)
    ensures step >= 0 ==> o >= 0
  {
    if i == 0 then 0 else Offset(i - 1, step) + step
  }

  lemma {:induction false} OffsetIsProduct(i: nat, step: int)
    ensures Offset(i, step) == i * step
  {
    if i > 0 {
      OffsetIsProduct(i - 1, step);
    }
  }

  /** A slot of the grid: its row, its column and the counter value that
      names it. */
  datatype Cell = Cell(r: nat, c: nat, n: Int32)

  /** The desk of a slot, with the C# `int` arithmetic of the coordinates:
      X is startX + c·(width + gap) and Y is startY + r·(height + gap). */
  function DeskAt(g: Group, cell: Cell): Postazione {
    var num := FormatInt(cell.n);
    Postazione(0, g.prefix + "-" + num, g.prefix + " " + num, g.tipo, true,
               Wrap32(g.startX + Offset(cell.c, g.width + g.gap)), Wrap32(g.startY + Offset(cell.r, g.height + g.gap)),
               g.width, g.height, 1)
  }

  /** The desks of a list of slots, in order. */
  function DesksOf(g: Group, cells: seq<Cell>): (s: seq<Postazione>)
    ensures |s| == |cells|
  {
    if cells == [] then [] else DesksOf(g, cells[..|cells| - 1]) + [DeskAt(g, cells[|cells| - 1])]
  }

  /** The first `c` slots of row `r`, the counter starting at `first`. */
  function RowCells(r: nat, c: nat, first: Int32): (s: seq<Cell>)
    ensures |s| == c
    decreases c
  {
    if c == 0 then [] else RowCells(r, c - 1, first) + [Cell(r, c - 1, Incremented(first, c - 1))]
  }

  /** The slots of the first `rows` rows of `cols` columns, the counter
      starting at `first`. */
  function GridCells(rows: nat, cols: nat, first: Int32): seq<Cell>
    decreases rows
  {
    if rows == 0 then []
    else
      var prev := GridCells(rows - 1, cols, first);
      prev + RowCells(rows - 1, cols, Incremented(first, |prev|))
  }

  /** The desks `AggiungiGruppo` appends. */
  function GridDesks(g: Group, first: Int32): seq<Postazione> {
    DesksOf(g, GridCells(Rows(g), Cols(g), first))
  }

  /** The nested loops of `AggiungiGruppo`, with the `ref` counter as an
      in/out value: one increment per desk. */
  method AggiungiGruppo(lista: seq<Postazione>, counter: Int32, g: Group)
    returns (out: seq<Postazione>, next: Int32)
    ensures out == lista + GridDesks(g, counter)
    ensures next == Incremented(counter, |GridDesks(g, counter)|)
  {
    out, next := lista, counter;
    AppendNil(lista);
    for r := 0 to Rows(g)
      invariant out == lista + DesksOf(g, GridCells(r, Cols(g), counter))
      invariant next == Incremented(counter, |GridCells(r, Cols(g), counter)|)
    {
      var rowOut, rowNext := AggiungiRiga(out, next, g, r);
      GridLoopStep(g, lista, counter, r, out, next, rowOut, rowNext);
      out, next := rowOut, rowNext;
    }
  }

  /** The outer loop's invariant carries over one more row. */
  lemma GridLoopStep(g: Group, lista: seq<Postazione>, counter: Int32, r: nat,
                     out: seq<Postazione>, next: Int32, out': seq<Postazione>, next': Int32)
    requires out == lista + DesksOf(g, GridCells(r, Cols(g), counter))
    requires next == Incremented(counter, |GridCells(r, Cols(g), counter)|)
    requires out' == out + DesksOf(g, RowCells(r, Cols(g), next))
    requires next' == Incremented(next, Cols(g))
    ensures out' == lista + DesksOf(g, GridCells(r + 1, Cols(g), counter))
    ensures next' == Incremented(counter, |GridCells(r + 1, Cols(g), counter)|)
  {
    GridStep(g, lista, r, Cols(g), counter);
    GridCountStep(r, Cols(g), counter);
  }

  /** The inner loop of `AggiungiGruppo`: the desks of row `r`, column by
      column. */
  method AggiungiRiga(lista: seq<Postazione>, counter: Int32, g: Group, r: nat)
    returns (out: seq<Postazione>, next: Int32)
    ensures out == lista + DesksOf(g, RowCells(r, Cols(g), counter))
    ensures next == Incremented(counter, Cols(g))
  {
    out, next := lista, counter;
    AppendNil(lista);
    for c := 0 to Cols(g)
      invariant out == lista + DesksOf(g, RowCells(r, c, counter))
      invariant next == Incremented(counter, c)
    {
      RowStep(g, lista, r, c, counter, out, next);
      out := out + [DeskAt(g, Cell(r, c, next))];
      next := Inc32(next);
    }
  }

  /** The inner loop's invariant carries over one more desk. */
  lemma RowStep(g: Group, lista: seq<Postazione>, r: nat, c: nat, counter: Int32,
                out: seq<Postazione>, next: Int32)
    requires out == lista + DesksOf(g, RowCells(r, c, counter))
    requires next == Incremented(counter, c)
    ensures out + [DeskAt(g, Cell(r, c, next))] == lista + DesksOf(g, RowCells(r, c + 1, counter))
    ensures Inc32(next) == Incremented(counter, c + 1)
  {
    var cells := RowCells(r, c, counter);
    assert (cells + [Cell(r, c, next)])[..|cells|] == cells;
    AppendAssoc(lista, DesksOf(g, cells), [DeskAt(g, Cell(r, c, next))]);
  }

  /** One more row at the end of the grid. */
  lemma GridStep(g: Group, lista: seq<Postazione>, r: nat, cols: nat, first: Int32)
    ensures lista + DesksOf(g, GridCells(r + 1, cols, first))
         == (lista + DesksOf(g, GridCells(r, cols, first)))
            + DesksOf(g, RowCells(r, cols, Incremented(first, |GridCells(r, cols, first)|)))
  {
    var prev := GridCells(r, cols, first);
    var row := RowCells(r, cols, Incremented(first, |prev|));
    assert GridCells(r + 1, cols, first) == prev + row;
    DesksOfAppend(g, prev, row);
    AppendAssoc(lista, DesksOf(g, prev), DesksOf(g, row));
  }

  /** A row takes `cols` more increments. */
  lemma GridCountStep(r: nat, cols: nat, first: Int32)
    ensures Incremented(first, |GridCells(r + 1, cols, first)|)
         == Incremented(Incremented(first, |GridCells(r, cols, first)|), cols)
  {
    var n := |GridCells(r, cols, first)|;
    assert |GridCells(r + 1, cols, first)| == n + cols;
    IncrementedAdd(first, n, cols);
  }

  lemma AppendNil<T>(a: seq<T>)
    ensures a + [] == a
  {
  }

  lemma AppendAssoc<T>(a: seq<T>, b: seq<T>, c: seq<T>)
    ensures a + (b + c) == (a + b) + c
  {
  }

  /** The desks of two lists of slots, one after the other. */
  lemma {:induction false} DesksOfAppend(g: Group, a: seq<Cell>, b: seq<Cell>)
    ensures DesksOf(g, a + b) == DesksOf(g, a) + DesksOf(g, b)
    decreases |b|
  {
    if b != [] {
      assert (a + b)[..|a + b| - 1] == a + b[..|b| - 1];
      DesksOfAppend(g, a, b[..|b| - 1]);
    } else {
      assert a + b == a;
    }
  }

  /** `a` increments then `b` increments are `a + b` increments. */
  lemma {:induction false} IncrementedAdd(x: Int32, a: nat, b: nat)
    ensures Incremented(Incremented(x, a), b) == Incremented(x, a + b)
    decreases b
  {
    if b > 0 {
      IncrementedAdd(x, a, b - 1);
    }
  }

  /** The grid holds `Offset(rows, cols)` slots, row after row. */
  lemma {:induction false} GridLength(rows: nat, cols: nat, first: Int32)
    ensures |GridCells(rows, cols, first)| == Offset(rows, cols)
    decreases rows
  {
    if rows > 0 {
      GridLength(rows - 1, cols, first);
    }
  }

  /** A group adds `rows × cols` desks and advances the counter by as much,
      reduced to `int`. */
  lemma GridSize(g: Group, first: Int32)
    ensures |GridDesks(g, first)| == Rows(g) * Cols(g)
    ensures Incremented(first, |GridDesks(g, first)|) == Wrap32(first + Rows(g) * Cols(g))
  {
    GridLength(Rows(g), Cols(g), first);
    OffsetIsProduct(Rows(g), Cols(g));
    IncrementedWraps(first, Rows(g) * Cols(g));
  }

  /** The position of row `r`, column `c` in a grid of `cols` columns,
      that is `r·cols + c`. */
  function Pos(r: nat, c: int, cols: int): int {
    Offset(r, cols) + c
  }

  /** Column `j` of a row is the slot of row `r`, column `j`, named by the
      counter after `j` increments. */
  lemma {:induction false} RowCellAt(r: nat, c: nat, first: Int32, j: nat)
    requires j < c
    ensures RowCells(r, c, first)[j] == Cell(r, j, Incremented(first, j))
    decreases c
  {
    if j < c - 1 {
      RowCellAt(r, c - 1, first, j);
    }
  }

  /** The slot at position `r·cols + c` is row `r`, column `c`, named by
      the counter after `r·cols + c` increments. */
  lemma {:induction false} GridCellAt(rows: nat, cols: nat, first: Int32, r: nat, c: nat)
    requires r < rows && c < cols
    ensures Pos(r, c, cols) < |GridCells(rows, cols, first)|
    ensures GridCells(rows, cols, first)[Pos(r, c, cols)] == Cell(r, c, Incremented(first, Pos(r, c, cols)))
    decreases rows
  {
    var prev := GridCells(rows - 1, cols, first);
    var row := RowCells(rows - 1, cols, Incremented(first, |prev|));
    assert GridCells(rows, cols, first) == prev + row;
    GridLength(rows - 1, cols, first);
    if r < rows - 1 {
      GridCellAt(rows - 1, cols, first, r, c);
      assert (prev + row)[Pos(r, c, cols)] == prev[Pos(r, c, cols)];
    } else {
      assert Pos(r, c, cols) == |prev| + c;
      assert (prev + row)[Pos(r, c, cols)] == row[c];
      RowCellAt(rows - 1, cols, Incremented(first, |prev|), c);
      IncrementedAdd(first, |prev|, c);
    }
  }

  lemma {:induction false} DesksOfIndex(g: Group, cells: seq<Cell>)
    ensures forall k :: 0 <= k < |cells| ==> DesksOf(g, cells)[k] == DeskAt(g, cells[k])
    decreases |cells|
  {
    if cells != [] {
      DesksOfIndex(g, cells[..|cells| - 1]);
    }
  }

  /** The desk at one position of a list of slots is the desk of that slot. */
  lemma {:induction false} DesksOfAt(g: Group, cells: seq<Cell>, k: int)
    requires 0 <= k < |cells|
    ensures DesksOf(g, cells)[k] == DeskAt(g, cells[k])
    decreases |cells|
  {
    if k < |cells| - 1 {
      DesksOfAt(g, cells[..|cells| - 1], k);
    }
  }

  /** The desk at position `r·cols + c` of the group is the one of row `r`
      and column `c`: at X = startX + c·(width + gap) and
      Y = startY + r·(height + gap), named after the counter advanced
      `r·cols + c` times (`IncrementedWraps` gives that value as an `int`
      sum reduced to 32 bits). */
  lemma GridLayout(g: Group, first: Int32, r: nat, c: nat)
    requires r < Rows(g) && c < Cols(g)
    ensures var k := Pos(r, c, Cols(g));
      && 0 <= k < |GridDesks(g, first)|
      && GridDesks(g, first)[k] == DeskAt(g, Cell(r, c, Incremented(first, k)))
  {
    var cells := GridCells(Rows(g), Cols(g), first);
    var k := Pos(r, c, Cols(g));
    GridCellAt(Rows(g), Cols(g), first, r, c);
    DesksOfAt(g, cells, k);
  }

  /** Every desk of a group is enabled, has one seat and the group's type. */
  lemma GridDesksShape(g: Group, first: Int32)
    ensures forall p :: p in GridDesks(g, first) ==> p.tipo == g.tipo && p.postiTotali == 1 && p.isAbilitata
  {
    var cells := GridCells(Rows(g), Cols(g), first);
    DesksOfIndex(g, cells);
    forall p | p in GridDesks(g, first)
      ensures p.tipo == g.tipo && p.postiTotali == 1 && p.isAbilitata
    {
      var k :| 0 <= k < |cells| && DesksOf(g, cells)[k] == p;
    }
  }

  // ---------------------------------------------------------------------
  // EnsureSeeding: the first catalog

  const Hall: Postazione := Postazione(0, "event-main", "Main Hall", Eventi, true, 35, 30, 350, 250, 1)
  const Desks: Group := Group("Desk", Singola, 570, 30, 5, 3, 30, 30, 20)
  const TeamAlpha: Postazione := Postazione(0, "dev-1", "Team Alpha", Team, true, 250, 470, 120, 80, 6)
  const TeamBeta: Postazione := Postazione(0, "dev-2", "Team Beta", Team, true, 450, 470, 120, 80, 6)
  const SalaRed: Postazione := Postazione(0, "meet-1", "Sala Red", Riunioni, true, 40, 485, 125, 50, 8)
  const SalaBlue: Postazione := Postazione(0, "meet-2", "Sala Blue", Riunioni, true, 640, 485, 125, 50, 8)

  /** The `i`-th table of the seeding loop. */
  function SeedTable(i: int): Postazione
    requires 0 <= i < 3
  {
    Postazione(0, "rist-" + FormatInt(i + 1), "Tavolo " + FormatInt(i + 1), Ristorante, true,
               820, 45 + i * 115, 100, 50, 4)
  }

  /** The four rooms the seeding adds after the desks. */
  function SeedRooms(): seq<Postazione> {
    [TeamAlpha, TeamBeta, SalaRed, SalaBlue]
  }

  /** The three tables of the seeding loop, in loop order. */
  function SeedTables(): (s: seq<Postazione>)
    ensures |s| == 3 && forall i :: 0 <= i < 3 ==> s[i] == SeedTable(i)
  {
    [SeedTable(0), SeedTable(1), SeedTable(2)]
  }

  /** The catalog the seeding writes, in insertion order. */
  function SeedCatalog(): seq<Postazione> {
    [Hall] + GridDesks(Desks, 1) + SeedRooms() + SeedTables()
  }

  /** Seeding runs only on an empty catalog; otherwise nothing changes. */
  method EnsureSeeding(db: Database)
    requires db.Valid()
    modifies db
    ensures db.Valid()
    ensures old(db.postazioni) != [] ==> db.postazioni == old(db.postazioni)
    ensures old(db.postazioni) == [] ==> db.postazioni == NumberPostazioni(SeedCatalog(), old(db.nextPostazioneId))
    ensures db.prenotazioni == old(db.prenotazioni) && db.users == old(db.users)
    ensures db.menus == old(db.menus) && db.notifiche == old(db.notifiche)
  {
    if db.postazioni != [] {
      return;
    }
    var lista := [Hall];
    var idCounter: Int32 := 1;
    lista, idCounter := AggiungiGruppo(lista, idCounter, Desks);
    lista := lista + SeedRooms();
    lista := AggiungiTavoli(lista);
    assert lista == SeedCatalog();
    ghost var numbered := NumberPostazioni(lista, db.nextPostazioneId);
    assert [] + numbered == numbered;
    db.SavePostazioni(lista);
  }

  /** The seeding loop over the three restaurant tables. */
  method AggiungiTavoli(lista: seq<Postazione>) returns (out: seq<Postazione>)
    ensures out == lista + SeedTables()
  {
    out := lista;
    for i := 0 to 3
      invariant out == lista + SeedTables()[..i]
    {
      assert SeedTables()[..i + 1] == SeedTables()[..i] + [SeedTable(i)];
      out := out + [SeedTable(i)];
    }
    assert SeedTables()[..3] == SeedTables();
  }

  /** How many resources of type `t` a list holds. */
  function CountTipo(cat: seq<Postazione>, t: string): (n: nat)
    ensures n <= |cat|
  {
    if cat == [] then 0 else CountTipo(cat[..|cat| - 1], t) + (if cat[|cat| - 1].tipo == t then 1 else 0)
  }

  lemma {:induction false} CountTipoAppend(a: seq<Postazione>, b: seq<Postazione>, t: string)
    ensures CountTipo(a + b, t) == CountTipo(a, t) + CountTipo(b, t)
    decreases |b|
  {
    if b != [] {
      assert (a + b)[..|a + b| - 1] == a + b[..|b| - 1];
      CountTipoAppend(a, b[..|b| - 1], t);
    } else {
      assert a + b == a;
    }
  }

  lemma {:induction false} CountUniform(cat: seq<Postazione>, u: string, t: string)
    requires forall p :: p in cat ==> p.tipo == u
    ensures CountTipo(cat, t) == if t == u then |cat| else 0
    decreases |cat|
  {
    if cat != [] {
      assert forall p :: p in cat[..|cat| - 1] ==> p in cat;
      CountUniform(cat[..|cat| - 1], u, t);
    }
  }

  /** The seed catalog holds 23 resources. */
  lemma SeedCatalogSize()
    ensures |SeedCatalog()| == 23
  {
    GridSize(Desks, 1);
  }

  /** What every seeded resource satisfies: enabled, four seats for a
      table and one for a single desk. */
  predicate SeedShape(p: Postazione) {
    p.isAbilitata && (p.tipo == Ristorante ==> p.postiTotali == 4) && (p.tipo == Singola ==> p.postiTotali == 1)
  }

  lemma InSeedCatalog(p: Postazione)
    requires p in SeedCatalog()
    ensures p == Hall || p in GridDesks(Desks, 1) || p in SeedRooms() || p in SeedTables()
  {
  }

  lemma SeedPartsShape()
    ensures SeedShape(Hall)
    ensures forall p :: p in SeedRooms() ==> SeedShape(p)
    ensures forall p :: p in SeedTables() ==> SeedShape(p)
  {
  }

  lemma SeedGridShape()
    ensures forall p :: p in GridDesks(Desks, 1) ==> SeedShape(p)
  {
    GridDesksShape(Desks, 1);
  }

  /** Every seeded resource is enabled; the tables have four seats and the
      desks one. */
  lemma SeedCatalogShape()
    ensures forall p :: p in SeedCatalog() ==> SeedShape(p)
  {
    SeedPartsShape();
    SeedGridShape();
    forall p | p in SeedCatalog()
      ensures SeedShape(p)
    {
      InSeedCatalog(p);
    }
  }

  /** The number of seeded resources of type `t`. */
  function SeedCount(t: string): nat {
    if t == Eventi then 1 else if t == Singola then 15 else if t == Team then 2
    else if t == Riunioni then 2 else if t == Ristorante then 3 else 0
  }

  lemma SeedGridCount(t: string)
    ensures CountTipo(GridDesks(Desks, 1), t) == if t == Singola then 15 else 0
  {
    GridSize(Desks, 1);
    GridDesksShape(Desks, 1);
    CountUniform(GridDesks(Desks, 1), Singola, t);
  }

  lemma SeedPartsCount(t: string)
    ensures CountTipo([Hall], t) == if t == Eventi then 1 else 0
    ensures CountTipo(SeedRooms(), t) == if t == Team || t == Riunioni then 2 else 0
    ensures CountTipo(SeedTables(), t) == if t == Ristorante then 3 else 0
  {
    CountUniform([Hall], Eventi, t);
    CountUniform(SeedTables(), Ristorante, t);
    CountTipoAppend([TeamAlpha, TeamBeta], [SalaRed, SalaBlue], t);
    assert [TeamAlpha, TeamBeta] + [SalaRed, SalaBlue] == SeedRooms();
    CountUniform([TeamAlpha, TeamBeta], Team, t);
    CountUniform([SalaRed, SalaBlue], Riunioni, t);
  }

  /** The seed catalog holds one event hall, fifteen single desks, two team
      rooms, two meeting rooms and three tables. */
  lemma SeedCatalogCounts(t: string)
    ensures CountTipo(SeedCatalog(), t) == SeedCount(t)
  {
    var grid := GridDesks(Desks, 1);
    CountTipoAppend([Hall] + grid + SeedRooms(), SeedTables(), t);
    CountTipoAppend([Hall] + grid, SeedRooms(), t);
    CountTipoAppend([Hall], grid, t);
    SeedGridCount(t);
    SeedPartsCount(t);
  }

  /** `Query`: seeding first, then the map of the enabled resources. */
  method Query(db: Database, data: DateTime) returns (r: seq<MapEntry>)
    requires db.Valid()
    modifies db
    ensures db.Valid()
    ensures old(db.postazioni) != [] ==> db.postazioni == old(db.postazioni)
    ensures old(db.postazioni) == [] ==> db.postazioni == NumberPostazioni(SeedCatalog(), old(db.nextPostazioneId))
    ensures db.prenotazioni == old(db.prenotazioni) && db.users == old(db.users)
    ensures db.menus == old(db.menus) && db.notifiche == old(db.notifiche)
    ensures r == MapOf(db.postazioni, db.prenotazioni, Day(data))
  {
    EnsureSeeding(db);
    r := MapOf(db.postazioni, db.prenotazioni, Day(data));
  }

  /** `GetRistorante`: seeding first, then the enabled restaurant tables. */
  method GetRistorante(db: Database, date: DateTime) returns (r: seq<TavoloDTO>)
    requires db.Valid()
    modifies db
    ensures db.Valid()
    ensures old(db.postazioni) != [] ==> db.postazioni == old(db.postazioni)
    ensures old(db.postazioni) == [] ==> db.postazioni == NumberPostazioni(SeedCatalog(), old(db.nextPostazioneId))
    ensures db.prenotazioni == old(db.prenotazioni) && db.users == old(db.users)
    ensures db.menus == old(db.menus) && db.notifiche == old(db.notifiche)
    ensures r == RistoranteOf(db.postazioni, db.prenotazioni, Day(date))
  {
    EnsureSeeding(db);
    r := RistoranteOf(db.postazioni, db.prenotazioni, Day(date));
  }
}
