/**
 * The booking page's state (`prenotazione.js`): the floor map it shows,
 * the selected resource, and the cart, which holds at most one line per
 * resource. Also the fixed price list, the cart total, the seat
 * statistics and the status class of each resource drawn on the map.
 */
module ClientCart {
  import opened Wrappers
  import opened Text
  import opened Entities
  import Booking

  /** One resource of the floor map as the page receives it. */
  datatype MapItem = MapItem(id: int, nome: string, tipo: string, postiTotali: int, postiOccupati: int, isOccupata: bool)

  /** A cart line: the resource and the people it is booked for. */
  datatype CartItem = CartItem(postazione: MapItem, numeroPersone: int)

  /** An entry of the order history shown on the page. */
  datatype StoricoItem = StoricoItem(data: string, descrizione: string, tipo: string, prezzo: int)

  // ---------------------------------------------------------------------
  // Prices

  /** `getPrezzoUnitario`: the list price of a resource type, in euros. */
  function PrezzoUnitario(tipo: string): (r: int)
    ensures r >= 0
    ensures r > 0 <==> tipo in [Singola, Team, Riunioni, Eventi, Ristorante]
  {
    if tipo == Singola then 25
    else if tipo == Team then 150
    else if tipo == Riunioni then 80
    else if tipo == Eventi then 500
    else if tipo == Ristorante then 15
    else 0
  }

  /** `getPrezzoItem`: a restaurant line costs its unit price per person,
      any other line its unit price, whatever the party size. */
  function PrezzoItem(item: CartItem): (r: int)
    ensures item.postazione.tipo == Ristorante ==> r == 15 * item.numeroPersone
    ensures item.postazione.tipo != Ristorante ==> r == PrezzoUnitario(item.postazione.tipo) && r >= 0
  {
    var base := PrezzoUnitario(item.postazione.tipo);
    if item.postazione.tipo == Ristorante then base * item.numeroPersone else base
  }

  /** `getTotaleCarrello`: the sum of the line prices. */
  function Totale(cart: seq<CartItem>): int {
    if cart == [] then 0 else Totale(cart[..|cart| - 1]) + PrezzoItem(cart[|cart| - 1])
  }

  // ---------------------------------------------------------------------
  // Cart lines

  /** `carrello.findIndex(x => x.postazione.id === id)`. */
  function FindIndex(cart: seq<CartItem>, id: int): (r: int)
    ensures -1 <= r < |cart|
    ensures r >= 0 ==> cart[r].postazione.id == id && forall j :: 0 <= j < r ==> cart[j].postazione.id != id
    ensures r == -1 <==> forall j :: 0 <= j < |cart| ==> cart[j].postazione.id != id
  {
    if cart == [] then -1
    else if cart[0].postazione.id == id then 0
    else
      var k := FindIndex(cart[1..], id);
      if k == -1 then
        assert forall j :: 1 <= j < |cart| ==> cart[j] == cart[1..][j - 1];
        -1
      else
        assert forall j :: 1 <= j <= k ==> cart[j] == cart[1..][j - 1];
        k + 1
  }

  /** The cart names each resource at most once. */
  predicate UniqueIds(cart: seq<CartItem>) {
    forall i, j :: 0 <= i < j < |cart| ==> cart[i].postazione.id != cart[j].postazione.id
  }

  /** What `aggiungiAlCarrello` does to the cart: the line replaces the one
      for the same resource, or is appended. */
  function AddToCart(cart: seq<CartItem>, item: CartItem): seq<CartItem> {
    var k := FindIndex(cart, item.postazione.id);
    if k > -1 then cart[k := item] else cart + [item]
  }

  /** `carrello.filter(x => x.postazione.id !== id)`. */
  function Without(cart: seq<CartItem>, id: int): (r: seq<CartItem>)
    ensures |r| <= |cart|
  {
    if cart == [] then []
    else
      var last := cart[|cart| - 1];
      var init := Without(cart[..|cart| - 1], id);
      if last.postazione.id != id then init + [last] else init
  }

  /** The filter keeps exactly the lines of other resources. */
  lemma {:induction false} WithoutMembers(cart: seq<CartItem>, id: int)
    ensures forall x :: x in Without(cart, id) ==> x in cart && x.postazione.id != id
    ensures forall x :: x in cart && x.postazione.id != id ==> x in Without(cart, id)
    decreases |cart|
  {
    if cart != [] {
      var init := cart[..|cart| - 1];
      WithoutMembers(init, id);
      assert forall x :: x in cart ==> x in init || x == cart[|cart| - 1];
    }
  }

  /** The request body the page posts: resource id and party size per line. */
  datatype ApiItem = ApiItem(postazioneId: int, numeroPersone: int)

  function ApiItems(cart: seq<CartItem>): (r: seq<ApiItem>)
    ensures |r| == |cart|
    ensures forall k :: 0 <= k < |cart| ==> r[k] == ApiItem(cart[k].postazione.id, cart[k].numeroPersone)
  {
    seq(|cart|, k requires 0 <= k < |cart| => ApiItem(cart[k].postazione.id, cart[k].numeroPersone))
  }

  /** The server's binding of the body to its cart lines; a number outside
      `int` fails the binding. */
  function Bind(items: seq<ApiItem>): (r: Option<seq<Booking.CartLine>>)
    ensures r.Some? <==> forall k :: 0 <= k < |items| ==> InInt32(items[k].postazioneId) && InInt32(items[k].numeroPersone)
    ensures r.Some? ==> |r.value| == |items| && forall k :: 0 <= k < |items| ==>
      r.value[k].postazioneId == items[k].postazioneId && r.value[k].numeroPersone == items[k].numeroPersone
  {
    if forall k :: 0 <= k < |items| ==> InInt32(items[k].postazioneId) && InInt32(items[k].numeroPersone)
    then Some(seq(|items|, k requires 0 <= k < |items| => Booking.CartLine(items[k].postazioneId, items[k].numeroPersone)))
    else None
  }

  /** The history entry for a booked line: restaurant lines show the party
      size, every other line only the resource name. */
  function StoricoOf(item: CartItem): StoricoItem {
    var p := item.postazione;
    StoricoItem("Adesso", p.nome + (if p.tipo == Ristorante then " (x" + FormatInt(item.numeroPersone) + ")" else ""),
                p.tipo, PrezzoItem(item))
  }

  /** The entries the success handler puts in front of the history: one per
      line, each `unshift`ed, so the last line comes first. */
  function Storico(cart: seq<CartItem>): (r: seq<StoricoItem>)
    ensures |r| == |cart|
    ensures forall j :: 0 <= j < |cart| ==> r[j] == StoricoOf(cart[|cart| - 1 - j])
  {
    if cart == [] then []
    else
      var init := cart[..|cart| - 1];
      var rest := Storico(init);
      assert forall k :: 0 <= k < |init| ==> init[k] == cart[k];
      [StoricoOf(cart[|cart| - 1])] + rest
  }

  // ---------------------------------------------------------------------
  // Seat statistics

  /** Restaurant tables count their seats; any other resource counts as one
      place, taken or not. */
  function TotaliOf(items: seq<MapItem>): int {
    if items == [] then 0
    else
      var p := items[|items| - 1];
      TotaliOf(items[..|items| - 1]) + (if p.tipo == Ristorante then p.postiTotali else 1)
  }

  function OccupatiOf(items: seq<MapItem>): int {
    if items == [] then 0
    else
      var p := items[|items| - 1];
      OccupatiOf(items[..|items| - 1]) + (if p.tipo == Ristorante then p.postiOccupati else if p.isOccupata then 1 else 0)
  }

  datatype Stats = Stats(totali: int, occupati: int, liberi: int)

  /** Whether a click on the resource selects it: a full table and a taken
      resource of any other type cannot be selected. */
  predicate Selezionabile(p: MapItem) {
    !(p.tipo == Ristorante && p.postiOccupati >= p.postiTotali) && !(p.tipo != Ristorante && p.isOccupata)
  }

  /** The CSS classes of `getStatoClasse`. */
  datatype Stato = StatusSelected | StatusBooked | StatusPartial | StatusFree

  class Dashboard {
    var postazioni: seq<MapItem>
    var postazioneSelezionata: Option<MapItem>
    var numeroPostiRichiesti: int
    var carrello: seq<CartItem>
    var nomePrenotazione: string
    var storicoOrdini: seq<StoricoItem>

    /** The cart never holds two lines for the same resource. */
    ghost predicate Valid()
      reads this
    {
      UniqueIds(carrello)
    }

    /** The component's initial data. */
    constructor (nomeUtente: string, storico: seq<StoricoItem>)
      ensures Valid()
      ensures postazioni == [] && postazioneSelezionata.None? && numeroPostiRichiesti == 1
      ensures carrello == [] && nomePrenotazione == nomeUtente && storicoOrdini == storico
    {
      postazioni := [];
      postazioneSelezionata := None;
      numeroPostiRichiesti := 1;
      carrello := [];
      nomePrenotazione := nomeUtente;
      storicoOrdini := storico;
    }

    /** The computed `stats`: the empty map gives zeros, otherwise a
        `forEach` sums the places and the taken places. */
    method GetStats() returns (s: Stats)
      ensures s == Stats(TotaliOf(postazioni), OccupatiOf(postazioni), TotaliOf(postazioni) - OccupatiOf(postazioni))
    {
      if |postazioni| == 0 {
        return Stats(0, 0, 0);
      }
      var totali, occupati := 0, 0;
      for i := 0 to |postazioni|
        invariant totali == TotaliOf(postazioni[..i]) && occupati == OccupatiOf(postazioni[..i])
      {
        var p := postazioni[i];
        assert postazioni[..i + 1][..i] == postazioni[..i];
        if p.tipo == Ristorante {
          totali := totali + p.postiTotali;
          occupati := occupati + p.postiOccupati;
        } else {
          totali := totali + 1;
          occupati := occupati + (if p.isOccupata then 1 else 0);
        }
      }
      assert postazioni[..|postazioni|] == postazioni;
      s := Stats(totali, occupati, totali - occupati);
    }

    /** `getStatoClasse`. */
    function StatoClasse(p: MapItem): (r: Stato)
      reads this
      ensures r == StatusSelected <==>
        (postazioneSelezionata.Some? && postazioneSelezionata.value.id == p.id) || FindIndex(carrello, p.id) >= 0
      ensures r == StatusPartial ==> p.tipo == Ristorante && 0 < p.postiOccupati < p.postiTotali
    {
      if postazioneSelezionata.Some? && postazioneSelezionata.value.id == p.id then StatusSelected
      else if FindIndex(carrello, p.id) >= 0 then StatusSelected
      else if p.tipo == Ristorante then
        if p.postiOccupati >= p.postiTotali then StatusBooked
        else if p.postiOccupati > 0 then StatusPartial
        else StatusFree
      else if p.isOccupata then StatusBooked
      else StatusFree
    }

    /** `selezionaPostazione`: a selectable resource becomes the selection
        with one seat requested; the booking name is filled from the user's
        name when empty. */
    method SelezionaPostazione(p: MapItem, nomeUtente: string)
      modifies this
      ensures postazioni == old(postazioni) && carrello == old(carrello) && storicoOrdini == old(storicoOrdini)
      ensures !Selezionabile(p) ==>
        postazioneSelezionata == old(postazioneSelezionata) && numeroPostiRichiesti == old(numeroPostiRichiesti)
        && nomePrenotazione == old(nomePrenotazione)
      ensures Selezionabile(p) ==>
        postazioneSelezionata == Some(p) && numeroPostiRichiesti == 1
        && nomePrenotazione == (if old(nomePrenotazione) == "" && nomeUtente != "" then nomeUtente else old(nomePrenotazione))
    {
      if p.tipo == Ristorante && p.postiOccupati >= p.postiTotali {
        return;
      }
      if p.tipo != Ristorante && p.isOccupata {
        return;
      }
      postazioneSelezionata := Some(p);
      numeroPostiRichiesti := 1;
      if nomePrenotazione == "" && nomeUtente != "" {
        nomePrenotazione := nomeUtente;
      }
    }

    /** `aggiungiAlCarrello`: the selection, with the seats requested, goes
        into the cart and the selection is cleared. */
    method AggiungiAlCarrello()
      requires Valid()
      modifies this
      ensures Valid()
      ensures postazioni == old(postazioni) && numeroPostiRichiesti == old(numeroPostiRichiesti)
      ensures nomePrenotazione == old(nomePrenotazione) && storicoOrdini == old(storicoOrdini)
      ensures old(postazioneSelezionata).None? ==> carrello == old(carrello) && postazioneSelezionata.None?
      ensures old(postazioneSelezionata).Some? ==>
        carrello == AddToCart(old(carrello), CartItem(old(postazioneSelezionata).value, old(numeroPostiRichiesti)))
        && postazioneSelezionata.None?
    {
      if postazioneSelezionata.None? {
        return;
      }
      var index := FindIndex(carrello, postazioneSelezionata.value.id);
      var item := CartItem(postazioneSelezionata.value, numeroPostiRichiesti);
      AddKeepsUnique(carrello, item);
      if index > -1 {
        carrello := carrello[index := item];
      } else {
        carrello := carrello + [item];
      }
      postazioneSelezionata := None;
    }

    /** `rimuoviDalCarrello`. */
    method RimuoviDalCarrello(id: int)
      requires Valid()
      modifies this
      ensures Valid()
      ensures carrello == Without(old(carrello), id)
      ensures postazioni == old(postazioni) && postazioneSelezionata == old(postazioneSelezionata)
      ensures numeroPostiRichiesti == old(numeroPostiRichiesti)
      ensures nomePrenotazione == old(nomePrenotazione) && storicoOrdini == old(storicoOrdini)
    {
      WithoutKeepsUnique(carrello, id);
      carrello := Without(carrello, id);
    }

    /** `getPrezzoTotale`: the price of the current selection for the seats
        requested, or 0 with nothing selected. */
    function PrezzoSelezione(): (r: int)
      reads this
      ensures postazioneSelezionata.None? ==> r == 0
      ensures postazioneSelezionata.Some? ==> r == PrezzoItem(CartItem(postazioneSelezionata.value, numeroPostiRichiesti))
    {
      if postazioneSelezionata.None? then 0
      else
        var base := PrezzoUnitario(postazioneSelezionata.value.tipo);
        if postazioneSelezionata.value.tipo == Ristorante then base * numeroPostiRichiesti else base
    }

    /** `confermaPrenotazione` up to the request: a pending selection is
        first added to the cart; an empty cart sends nothing. */
    method PreparaConferma() returns (body: Option<seq<ApiItem>>)
      requires Valid()
      modifies this
      ensures Valid()
      ensures postazioni == old(postazioni) && storicoOrdini == old(storicoOrdini)
      ensures old(postazioneSelezionata).None? ==> carrello == old(carrello)
      ensures old(postazioneSelezionata).Some? ==>
        carrello == AddToCart(old(carrello), CartItem(old(postazioneSelezionata).value, old(numeroPostiRichiesti)))
      ensures postazioneSelezionata.None?
      ensures body == if carrello == [] then None else Some(ApiItems(carrello))
    {
      if postazioneSelezionata.Some? {
        AggiungiAlCarrello();
      }
      if carrello == [] {
        return None;
      }
      return Some(ApiItems(carrello));
    }

    /** The success branch of `confermaPrenotazione`: every line is put in
        front of the history, then the cart and the selection are cleared. */
    method ConfermaRiuscita()
      modifies this
      ensures Valid()
      ensures storicoOrdini == Storico(old(carrello)) + old(storicoOrdini)
      ensures carrello == [] && postazioneSelezionata.None?
      ensures postazioni == old(postazioni) && numeroPostiRichiesti == old(numeroPostiRichiesti)
      ensures nomePrenotazione == old(nomePrenotazione)
    {
      for i := 0 to |carrello|
        invariant carrello == old(carrello) && postazioni == old(postazioni)
        invariant numeroPostiRichiesti == old(numeroPostiRichiesti) && nomePrenotazione == old(nomePrenotazione)
        invariant storicoOrdini == Storico(carrello[..i]) + old(storicoOrdini)
      {
        assert carrello[..i + 1][..i] == carrello[..i];
        storicoOrdini := [StoricoOf(carrello[i])] + storicoOrdini;
      }
      assert carrello[..|carrello|] == carrello;
      carrello := [];
      postazioneSelezionata := None;
    }
  }

  // ---------------------------------------------------------------------
  // Properties of the cart

  /** Adding keeps the cart free of duplicate resources. */
  lemma AddKeepsUnique(cart: seq<CartItem>, item: CartItem)
    requires UniqueIds(cart)
    ensures UniqueIds(AddToCart(cart, item))
  {
  }

  /** After adding, the cart has exactly one line for the resource, and it
      is the new one. */
  lemma AddedLine(cart: seq<CartItem>, item: CartItem)
    requires UniqueIds(cart)
    ensures var after := AddToCart(cart, item);
      var k := FindIndex(after, item.postazione.id);
      k >= 0 && after[k] == item
      && forall j :: 0 <= j < |after| && j != k ==> after[j].postazione.id != item.postazione.id
  {
    var k := FindIndex(cart, item.postazione.id);
    var after := AddToCart(cart, item);
    if k == -1 {
      assert after[|cart|] == item;
      assert forall j :: 0 <= j < |cart| ==> after[j] == cart[j];
      assert FindIndex(after, item.postazione.id) == |cart|;
    } else {
      assert forall j :: 0 <= j < |cart| && j != k ==> after[j] == cart[j];
      assert after[k] == item;
      var r := FindIndex(after, item.postazione.id);
      assert r != -1 by { assert after[k].postazione.id == item.postazione.id; }
      assert FindIndex(after, item.postazione.id) == k;
    }
  }

  /** Adding never touches the lines of other resources: with the new
      resource's lines removed, the cart is what it was. */
  lemma AddOthersUnchanged(cart: seq<CartItem>, item: CartItem)
    ensures Without(AddToCart(cart, item), item.postazione.id) == Without(cart, item.postazione.id)
  {
    var id := item.postazione.id;
    var k := FindIndex(cart, id);
    if k > -1 {
      WithoutReplace(cart, k, item);
    } else {
      WithoutAppend(cart, [item], id);
      assert [item][..0] == [];
    }
  }

  lemma {:induction false} WithoutAppend(a: seq<CartItem>, b: seq<CartItem>, id: int)
    ensures Without(a + b, id) == Without(a, id) + Without(b, id)
    decreases |b|
  {
    if b == [] {
      assert a + b == a;
    } else {
      assert (a + b)[..|a + b| - 1] == a + b[..|b| - 1];
      WithoutAppend(a, b[..|b| - 1], id);
    }
  }

  /** Replacing a line by one for the same resource does not change what
      the filter keeps. */
  lemma {:induction false} WithoutReplace(cart: seq<CartItem>, k: int, item: CartItem)
    requires 0 <= k < |cart| && cart[k].postazione.id == item.postazione.id
    ensures Without(cart[k := item], item.postazione.id) == Without(cart, item.postazione.id)
    decreases |cart|
  {
    var n := |cart|;
    var updated := cart[k := item];
    if k < n - 1 {
      assert updated[..n - 1] == cart[..n - 1][k := item];
      assert updated[n - 1] == cart[n - 1];
      WithoutReplace(cart[..n - 1], k, item);
    } else {
      assert updated[..n - 1] == cart[..n - 1];
      assert updated[n - 1].postazione.id == cart[n - 1].postazione.id;
    }
  }

  /** A resource that is not in the cart leaves the filter with nothing to drop. */
  lemma {:induction false} WithoutAbsent(cart: seq<CartItem>, id: int)
    requires forall j :: 0 <= j < |cart| ==> cart[j].postazione.id != id
    ensures Without(cart, id) == cart
    decreases |cart|
  {
    if cart != [] {
      var init := cart[..|cart| - 1];
      assert forall j :: 0 <= j < |init| ==> init[j] == cart[j];
      WithoutAbsent(init, id);
    }
  }

  /** Adding a new resource and removing it again gives back the cart. */
  lemma AddThenRemove(cart: seq<CartItem>, item: CartItem)
    requires FindIndex(cart, item.postazione.id) == -1
    ensures Without(AddToCart(cart, item), item.postazione.id) == cart
  {
    AddOthersUnchanged(cart, item);
    WithoutAbsent(cart, item.postazione.id);
  }

  /** Filtering keeps the cart free of duplicate resources. */
  lemma {:induction false} WithoutKeepsUnique(cart: seq<CartItem>, id: int)
    requires UniqueIds(cart)
    ensures UniqueIds(Without(cart, id))
    decreases |cart|
  {
    if cart != [] {
      var n := |cart|;
      var init := cart[..n - 1];
      var last := cart[n - 1];
      assert UniqueIds(init) by {
        assert forall j :: 0 <= j < |init| ==> init[j] == cart[j];
      }
      WithoutKeepsUnique(init, id);
      WithoutMembers(init, id);
      var r := Without(init, id);
      if last.postazione.id != id {
        forall j | 0 <= j < |r| ensures r[j].postazione.id != last.postazione.id {
          assert r[j] in r;
          var m :| 0 <= m < |init| && init[m] == r[j];
          assert cart[m] == init[m];
        }
        var after := r + [last];
        forall i, j | 0 <= i < j < |after| ensures after[i].postazione.id != after[j].postazione.id {
          if j == |r| {
            assert after[i] == r[i];
          } else {
            assert after[i] == r[i] && after[j] == r[j];
          }
        }
      }
    }
  }

  /** The total is additive over concatenation. */
  lemma {:induction false} TotaleAppend(a: seq<CartItem>, b: seq<CartItem>)
    ensures Totale(a + b) == Totale(a) + Totale(b)
    decreases |b|
  {
    if b == [] {
      assert a + b == a;
    } else {
      assert (a + b)[..|a + b| - 1] == a + b[..|b| - 1];
      TotaleAppend(a, b[..|b| - 1]);
    }
  }

  /** Replacing line `k` changes the total by the difference of the two prices. */
  lemma {:induction false} TotaleReplace(cart: seq<CartItem>, k: int, item: CartItem)
    requires 0 <= k < |cart|
    ensures Totale(cart[k := item]) == Totale(cart) - PrezzoItem(cart[k]) + PrezzoItem(item)
    decreases |cart|
  {
    var n := |cart|;
    if k < n - 1 {
      assert cart[k := item][..n - 1] == cart[..n - 1][k := item];
      TotaleReplace(cart[..n - 1], k, item);
    } else {
      assert cart[k := item][..n - 1] == cart[..n - 1];
    }
  }

  /** Adding a line raises the total by its price, less the price of the
      line it replaces. */
  lemma AddTotale(cart: seq<CartItem>, item: CartItem)
    ensures var k := FindIndex(cart, item.postazione.id);
      Totale(AddToCart(cart, item)) == Totale(cart) + PrezzoItem(item) - (if k >= 0 then PrezzoItem(cart[k]) else 0)
  {
    var k := FindIndex(cart, item.postazione.id);
    if k >= 0 {
      TotaleReplace(cart, k, item);
    } else {
      TotaleAppend(cart, [item]);
      assert [item][..0] == [];
    }
  }

  /** Removing a resource from a cart without duplicates lowers the total
      by the price of its line. */
  lemma {:induction false} RemoveTotale(cart: seq<CartItem>, id: int)
    requires UniqueIds(cart)
    ensures var k := FindIndex(cart, id);
      Totale(Without(cart, id)) == Totale(cart) - (if k >= 0 then PrezzoItem(cart[k]) else 0)
  {
    var k := FindIndex(cart, id);
    if k >= 0 {
      RemovePresent(cart, k);
    } else {
      WithoutAbsent(cart, id);
    }
  }

  lemma TotaleSnoc(cart: seq<CartItem>, item: CartItem)
    ensures Totale(cart + [item]) == Totale(cart) + PrezzoItem(item)
  {
    assert (cart + [item])[..|cart|] == cart;
  }

  /** Removing the resource of line `k` lowers the total by that line's price. */
  lemma {:induction false} RemovePresent(cart: seq<CartItem>, k: int)
    requires UniqueIds(cart) && 0 <= k < |cart|
    ensures Totale(Without(cart, cart[k].postazione.id)) == Totale(cart) - PrezzoItem(cart[k])
    decreases |cart|
  {
    var n := |cart|;
    var id := cart[k].postazione.id;
    var init := cart[..n - 1];
    var last := cart[n - 1];
    assert cart == init + [last];
    TotaleSnoc(init, last);
    assert forall j :: 0 <= j < |init| ==> init[j] == cart[j];
    if k == n - 1 {
      WithoutAbsent(init, id);
      assert Without(cart, id) == Without(init, id);
    } else {
      assert UniqueIds(init);
      assert last.postazione.id != id;
      RemovePresent(init, k);
      assert Without(cart, id) == Without(init, id) + [last];
      TotaleSnoc(Without(init, id), last);
    }
  }

  /** A cart the page built names each resource once, so the lines the
      server binds from it meet the engine's distinct-resources premise. */
  lemma CartLinesDistinct(cart: seq<CartItem>)
    requires UniqueIds(cart)
    requires Bind(ApiItems(cart)).Some?
    ensures Booking.DistinctResources(Bind(ApiItems(cart)).value)
  {
  }

  // ---------------------------------------------------------------------
  // Properties of the statistics and the status classes

  lemma {:induction false} StatsAppend(a: seq<MapItem>, b: seq<MapItem>)
    ensures TotaliOf(a + b) == TotaliOf(a) + TotaliOf(b)
    ensures OccupatiOf(a + b) == OccupatiOf(a) + OccupatiOf(b)
    decreases |b|
  {
    if b == [] {
      assert a + b == a;
    } else {
      assert (a + b)[..|a + b| - 1] == a + b[..|b| - 1];
      StatsAppend(a, b[..|b| - 1]);
    }
  }

  /** Each table reports between zero and all of its seats taken. */
  predicate Consistent(items: seq<MapItem>) {
    forall k :: 0 <= k < |items| && items[k].tipo == Ristorante ==> 0 <= items[k].postiOccupati <= items[k].postiTotali
  }

  /** When every table reports a sensible count, the taken places are
      between zero and the total, so the free places are never negative. */
  lemma {:induction false} StatsBounds(items: seq<MapItem>)
    requires Consistent(items)
    ensures 0 <= OccupatiOf(items) <= TotaliOf(items)
    decreases |items|
  {
    if items != [] {
      var init := items[..|items| - 1];
      assert Consistent(init) by {
        assert forall k :: 0 <= k < |init| ==> init[k] == items[k];
      }
      StatsBounds(init);
    }
  }

  /** A resource that is neither selected nor in the cart is drawn as booked
      exactly when a click cannot select it. */
  lemma BookedIffNotSelectable(d: Dashboard, p: MapItem)
    requires !(d.postazioneSelezionata.Some? && d.postazioneSelezionata.value.id == p.id)
    requires FindIndex(d.carrello, p.id) == -1
    ensures d.StatoClasse(p) == StatusBooked <==> !Selezionabile(p)
  {
  }
}
