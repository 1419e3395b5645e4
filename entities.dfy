/**
 * The persistent entities: bookable resources (`Postazione`), bookings
 * (`Prenotazione`), users, the weekly menu and the company notices, with
 * the defaults their constructors give and the column limits of the schema.
 *
 * Nullable text columns that the application only tests for blankness or
 * concatenates are `string`, with null read as the empty string; those
 * whose nullness the code distinguishes are `Option<string>`.
 */
module Entities {
  import opened Wrappers
  import opened Calendar
  import opened Text

  // Resource types and roles
  const Singola: string := "Singola"
  const Team: string := "Team"
  const Riunioni: string := "Riunioni"
  const Eventi: string := "Eventi"
  const Ristorante: string := "Ristorante"

  const RoleUser: string := "User"
  const RoleAdmin: string := "Admin"
  const RoleSuperAdmin: string := "SuperAdmin"

  /** A bookable resource drawn on the floor map. */
  datatype Postazione = Postazione(
    id: int,
    codiceUnivoco: string,
    nome: string,
    tipo: string,
    isAbilitata: bool,
    x: Int32, y: Int32, width: Int32, height: Int32,
    postiTotali: Int32)

  /** `new Postazione()`: enabled, one seat, everything else zero or empty. */
  function NewPostazione(): (p: Postazione)
    ensures p.isAbilitata && p.postiTotali == 1 && p.id == 0
  {
    Postazione(0, "", "", "", true, 0, 0, 0, 0, 1)
  }

  /** A booking: a resource, a day, a user and a party size. */
  datatype Prenotazione = Prenotazione(
    id: int,
    dataPrenotazione: DateTime,
    dataCreazione: DateTime,
    userId: string,
    numeroPersone: Int32,
    isCancellata: bool,
    note: Option<string>,
    postazioneId: int,
    /** The `Prezzo` column, decimal(10,2), in cents. */
    prezzo: int)

  /** `new Prenotazione { PostazioneId, DataPrenotazione, UserId }` with the
      entity defaults: one person, not cancelled, no note, price 0, created
      at the local time `now`. */
  function NewPrenotazione(postazioneId: int, data: DateTime, userId: string, now: DateTime): (p: Prenotazione)
    ensures p.postazioneId == postazioneId && p.dataPrenotazione == data && p.userId == userId
    ensures p.numeroPersone == 1 && !p.isCancellata && p.note.None? && p.dataCreazione == now
  {
    Prenotazione(0, data, now, userId, 1, false, None, postazioneId, 0)
  }

  const MaxUserIdLength: int := 450
  const MaxNoteLength: int := 500

  /** The column limits the schema enforces on a booking row. */
  predicate FitsSchema(p: Prenotazione) {
    |p.userId| <= MaxUserIdLength && (p.note.Some? ==> |p.note.value| <= MaxNoteLength)
  }

  const GuidLimit: int := 0x1_0000_0000_0000_0000_0000_0000_0000_0000

  /** A `System.Guid`, as the 128-bit number its 32 hexadecimal digits spell. */
  type Guid = g: int | 0 <= g < GuidLimit

  function HexDigit(d: int): (c: char)
    requires 0 <= d < 16
  {
    if d < 10 then DigitChar(d) else ('a' as int + d - 10) as char
  }

  /** The lowest `n` hexadecimal digits of `v`, most significant first. */
  function Hex(v: nat, n: nat): (r: string)
    ensures |r| == n
  {
    if n == 0 then "" else Hex(v / 16, n - 1) + [HexDigit(v % 16)]
  }

  /** `Guid.ToString()`: the "D" format, 8-4-4-4-12 lower-case hex digits. */
  function GuidText(g: Guid): (r: string)
    ensures |r| == 36 && r[8] == '-' && r[13] == '-' && r[18] == '-' && r[23] == '-'
  {
    var h := Hex(g, 32);
    h[..8] + "-" + h[8..12] + "-" + h[12..16] + "-" + h[16..20] + "-" + h[20..]
  }

  /** A registered user. The role column is read by the login query. */
  datatype User = User(
    id: Guid,
    email: Option<string>,
    password: Option<string>,
    firstName: Option<string>,
    lastName: Option<string>,
    nickName: Option<string>,
    ruolo: Option<string>)

  /** `User.IsMatchWithPassword`: a blank candidate never matches; otherwise
      the stored password must equal it exactly. */
  function IsMatchWithPassword(u: User, candidate: Option<string>): (r: bool)
    ensures r <==> !IsNullOrWhiteSpace(candidate) && u.password == candidate
  {
    if IsNullOrWhiteSpace(candidate) then false else u.password == candidate
  }

  /** The dishes of one week, Monday to Sunday (seven entries). */
  datatype MenuSettimanale = MenuSettimanale(id: int, weekStart: DateTime, giorni: seq<Option<string>>)

  /** A company notice as stored in the `Notifiche` table. */
  datatype Notifica = Notifica(id: int, titolo: Option<string>, contenuto: Option<string>, data: Option<string>, dataCreazione: DateTime)
}
