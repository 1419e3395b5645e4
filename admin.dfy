/**
 * The admin pages (`AdminController`): the admin check, the weekly menu
 * editor with its ISO 8601 week text ("2025-W05"), and the company
 * notices editor, which replaces every stored notice with the non-blank
 * ones submitted.
 */
module Admin {
  import opened Wrappers
  import opened Calendar
  import opened Text
  import opened Entities
  import opened Db
  import opened Claims
  import Notices

  /** `IsAdmin`: an authenticated identity whose role, "User" when the
      claim is missing, is Admin or SuperAdmin. */
  predicate IsAdmin(user: Principal) {
    user.authenticated && (RoleOf(user) == RoleAdmin || RoleOf(user) == RoleSuperAdmin)
  }

  /** Who passes the check: exactly the authenticated admins and
      super-admins; a missing role claim never does. */
  lemma IsAdminSpec(user: Principal)
    ensures IsAdmin(user) <==> user.authenticated && (user.ruolo == Some(RoleAdmin) || user.ruolo == Some(RoleSuperAdmin))
  {
  }

  // ---------------------------------------------------------------------
  // ISO week text

  /** `ToIsoWeek`: `{year}-W{week:D2}` of the ISO week holding `t`. */
  function ToIsoWeek(t: DateTime): string {
    FormatNat(IsoYear(Day(t))) + "-W" + FormatD2(IsoWeek(Day(t)))
  }

  /** What `ParseIsoWeek` gives: `null`, a Monday, or the exception
      `ISOWeek.ToDateTime` throws for a week that does not exist. */
  datatype IsoParse = NoWeek | Week(monday: DateTime) | Throws

  /** The two parts of the text, if it splits into exactly two: on "-W"
      when it contains "-W" in any case (the split itself is ordinal), else
      on "-" when it contains a dash. */
  function IsoParts(s: string): (r: Option<(string, string)>)
    ensures r.Some? ==> r.value.0 != "" && r.value.1 != ""
  {
    if ContainsIgnoreCase(s, "-W") then
      var parts := Split(s, "-W");
      if |parts| == 2 then Some((parts[0], parts[1])) else None
    else if ContainsIgnoreCase(s, "-") then
      var parts := Split(s, "-");
      if |parts| == 2 then Some((parts[0], parts[1])) else None
    else None
  }

  /** `ParseIsoWeek`: a blank text, a text that does not split in two, or
      parts that are not 32-bit integers give `null`; otherwise the Monday
      of that ISO week, or the exception when there is no such week. */
  function ParseIsoWeek(s: Option<string>): (r: IsoParse)
    ensures r.Week? ==> DayOfWeek(Day(r.monday)) == Monday && r.monday == DateOf(r.monday)
    ensures IsNullOrWhiteSpace(s) ==> r == NoWeek
  {
    if IsNullOrWhiteSpace(s) then NoWeek
    else
      var parts := IsoParts(s.value);
      var year := if parts.Some? then TryParseInt(Some(parts.value.0)) else None;
      var week := if parts.Some? then TryParseInt(Some(parts.value.1)) else None;
      if year.None? || week.None? then NoWeek
      else
        var monday := IsoWeekMonday(year.value, week.value);
        if monday.None? then Throws
        else
          IsoWeekStartsOnMonday(year.value, week.value);
          Week(monday.value)
  }

  /** Every ISO week that exists starts on a Monday at midnight. */
  lemma IsoWeekStartsOnMonday(year: int, week: int)
    requires IsoWeekMonday(year, week).Some?
    ensures var m := IsoWeekMonday(year, week).value;
      DayOfWeek(Day(m)) == Monday && m == DateOf(m)
  {
    Week1MondayStep(year);
    var w := Week1Monday(year);
    MultipleOfSevenIsMonday(w, week - 1);
  }

  lemma MultipleOfSevenIsMonday(w: int, k: int)
    requires w % 7 == 0
    ensures DayOfWeek(w + 7 * k) == Monday
  {
    var j := w / 7 + k;
    assert w + 7 * k == 7 * j;
  }

  lemma UpperOfIsoWeekParts(a: string, b: string)
    requires AllDigits(a) && AllDigits(b)
    ensures Upper(a + "-W" + b) == a + "-W" + b
  {
    var s := a + "-W" + b;
    forall i | 0 <= i < |s| ensures UpperChar(s[i]) == s[i] {
      if i < |a| {
        assert s[i] == a[i];
      } else if i >= |a| + 2 {
        assert s[i] == b[i - |a| - 2];
      }
    }
  }

  /** Two numbers joined by "-W" split back into the two numbers. */
  lemma IsoPartsOfJoined(a: string, b: string)
    requires a != [] && b != [] && AllDigits(a) && AllDigits(b)
    ensures IsoParts(a + "-W" + b) == Some((a, b))
  {
    var s := a + "-W" + b;
    UpperOfIsoWeekParts(a, b);
    assert Upper("-W") == "-W";
    assert OccursAt(Upper(s), Upper("-W"), |a|) by {
      assert s[|a|..|a| + 2] == "-W";
    }
    SplitJoinedDigits(a, "-W", b);
  }

  /** Reading back the text of a date's ISO week gives the Monday of the
      week the date falls in: the editor's week field round-trips. */
  lemma ParseToIsoWeek(t: DateTime)
    ensures ParseIsoWeek(Some(ToIsoWeek(t))) == Week(WeekStart(t))
  {
    var d := Day(t);
    var a, b := FormatNat(IsoYear(d)), FormatD2(IsoWeek(d));
    var s := a + "-W" + b;
    assert s == ToIsoWeek(t);
    assert !IsBlank(s) by {
      assert s[0] == a[0];
    }
    IsoPartsOfJoined(a, b);
    ParseFormatNat(IsoYear(d));
    ParseFormatD2(IsoWeek(d));
    IsoWeekMondayOfDate(t);
    ParseOfParts(s, IsoYear(d), IsoWeek(d));
  }

  lemma ParseOfParts(s: string, year: int, week: int)
    requires !IsBlank(s) && IsoParts(s).Some?
    requires TryParseInt(Some(IsoParts(s).value.0)) == Some(year)
    requires TryParseInt(Some(IsoParts(s).value.1)) == Some(week)
    requires IsoWeekMonday(year, week).Some?
    ensures ParseIsoWeek(Some(s)) == Week(IsoWeekMonday(year, week).value)
  {
  }

  /** The week test ignores case but the split does not: a lower-case
      "-w" between two numbers is not split, so the text reads as no week
      at all (and the page falls back to the posted date). */
  lemma LowerCaseWeekIsIgnored(a: string, b: string)
    requires AllDigits(a) && AllDigits(b)
    ensures ParseIsoWeek(Some(a + "-w" + b)) == NoWeek
  {
    var s := a + "-w" + b;
    assert !IsBlank(s) by {
      assert s[|a|] == '-';
    }
    assert Upper("-W") == "-W";
    assert OccursAt(Upper(s), Upper("-W"), |a|) by {
      assert s[|a|..|a| + 2] == "-w";
      assert Upper(s)[|a|..|a| + 2] == "-W";
    }
    assert !Contains(s, "-W") by {
      forall i | 0 <= i <= |s| - 2 ensures !OccursAt(s, "-W", i) {
        assert s[i..i + 2][1] == s[i + 1];
        if i + 1 < |a| {
          assert s[i + 1] == a[i + 1];
        } else if i + 1 > |a| + 1 {
          assert s[i + 1] == b[i + 1 - |a| - 2];
        }
      }
    }
    assert Split(s, "-W") == [s];
  }

  /** A week past the last one of its year is an exception, not a
      fallback. */
  lemma WeekOutOfRangeThrows(s: string, year: int, week: int)
    requires !IsBlank(s) && IsoParts(s).Some?
    requires TryParseInt(Some(IsoParts(s).value.0)) == Some(year)
    requires TryParseInt(Some(IsoParts(s).value.1)) == Some(week)
    requires week > 53 || week < 1
    ensures ParseIsoWeek(Some(s)) == Throws
  {
  }

  // ---------------------------------------------------------------------
  // Weekly menu editor

  /** The editor's form: the posted week start (`default` is tick 0), the
      ISO week text, and the seven days. */
  datatype MenuForm = MenuForm(weekStart: DateTime, weekIso: Option<string>, giorni: seq<Option<string>>)

  /** What an admin action answers. */
  datatype AdminReply = Unauthorized | RedirectToMenu(start: DateTime) | RedirectToNotifiche | ServerError

  /** The week the save applies to: the week start of the posted date (or
      of today when none was posted), replaced by the ISO week when that
      parses; `None` where parsing throws. */
  function TargetWeek(form: MenuForm, today: DateTime): (r: Option<DateTime>)
    ensures r.Some? ==> DayOfWeek(Day(r.value)) == Monday && r.value == DateOf(r.value)
    ensures r.None? <==> !IsNullOrWhiteSpace(form.weekIso) && ParseIsoWeek(form.weekIso).Throws?
  {
    var start := WeekStart(if form.weekStart == 0 then today else form.weekStart);
    assert start == DateOf(start);
    var parsed := if IsNullOrWhiteSpace(form.weekIso) then NoWeek else ParseIsoWeek(form.weekIso);
    match parsed
    case NoWeek => Some(start)
    case Week(m) => Some(m)
    case Throws => None
  }

  /** The menus after an upsert of week `start`: the menu of that week,
      if there is one, gets the seven days; otherwise a new menu is
      appended with the next key. */
  function Upserted(menus: seq<MenuSettimanale>, start: DateTime, giorni: seq<Option<string>>, nextId: int): (r: seq<MenuSettimanale>)
  {
    match FindMenu(menus, start)
    case Some(k) => menus[k := menus[k].(giorni := giorni)]
    case None => menus + [MenuSettimanale(nextId, start, giorni)]
  }

  /** After the upsert there is still at most one menu per week, exactly
      one for `start`, holding the new days; every other week's menu is
      unchanged and no menu is lost. */
  lemma UpsertedSpec(menus: seq<MenuSettimanale>, start: DateTime, giorni: seq<Option<string>>, nextId: int)
    requires UniqueWeekStarts(menus)
    ensures var r := Upserted(menus, start, giorni, nextId);
      && UniqueWeekStarts(r)
      && (forall m :: m in menus && m.weekStart != start ==> m in r)
      && (forall m :: m in r && m.weekStart != start ==> m in menus)
      && FindMenu(r, start).Some?
      && r[FindMenu(r, start).value].giorni == giorni
      && |r| == |menus| + (if FindMenu(menus, start).Some? then 0 else 1)
  {
    var r := Upserted(menus, start, giorni, nextId);
    match FindMenu(menus, start)
    case Some(k) =>
      forall m | m in menus && m.weekStart != start ensures m in r {
        var j :| 0 <= j < |menus| && menus[j] == m;
        assert r[j] == m;
      }
      assert FindMenu(r, start) == Some(k) by {
        FindMenuIsOnly(r, k, start);
      }
    case None =>
      assert forall j :: 0 <= j < |menus| ==> r[j] == menus[j];
      assert FindMenu(r, start) == Some(|menus|) by {
        FindMenuIsOnly(r, |menus|, start);
      }
  }

  /** The only menu of a week is the one found. */
  lemma FindMenuIsOnly(menus: seq<MenuSettimanale>, k: nat, start: DateTime)
    requires k < |menus| && menus[k].weekStart == start
    requires forall j :: 0 <= j < |menus| && j != k ==> menus[j].weekStart != start
    ensures FindMenu(menus, start) == Some(k)
  {
  }

  /** The first half of `SaveMenuSettimanale`: the week start of the
      posted date, or of today, overridden by the ISO week when it parses;
      `None` where parsing throws. */
  method ResolveWeek(form: MenuForm, today: DateTime) returns (r: Option<DateTime>)
    ensures r == TargetWeek(form, today)
  {
    var start := WeekStart(if form.weekStart == 0 then today else form.weekStart);
    if !IsNullOrWhiteSpace(form.weekIso) {
      var parsed := ParseIsoWeek(form.weekIso);
      if parsed.Throws? {
        return None;
      }
      if parsed.Week? {
        start := parsed.monday;
      }
    }
    r := Some(start);
  }

  /** The second half: find the week's menu or add one, set the seven
      days, save. */
  method StoreMenu(db: Database, start: DateTime, giorni: seq<Option<string>>)
    requires db.Valid() && |giorni| == 7
    modifies db
    ensures db.Valid()
    ensures db.menus == Upserted(old(db.menus), start, giorni, old(db.nextMenuId))
    ensures db.postazioni == old(db.postazioni) && db.prenotazioni == old(db.prenotazioni)
    ensures db.users == old(db.users) && db.notifiche == old(db.notifiche)
  {
    var menu := FindMenu(db.menus, start);
    UpsertedSpec(db.menus, start, giorni, db.nextMenuId);
    if menu.None? {
      db.menus := db.menus + [MenuSettimanale(db.nextMenuId, start, giorni)];
      db.nextMenuId := db.nextMenuId + 1;
    } else {
      db.menus := db.menus[menu.value := db.menus[menu.value].(giorni := giorni)];
    }
  }

  /** `SaveMenuSettimanale`. */
  method SaveMenuSettimanale(db: Database, user: Principal, form: MenuForm, today: DateTime) returns (reply: AdminReply)
    requires db.Valid() && |form.giorni| == 7
    modifies db
    ensures db.Valid()
    ensures !IsAdmin(user) ==> reply == Unauthorized && db.menus == old(db.menus)
    ensures IsAdmin(user) && TargetWeek(form, today).None? ==> reply == ServerError && db.menus == old(db.menus)
    ensures IsAdmin(user) && TargetWeek(form, today).Some? ==>
      && reply == RedirectToMenu(TargetWeek(form, today).value)
      && db.menus == Upserted(old(db.menus), TargetWeek(form, today).value, form.giorni, old(db.nextMenuId))
    ensures db.postazioni == old(db.postazioni) && db.prenotazioni == old(db.prenotazioni)
    ensures db.users == old(db.users) && db.notifiche == old(db.notifiche)
  {
    if !IsAdmin(user) {
      return Unauthorized;
    }
    var start := ResolveWeek(form, today);
    if start.None? {
      return ServerError;
    }
    StoreMenu(db, start.value, form.giorni);
    reply := RedirectToMenu(start.value);
  }

  /** The GET editor's model: the week start, its ISO text and, when
      that week has a menu, its days. */
  datatype MenuView = MenuView(weekStart: DateTime, weekIso: string, giorni: Option<seq<Option<string>>>)

  /** `MenuSettimanale` (GET) for the requested date, or today. */
  function MenuEditor(menus: seq<MenuSettimanale>, weekStart: Option<DateTime>, today: DateTime): (r: MenuView)
    ensures DayOfWeek(Day(r.weekStart)) == Monday
  {
    var start := WeekStart(weekStart.GetOr(today));
    var k := FindMenu(menus, start);
    MenuView(start, ToIsoWeek(start), if k.Some? then Some(menus[k.value].giorni) else None)
  }

  /** Saving a week and opening the editor on the week it redirects to
      shows the days just saved, with a week text that reads back as the
      same week. */
  lemma SaveThenView(menus: seq<MenuSettimanale>, form: MenuForm, today: DateTime, nextId: int)
    requires UniqueWeekStarts(menus) && TargetWeek(form, today).Some?
    ensures var start := TargetWeek(form, today).value;
      var v := MenuEditor(Upserted(menus, start, form.giorni, nextId), Some(start), today);
      && v.weekStart == start
      && v.giorni == Some(form.giorni)
      && ParseIsoWeek(Some(v.weekIso)) == Week(start)
  {
    var start := TargetWeek(form, today).value;
    MondayIsOwnWeekStart(start);
    UpsertedSpec(menus, start, form.giorni, nextId);
    ParseToIsoWeek(start);
  }

  /** A Monday at midnight is its own week start. */
  lemma MondayIsOwnWeekStart(t: DateTime)
    requires DayOfWeek(Day(t)) == Monday && t == DateOf(t)
    ensures WeekStart(t) == t
  {
    WeekStartIsLastMonday(Day(t), Day(t));
  }

  // ---------------------------------------------------------------------
  // Company notices

  /** A stored notice as the editor shows it. */
  function ItemOf(n: Notifica): Notices.NotificaItem {
    Notices.NotificaItem(n.data, n.titolo, n.contenuto)
  }

  const EmptyItem: Notices.NotificaItem := Notices.NotificaItem(None, None, None)

  /** The notices padded with empty ones up to three. */
  function Padded(items: seq<Notices.NotificaItem>): (r: seq<Notices.NotificaItem>)
    ensures |r| == if |items| < 3 then 3 else |items|
    ensures r[..|items|] == items
    ensures forall k :: |items| <= k < |r| ==> r[k] == EmptyItem
  {
    if |items| < 3 then items + seq(3 - |items|, _ => EmptyItem) else items
  }

  function ItemsOf(rows: seq<Notifica>): (r: seq<Notices.NotificaItem>)
    ensures |r| == |rows|
    ensures forall k :: 0 <= k < |r| ==> r[k] == ItemOf(rows[k])
  {
    seq(|rows|, k requires 0 <= k < |rows| => ItemOf(rows[k]))
  }

  /** `Notifiche` (GET): the stored notices, then a `while` loop that adds
      empty ones until there are three. */
  method Notifiche(db: Database, user: Principal) returns (r: Option<seq<Notices.NotificaItem>>)
    ensures !IsAdmin(user) ==> r.None?
    ensures IsAdmin(user) ==> r == Some(Padded(ItemsOf(db.notifiche)))
  {
    if !IsAdmin(user) {
      return None;
    }
    var items := ItemsOf(db.notifiche);
    var list := items;
    while |list| < 3
      invariant |list| <= if |items| < 3 then 3 else |items|
      invariant list[..|items|] == items
      invariant forall k :: |items| <= k < |list| ==> list[k] == EmptyItem
      decreases 3 - |list|
    {
      list := list + [EmptyItem];
    }
    assert list == Padded(items);
    r := Some(list);
  }

  /** The rows the add loop stages: one per kept notice, keys from the
      identity counter, created at `utcNow`. */
  function Staged(items: seq<Notices.NotificaItem>, first: int, utcNow: DateTime): (r: seq<Notifica>)
    ensures |r| == |items|
    ensures forall k :: 0 <= k < |r| ==> r[k] == Notifica(first + k, items[k].titolo, items[k].contenuto, items[k].data, utcNow)
  {
    seq(|items|, k requires 0 <= k < |items| => Notifica(first + k, items[k].titolo, items[k].contenuto, items[k].data, utcNow))
  }

  /** Where the two `SaveChanges` of the save can fail. */
  datatype SaveFault = NoFault | RemoveFails | AddFails

  /** `SaveNotifiche`. The removal of every stored notice is saved on its
      own before the new ones are added, so when the second save fails
      the table is left empty. */
  method SaveNotifiche(db: Database, user: Principal, notifiche: Option<seq<Option<Notices.NotificaItem>>>,
                       utcNow: DateTime, fault: SaveFault) returns (reply: AdminReply)
    requires db.Valid()
    modifies db
    ensures db.Valid()
    ensures !IsAdmin(user) ==> reply == Unauthorized && db.notifiche == old(db.notifiche)
    ensures IsAdmin(user) && fault == RemoveFails ==> reply == ServerError && db.notifiche == old(db.notifiche)
    ensures IsAdmin(user) && fault == AddFails ==> reply == ServerError && db.notifiche == []
    ensures IsAdmin(user) && fault == NoFault ==>
      && reply == RedirectToNotifiche
      && db.notifiche == Staged(Notices.Cleaned(notifiche.GetOr([])), old(db.nextNotificaId), utcNow)
    ensures db.postazioni == old(db.postazioni) && db.prenotazioni == old(db.prenotazioni)
    ensures db.users == old(db.users) && db.menus == old(db.menus)
  {
    if !IsAdmin(user) {
      return Unauthorized;
    }
    var cleaned := Notices.Cleaned(notifiche.GetOr([]));
    if fault == RemoveFails {
      return ServerError;
    }
    db.notifiche := [];
    var first := db.nextNotificaId;
    var added: seq<Notifica> := [];
    for i := 0 to |cleaned|
      invariant |added| == i
      invariant forall k :: 0 <= k < i ==>
        added[k] == Notifica(first + k, cleaned[k].titolo, cleaned[k].contenuto, cleaned[k].data, utcNow)
    {
      var n := cleaned[i];
      added := added + [Notifica(first + i, n.titolo, n.contenuto, n.data, utcNow)];
    }
    if fault == AddFails {
      return ServerError;
    }
    assert added == Staged(cleaned, first, utcNow);
    db.notifiche := added;
    db.nextNotificaId := first + |added|;
    reply := RedirectToNotifiche;
  }

  /** Saving and reopening the editor shows exactly the non-blank notices
      submitted, in the order submitted, padded to three. */
  lemma SaveThenOpen(items: seq<Option<Notices.NotificaItem>>, first: int, utcNow: DateTime)
    ensures ItemsOf(Staged(Notices.Cleaned(items), first, utcNow)) == Notices.Cleaned(items)
  {
  }
}
