/**
 * The in-memory notice board the admin pages share
 * (`AdminComunicazioniStore`): two lists, notices between admins and
 * notices from the super-admin, each kept most recent first and cut to
 * twenty entries. Blank notices are ignored.
 */
module Notices {
  import opened Wrappers
  import opened Text

  /** A notice as the admin forms post it; every field may be null. */
  datatype NotificaItem = NotificaItem(data: Option<string>, titolo: Option<string>, contenuto: Option<string>)

  /** How many notices each list keeps. */
  const MaxItems: nat := 20

  /** A null notice, or one whose three fields are all null or blank. */
  predicate IsEmpty(item: Option<NotificaItem>) {
    item.None? ||
    (IsNullOrWhiteSpace(item.value.data) && IsNullOrWhiteSpace(item.value.titolo) && IsNullOrWhiteSpace(item.value.contenuto))
  }

  /** `FindAll` of the notices with a non-blank field, in the order given:
      the filter the admin save and the booking page both apply. */
  function Cleaned(items: seq<Option<NotificaItem>>): (r: seq<NotificaItem>)
    ensures |r| <= |items|
    ensures forall x :: x in r <==> Some(x) in items && !IsEmpty(Some(x))
  {
    if items == [] then []
    else
      var init := items[..|items| - 1];
      var item := items[|items| - 1];
      assert forall o :: o in items <==> o in init || o == item;
      if IsEmpty(item) then Cleaned(init) else Cleaned(init) + [item.value]
  }

  /** `Trim`: everything past the first twenty entries is removed. */
  function Trimmed(list: seq<NotificaItem>): (r: seq<NotificaItem>)
    ensures |list| <= MaxItems ==> r == list
    ensures |list| > MaxItems ==> |r| == MaxItems
    ensures r == list[..|r|]
  {
    if |list| <= MaxItems then list else list[..MaxItems]
  }

  /** `Insert(0, item)` followed by `Trim`. */
  function Pushed(list: seq<NotificaItem>, item: NotificaItem): (r: seq<NotificaItem>)
    ensures |r| == if |list| < MaxItems then |list| + 1 else MaxItems
    ensures r[0] == item
    ensures r[1..] == list[..|r| - 1]
  {
    Trimmed([item] + list)
  }

  class ComunicazioniStore {
    var adminToAdmin: seq<NotificaItem>
    var superAdminToAdmin: seq<NotificaItem>

    /** Neither list ever holds more than twenty notices. */
    ghost predicate Valid()
      reads this
    {
      |adminToAdmin| <= MaxItems && |superAdminToAdmin| <= MaxItems
    }

    /** The two lists start empty. */
    constructor ()
      ensures Valid() && adminToAdmin == [] && superAdminToAdmin == []
    {
      adminToAdmin := [];
      superAdminToAdmin := [];
    }

    /** `GetAdminToAdmin`: a copy of the list (a sequence value, which the
        caller cannot change). */
    function GetAdminToAdmin(): (r: seq<NotificaItem>)
      reads this
      requires Valid()
      ensures |r| <= MaxItems
      ensures r == adminToAdmin
    {
      adminToAdmin
    }

    function GetSuperAdminToAdmin(): (r: seq<NotificaItem>)
      reads this
      requires Valid()
      ensures |r| <= MaxItems
      ensures r == superAdminToAdmin
    {
      superAdminToAdmin
    }

    /** `AddAdminToAdmin`: a blank notice changes nothing; otherwise it goes
        in front and the list is cut to twenty. The other list is untouched. */
    method AddAdminToAdmin(item: Option<NotificaItem>)
      requires Valid()
      modifies this
      ensures Valid()
      ensures IsEmpty(item) ==> adminToAdmin == old(adminToAdmin)
      ensures !IsEmpty(item) ==> adminToAdmin == Pushed(old(adminToAdmin), item.value)
      ensures superAdminToAdmin == old(superAdminToAdmin)
    {
      if IsEmpty(item) {
        return;
      }
      adminToAdmin := [item.value] + adminToAdmin;
      adminToAdmin := Trimmed(adminToAdmin);
    }

    /** `AddSuperAdminToAdmin`, the same on the other list. */
    method AddSuperAdminToAdmin(item: Option<NotificaItem>)
      requires Valid()
      modifies this
      ensures Valid()
      ensures IsEmpty(item) ==> superAdminToAdmin == old(superAdminToAdmin)
      ensures !IsEmpty(item) ==> superAdminToAdmin == Pushed(old(superAdminToAdmin), item.value)
      ensures adminToAdmin == old(adminToAdmin)
    {
      if IsEmpty(item) {
        return;
      }
      superAdminToAdmin := [item.value] + superAdminToAdmin;
      superAdminToAdmin := Trimmed(superAdminToAdmin);
    }
  }

  // ---------------------------------------------------------------------
  // Properties

  /** A notice is ignored exactly when it is null or all three of its
      fields are blank: one non-blank field is enough to keep it. */
  lemma EmptyIffAllBlank(item: NotificaItem)
    ensures !IsEmpty(Some(item)) <==>
      !IsNullOrWhiteSpace(item.data) || !IsNullOrWhiteSpace(item.titolo) || !IsNullOrWhiteSpace(item.contenuto)
  {
  }

  /** The notices, most recent first, after a run of adds on a list. */
  function AfterAdds(list: seq<NotificaItem>, items: seq<Option<NotificaItem>>): seq<NotificaItem> {
    if items == [] then list
    else
      var before := AfterAdds(list, items[..|items| - 1]);
      var item := items[|items| - 1];
      if IsEmpty(item) then before else Pushed(before, item.value)
  }

  /** The non-blank notices among `items`, latest first. */
  function Kept(items: seq<Option<NotificaItem>>): (r: seq<NotificaItem>)
    ensures |r| <= |items|
  {
    if items == [] then []
    else
      var rest := Kept(items[..|items| - 1]);
      var item := items[|items| - 1];
      if IsEmpty(item) then rest else [item.value] + rest
  }

  /** After any run of adds, the list is the first twenty of the non-blank
      notices added, newest first, followed by what was there before. */
  lemma {:induction false} AfterAddsIsNewestFirst(list: seq<NotificaItem>, items: seq<Option<NotificaItem>>)
    requires |list| <= MaxItems
    ensures AfterAdds(list, items) == Trimmed(Kept(items) + list)
    decreases |items|
  {
    if items != [] {
      var init := items[..|items| - 1];
      var item := items[|items| - 1];
      AfterAddsIsNewestFirst(list, init);
      if !IsEmpty(item) {
        var whole := Kept(init) + list;
        var t := Trimmed(whole);
        assert [item.value] + whole == Kept(items) + list;
        if |whole| <= MaxItems {
          assert t == whole;
        } else {
          assert Trimmed([item.value] + t) == Trimmed([item.value] + whole) by {
            assert ([item.value] + t)[..MaxItems] == ([item.value] + whole)[..MaxItems];
          }
        }
      }
    }
  }

  /** Twenty non-blank notices in a row push out everything older. */
  lemma TwentyAddsFlush(list: seq<NotificaItem>, items: seq<Option<NotificaItem>>)
    requires |list| <= MaxItems
    requires |Kept(items)| >= MaxItems
    ensures AfterAdds(list, items) == Kept(items)[..MaxItems]
  {
    AfterAddsIsNewestFirst(list, items);
    assert (Kept(items) + list)[..MaxItems] == Kept(items)[..MaxItems];
  }

  /** The filter keeps order: it distributes over concatenation, keeping a
      single notice exactly when it is not blank. */
  lemma {:induction false} CleanedAppend(a: seq<Option<NotificaItem>>, b: seq<Option<NotificaItem>>)
    ensures Cleaned(a + b) == Cleaned(a) + Cleaned(b)
    decreases |b|
  {
    if b == [] {
      assert a + b == a;
    } else {
      assert (a + b)[..|a + b| - 1] == a + b[..|b| - 1];
      CleanedAppend(a, b[..|b| - 1]);
    }
  }

  lemma CleanedSingle(item: Option<NotificaItem>)
    ensures Cleaned([item]) == if IsEmpty(item) then [] else [item.value]
  {
    assert [item][..0] == [];
  }
}
