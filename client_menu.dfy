/**
 * `normalizeMenuSettimanale` of the booking page script. The weekly menu
 * the page receives (an object, or the JSON text of one) is re-keyed: a
 * key naming a weekday in full, in any letter case, becomes its short
 * label Lun..Dom, every other key is kept, and entries whose value is
 * falsy are dropped. Nothing usable gives `null`.
 */
module ClientMenu {
  import opened Wrappers
  import opened Text

  /** A JavaScript value as `JSON.parse` builds it. `JNull` also stands for
      `undefined`; numbers are integers. The members of an object are its
      own properties in order; a parsed object never repeats a key, but
      distinct keys may still meet once re-keyed (`DistinctKeysCollide`). */
  datatype Json =
    | JNull
    | JBool(b: bool)
    | JNum(n: int)
    | JStr(s: string)
    | JArr(items: seq<Json>)
    | JObj(members: seq<(string, Json)>)

  /** JavaScript truthiness. */
  predicate Truthy(v: Json) {
    match v
    case JNull => false
    case JBool(b) => b
    case JNum(n) => n != 0
    case JStr(s) => s != ""
    case JArr(_) => true
    case JObj(_) => true
  }

  /** `typeof v === 'object'`, which holds for `null` as well. */
  predicate IsObjectType(v: Json) {
    v.JNull? || v.JArr? || v.JObj?
  }

  /** `Object.keys(v)` with each key's value; the keys of an array are its
      indices written in decimal. */
  function Entries(v: Json): (r: seq<(string, Json)>)
    requires v.JArr? || v.JObj?
    ensures v.JArr? ==> |r| == |v.items|
  {
    if v.JArr? then seq(|v.items|, i requires 0 <= i < |v.items| => (FormatNat(i), v.items[i]))
    else v.members
  }

  const FullNames: seq<string> := ["lunedi", "martedi", "mercoledi", "giovedi", "venerdi", "sabato", "domenica"]
  const ShortNames: seq<string> := ["Lun", "Mar", "Mer", "Gio", "Ven", "Sab", "Dom"]

  /** The string forms of the two values the `fullToShort` literal inherits
      under an all-lower-case name: its `constructor` (the `Object`
      function) and its `__proto__` (the object prototype). */
  const InheritedConstructor: string := "function Object() { [native code] }"
  const InheritedProto: string := "[object Object]"

  /** `fullToShort[key.toLowerCase()] || key`, as a property key. */
  function ShortKey(key: string): (r: string)
    ensures forall i :: 0 <= i < 7 && Lower(key) == FullNames[i] ==> r == ShortNames[i]
    ensures Lower(key) !in FullNames && Lower(key) != "constructor" && Lower(key) != "__proto__" ==> r == key
  {
    var lower := Lower(key);
    if lower == "lunedi" then "Lun"
    else if lower == "martedi" then "Mar"
    else if lower == "mercoledi" then "Mer"
    else if lower == "giovedi" then "Gio"
    else if lower == "venerdi" then "Ven"
    else if lower == "sabato" then "Sab"
    else if lower == "domenica" then "Dom"
    else if lower == "constructor" then InheritedConstructor
    else if lower == "__proto__" then InheritedProto
    else key
  }

  /** The `normalized` object after the `forEach` has visited `entries`. */
  function Normalized(entries: seq<(string, Json)>): map<string, Json> {
    if entries == [] then map[]
    else
      var m := Normalized(entries[..|entries| - 1]);
      var e := entries[|entries| - 1];
      if Truthy(e.1) then m[ShortKey(e.0) := e.1] else m
  }

  /** The function's result: a menu, `null`, or the `TypeError` that
      `Object.keys(null)` throws when the text is the JSON literal `null`. */
  datatype Outcome = Menu(days: map<string, Json>) | NoMenu | TypeError

  /** What the function returns; `jsonParse` is `JSON.parse`, `None` where it throws. */
  function NormalizeMenu(raw: Json, jsonParse: string -> Option<Json>): Outcome {
    if !Truthy(raw) then NoMenu
    else
      var parsed := if raw.JStr? then jsonParse(raw.s) else Some(raw);
      if parsed.None? || !IsObjectType(parsed.value) then NoMenu
      else if parsed.value.JNull? then TypeError
      else
        var r := Normalized(Entries(parsed.value));
        if |r| > 0 then Menu(r) else NoMenu
  }

  method NormalizeMenuSettimanale(raw: Json, jsonParse: string -> Option<Json>) returns (o: Outcome)
    ensures o == NormalizeMenu(raw, jsonParse)
  {
    if !Truthy(raw) {
      return NoMenu;
    }
    var menu := raw;
    if raw.JStr? {
      var parsed := jsonParse(raw.s);
      if parsed.None? {
        return NoMenu;
      }
      menu := parsed.value;
    }
    if !IsObjectType(menu) {
      return NoMenu;
    }
    if menu.JNull? {
      return TypeError;
    }
    var entries := Entries(menu);
    var normalized: map<string, Json> := map[];
    for i := 0 to |entries|
      invariant normalized == Normalized(entries[..i])
    {
      assert entries[..i + 1][..i] == entries[..i];
      if Truthy(entries[i].1) {
        normalized := normalized[ShortKey(entries[i].0) := entries[i].1];
      }
    }
    assert entries[..|entries|] == entries;
    if |normalized| > 0 {
      return Menu(normalized);
    }
    return NoMenu;
  }

  // ---------------------------------------------------------------------
  // Properties

  /** Every key of the result is the short key of an entry with a truthy
      value, and it maps to that entry's value. */
  lemma {:induction false} NormalizedSound(entries: seq<(string, Json)>, k: string)
    requires k in Normalized(entries)
    ensures Truthy(Normalized(entries)[k])
    ensures exists i :: 0 <= i < |entries| && ShortKey(entries[i].0) == k && entries[i].1 == Normalized(entries)[k]
    decreases |entries|
  {
    var n := |entries|;
    var init := entries[..n - 1];
    var e := entries[n - 1];
    if Truthy(e.1) && k == ShortKey(e.0) {
      assert ShortKey(entries[n - 1].0) == k;
    } else {
      NormalizedSound(init, k);
      var i :| 0 <= i < |init| && ShortKey(init[i].0) == k && init[i].1 == Normalized(init)[k];
      assert entries[i] == init[i];
    }
  }

  /** Every entry with a truthy value leaves its short key in the result. */
  lemma {:induction false} NormalizedComplete(entries: seq<(string, Json)>, i: int)
    requires 0 <= i < |entries| && Truthy(entries[i].1)
    ensures ShortKey(entries[i].0) in Normalized(entries)
    decreases |entries|
  {
    var n := |entries|;
    if i < n - 1 {
      var init := entries[..n - 1];
      assert init[i] == entries[i];
      NormalizedComplete(init, i);
    }
  }

  /** Entry `i` is the last one with a truthy value for short key `k`. */
  predicate LastFor(entries: seq<(string, Json)>, k: string, i: int) {
    && 0 <= i < |entries| && Truthy(entries[i].1) && ShortKey(entries[i].0) == k
    && forall j :: i < j < |entries| && Truthy(entries[j].1) ==> ShortKey(entries[j].0) != k
  }

  /** The value kept for a short key is that of the last entry with a
      truthy value for it: later entries overwrite earlier ones. */
  lemma {:induction false} LastWriterWins(entries: seq<(string, Json)>, k: string, i: int)
    requires LastFor(entries, k, i)
    ensures k in Normalized(entries) && Normalized(entries)[k] == entries[i].1
    decreases |entries|
  {
    var n := |entries|;
    var init := entries[..n - 1];
    if i < n - 1 {
      assert LastFor(init, k, i) by {
        forall j | i < j < |init| && Truthy(init[j].1) ensures ShortKey(init[j].0) != k {
          assert init[j] == entries[j];
        }
      }
      LastWriterWins(init, k, i);
    }
  }

  /** Two distinct keys of one object, the full name and the short label,
      land on the same label, and the later entry is the one kept. */
  lemma DistinctKeysCollide()
    ensures var es := [("lunedi", JStr("a")), ("Lun", JStr("b"))];
      && es[0].0 != es[1].0
      && "Lun" in Normalized(es) && Normalized(es)["Lun"] == JStr("b")
  {
    var es := [("lunedi", JStr("a")), ("Lun", JStr("b"))];
    assert Lower("lunedi") == "lunedi" && ShortKey("lunedi") == "Lun";
    assert Lower("Lun") == "lun" && ShortKey("Lun") == "Lun";
    assert LastFor(es, "Lun", 1);
    LastWriterWins(es, "Lun", 1);
  }

  /** The result is `null` exactly when no entry has a truthy value. */
  lemma EmptyIffNoTruthyValue(entries: seq<(string, Json)>)
    ensures |Normalized(entries)| == 0 <==> forall i :: 0 <= i < |entries| ==> !Truthy(entries[i].1)
  {
    var m := Normalized(entries);
    if |m| != 0 {
      var k :| k in m;
      NormalizedSound(entries, k);
    }
    if i :| 0 <= i < |entries| && Truthy(entries[i].1) {
      NormalizedComplete(entries, i);
    }
  }

  /** A falsy input, JSON text that does not parse, and a value that is not
      an object all give `null`; the text `null` makes the function throw. */
  lemma NullCases(raw: Json, jsonParse: string -> Option<Json>)
    ensures !Truthy(raw) ==> NormalizeMenu(raw, jsonParse) == NoMenu
    ensures raw.JStr? && raw.s != "" && jsonParse(raw.s).None? ==> NormalizeMenu(raw, jsonParse) == NoMenu
    ensures Truthy(raw) && !raw.JStr? && !IsObjectType(raw) ==> NormalizeMenu(raw, jsonParse) == NoMenu
    ensures raw == JStr("null") && jsonParse("null") == Some(JNull) ==> NormalizeMenu(raw, jsonParse) == TypeError
  {
  }

  /** Full weekday names in any case become the short labels, falsy values
      are dropped, and other keys pass through unchanged. */
  lemma ExampleMenu(jsonParse: string -> Option<Json>)
    ensures NormalizeMenu(JObj([("LUNEDI", JStr("Pasta")), ("Martedi", JStr("")), ("Extra", JNum(1))]), jsonParse)
         == Menu(map["Lun" := JStr("Pasta"), "Extra" := JNum(1)])
  {
    var es := [("LUNEDI", JStr("Pasta")), ("Martedi", JStr("")), ("Extra", JNum(1))];
    assert Lower("LUNEDI") == "lunedi" && ShortKey("LUNEDI") == "Lun";
    assert Lower("Extra") == "extra" && ShortKey("Extra") == "Extra";
    assert es[..2][..1][..0] == [];
    assert es[..2][..1] == [("LUNEDI", JStr("Pasta"))];
    assert Normalized(es[..2][..1]) == map["Lun" := JStr("Pasta")];
    assert es[..2] == [("LUNEDI", JStr("Pasta")), ("Martedi", JStr(""))];
    assert Normalized(es[..2]) == map["Lun" := JStr("Pasta")];
    assert Normalized(es) == map["Lun" := JStr("Pasta"), "Extra" := JNum(1)];
  }
}
