/**
 * The translation store: locale configurations and a two-level table from
 * locale code to translation key to Translation, filled one entry at a time
 * or by flattening a nested tree of translation data into dotted keys.
 */
module Store {
  import opened Wrappers
  import Decimal

  /** A scalar of the translation data or of a parameter, as `str()` renders it. */
  datatype Scalar = Str(s: string) | Int(i: int) | Bool(b: bool) | Null {
    function Show(): string {
      match this
      case Str(s) => s
      case Int(i) => Decimal.IntToDecimal(i)
      case Bool(b) => if b then "True" else "False"
      case Null => "None"
    }
  }

  /** Nested translation data: a scalar, or a mapping whose members keep their order. */
  datatype Json = Leaf(scalar: Scalar) | Object(members: seq<Member>)
  datatype Member = Member(key: string, value: Json)

  /** Grammatical-number categories. */
  datatype PluralForm = Zero | One | Two | Few | Many | Other {
    function Name(): string {
      match this
      case Zero => "zero"
      case One => "one"
      case Two => "two"
      case Few => "few"
      case Many => "many"
      case Other => "other"
    }
  }

  /** Formatting conventions of one locale. */
  datatype Locale = Locale(
    code: string,
    name: string,
    nativeName: string,
    direction: string,
    dateFormat: string,
    timeFormat: string,
    numberDecimal: string,
    numberThousand: string,
    currencySymbol: string,
    currencyPosition: string,
    pluralRule: Option<int -> PluralForm>)

  /** A locale with every convention at its default value. */
  function NewLocale(code: string, name: string, nativeName: string): Locale {
    Locale(code, name, nativeName, "ltr", "YYYY-MM-DD", "HH:mm:ss", ".", ",", "$", "before", None)
  }

  /** The locales every store starts with, in registration order. */
  function DefaultLocales(): seq<Locale> {
    [ NewLocale("en-US", "English (US)", "English").(currencySymbol := "$"),
      NewLocale("en-GB", "English (UK)", "English").(dateFormat := "DD/MM/YYYY", currencySymbol := "£"),
      NewLocale("es-ES", "Spanish", "Español").(
        numberDecimal := ",", numberThousand := ".", currencySymbol := "€", currencyPosition := "after"),
      NewLocale("fr-FR", "French", "Français").(
        dateFormat := "DD/MM/YYYY", numberDecimal := ",", numberThousand := " ",
        currencySymbol := "€", currencyPosition := "after"),
      NewLocale("de-DE", "German", "Deutsch").(
        dateFormat := "DD.MM.YYYY", numberDecimal := ",", numberThousand := ".",
        currencySymbol := "€", currencyPosition := "after"),
      NewLocale("ja-JP", "Japanese", "日本語").(dateFormat := "YYYY年MM月DD日", currencySymbol := "¥"),
      NewLocale("ar-SA", "Arabic", "العربية").(direction := "rtl", currencySymbol := "﷼") ]
  }

  /** The locale table after registering `ls` in order. */
  function Registered(ls: seq<Locale>): map<string, Locale> {
    if ls == [] then map[] else Registered(ls[..|ls| - 1])[ls[|ls| - 1].code := ls[|ls| - 1]]
  }

  /** A locale registered after every other one with its code is the one the table keeps. */
  lemma {:induction false} RegisteredKeepsLast(ls: seq<Locale>, i: nat)
    requires i < |ls|
    requires forall j | i < j < |ls| :: ls[j].code != ls[i].code
    ensures ls[i].code in Registered(ls) && Registered(ls)[ls[i].code] == ls[i]
  {
    if i < |ls| - 1 {
      RegisteredKeepsLast(ls[..|ls| - 1], i);
    }
  }

  /**
   * One key's text for one locale. `value` and the plural variants hold the
   * data as loaded: a plural bundle's members are kept as they were given.
   */
  datatype Translation = Translation(key: string, locale: string, value: Json, pluralForms: map<string, Json>)

  type Table = map<string, map<string, Translation>>

  /** `translations.get(locale, {}).get(key)`. */
  function Lookup(table: Table, locale: string, key: string): (r: Option<Translation>)
    ensures r.Some? <==> locale in table && key in table[locale]
    ensures r.Some? ==> r.value == table[locale][key]
  {
    var entries := if locale in table then table[locale] else map[];
    if key in entries then Some(entries[key]) else None
  }

  /** The table after `add_translation(t)`. */
  function Put(table: Table, t: Translation): Table {
    var entries := if t.locale in table then table[t.locale] else map[];
    table[t.locale := entries[t.key := t]]
  }

  /** The table after `add_locale` for `code`: a key map is created only when missing. */
  function WithLocale(table: Table, code: string): Table {
    if code in table then table else table[code := map[]]
  }

  /** The table after adding `ts` in order. */
  function PutAll(table: Table, ts: seq<Translation>): Table {
    if ts == [] then table else Put(PutAll(table, ts[..|ts| - 1]), ts[|ts| - 1])
  }

  /** `t` is filed under `(locale, key)`. */
  predicate FiledUnder(t: Translation, locale: string, key: string) {
    t.locale == locale && t.key == key
  }

  /** `ts[i]` is filed under `(locale, key)` and no later element is. */
  predicate IsLastWrite(ts: seq<Translation>, i: int, locale: string, key: string) {
    0 <= i < |ts| && FiledUnder(ts[i], locale, key)
    && forall j :: i < j < |ts| ==> !FiledUnder(ts[j], locale, key)
  }

  /** The last of `ts` filed under `(locale, key)`, if any. */
  function LastWrite(ts: seq<Translation>, locale: string, key: string): (r: Option<Translation>)
    ensures r.None? <==> forall i :: 0 <= i < |ts| ==> !FiledUnder(ts[i], locale, key)
    ensures r.Some? ==> exists i :: IsLastWrite(ts, i, locale, key) && ts[i] == r.value
  {
    if ts == [] then None
    else if FiledUnder(ts[|ts| - 1], locale, key) then
      assert IsLastWrite(ts, |ts| - 1, locale, key);
      Some(ts[|ts| - 1])
    else
      var r := LastWrite(ts[..|ts| - 1], locale, key);
      assert r.Some? ==> exists i :: IsLastWrite(ts, i, locale, key) && ts[i] == r.value by {
        if r.Some? {
          var i :| IsLastWrite(ts[..|ts| - 1], i, locale, key) && ts[..|ts| - 1][i] == r.value;
          LastWriteExtends(ts, i, locale, key);
        }
      }
      assert r.None? ==> forall i :: 0 <= i < |ts| ==> !FiledUnder(ts[i], locale, key) by {
        if r.None? {
          forall i | 0 <= i < |ts| ensures !FiledUnder(ts[i], locale, key) {
            if i < |ts| - 1 {
              assert ts[i] == ts[..|ts| - 1][i];
            }
          }
        }
      }
      r
  }

  /** The last write of a batch stays the last write when a non-matching element follows. */
  lemma LastWriteExtends(ts: seq<Translation>, i: int, locale: string, key: string)
    requires ts != [] && !FiledUnder(ts[|ts| - 1], locale, key)
    requires IsLastWrite(ts[..|ts| - 1], i, locale, key)
    ensures IsLastWrite(ts, i, locale, key) && ts[i] == ts[..|ts| - 1][i]
  {
    forall j | i < j < |ts| ensures !FiledUnder(ts[j], locale, key) {
      if j < |ts| - 1 {
        assert ts[j] == ts[..|ts| - 1][j];
      }
    }
  }

  /** After `add_translation(t)` the entry for `t` is `t` (last write wins). */
  lemma PutThenLookup(table: Table, t: Translation)
    ensures Lookup(Put(table, t), t.locale, t.key) == Some(t)
  {
  }

  /** `add_translation(t)` leaves every other `(locale, key)` entry as it was. */
  lemma PutKeepsOthers(table: Table, t: Translation, locale: string, key: string)
    requires locale != t.locale || key != t.key
    ensures Lookup(Put(table, t), locale, key) == Lookup(table, locale, key)
  {
  }

  /** `add_locale` never removes or changes a translation. */
  lemma WithLocaleKeepsEntries(table: Table, code: string, locale: string, key: string)
    ensures Lookup(WithLocale(table, code), locale, key) == Lookup(table, locale, key)
    ensures code in WithLocale(table, code)
  {
  }

  lemma {:induction false} PutAllAppend(table: Table, a: seq<Translation>, b: seq<Translation>)
    ensures PutAll(table, a + b) == PutAll(PutAll(table, a), b)
    decreases |b|
  {
    if b == [] {
      assert a + b == a;
    } else {
      var b' := b[..|b| - 1];
      assert (a + b)[..|a + b| - 1] == a + b';
      assert (a + b)[|a + b| - 1] == b[|b| - 1];
      PutAllAppend(table, a, b');
    }
  }

  /**
   * After a batch of additions each entry is the last write to it, and an
   * entry the batch does not touch keeps its old value.
   */
  lemma {:induction false} LookupPutAll(table: Table, ts: seq<Translation>, locale: string, key: string)
    ensures Lookup(PutAll(table, ts), locale, key)
         == if LastWrite(ts, locale, key).Some? then LastWrite(ts, locale, key) else Lookup(table, locale, key)
  {
    if ts != [] {
      var t := ts[|ts| - 1];
      LookupPutAll(table, ts[..|ts| - 1], locale, key);
      if t.locale == locale && t.key == key {
        PutThenLookup(PutAll(table, ts[..|ts| - 1]), t);
      } else {
        PutKeepsOthers(PutAll(table, ts[..|ts| - 1]), t, locale, key);
      }
    }
  }

  /** The dotted key: `f"{prefix}.{key}" if prefix else key`. */
  function JoinKey(prefix: string, key: string): string {
    if prefix == "" then key else prefix + "." + key
  }

  /** `ms[i]` is the last member with its key. */
  predicate LastOfKey(ms: seq<Member>, i: int) {
    0 <= i < |ms| && forall j :: i < j < |ms| ==> ms[j].key != ms[i].key
  }

  /** The members as a Python dict: a later member with the same key wins. */
  function ToDict(ms: seq<Member>): (d: map<string, Json>)
    ensures forall k :: k in d <==> exists i :: 0 <= i < |ms| && ms[i].key == k
    ensures forall i | LastOfKey(ms, i) :: d[ms[i].key] == ms[i].value
  {
    if ms == [] then map[]
    else
      var init, last := ms[..|ms| - 1], ms[|ms| - 1];
      var d := ToDict(init)[last.key := last.value];
      DictKeysExtend(ms, init, ToDict(init), d);
      DictValuesExtend(ms, init, ToDict(init), d);
      d
  }

  /** Adding the last member to the dict of the others adds its key. */
  lemma DictKeysExtend(ms: seq<Member>, init: seq<Member>, prev: map<string, Json>, d: map<string, Json>)
    requires ms != [] && init == ms[..|ms| - 1] && d == prev[ms[|ms| - 1].key := ms[|ms| - 1].value]
    requires forall k :: k in prev <==> exists i :: 0 <= i < |init| && init[i].key == k
    ensures forall k :: k in d <==> exists i :: 0 <= i < |ms| && ms[i].key == k
  {
    assert forall i :: 0 <= i < |init| ==> init[i] == ms[i];
  }

  /** Adding the last member to the dict of the others keeps every last member's value. */
  lemma DictValuesExtend(ms: seq<Member>, init: seq<Member>, prev: map<string, Json>, d: map<string, Json>)
    requires ms != [] && init == ms[..|ms| - 1] && d == prev[ms[|ms| - 1].key := ms[|ms| - 1].value]
    requires forall k :: k in prev <==> exists i :: 0 <= i < |init| && init[i].key == k
    requires forall i | LastOfKey(init, i) :: prev[init[i].key] == init[i].value
    ensures forall i | LastOfKey(ms, i) :: ms[i].key in d && d[ms[i].key] == ms[i].value
  {
    var n := |ms| - 1;
    forall i | LastOfKey(ms, i)
      ensures ms[i].key in d && d[ms[i].key] == ms[i].value
    {
      if i < n {
        assert ms[n].key != ms[i].key;
        assert init[i] == ms[i];
        forall j | i < j < n ensures init[j].key != init[i].key {
          assert init[j] == ms[j];
        }
        assert LastOfKey(init, i);
        assert ms[i].key in prev && prev[ms[i].key] == ms[i].value;
      } else {
        assert ms[i] == ms[n];
      }
    }
  }

  /** A mapping with a `"one"` or an `"other"` member is a plural bundle. */
  predicate IsPluralBundle(ms: seq<Member>) {
    var d := ToDict(ms);
    "one" in d || "other" in d
  }

  /** The Translation stored for a plural bundle: `value` is its `"other"` member, or `""`. */
  function BundleTranslation(locale: string, fullKey: string, ms: seq<Member>): Translation {
    var d := ToDict(ms);
    Translation(fullKey, locale, if "other" in d then d["other"] else Leaf(Str("")), d)
  }

  /**
   * The Translations one member of the data yields, in the order they are
   * added: each is filed under the loading locale and, under a non-empty
   * prefix, under a key that is the prefix followed by a dot.
   */
  function FlattenMember(locale: string, prefix: string, key: string, value: Json): (r: seq<Translation>)
    ensures forall t <- r :: t.locale == locale && (prefix != "" ==> StartsWithDot(t.key, prefix))
    decreases value
  {
    var fullKey := JoinKey(prefix, key);
    match value
    case Leaf(s) => [Translation(fullKey, locale, Leaf(Str(s.Show())), map[])]
    case Object(ms) =>
      if IsPluralBundle(ms) then [BundleTranslation(locale, fullKey, ms)]
      else
        var r := Flatten(locale, ms, fullKey);
        assert forall t <- r :: prefix != "" ==> StartsWithDot(t.key, prefix) by {
          forall t <- r | prefix != "" ensures StartsWithDot(t.key, prefix) {
            DotPrefixShortens(t.key, prefix, key);
          }
        }
        r
  }

  /** The Translations `load_json(locale, data, prefix)` adds, in order, with the same shape. */
  function Flatten(locale: string, data: seq<Member>, prefix: string): (r: seq<Translation>)
    ensures forall t <- r :: t.locale == locale && (prefix != "" ==> StartsWithDot(t.key, prefix))
    decreases data
  {
    if data == [] then []
    else
      var last := data[|data| - 1];
      Flatten(locale, data[..|data| - 1], prefix) + FlattenMember(locale, prefix, last.key, last.value)
  }

  /** A key under `prefix.key.` is also under `prefix.`. */
  lemma DotPrefixShortens(k: string, prefix: string, key: string)
    requires prefix != "" && StartsWithDot(k, JoinKey(prefix, key))
    ensures StartsWithDot(k, prefix)
  {
    var fullKey := JoinKey(prefix, key);
    assert k[..|fullKey| + 1][..|prefix| + 1] == k[..|prefix| + 1];
  }

  /** Leaves of the data: a scalar or a plural bundle is one, a nested mapping the sum of its own. */
  function MemberLeaves(value: Json): nat
    decreases value
  {
    match value
    case Leaf(_) => 1
    case Object(ms) => if IsPluralBundle(ms) then 1 else Leaves(ms)
  }

  function Leaves(data: seq<Member>): nat
    decreases data
  {
    if data == [] then 0
    else Leaves(data[..|data| - 1]) + MemberLeaves(data[|data| - 1].value)
  }

  /** The count `load_json` returns is the number of leaves of the data. */
  lemma {:induction false} FlattenMemberCount(locale: string, prefix: string, key: string, value: Json)
    ensures |FlattenMember(locale, prefix, key, value)| == MemberLeaves(value)
    decreases value
  {
    match value
    case Leaf(_) =>
    case Object(ms) =>
      if !IsPluralBundle(ms) {
        FlattenCount(locale, ms, JoinKey(prefix, key));
      }
  }

  lemma {:induction false} FlattenCount(locale: string, data: seq<Member>, prefix: string)
    ensures |Flatten(locale, data, prefix)| == Leaves(data)
    decreases data
  {
    if data != [] {
      var last := data[|data| - 1];
      FlattenCount(locale, data[..|data| - 1], prefix);
      FlattenMemberCount(locale, prefix, last.key, last.value);
    }
  }

  /** `key` begins with `prefix` and a dot. */
  predicate StartsWithDot(key: string, prefix: string) {
    |prefix| + 1 <= |key| && key[..|prefix| + 1] == prefix + "."
  }

  /**
   * A plural bundle is stored whole as one Translation and not descended
   * into. Its plural variants are the bundle's members, a later member
   * winning over an earlier one with the same key; its value is the last
   * `"other"` member, or `""` when there is none.
   */
  lemma BundleIsOneTranslation(locale: string, prefix: string, key: string, ms: seq<Member>)
    requires IsPluralBundle(ms)
    ensures var r := FlattenMember(locale, prefix, key, Object(ms));
      |r| == 1 && r[0].key == JoinKey(prefix, key) && r[0].locale == locale
      && r[0].pluralForms != map[]
      && (forall k :: k in r[0].pluralForms <==> exists i :: 0 <= i < |ms| && ms[i].key == k)
      && (forall i | LastOfKey(ms, i) :: r[0].pluralForms[ms[i].key] == ms[i].value)
      && (forall i | LastOfKey(ms, i) && ms[i].key == "other" :: r[0].value == ms[i].value)
      && ((forall i :: 0 <= i < |ms| ==> ms[i].key != "other") ==> r[0].value == Leaf(Str("")))
  {
  }

  /** `{"a": {"b": "x"}}` loads as the single key `"a.b"` with value `"x"`. */
  lemma FlattenNestedExample(locale: string)
    ensures Flatten(locale, [Member("a", Object([Member("b", Leaf(Str("x")))]))], "")
         == [Translation("a.b", locale, Leaf(Str("x")), map[])]
  {
    var inner := [Member("b", Leaf(Str("x")))];
    var outer := [Member("a", Object(inner))];
    assert inner[..0] == [] && outer[..0] == [];
    assert !IsPluralBundle(inner) by {
      assert ToDict(inner) == map["b" := Leaf(Str("x"))];
    }
    calc {
      Flatten(locale, outer, "");
      Flatten(locale, [], "") + FlattenMember(locale, "", "a", Object(inner));
      FlattenMember(locale, "", "a", Object(inner));
      Flatten(locale, inner, "a");
      Flatten(locale, [], "a") + FlattenMember(locale, "a", "b", Leaf(Str("x")));
      { assert JoinKey("a", "b") == "a.b"; }
      [Translation("a.b", locale, Leaf(Str("x")), map[])];
    }
  }

  /** Locales and translations, updated in place. */
  class TranslationStore {
    var translations: Table
    var locales: map<string, Locale>

    /** A store holding the default locales, each with an empty key map. */
    constructor ()
      ensures locales == Registered(DefaultLocales())
      ensures translations == map code | code in locales :: map[]
    {
      translations := map[];
      locales := map[];
      new;
      var defaults := DefaultLocales();
      for i := 0 to |defaults|
        invariant locales == Registered(defaults[..i])
        invariant translations == map code | code in locales :: map[]
      {
        AddLocale(defaults[i]);
        assert defaults[..i + 1][..i] == defaults[..i];
      }
      assert defaults[..|defaults|] == defaults;
    }

    /** `add_locale`: registers or replaces the locale; its key map is created only when missing. */
    method AddLocale(locale: Locale)
      modifies this
      ensures locales == old(locales)[locale.code := locale]
      ensures translations == WithLocale(old(translations), locale.code)
    {
      locales := locales[locale.code := locale];
      if locale.code !in translations {
        translations := translations[locale.code := map[]];
      }
    }

    /** `get_locale`. */
    function GetLocale(code: string): (r: Option<Locale>)
      reads this
      ensures r.Some? <==> code in locales
      ensures r.Some? ==> r.value == locales[code]
    {
      if code in locales then Some(locales[code]) else None
    }

    /** `add_translation`: files `t` under its locale and key, overwriting what was there. */
    method AddTranslation(t: Translation)
      modifies this
      ensures translations == Put(old(translations), t)
      ensures locales == old(locales)
    {
      var entries := if t.locale in translations then translations[t.locale] else map[];
      translations := translations[t.locale := entries[t.key := t]];
    }

    /** `get_translation`: the entry filed under the locale and key, absent when either is missing. */
    function GetTranslation(locale: string, key: string): (r: Option<Translation>)
      reads this
      ensures r.Some? <==> locale in translations && key in translations[locale]
      ensures r.Some? ==> r.value == translations[locale][key]
    {
      Lookup(translations, locale, key)
    }

    /** `load_json`: adds the flattened data and returns how many Translations it added. */
    method LoadJson(locale: string, data: seq<Member>, prefix: string) returns (count: nat)
      modifies this
      ensures translations == PutAll(old(translations), Flatten(locale, data, prefix))
      ensures count == |Flatten(locale, data, prefix)|
      ensures locales == old(locales)
      decreases data
    {
      count := 0;
      for i := 0 to |data|
        invariant translations == PutAll(old(translations), Flatten(locale, data[..i], prefix))
        invariant count == |Flatten(locale, data[..i], prefix)|
        invariant locales == old(locales)
      {
        var member := data[i];
        var fullKey := JoinKey(prefix, member.key);
        ghost var before := translations;
        match member.value {
          case Object(ms) =>
            if IsPluralBundle(ms) {
              AddTranslation(BundleTranslation(locale, fullKey, ms));
              count := count + 1;
            } else {
              var added := LoadJson(locale, ms, fullKey);
              count := count + added;
            }
          case Leaf(s) =>
            AddTranslation(Translation(fullKey, locale, Leaf(Str(s.Show())), map[]));
            count := count + 1;
        }
        ghost var batch := FlattenMember(locale, prefix, member.key, member.value);
        assert data[..i + 1][..i] == data[..i];
        assert Flatten(locale, data[..i + 1], prefix) == Flatten(locale, data[..i], prefix) + batch;
        PutAllAppend(old(translations), Flatten(locale, data[..i], prefix), batch);
        assert translations == PutAll(before, batch) by {
          if member.value.Leaf? || IsPluralBundle(member.value.members) {
            assert batch[..0] == [];
          }
        }
      }
      assert data[..|data|] == data;
    }
  }
}
