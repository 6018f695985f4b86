/**
 * Key resolution: the candidate locales `[locale] + fallback + [default]`,
 * the first one holding the key, plural selection, and single-pass
 * `{{name}}` interpolation.
 */
module Translator {
  import opened Wrappers
  import opened Store
  import Decimal

  // ---------------------------------------------------------------------------
  // Interpolation: `re.sub(r'\{\{(\w+)\}\}', ...)`

  /** A word character of the placeholder pattern (ASCII letters, digits and `_`). */
  predicate IsWordChar(c: char) {
    ('a' <= c <= 'z') || ('A' <= c <= 'Z') || ('0' <= c <= '9') || c == '_'
  }

  predicate IsName(s: string) {
    |s| > 0 && forall i :: 0 <= i < |s| ==> IsWordChar(s[i])
  }

  /** Length of the longest run of word characters at the start of `s`. */
  function WordRun(s: string): (n: nat)
    ensures n <= |s|
    ensures forall i :: 0 <= i < n ==> IsWordChar(s[i])
    ensures n < |s| ==> !IsWordChar(s[n])
  {
    if s == [] || !IsWordChar(s[0]) then 0 else 1 + WordRun(s[1..])
  }

  /**
   * The length of the name when `s` starts with a placeholder `{{name}}`,
   * and 0 when it does not. `}` is not a word character, so the only run
   * the pattern can close is the longest one.
   */
  function PlaceholderAt(s: string): (n: nat)
    ensures n > 0 ==> n + 4 <= |s| && s[..2] == "{{" && IsName(s[2..n + 2]) && s[n + 2..n + 4] == "}}"
  {
    if 2 <= |s| && s[0] == '{' && s[1] == '{' then
      var n := WordRun(s[2..]);
      if 0 < n && n + 4 <= |s| && s[n + 2] == '}' && s[n + 3] == '}' then n else 0
    else 0
  }

  /**
   * `_interpolate`: each placeholder whose name is a parameter becomes the
   * parameter's text, any other placeholder stays as written, and the scan
   * resumes after the placeholder, so substituted text is never rescanned.
   * With no parameters every placeholder stays, so the text comes back as it was.
   */
  function Interpolate(text: string, params: map<string, Scalar>): (r: string)
    ensures params == map[] ==> r == text
    decreases |text|
  {
    if text == [] then []
    else
      var n := PlaceholderAt(text);
      if n > 0 then
        var name := text[2..n + 2];
        SplitJoin(text, n + 4);
        (if name in params then params[name].Show() else text[..n + 4]) + Interpolate(text[n + 4..], params)
      else
        SplitJoin(text, 1);
        [text[0]] + Interpolate(text[1..], params)
  }

  lemma SplitJoin(s: string, k: nat)
    requires k <= |s|
    ensures s[..k] + s[k..] == s
    ensures k == 1 ==> [s[0]] + s[1..] == s
  {
    if k == 1 {
      assert s[..1] == [s[0]];
    }
  }

  lemma {:induction false} WordRunOfName(name: string, rest: string)
    requires IsName(name) || name == []
    requires rest == [] || !IsWordChar(rest[0])
    ensures WordRun(name + rest) == |name|
  {
    if name == [] {
      assert name + rest == rest;
    } else {
      assert (name + rest)[1..] == name[1..] + rest;
      WordRunOfName(name[1..], rest);
    }
  }

  /** The placeholder `{{name}}` at the front of a text is recognised with exactly that name. */
  lemma PlaceholderAtName(name: string, rest: string)
    requires IsName(name)
    ensures PlaceholderAt("{{" + name + "}}" + rest) == |name|
  {
    var s := "{{" + name + "}}" + rest;
    assert s[2..] == name + ("}}" + rest);
    WordRunOfName(name, "}}" + rest);
  }

  /**
   * A placeholder at the front is replaced by its parameter, or kept verbatim
   * when there is none, and the rest is interpolated on its own.
   */
  lemma InterpolatePlaceholder(name: string, rest: string, params: map<string, Scalar>)
    requires IsName(name)
    ensures Interpolate("{{" + name + "}}" + rest, params)
         == (if name in params then params[name].Show() else "{{" + name + "}}") + Interpolate(rest, params)
  {
    var s := "{{" + name + "}}" + rest;
    var n := |name|;
    PlaceholderAtName(name, rest);
    assert s[2..n + 2] == name;
    assert s[..n + 4] == "{{" + name + "}}";
    assert s[n + 4..] == rest;
  }

  /** Where no placeholder starts, the first character is copied. */
  lemma InterpolateOther(s: string, params: map<string, Scalar>)
    requires s != [] && PlaceholderAt(s) == 0
    ensures Interpolate(s, params) == [s[0]] + Interpolate(s[1..], params)
  {
  }

  lemma InterpolateHead(plain: string, rest: string, params: map<string, Scalar>)
    requires plain != [] && plain[0] != '{'
    ensures Interpolate(plain + rest, params) == [plain[0]] + Interpolate(plain[1..] + rest, params)
  {
    var s := plain + rest;
    assert s[0] == plain[0] && s[1..] == plain[1..] + rest;
    assert PlaceholderAt(s) == 0;
    InterpolateOther(s, params);
  }

  lemma ConsPrefix(plain: string, x: string)
    requires plain != []
    ensures [plain[0]] + (plain[1..] + x) == plain + x
  {
    assert [plain[0]] + plain[1..] == plain;
  }

  /** Text without `{` passes through, and what follows it is interpolated on its own. */
  lemma {:induction false} InterpolatePlainPrefix(plain: string, rest: string, params: map<string, Scalar>)
    requires '{' !in plain
    ensures Interpolate(plain + rest, params) == plain + Interpolate(rest, params)
  {
    if plain == [] {
      assert plain + rest == rest;
    } else {
      InterpolateHead(plain, rest, params);
      InterpolatePlainPrefix(plain[1..], rest, params);
      ConsPrefix(plain, Interpolate(rest, params));
    }
  }

  /** A text with one placeholder whose parameter is given reads with the parameter's text in its place. */
  lemma InterpolateOnePlaceholder(before: string, name: string, after: string, params: map<string, Scalar>)
    requires '{' !in before && '{' !in after && IsName(name) && name in params
    ensures Interpolate(before + ("{{" + name + "}}" + after), params) == before + params[name].Show() + after
  {
    var tail := "{{" + name + "}}" + after;
    InterpolatePlainPrefix(after, [], params);
    assert after + [] == after;
    InterpolatePlaceholder(name, after, params);
    InterpolatePlainPrefix(before, tail, params);
  }

  /** A parameter whose text contains a placeholder is inserted verbatim, not expanded again. */
  lemma InterpolateDoesNotRescan()
    ensures Interpolate("{{a}}", map["a" := Str("{{b}}"), "b" := Str("x")]) == "{{b}}"
  {
    var p := map["a" := Str("{{b}}"), "b" := Str("x")];
    assert "{{a}}" == "{{" + "a" + "}}" + [];
    InterpolatePlaceholder("a", [], p);
  }

  // ---------------------------------------------------------------------------
  // Plural selection

  /** The default English-like rule. */
  function DefaultPluralForm(count: int): (f: PluralForm)
    ensures f == Zero <==> count == 0
    ensures f == One <==> count == 1
    ensures f == Other <==> count != 0 && count != 1
  {
    if count == 0 then Zero else if count == 1 then One else Other
  }

  /**
   * `_get_plural_form`: the registered locale's own rule when it has one,
   * else the default rule.
   */
  function PluralFormFor(locales: map<string, Locale>, locale: string, count: int): (f: PluralForm)
    ensures locale in locales && locales[locale].pluralRule.Some? ==> f == locales[locale].pluralRule.value(count)
    ensures !(locale in locales && locales[locale].pluralRule.Some?) ==>
      (f == Zero <==> count == 0) && (f == One <==> count == 1) && (f == Other <==> count != 0 && count != 1)
  {
    if locale in locales && locales[locale].pluralRule.Some? then locales[locale].pluralRule.value(count)
    else DefaultPluralForm(count)
  }

  /**
   * The text a plural lookup reads: the variant named after the form, else
   * the `"other"` variant, else the plain value.
   */
  function PluralText(t: Translation, form: PluralForm): (r: Json)
    ensures r == t.value || r in t.pluralForms.Values
    ensures form.Name() in t.pluralForms ==> r == t.pluralForms[form.Name()]
    ensures form.Name() !in t.pluralForms && "other" in t.pluralForms ==> r == t.pluralForms["other"]
    ensures form.Name() !in t.pluralForms && "other" !in t.pluralForms ==> r == t.value
  {
    var forms := t.pluralForms;
    if form.Name() in forms then forms[form.Name()]
    else if "other" in forms then forms["other"]
    else t.value
  }

  // ---------------------------------------------------------------------------
  // Resolution

  /** Interpolation succeeds only on string text; `re.sub` raises a TypeError on anything else. */
  datatype Error = TypeError(text: Json)

  function InterpolateText(text: Json, params: map<string, Scalar>): Result<string, Error> {
    if text.Leaf? && text.scalar.Str? then Success(Interpolate(text.scalar.s, params))
    else Failure(TypeError(text))
  }

  /** `locale or default_locale`: an absent or empty locale means the default one. */
  function EffectiveLocale(locale: Option<string>, defaultLocale: string): string {
    if locale.Some? && locale.value != "" then locale.value else defaultLocale
  }

  /** `[locale] + fallback_chain.get(locale, []) + [default_locale]`. */
  function Candidates(locale: string, chain: map<string, seq<string>>, defaultLocale: string): seq<string> {
    [locale] + (if locale in chain then chain[locale] else []) + [defaultLocale]
  }

  /** The first candidate holding `key`, with its Translation. */
  function FirstHit(table: Table, candidates: seq<string>, key: string): Option<(string, Translation)> {
    if candidates == [] then None
    else
      var hit := Lookup(table, candidates[0], key);
      if hit.Some? then Some((candidates[0], hit.value)) else FirstHit(table, candidates[1..], key)
  }

  /** The text of the Translation found under `hitLocale`, interpolated. */
  function Render(locales: map<string, Locale>, hitLocale: string, t: Translation,
                  params: map<string, Scalar>, count: Option<int>): Result<string, Error>
  {
    if count.Some? && t.pluralForms != map[] then
      var form := PluralFormFor(locales, hitLocale, count.value);
      InterpolateText(PluralText(t, form), params["count" := Int(count.value)])
    else
      InterpolateText(t.value, params)
  }

  /** What `translate(key, locale, params, count, default)` returns (or the error it raises). */
  function Translated(table: Table, locales: map<string, Locale>, defaultLocale: string,
                      chain: map<string, seq<string>>, key: string, locale: Option<string>,
                      params: map<string, Scalar>, count: Option<int>, default: Option<string>): Result<string, Error>
  {
    var candidates := Candidates(EffectiveLocale(locale, defaultLocale), chain, defaultLocale);
    match FirstHit(table, candidates, key)
    case Some((hitLocale, t)) => Render(locales, hitLocale, t, params, count)
    case None => Success(if default.Some? then default.value else key)
  }

  /**
   * The first hit is the earliest candidate holding the key, and there is no
   * hit exactly when no candidate holds it.
   */
  lemma {:induction false} FirstHitIsEarliest(table: Table, candidates: seq<string>, key: string)
    ensures FirstHit(table, candidates, key).None?
        <==> forall i :: 0 <= i < |candidates| ==> Lookup(table, candidates[i], key).None?
    ensures FirstHit(table, candidates, key).Some? ==>
      exists i :: 0 <= i < |candidates|
        && (forall j :: 0 <= j < i ==> Lookup(table, candidates[j], key).None?)
        && Lookup(table, candidates[i], key) == Some(FirstHit(table, candidates, key).value.1)
        && candidates[i] == FirstHit(table, candidates, key).value.0
  {
    if candidates != [] {
      FirstHitIsEarliest(table, candidates[1..], key);
      if Lookup(table, candidates[0], key).None? && FirstHit(table, candidates[1..], key).Some? {
        var i :| 0 <= i < |candidates[1..]|
          && (forall j :: 0 <= j < i ==> Lookup(table, candidates[1..][j], key).None?)
          && Lookup(table, candidates[1..][i], key) == Some(FirstHit(table, candidates[1..], key).value.1)
          && candidates[1..][i] == FirstHit(table, candidates[1..], key).value.0;
        assert forall j :: 0 <= j < i + 1 ==> Lookup(table, candidates[j], key).None? by {
          forall j | 0 <= j < i + 1 ensures Lookup(table, candidates[j], key).None? {
            if j > 0 { assert candidates[j] == candidates[1..][j - 1]; }
          }
        }
      }
    }
  }

  /** A key held by the requested locale itself is resolved from that locale. */
  lemma ExactLocaleWins(table: Table, locales: map<string, Locale>, defaultLocale: string,
                        chain: map<string, seq<string>>, key: string, locale: string,
                        params: map<string, Scalar>, count: Option<int>, default: Option<string>)
    requires locale != ""
    requires Lookup(table, locale, key).Some?
    ensures Translated(table, locales, defaultLocale, chain, key, Some(locale), params, count, default)
         == Render(locales, locale, Lookup(table, locale, key).value, params, count)
  {
  }

  /**
   * When the requested locale lacks the key, the fallback chain is searched
   * in order before the default locale.
   */
  lemma FallbackBeforeDefault(table: Table, locales: map<string, Locale>, defaultLocale: string,
                              chain: map<string, seq<string>>, key: string, locale: string,
                              params: map<string, Scalar>, count: Option<int>, default: Option<string>)
    requires locale != "" && locale in chain
    requires Lookup(table, locale, key).None?
    ensures Translated(table, locales, defaultLocale, chain, key, Some(locale), params, count, default)
         == match FirstHit(table, chain[locale] + [defaultLocale], key)
            case Some((hitLocale, t)) => Render(locales, hitLocale, t, params, count)
            case None => Success(if default.Some? then default.value else key)
  {
    var candidates := Candidates(locale, chain, defaultLocale);
    assert candidates[1..] == chain[locale] + [defaultLocale];
  }

  /** No candidate holds the key: the result is `default` when given, else the key itself. */
  lemma MissingKeyYieldsDefaultOrKey(table: Table, locales: map<string, Locale>, defaultLocale: string,
                                     chain: map<string, seq<string>>, key: string, locale: Option<string>,
                                     params: map<string, Scalar>, count: Option<int>, default: Option<string>)
    requires forall c <- Candidates(EffectiveLocale(locale, defaultLocale), chain, defaultLocale) ::
      Lookup(table, c, key).None?
    ensures Translated(table, locales, defaultLocale, chain, key, locale, params, count, default)
         == Success(if default.Some? then default.value else key)
  {
    var candidates := Candidates(EffectiveLocale(locale, defaultLocale), chain, defaultLocale);
    FirstHitIsEarliest(table, candidates, key);
    assert forall i :: 0 <= i < |candidates| ==> candidates[i] in candidates;
  }

  /**
   * With the default rule, a count is rendered from `"one"` when it is 1 and
   * the variant exists, from `"zero"` likewise for 0, else from `"other"`,
   * else from the plain value; `count` is available to the text as a
   * parameter. A Translation without plural variants renders its value with
   * the parameters as given.
   */
  lemma DefaultPluralSelection(locales: map<string, Locale>, hitLocale: string, t: Translation,
                               params: map<string, Scalar>, count: int)
    requires hitLocale !in locales || locales[hitLocale].pluralRule.None?
    ensures Render(locales, hitLocale, t, params, Some(count))
         == if t.pluralForms == map[] then InterpolateText(t.value, params)
            else InterpolateText(
              if count == 1 && "one" in t.pluralForms then t.pluralForms["one"]
              else if count == 0 && "zero" in t.pluralForms then t.pluralForms["zero"]
              else if "other" in t.pluralForms then t.pluralForms["other"]
              else t.value,
              params["count" := Int(count)])
  {
  }

  /** The `"items"` bundle: `{"one": "{{count}} item", "other": "{{count}} items"}`. */
  function ItemsBundle(locale: string): Translation {
    BundleTranslation(locale, "items",
      [Member("one", Leaf(Str("{{count}} item"))), Member("other", Leaf(Str("{{count}} items")))])
  }

  lemma ItemsBundleForms(locale: string)
    ensures ItemsBundle(locale).pluralForms
         == map["one" := Leaf(Str("{{count}} item")), "other" := Leaf(Str("{{count}} items"))]
  {
    var ms := [Member("one", Leaf(Str("{{count}} item"))), Member("other", Leaf(Str("{{count}} items")))];
    assert ms[..1][..0] == [];
    assert ms[..1] == [ms[0]];
  }

  /** `"{{count}}" + word` with the count as parameter reads as the decimal count followed by `word`. */
  lemma InterpolateCount(word: string, count: int, params: map<string, Scalar>)
    requires '{' !in word
    ensures Interpolate("{{count}}" + word, params["count" := Int(count)]) == Decimal.IntToDecimal(count) + word
  {
    var p := params["count" := Int(count)];
    assert "{{count}}" + word == "{{" + "count" + "}}" + word;
    InterpolatePlaceholder("count", word, p);
    InterpolatePlainPrefix(word, [], p);
    assert word + [] == word;
  }

  /**
   * With the `"items"` bundle under the default locale and no custom rule,
   * `translate("items", count=n)` reads `"1 item"` for one and `"<n> items"`
   * for every other count, zero included, since there is no `"zero"` variant.
   */
  lemma PluralItemsExample(table: Table, locales: map<string, Locale>, chain: map<string, seq<string>>, count: int)
    requires Lookup(table, "en-US", "items") == Some(ItemsBundle("en-US"))
    requires "en-US" !in locales || locales["en-US"].pluralRule.None?
    ensures Translated(table, locales, "en-US", chain, "items", None, map[], Some(count), None)
         == Success(Decimal.IntToDecimal(count) + if count == 1 then " item" else " items")
  {
    var none: map<string, Scalar> := map[];
    var t := ItemsBundle("en-US");
    var candidates := Candidates("en-US", chain, "en-US");
    assert FirstHit(table, candidates, "items") == Some(("en-US", t));
    RenderItems(locales, count);
  }

  lemma RenderItems(locales: map<string, Locale>, count: int)
    requires "en-US" !in locales || locales["en-US"].pluralRule.None?
    ensures Render(locales, "en-US", ItemsBundle("en-US"), map[], Some(count))
         == Success(Decimal.IntToDecimal(count) + if count == 1 then " item" else " items")
  {
    var none: map<string, Scalar> := map[];
    var t := ItemsBundle("en-US");
    var text := if count == 1 then "{{count}} item" else "{{count}} items";
    ItemsPluralText(t, count);
    DefaultPluralSelection(locales, "en-US", t, none, count);
    InterpolateItems(text, count);
  }

  /** The `"items"` variant chosen for a count under the default rule. */
  lemma ItemsPluralText(t: Translation, count: int)
    requires t == ItemsBundle("en-US")
    ensures t.pluralForms != map[]
    ensures (if count == 1 && "one" in t.pluralForms then t.pluralForms["one"]
             else if count == 0 && "zero" in t.pluralForms then t.pluralForms["zero"]
             else if "other" in t.pluralForms then t.pluralForms["other"]
             else t.value)
         == Leaf(Str(if count == 1 then "{{count}} item" else "{{count}} items"))
  {
    ItemsBundleForms("en-US");
    var forms := t.pluralForms;
    assert "one" in forms && "other" in forms && "zero" !in forms;
  }

  lemma InterpolateItems(text: string, count: int)
    requires text == if count == 1 then "{{count}} item" else "{{count}} items"
    ensures InterpolateText(Leaf(Str(text)), map["count" := Int(count)])
         == Success(Decimal.IntToDecimal(count) + if count == 1 then " item" else " items")
  {
    if count == 1 {
      InterpolateCountText(text, " item", count);
    } else {
      InterpolateCountText(text, " items", count);
    }
  }

  lemma InterpolateCountText(text: string, word: string, count: int)
    requires text == "{{count}}" + word && '{' !in word
    ensures InterpolateText(Leaf(Str(text)), map["count" := Int(count)]) == Success(Decimal.IntToDecimal(count) + word)
  {
    var none: map<string, Scalar> := map[];
    InterpolateCount(word, count, none);
  }

  /**
   * A key held only by `en-US` is found for `en-GB` through the fallback
   * chain.
   */
  lemma FallbackExample(table: Table, locales: map<string, Locale>, t: Translation)
    requires Lookup(table, "en-GB", "welcome").None?
    requires Lookup(table, "en-US", "welcome") == Some(t)
    ensures Translated(table, locales, "en-US", DefaultFallbackChain(), "welcome", Some("en-GB"), map[], None, None)
         == InterpolateText(t.value, map[])
  {
    var candidates := Candidates("en-GB", DefaultFallbackChain(), "en-US");
    assert DefaultFallbackChain()["en-GB"] == ["en-US"];
    assert candidates == ["en-GB", "en-US", "en-US"];
    assert candidates[1..] == ["en-US", "en-US"];
    assert FirstHit(table, candidates, "welcome") == FirstHit(table, candidates[1..], "welcome");
    assert FirstHit(table, candidates[1..], "welcome") == Some(("en-US", t));
  }

  /** An unknown key with no default comes back unchanged. */
  lemma MissingKeyExample(table: Table, locales: map<string, Locale>, chain: map<string, seq<string>>)
    requires forall l <- table :: "missing.key" !in table[l]
    ensures Translated(table, locales, "en-US", chain, "missing.key", None, map[], None, None) == Success("missing.key")
  {
    MissingKeyYieldsDefaultOrKey(table, locales, "en-US", chain, "missing.key", None, map[], None, None);
  }

  /** The fallback chain every Translator starts with. */
  function DefaultFallbackChain(): map<string, seq<string>> {
    map["en-GB" := ["en-US"], "es-MX" := ["es-ES"], "fr-CA" := ["fr-FR"],
        "pt-BR" := ["pt-PT"], "zh-TW" := ["zh-CN"]]
  }

  /** Resolves keys against a store. */
  class Translator {
    const store: TranslationStore
    const defaultLocale: string
    var fallbackChain: map<string, seq<string>>

    constructor (store: TranslationStore, defaultLocale: string)
      ensures this.store == store && this.defaultLocale == defaultLocale
      ensures fallbackChain == DefaultFallbackChain()
    {
      this.store := store;
      this.defaultLocale := defaultLocale;
      fallbackChain := DefaultFallbackChain();
    }

    /** `translate`: tries each candidate locale in turn and renders the first hit. */
    method Translate(key: string, locale: Option<string>, params: map<string, Scalar>,
                     count: Option<int>, default: Option<string>) returns (r: Result<string, Error>)
      ensures r == Translated(store.translations, store.locales, defaultLocale, fallbackChain,
                              key, locale, params, count, default)
    {
      var loc := EffectiveLocale(locale, defaultLocale);
      var candidates := [loc] + (if loc in fallbackChain then fallbackChain[loc] else []) + [defaultLocale];
      var i := 0;
      while i < |candidates|
        invariant 0 <= i <= |candidates|
        invariant FirstHit(store.translations, candidates[i..], key)
               == FirstHit(store.translations, candidates, key)
      {
        var hit := store.GetTranslation(candidates[i], key);
        if hit.Some? {
          return Render(store.locales, candidates[i], hit.value, params, count);
        }
        assert candidates[i..][1..] == candidates[i + 1..];
        i := i + 1;
      }
      return Success(if default.Some? then default.value else key);
    }

    /** `has_translation`: looks at the requested locale only, never at its fallbacks. */
    function HasTranslation(key: string, locale: Option<string>): (r: bool)
      reads store
      ensures r <==> Lookup(store.translations, EffectiveLocale(locale, defaultLocale), key).Some?
    {
      store.GetTranslation(EffectiveLocale(locale, defaultLocale), key).Some?
    }
  }
}
