# roadlocalize core, modelled in Dafny

This project models the internationalisation core of `roadlocalize`:

- the translation store: seven built-in locales, translations filed by locale and key, and loading of nested JSON data;
- the translator: candidate locales `[locale] + fallback chain + [default]`, plural selection, and `{{name}}` interpolation;
- the formatter's integer number, currency, date and time output;
- the locale manager's per-code formatter cache.

The store, translator and manager keep state that their methods update in place, so they are classes:

- `Store.TranslationStore`, with `translations` and `locales` maps;
- `Translator.Translator`, holding the store, the default code and the fallback chain;
- `Manager.LocaleManager`, holding the chosen code and the formatter cache.

Each method is proved against a pure specification function (`Lookup`, `Put`, `PutAll`/`Flatten`, `Translated`, `ReplaceChain`, `ResolveLocale`). The properties the code promises are lemmas about those functions.

Modules, in dependency order:

| module | file | contents |
|---|---|---|
| `Wrappers` | Wrappers.dfy | `Option`, `Result` |
| `Decimal` | Decimal.dfy | `str(n)`, `f"{n:02d}"`, `s[-2:]` on digit strings |
| `Replace` | Replace.dfy | Python's `str.replace` and chains of replacements |
| `Store` | Store.dfy | `PluralForm`, `Locale`, `Translation`, JSON data, `TranslationStore` |
| `Translator` | Translator.dfy | interpolation, plural selection, resolution, `Translator` |
| `Formatter` | Formatter.dfy | number, currency, date, time; the `Formatter` object |
| `Patterns` | Patterns.dfy | the date and time patterns of the built-in locales |
| `Manager` | Manager.dfy | `LocaleManager` and its formatter cache |

Notes on the semantics modelled:

- **Failing text.** `translate` is not total. It runs `re.sub` on whatever text the translation holds, so a plural variant loaded from data that is not a string (a number, a boolean, `null`) raises a `TypeError`. The model returns `Result` for this.
- **Scan order is harmless.** The date and time formatters replace tokens one after another in the pattern. That is proved equal to a single left-to-right scan. Every substituted value is made of digits, so an earlier replacement can never create or hide a later token. A collision between replacements is therefore not possible.
- **Two-step separator.** `number` first turns commas into `"THOUSAND"` and then into the locale separator. That is proved equal to grouping directly with the locale separator, for every separator.

## Model

| member | source | states |
|---|---|---|
| Decimal.NatToDecimal | src/roadlocalize/localize.py:218 | `str(year)` is a non-empty digit string without a leading zero, one digit exactly when the number is below 10 |
| Decimal.ParseNatToDecimal | src/roadlocalize/localize.py:218 | reading the decimal text of a number back gives the number (round trip) |
| Decimal.NatToDecimalInjective | src/roadlocalize/localize.py:218 | different years render differently |
| Decimal.IntToDecimal | src/roadlocalize/localize.py:288 | `str(count)` starts with `-` exactly for negative counts and otherwise is digits |
| Decimal.PadTwo | src/roadlocalize/localize.py:220-221 | `f"{n:02d}"` is at least two digits, reads back as n, is exactly two digits below 100, and from 10 on is `str(n)` with no padding |
| Decimal.LastTwo | src/roadlocalize/localize.py:219 | `s[-2:]` is the suffix of length min(len(s), 2), made of digits when s is |
| Replace.ReplaceAbsent | src/roadlocalize/localize.py:229-230 | `str.replace` leaves a string without the pattern's first character unchanged |
| Replace.ReplacePassesPrefix | src/roadlocalize/localize.py:229-230 | `str.replace` copies a prefix that cannot start a match and continues after it |
| Replace.ReplaceAtFront | src/roadlocalize/localize.py:229-230 | an occurrence at the front is replaced and the rest is handled on its own, never rescanning the new text |
| Replace.ReplaceAll | src/roadlocalize/localize.py:228-230 | replacing a text by itself, as the 年/月/日 entries do, returns the string unchanged (the left-to-right scan itself is stated by `ReplaceAtFront` and `ReplacePassesPrefix`) |
| Replace.ReplaceKeepsFirstChar | src/roadlocalize/localize.py:229-230 | a replacement whose text does not start with c never makes a string start with c |
| Store.RegisteredKeepsLast | src/roadlocalize/localize.py:135-137 | `add_locale` files by code: the last locale registered with a code is the one kept |
| Store.Lookup | src/roadlocalize/localize.py:150-152 | `get_translation` finds a translation exactly when its locale and key are present, and returns that entry |
| Store.LastWrite | src/roadlocalize/localize.py:154-179 | the last translation of a batch filed under a locale and key: absent exactly when none is, otherwise an element filed under them with no later one filed under them |
| Store.PutThenLookup | src/roadlocalize/localize.py:144-148 | after `add_translation(t)`, `get_translation(t.locale, t.key)` returns t |
| Store.PutKeepsOthers | src/roadlocalize/localize.py:144-148 | `add_translation` changes no other locale and key |
| Store.WithLocaleKeepsEntries | src/roadlocalize/localize.py:135-139 | re-registering a locale keeps its existing translations |
| Store.PutAllAppend | src/roadlocalize/localize.py:154-179 | loading two batches in turn is loading their concatenation |
| Store.LookupPutAll | src/roadlocalize/localize.py:154-179 | after a load every entry is the last translation written to it, and untouched entries keep their value |
| Store.ToDict | src/roadlocalize/localize.py:160-167 | the JSON object as a dict: a key is present exactly when some member has it, and its value is that of the last member with that key |
| Store.FlattenCount | src/roadlocalize/localize.py:154-179 | the count `load_json` returns is the number of scalar leaves (strings, integers, booleans and null) and plural bundles in the data, counted through nesting |
| Store.Flatten | src/roadlocalize/localize.py:154-179 | every translation `load_json` adds has the load's locale, and under a non-empty prefix its key is `prefix.` followed by more |
| Store.FlattenMember | src/roadlocalize/localize.py:158-175 | one member yields translations with the load's locale and, under a non-empty prefix, keys starting with `prefix.`, through nested objects too |
| Store.BundleIsOneTranslation | src/roadlocalize/localize.py:161-170 | an object with `"one"` or `"other"` becomes a single translation under the joined key; its plural variants are the members (the last one per key), and its value is the last `"other"` member or `""` when there is none |
| Store.FlattenNestedExample | src/roadlocalize/localize.py:171-173 | `{"a": {"b": "x"}}` loads as the one key `a.b` |
| Store.TranslationStore.constructor | src/roadlocalize/localize.py:70-133 | a new store holds the seven built-in locales, each with an empty key map |
| Store.TranslationStore.AddLocale | src/roadlocalize/localize.py:135-139 | the locale is filed under its code; its key map is created only when missing |
| Store.TranslationStore.GetLocale | src/roadlocalize/localize.py:141-142 | a locale is found exactly when its code is registered |
| Store.TranslationStore.AddTranslation | src/roadlocalize/localize.py:144-148 | the new table is the old one with the translation filed under its locale and key; locales unchanged |
| Store.TranslationStore.GetTranslation | src/roadlocalize/localize.py:150-152 | a translation is found exactly when its locale and key are both present, and it is the one filed there |
| Store.TranslationStore.LoadJson | src/roadlocalize/localize.py:154-179 | the table after the load is the old one with the flattened data added in order, and the count is its length |
| Translator.WordRun | src/roadlocalize/localize.py:268 | the `\w+` run at the front is maximal: word characters up to it and none right after |
| Translator.PlaceholderAt | src/roadlocalize/localize.py:268 | a recognised placeholder is `{{`, a non-empty name and `}}` |
| Translator.PlaceholderAtName | src/roadlocalize/localize.py:268 | `{{name}}` at the front is recognised with exactly that name |
| Translator.InterpolatePlaceholder | src/roadlocalize/localize.py:284-290 | a placeholder becomes its parameter's `str`, or stays verbatim when the parameter is missing |
| Translator.InterpolatePlainPrefix | src/roadlocalize/localize.py:284-290 | text without `{` passes through interpolation unchanged |
| Translator.Interpolate | src/roadlocalize/localize.py:284-290 | with no parameters every placeholder stays as written, so the text comes back unchanged |
| Translator.InterpolateOnePlaceholder | src/roadlocalize/localize.py:284-290 | a text with one placeholder whose parameter is given, such as `Hello, {{name}}!`, reads with the parameter's `str` in its place and the rest unchanged |
| Translator.InterpolateDoesNotRescan | src/roadlocalize/localize.py:284-290 | an example: `{{a}}` with a parameter whose text is `{{b}}` reads `{{b}}`, the inserted text not expanded again (the general fact is `InterpolatePlaceholder`) |
| Translator.DefaultPluralForm | src/roadlocalize/localize.py:276-282 | zero exactly for 0, one exactly for 1, other for every other count |
| Translator.PluralFormFor | src/roadlocalize/localize.py:270-282 | the registered locale's own rule decides when it has one; otherwise zero exactly for 0, one exactly for 1, other for every other count |
| Translator.PluralText | src/roadlocalize/localize.py:313-316 | the text is one of the variants or the plain value: the variant named after the form when present, else the `"other"` variant when present, else the plain value |
| Translator.FirstHitIsEarliest | src/roadlocalize/localize.py:304-307 | the hit is the earliest candidate holding the key; there is none exactly when no candidate holds it |
| Translator.ExactLocaleWins | src/roadlocalize/localize.py:299-318 | a key held by the requested locale is rendered from that locale |
| Translator.FallbackBeforeDefault | src/roadlocalize/localize.py:302-307 | when the requested locale lacks the key, the fallback chain is tried in order before the default |
| Translator.MissingKeyYieldsDefaultOrKey | src/roadlocalize/localize.py:320-324 | no candidate holds the key: the result is `default` when given, else the key |
| Translator.DefaultPluralSelection | src/roadlocalize/localize.py:309-318 | with the default rule and plural variants, a count renders the `one`/`zero` variant when it exists, else `other`, else the plain value, with `count` as a parameter; without variants the plain value renders with the parameters as given |
| Translator.ItemsBundleForms | src/roadlocalize/localize.py:161-170 | the `items` bundle holds the `one` and `other` variants |
| Translator.InterpolateCount | src/roadlocalize/localize.py:284-290 | `{{count}}` followed by a word reads as the decimal count followed by that word |
| Translator.PluralItemsExample | src/roadlocalize/localize.py:292-318 | `items` with count n reads `n item` for 1 and `n items` otherwise |
| Translator.FallbackExample | src/roadlocalize/localize.py:261-262 | an en-GB lookup missing in en-GB is answered from en-US |
| Translator.MissingKeyExample | src/roadlocalize/localize.py:323-324 | an unknown key with no default comes back as itself |
| Translator.Translator.constructor | src/roadlocalize/localize.py:258-268 | a translator keeps its store and default and starts with the built-in fallback chain |
| Translator.Translator.Translate | src/roadlocalize/localize.py:292-324 | the loop's result is the specification `Translated`: the first candidate holding the key, rendered, else the default or the key |
| Translator.Translator.HasTranslation | src/roadlocalize/localize.py:330-333 | true exactly when the effective locale itself holds the key; fallbacks are not consulted |
| Formatter.GroupedRebind | src/roadlocalize/localize.py:197-202 | replacing a non-digit group separator re-joins the same digit groups with the new one |
| Formatter.Number | src/roadlocalize/localize.py:194-202 | `number` of an integer is its sign and its digits grouped by three with the locale's thousands separator |
| Formatter.GroupedKeepsDigits | src/roadlocalize/localize.py:197 | grouping only inserts separators: the digits come back in order |
| Formatter.GroupedLength | src/roadlocalize/localize.py:197 | one separator for every full group of three after the first group |
| Formatter.NumberReadsBack | src/roadlocalize/localize.py:194-202 | with a digit-free separator, the rendering has the value's sign first and its digits read back as the magnitude |
| Formatter.NumberMillions | src/roadlocalize/localize.py:194-202 | 1234567 reads as `1`, `234`, `567` joined by the locale's separator: `1,234,567`, `1.234.567` or `1 234 567` for en-US, de-DE or fr-FR |
| Formatter.Currency | src/roadlocalize/localize.py:204-212 | the amount splits into symbol then number when the position is `before`, else number, one space and symbol |
| Formatter.CurrencyExamples | src/roadlocalize/localize.py:204-212 | 99 reads `$99` with en-US conventions and `99 €` with es-ES conventions |
| Formatter.Formatter.constructor | src/roadlocalize/localize.py:191-192 | a formatter keeps the locale it was built with |
| Formatter.ApplyReplacements | src/roadlocalize/localize.py:228-230 | the loop applies each replacement to the result of the previous one |
| Formatter.Formatter.FormatDate | src/roadlocalize/localize.py:214-232 | fails exactly when the pattern argument is absent or empty and the formatter has no locale; otherwise the text is the pattern (the argument, else the locale's) read token by token from the left |
| Formatter.Formatter.FormatTime | src/roadlocalize/localize.py:234-248 | the same for HH, mm and ss, each as two digits, with the same failure condition |
| Formatter.DateChainIsScan | src/roadlocalize/localize.py:218-230 | the sequential date replacements equal a single left-to-right scan of the pattern |
| Formatter.DateCoreIsScan | src/roadlocalize/localize.py:218-230 | the four substituting replacements equal the scan, by induction on the pattern |
| Formatter.TimeChainIsScan | src/roadlocalize/localize.py:238-246 | the sequential time replacements equal a single left-to-right scan of the pattern |
| Formatter.TimeCoreIsScan | src/roadlocalize/localize.py:238-246 | the three replacements equal the scan, by induction on the pattern |
| Patterns.YearFirstDate | src/roadlocalize/localize.py:37 | `YYYY-MM-DD` reads year, month, day with the separators kept |
| Patterns.DayFirstDate | src/roadlocalize/localize.py:84-116 | `DD/MM/YYYY` and `DD.MM.YYYY` read day, month, year |
| Patterns.MarkedDate | src/roadlocalize/localize.py:124 | `YYYY年MM月DD日` reads year, month, day with the markers kept |
| Patterns.SeparatedTime | src/roadlocalize/localize.py:38 | `HH:mm:ss` reads hour, minute, second as two digits each |
| Manager.ResolveLocale | src/roadlocalize/localize.py:357-364 | a code's formatter gets its registered locale, else the default's, and no locale exactly when neither is registered |
| Manager.ShippedDefaultResolves | src/roadlocalize/localize.py:361-364 | with the built-in locales and default en-US, every code gets a locale, en-US for unknown codes |
| Manager.RequestedCode | src/roadlocalize/localize.py:356 | the cache key is the argument unless absent or empty, else the current locale |
| Manager.LocaleManager.constructor | src/roadlocalize/localize.py:339-342 | a new manager has no chosen locale and an empty cache |
| Manager.LocaleManager.Current | src/roadlocalize/localize.py:344-347 | the chosen locale once one is set, the translator's default before that |
| Manager.LocaleManager.SetCurrent | src/roadlocalize/localize.py:349-352 | the chosen locale becomes current; the cache is untouched |
| Manager.LocaleManager.GetFormatter | src/roadlocalize/localize.py:354-365 | a cached code returns the same formatter and the cache is unchanged; otherwise a new formatter with the resolved locale is cached under the code; a cache that agreed with the store still does |

## Left out

- `load_file` reads a file from disk. That is I/O, so only `load_json`, the part after parsing, is modelled.
- The store's `threading.Lock` is not modelled. This model has one thread.
- The per-thread storage behind `current` is modelled as one field, for the same reason.
- `number` for floats and `Decimal`s (the `decimals` argument and the decimal separator) is left out, because floating-point rendering is out of scope.
- `currency` of a fractional amount and `percentage` are left out for the same reason.
- `bool` arguments to `number` (a Python `int`) are not distinguished. `value` is an integer.
- `Locale.to_dict` is not modelled. It is a plain field-by-field copy and nothing in the core uses it.
- The `I18n` facade, its `format` dispatch and `available_locales` are not part of this model. They only forward to the core.
- The `t` shorthands and `LocaleManager.format_number`, `format_currency` and `format_date` only forward to the modelled operations, so they are not modelled.
- `example_usage` is not part of this model.
- A `Translation`'s `context` and `metadata` fields are not modelled. No operation of the core reads them.
- JSON arrays and floats in loaded data are not modelled. The scalar leaves are strings, integers, booleans and null, rendered with `str()`.
- Loaded data is a list of members. A Python dict's keys are distinct, so duplicate keys never reach `load_json`.
- `Translator.Interpolate`: `\w` is modelled as ASCII letters, digits and `_`. Python's pattern also matches non-ASCII letters and digits.
- `Translator.Interpolate`: parameter values are strings, integers, booleans and `None`, rendered as `str()` renders them. Other values, such as floats, lists or objects, are not modelled.
- `Translator.Translator.Translate`: assigning `count` into the caller's own `params` dict is not modelled. The model extends a copy, and the caller cannot see the change.
- `Store.Locale`: a locale's `plural_rule` is an optional total function from counts to plural forms. A rule that raises is not modelled.
- `Formatter.FormatDate`: a date is any triple of naturals. Python's calendar range checks are not modelled.
- `Formatter.FormatTime`: likewise, a time is any triple of naturals.
- `Formatter.Number`: `number` and `currency` on a formatter whose locale is absent raise `AttributeError`, since both read the locale's separator. They are modelled on a present locale only. `date` and `time` model the absent locale, because with a non-empty pattern argument they never read it.
- `Manager.LocaleManager.GetFormatter`: a formatter cached before a later `add_locale` keeps its old locale. The original behaves the same way. The agreement clause therefore speaks only of calls made while the store's locales stay unchanged.
