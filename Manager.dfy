/**
 * The locale manager: the locale the caller has chosen and a cache of one
 * formatter per locale code. The chosen locale is per thread in the
 * original; this model has one thread.
 */
module Manager {
  import opened Wrappers
  import opened Store
  import opened Formatter
  import Translator

  /**
   * The locale a formatter for `code` is built with: the registered locale
   * of that code, or else the default locale's entry, which is absent when
   * the default code is not registered either.
   */
  function ResolveLocale(locales: map<string, Locale>, defaultLocale: string, code: string): (r: Option<Locale>)
    ensures code in locales ==> r == Some(locales[code])
    ensures code !in locales && defaultLocale in locales ==> r == Some(locales[defaultLocale])
    ensures r.None? <==> code !in locales && defaultLocale !in locales
  {
    if code in locales then Some(locales[code])
    else if defaultLocale in locales then Some(locales[defaultLocale])
    else None
  }

  /** With the default locales registered, every code gets a formatter with a locale. */
  lemma ShippedDefaultResolves(locales: map<string, Locale>, defaultLocale: string, code: string)
    requires locales == Registered(DefaultLocales())
    requires defaultLocale == "en-US"
    ensures ResolveLocale(locales, defaultLocale, code).Some?
    ensures code !in locales ==> ResolveLocale(locales, defaultLocale, code).value.code == "en-US"
  {
    var defaults := DefaultLocales();
    assert defaults[0].code == "en-US";
    RegisteredKeepsLast(defaults, 0);
  }

  /** The code `get_formatter` caches under: the argument unless absent or empty, else the current locale. */
  function RequestedCode(locale: Option<string>, current: string): (r: string)
    ensures locale.Some? && locale.value != "" ==> r == locale.value
    ensures !(locale.Some? && locale.value != "") ==> r == current
  {
    if locale.Some? && locale.value != "" then locale.value else current
  }

  class LocaleManager {
    const translator: Translator.Translator
    /** The chosen locale code, absent until one is set. */
    var chosen: Option<string>
    var formatters: map<string, Formatter>

    constructor (translator: Translator.Translator)
      ensures this.translator == translator
      ensures chosen == None && formatters == map[]
    {
      this.translator := translator;
      chosen := None;
      formatters := map[];
    }

    /** `current`: the chosen code, or the translator's default when none was chosen. */
    function Current(): (r: string)
      reads this
      ensures chosen.None? ==> r == translator.defaultLocale
      ensures chosen.Some? ==> r == chosen.value
    {
      if chosen.Some? then chosen.value else translator.defaultLocale
    }

    /** Setting `current`: an empty code is kept as it is. */
    method SetCurrent(locale: string)
      modifies this
      ensures chosen == Some(locale) && Current() == locale
      ensures formatters == old(formatters)
    {
      chosen := Some(locale);
    }

    /** Every cached formatter carries the locale its code resolves to in the store. */
    ghost predicate CacheAgrees()
      reads this, translator.store, set code | code in formatters :: formatters[code]
    {
      forall code | code in formatters ::
        formatters[code].locale == ResolveLocale(translator.store.locales, translator.defaultLocale, code)
    }

    /**
     * `get_formatter`: the cached formatter of the requested code, or a new
     * one built from the resolved locale and cached under that code.
     */
    method GetFormatter(locale: Option<string>) returns (f: Formatter)
      modifies this
      ensures chosen == old(chosen)
      ensures var code := RequestedCode(locale, old(Current()));
        && code in formatters && formatters[code] == f
        && (code in old(formatters) ==> f == old(formatters)[code] && formatters == old(formatters))
        && (code !in old(formatters) ==>
              fresh(f) && formatters == old(formatters)[code := f]
              && f.locale == ResolveLocale(translator.store.locales, translator.defaultLocale, code))
      ensures old(CacheAgrees()) ==> CacheAgrees()
    {
      var code := RequestedCode(locale, Current());
      if code !in formatters {
        var resolved := translator.store.GetLocale(code);
        if resolved.None? {
          resolved := translator.store.GetLocale(translator.defaultLocale);
        }
        var created := new Formatter(resolved);
        formatters := formatters[code := created];
      }
      f := formatters[code];
    }
  }
}
