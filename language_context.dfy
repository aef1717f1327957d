// The language preference of `contexts/LanguageContext.tsx`: English until mount, a whitelisted
// value restored from browser storage on mount, and every change written through to storage.

module LanguageContext {
  import opened Wrappers

  datatype Language = En | Bs | Tr

  /** The code a language is stored and looked up under. */
  function Code(l: Language): string {
    match l
    case En => "en"
    case Bs => "bs"
    case Tr => "tr"
  }

  /** The storage key of the preference. */
  const StorageKey := "portfolio-language"

  /** The mount-time whitelist: exactly the three codes name a language. */
  function Parse(s: string): (r: Option<Language>)
    ensures r.Some? <==> s == "en" || s == "bs" || s == "tr"
    ensures r.Some? ==> Code(r.value) == s
  {
    if s == "en" then Some(En)
    else if s == "bs" then Some(Bs)
    else if s == "tr" then Some(Tr)
    else None
  }

  /** Every language's code passes the whitelist and names that language again. */
  lemma ParseCode(l: Language)
    ensures Parse(Code(l)) == Some(l)
  {
  }

  /** The language after the mount effect, given what storage held and the language before. */
  function Restored(stored: Option<string>, current: Language): (r: Language)
    ensures stored.Some? && Parse(stored.value).Some? ==> Code(r) == stored.value
    ensures stored.None? || Parse(stored.value).None? ==> r == current
  {
    if stored.Some? && stored.value != "" && Parse(stored.value).Some? then Parse(stored.value).value
    else current
  }

  /** A write of a language's code is read back as that language, whatever was stored before. */
  lemma RestoredAfterWrite(items: map<string, string>, l: Language, current: Language)
    ensures var written := items[StorageKey := Code(l)];
      Restored(Some(written[StorageKey]), current) == l
  {
    ParseCode(l);
  }

  /** The browser's `localStorage`: a mutable map from keys to strings. */
  class Storage {
    var items: map<string, string>

    constructor (initial: map<string, string>)
      ensures items == initial
    {
      items := initial;
    }

    /** `getItem`: the stored string, or `None` (JavaScript's `null`) for an absent key. */
    function GetItem(key: string): (v: Option<string>)
      reads this
      ensures v.Some? <==> key in items
      ensures v.Some? ==> v.value == items[key]
    {
      if key in items then Some(items[key]) else None
    }

    /** `setItem`. */
    method SetItem(key: string, value: string)
      modifies this
      ensures items == old(items)[key := value]
    {
      items := items[key := value];
    }
  }

  /** `LanguageProvider`'s state, over an opaque translation table per language. */
  class LanguageProvider<Table> {
    var language: Language
    const storage: Storage
    const translations: Language -> Table

    /** The first render: English, whatever storage holds. */
    constructor (storage: Storage, translations: Language -> Table)
      ensures language == En
      ensures this.storage == storage && this.translations == translations
    {
      language := En;
      this.storage := storage;
      this.translations := translations;
    }

    /** The `t` of the context value: always the table of the current language. */
    function T(): Table
      reads this
    {
      translations(language)
    }

    /** The mount effect: adopt the stored code when it is one of the three, else keep the
        current language. Storage is only read. */
    method Mount()
      modifies this`language
      ensures language == Restored(storage.GetItem(StorageKey), old(language))
      ensures storage.GetItem(StorageKey).Some? && Parse(storage.GetItem(StorageKey).value).Some? ==>
        Code(language) == storage.items[StorageKey]
      ensures storage.GetItem(StorageKey).None? || Parse(storage.GetItem(StorageKey).value).None? ==>
        language == old(language)
    {
      var saved := storage.GetItem(StorageKey);
      if saved.Some? && saved.value != "" && Parse(saved.value).Some? {
        language := Parse(saved.value).value;
      }
    }

    /** `setLanguage`: the state becomes `l` and storage holds its code under the key; nothing
        else in storage changes. */
    method SetLanguage(l: Language)
      modifies this`language, storage
      ensures language == l
      ensures storage.items == old(storage.items)[StorageKey := Code(l)]
    {
      language := l;
      storage.SetItem(StorageKey, Code(l));
    }
  }

  /** A choice survives a reload: after `setLanguage(l)`, a provider mounted afresh over the
      same storage comes up with `l`. */
  method SetThenRemount<Table>(p: LanguageProvider<Table>, l: Language) returns (q: LanguageProvider<Table>)
    modifies p, p.storage
    ensures p.language == l
    ensures fresh(q) && q.storage == p.storage
    ensures q.language == l && q.T() == p.translations(l)
  {
    p.SetLanguage(l);
    q := new LanguageProvider(p.storage, p.translations);
    q.Mount();
    RestoredAfterWrite(old(p.storage.items), l, En);
  }
}
