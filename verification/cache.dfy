/** The translation export cache: an order-independent key per (languages,
    tags) filter, a registry of every key handed out, a read-through lookup
    and a bulk invalidation that forgets every registered key. */
module TranslationCache {
  import opened Text
  import opened Schema

  /** The cache entry under which the list of handed-out keys is kept. */
  const RegistryKey := "translation_cache_keys"

  /** language code -> translation key -> value: the export document. */
  type Export = map<string, map<string, string>>

  // ---------------------------------------------------------------------
  // Cache keys
  // ---------------------------------------------------------------------

  /** `_`-joined decimal ids. */
  function JoinIds(ids: seq<nat>): string {
    Join('_', Numerals(ids))
  }

  /** The key for a filter: both id lists sorted ascending, a language
      segment only for a non-empty language list, then a tag segment only
      for a non-empty tag list. */
  function CacheKey(languages: seq<nat>, tags: seq<nat>): string {
    var withLanguages := if |languages| == 0 then "translations"
                         else "translations" + "_lang_" + JoinIds(Sort(languages));
    if |tags| == 0 then withLanguages else withLanguages + "_tag_" + JoinIds(Sort(tags))
  }

  /** The registry entry never collides with an export entry: no filter's
      key is the registry's key. */
  lemma RegistryKeyIsNoCacheKey(languages: seq<nat>, tags: seq<nat>)
    ensures CacheKey(languages, tags) != RegistryKey
  {
    var withLanguages := if |languages| == 0 then "translations"
                         else "translations" + "_lang_" + JoinIds(Sort(languages));
    assert withLanguages[11] == 's';
    assert CacheKey(languages, tags)[11] == withLanguages[11];
  }

  /** A labelled id segment of the key as words: nothing for an empty
      list, else the label followed by the sorted ids. */
  function SegmentWords(marker: string, ids: seq<nat>): seq<string> {
    if |ids| == 0 then [] else [marker] + Numerals(ids)
  }

  /** The key's `_`-separated words: "translations", then "lang" and the
      sorted language ids, then "tag" and the sorted tag ids. */
  function KeyWords(languages: seq<nat>, tags: seq<nat>): seq<string> {
    ["translations"] + (SegmentWords("lang", Sort(languages)) + SegmentWords("tag", Sort(tags)))
  }

  /** Appending a labelled, non-empty id segment to a joined word list. */
  lemma {:induction false} AppendSegment(prefix: string, words: seq<string>, glue: string,
                                         marker: string, ids: seq<nat>)
    requires |words| >= 1 && |ids| >= 1 && prefix == Join('_', words)
    requires glue == "_" + marker + "_"
    ensures prefix + glue + JoinIds(ids) == Join('_', words + ([marker] + Numerals(ids)))
  {
    JoinAppend('_', [marker], Numerals(ids));
    JoinAppend('_', words, [marker] + Numerals(ids));
  }

  lemma {:induction false} LanguagePart(sl: seq<nat>)
    requires |sl| >= 1
    ensures "translations" + "_lang_" + JoinIds(sl) == Join('_', ["translations"] + (["lang"] + Numerals(sl)))
  {
    assert "_lang_" == "_" + "lang" + "_";
    AppendSegment("translations", ["translations"], "_lang_", "lang", sl);
  }

  lemma {:induction false} TagPart(prefix: string, words: seq<string>, st: seq<nat>)
    requires |words| >= 1 && |st| >= 1 && prefix == Join('_', words)
    ensures prefix + "_tag_" + JoinIds(st) == Join('_', words + (["tag"] + Numerals(st)))
  {
    assert "_tag_" == "_" + "tag" + "_";
    AppendSegment(prefix, words, "_tag_", "tag", st);
  }

  lemma CacheKeyIsJoinedWords(languages: seq<nat>, tags: seq<nat>)
    ensures CacheKey(languages, tags) == Join('_', KeyWords(languages, tags))
  {
    var lw, tw := SegmentWords("lang", Sort(languages)), SegmentWords("tag", Sort(tags));
    assert KeyWords(languages, tags) == (["translations"] + lw) + tw;
    var withLanguages := if |languages| == 0 then "translations"
                         else "translations" + "_lang_" + JoinIds(Sort(languages));
    assert withLanguages == Join('_', ["translations"] + lw) by {
      if |languages| > 0 {
        LanguagePart(Sort(languages));
      } else {
        assert ["translations"] + lw == ["translations"];
      }
    }
    if |tags| > 0 {
      TagPart(withLanguages, ["translations"] + lw, Sort(tags));
    } else {
      assert lw + tw == lw;
    }
  }

  // ---------------------------------------------------------------------
  // Reading a key back
  // ---------------------------------------------------------------------

  /** The ids spelled by the leading numeral words, and the words after them. */
  function TakeNumerals(words: seq<string>): (seq<nat>, seq<string>)
  {
    if words == [] || !IsNumeral(words[0]) then ([], words)
    else
      var (ids, rest) := TakeNumerals(words[1..]);
      ([DigitsValue(words[0])] + ids, rest)
  }

  /** An optional segment `marker id id ...` at the front of words: its ids
      (none when the marker is absent) and the words after it. */
  function Segment(words: seq<string>, marker: string): Option<(seq<nat>, seq<string>)>
  {
    if |words| == 0 || words[0] != marker then Some(([], words))
    else
      var (ids, rest) := TakeNumerals(words[1..]);
      if ids == [] then None else Some((ids, rest))
  }

  /** The (languages, tags) filter a key encodes, or None for a string
      that is not a key. */
  function DecodeKey(key: string): Option<(seq<nat>, seq<nat>)> {
    DecodeWords(Split(key, '_'))
  }

  function DecodeWords(words: seq<string>): Option<(seq<nat>, seq<nat>)> {
    if |words| == 0 || words[0] != "translations" then None
    else
      match Segment(words[1..], "lang")
      case None => None
      case Some((languages, rest)) =>
        match Segment(rest, "tag")
        case None => None
        case Some((tags, tail)) => if tail == [] then Some((languages, tags)) else None
  }

  lemma {:induction false} TakeNumeralsOfNumerals(ids: seq<nat>, rest: seq<string>)
    requires rest == [] || !IsNumeral(rest[0])
    ensures TakeNumerals(Numerals(ids) + rest) == (ids, rest)
  {
    if ids != [] {
      var words := Numerals(ids) + rest;
      assert words[0] == NatToString(ids[0]);
      assert words[1..] == Numerals(ids[1..]) + rest;
      TakeNumeralsOfNumerals(ids[1..], rest);
      DigitsValueOfNatToString(ids[0]);
      assert [ids[0]] + ids[1..] == ids;
    } else {
      assert Numerals(ids) + rest == rest;
    }
  }

  lemma SegmentOfWords(marker: string, ids: seq<nat>, rest: seq<string>)
    requires !IsNumeral(marker) && |ids| >= 1
    requires rest == [] || !IsNumeral(rest[0])
    ensures Segment([marker] + (Numerals(ids) + rest), marker) == Some((ids, rest))
  {
    assert ([marker] + (Numerals(ids) + rest))[0] == marker;
    assert ([marker] + (Numerals(ids) + rest))[1..] == Numerals(ids) + rest;
    TakeNumeralsOfNumerals(ids, rest);
  }

  lemma NumeralHasNoUnderscore(s: string)
    requires IsNumeral(s)
    ensures '_' !in s
  {
    forall i | 0 <= i < |s| ensures s[i] != '_' {
      assert IsDigit(s[i]);
    }
  }

  lemma NumeralsSepFree(ids: seq<nat>)
    ensures SepFree(Numerals(ids), '_')
  {
    forall i | 0 <= i < |ids| ensures '_' !in Numerals(ids)[i] {
      NumeralHasNoUnderscore(NatToString(ids[i]));
    }
  }

  lemma SepFreeAppend(a: seq<string>, b: seq<string>)
    requires SepFree(a, '_') && SepFree(b, '_')
    ensures SepFree(a + b, '_')
  {
    forall i | 0 <= i < |a + b| ensures '_' !in (a + b)[i] {
      if i < |a| { assert (a + b)[i] == a[i]; } else { assert (a + b)[i] == b[i - |a|]; }
    }
  }

  lemma WordSepFree(w: string)
    requires w == "translations" || w == "lang" || w == "tag"
    ensures SepFree([w], '_')
  {
    assert [w][0] == w;
  }

  lemma SegmentWordsSepFree(marker: string, ids: seq<nat>)
    requires marker == "lang" || marker == "tag"
    ensures SepFree(SegmentWords(marker, ids), '_')
  {
    if |ids| > 0 {
      WordSepFree(marker);
      NumeralsSepFree(ids);
      SepFreeAppend([marker], Numerals(ids));
    }
  }

  lemma KeyWordsSepFree(languages: seq<nat>, tags: seq<nat>)
    ensures SepFree(KeyWords(languages, tags), '_')
  {
    var lw, tw := SegmentWords("lang", Sort(languages)), SegmentWords("tag", Sort(tags));
    SegmentWordsSepFree("lang", Sort(languages));
    SegmentWordsSepFree("tag", Sort(tags));
    SepFreeAppend(lw, tw);
    WordSepFree("translations");
    SepFreeAppend(["translations"], lw + tw);
  }

  lemma KeySplitsIntoWords(languages: seq<nat>, tags: seq<nat>)
    ensures Split(CacheKey(languages, tags), '_') == KeyWords(languages, tags)
  {
    CacheKeyIsJoinedWords(languages, tags);
    KeyWordsSepFree(languages, tags);
    SplitJoin(KeyWords(languages, tags), '_');
  }

  lemma MarkersAreNotNumerals()
    ensures !IsNumeral("lang") && !IsNumeral("tag")
  {
    assert "lang"[0] == 'l' && !IsDigit('l');
    assert "tag"[0] == 't' && !IsDigit('t');
  }

  lemma LanguageSegment(sl: seq<nat>, tw: seq<string>)
    requires tw == [] || tw[0] == "tag"
    ensures Segment(SegmentWords("lang", sl) + tw, "lang") == Some((sl, tw))
  {
    MarkersAreNotNumerals();
    if |sl| > 0 {
      assert (["lang"] + Numerals(sl)) + tw == ["lang"] + (Numerals(sl) + tw);
      SegmentOfWords("lang", sl, tw);
    } else {
      assert SegmentWords("lang", sl) + tw == tw;
    }
  }

  lemma TagSegment(st: seq<nat>)
    ensures Segment(SegmentWords("tag", st), "tag") == Some((st, []))
  {
    MarkersAreNotNumerals();
    if |st| > 0 {
      assert SegmentWords("tag", st) == ["tag"] + (Numerals(st) + []);
      SegmentOfWords("tag", st, []);
    }
  }

  lemma DecodeKeyWords(sl: seq<nat>, st: seq<nat>)
    ensures DecodeWords(["translations"] + (SegmentWords("lang", sl) + SegmentWords("tag", st)))
         == Some((sl, st))
  {
    var lw, tw := SegmentWords("lang", sl), SegmentWords("tag", st);
    assert (["translations"] + (lw + tw))[0] == "translations";
    assert (["translations"] + (lw + tw))[1..] == lw + tw;
    LanguageSegment(sl, tw);
    TagSegment(st);
  }

  /** A key decodes to the sorted id lists it was built from. */
  lemma DecodeCacheKey(languages: seq<nat>, tags: seq<nat>)
    ensures DecodeKey(CacheKey(languages, tags)) == Some((Sort(languages), Sort(tags)))
  {
    KeySplitsIntoWords(languages, tags);
    DecodeKeyWords(Sort(languages), Sort(tags));
  }

  /** Order-independence, and exactly that: two filters share a key if and
      only if they hold the same ids with the same multiplicities. */
  lemma CacheKeyIdentifiesFilter(l1: seq<nat>, t1: seq<nat>, l2: seq<nat>, t2: seq<nat>)
    ensures CacheKey(l1, t1) == CacheKey(l2, t2)
        <==> multiset(l1) == multiset(l2) && multiset(t1) == multiset(t2)
  {
    SortPermutation(l1, l2);
    SortPermutation(t1, t2);
    if CacheKey(l1, t1) == CacheKey(l2, t2) {
      DecodeCacheKey(l1, t1);
      DecodeCacheKey(l2, t2);
    }
  }

  /** Duplicates are not collapsed: [1, 1] and [1] are different filters. */
  lemma DuplicatesNotCollapsed()
    ensures CacheKey([1, 1], []) != CacheKey([1], [])
  {
    CacheKeyIdentifiesFilter([1, 1], [], [1], []);
    assert multiset([1, 1]) != multiset([1]) by {
      assert multiset([1, 1])[1] == 2;
    }
  }

  /** The key is the bare prefix exactly when both lists are empty, and the
      language segment precedes the tag segment. */
  lemma CacheKeyShape(languages: seq<nat>, tags: seq<nat>)
    ensures CacheKey(languages, tags) == "translations" <==> |languages| == 0 && |tags| == 0
    ensures |languages| > 0 && |tags| == 0 ==>
              CacheKey(languages, tags) == "translations_lang_" + JoinIds(Sort(languages))
    ensures |languages| == 0 && |tags| > 0 ==>
              CacheKey(languages, tags) == "translations_tag_" + JoinIds(Sort(tags))
    ensures |languages| > 0 && |tags| > 0 ==>
              CacheKey(languages, tags)
              == "translations_lang_" + JoinIds(Sort(languages)) + "_tag_" + JoinIds(Sort(tags))
  {
    assert "translations" + "_lang_" == "translations_lang_";
    assert "translations" + "_tag_" == "translations_tag_";
    var key := CacheKey(languages, tags);
    if |languages| > 0 || |tags| > 0 {
      assert |key| > |"translations"|;
    }
  }

  // ---------------------------------------------------------------------
  // Fetching from the store and folding into the export document
  // ---------------------------------------------------------------------

  /** The query's row filter: not soft-deleted, language in the list when
      the list is non-empty, at least one tag in the list when that list is
      non-empty. */
  predicate Selected(t: Translation, languages: seq<nat>, tags: seq<nat>) {
    && !t.deleted
    && (|languages| == 0 || t.languageId in languages)
    && (|tags| == 0 || exists tag :: tag in tags && tag in t.tags)
  }

  /** The rows the query returns, in store order. */
  function SelectRows(rows: seq<Translation>, languages: seq<nat>, tags: seq<nat>): (r: seq<Translation>)
    ensures forall t :: t in r <==> t in rows && Selected(t, languages, tags)
  {
    if rows == [] then []
    else
      var rest := SelectRows(rows[1..], languages, tags);
      assert forall t :: t in rows <==> t == rows[0] || t in rows[1..];
      if Selected(rows[0], languages, tags) then [rows[0]] + rest else rest
  }

  predicate LanguagesKnown(rows: seq<Translation>, languages: map<nat, Language>) {
    forall i :: 0 <= i < |rows| ==> rows[i].languageId in languages
  }

  /** One step of the fold: formatted[code][key] = value, creating the
      language's map when it is absent. */
  function Put(formatted: Export, code: string, key: string, value: string): Export {
    var inner := if code in formatted then formatted[code] else map[];
    formatted[code := inner[key := value]]
  }

  /** The export document of rows taken in order; a later row overwrites an
      earlier one with the same language code and key. */
  function Fold(rows: seq<Translation>, languages: map<nat, Language>): Export
    requires LanguagesKnown(rows, languages)
  {
    if rows == [] then map[]
    else
      var last := rows[|rows| - 1];
      Put(Fold(rows[..|rows| - 1], languages), languages[last.languageId].code, last.key, last.value)
  }

  function Lookup(formatted: Export, code: string, key: string): Option<string> {
    if code in formatted && key in formatted[code] then Some(formatted[code][key]) else None
  }

  /** The value of the last row with this language code and key. */
  function LastValue(rows: seq<Translation>, languages: map<nat, Language>, code: string, key: string)
    : Option<string>
    requires LanguagesKnown(rows, languages)
  {
    if rows == [] then None
    else
      var last := rows[|rows| - 1];
      if languages[last.languageId].code == code && last.key == key then Some(last.value)
      else LastValue(rows[..|rows| - 1], languages, code, key)
  }

  /** Last write wins: every (code, key) of the document holds the value of
      the last row with that language code and key, and nothing else is in it. */
  lemma {:induction false} FoldLastWriteWins(rows: seq<Translation>, languages: map<nat, Language>,
                                             code: string, key: string)
    requires LanguagesKnown(rows, languages)
    ensures Lookup(Fold(rows, languages), code, key) == LastValue(rows, languages, code, key)
  {
    if rows != [] {
      FoldLastWriteWins(rows[..|rows| - 1], languages, code, key);
    }
  }

  /** A language code appears in the document exactly when some row has it. */
  lemma {:induction false} FoldCodes(rows: seq<Translation>, languages: map<nat, Language>, code: string)
    requires LanguagesKnown(rows, languages)
    ensures code in Fold(rows, languages)
        <==> exists i :: 0 <= i < |rows| && languages[rows[i].languageId].code == code
  {
    if rows != [] {
      var front := rows[..|rows| - 1];
      FoldCodes(front, languages, code);
      assert forall i :: 0 <= i < |front| ==> front[i] == rows[i];
    }
  }

  /** fetchTranslationsFromDatabase: run the filtered query, then fold the
      rows into the document one by one. */
  method FetchTranslationsFromDatabase(db: Database, languages: seq<nat>, tags: seq<nat>)
    returns (formatted: Export)
    requires ForeignKeys(db)
    ensures formatted == Fetched(db, languages, tags)
  {
    var results := SelectRows(db.rows, languages, tags);
    assert LanguagesKnown(results, db.languages) by {
      forall j | 0 <= j < |results| ensures results[j].languageId in db.languages {
        assert results[j] in db.rows;
      }
    }
    formatted := map[];
    var i := 0;
    while i < |results|
      invariant 0 <= i <= |results|
      invariant LanguagesKnown(results, db.languages)
      invariant formatted == Fold(results[..i], db.languages)
    {
      var translation := results[i];
      var langCode := db.languages[translation.languageId].code;
      if langCode !in formatted {
        formatted := formatted[langCode := map[]];
      }
      formatted := formatted[langCode := formatted[langCode][translation.key := translation.value]];
      assert results[..i + 1][..i] == results[..i];
      i := i + 1;
    }
    assert results[..i] == results;
  }

  /** The document the store yields for a filter. */
  function Fetched(db: Database, languages: seq<nat>, tags: seq<nat>): Export
    requires ForeignKeys(db)
  {
    var rows := SelectRows(db.rows, languages, tags);
    assert LanguagesKnown(rows, db.languages) by {
      forall i | 0 <= i < |rows| ensures rows[i].languageId in db.languages {
        assert rows[i] in db.rows;
      }
    }
    Fold(rows, db.languages)
  }

  /** What the export holds, stated on the store: (code, key) maps to v
      exactly when the last selected row with that code and key has value v. */
  lemma FetchedLookup(db: Database, languages: seq<nat>, tags: seq<nat>, code: string, key: string)
    requires ForeignKeys(db)
    ensures LanguagesKnown(SelectRows(db.rows, languages, tags), db.languages)
    ensures Lookup(Fetched(db, languages, tags), code, key)
         == LastValue(SelectRows(db.rows, languages, tags), db.languages, code, key)
  {
    var rows := SelectRows(db.rows, languages, tags);
    forall i | 0 <= i < |rows| ensures rows[i].languageId in db.languages {
      assert rows[i] in db.rows;
    }
    FoldLastWriteWins(rows, db.languages, code, key);
  }

  // ---------------------------------------------------------------------
  // The cache service
  // ---------------------------------------------------------------------

  predicate NoDuplicates(keys: seq<string>) {
    forall i, j :: 0 <= i < j < |keys| ==> keys[i] != keys[j]
  }

  function Elements(keys: seq<string>): set<string> {
    set k | k in keys
  }

  /** The cache store as the service sees it: the export entries by key,
      and the registry entry (absent, or the list of handed-out keys).
      Expiry is not modelled. */
  class TranslationCacheService {
    var entries: map<string, Export>
    var registry: Option<seq<string>>

    constructor()
      ensures entries == map[] && registry == None
    {
      entries := map[];
      registry := None;
    }

    /** Cache::get('translation_cache_keys', []). */
    function RegisteredKeys(): seq<string>
      reads this
    {
      if registry.Some? then registry.value else []
    }

    /** Every cached export is under a registered key. */
    ghost predicate Covered()
      reads this
    {
      forall k :: k in entries ==> k in RegisteredKeys()
    }

    /** generateCacheKey: compute the key and append it to the registry
        unless it is already there. */
    method GenerateCacheKey(languages: seq<nat>, tags: seq<nat>) returns (key: string)
      modifies this`registry
      ensures key == CacheKey(languages, tags)
      ensures key in RegisteredKeys()
      ensures key in old(RegisteredKeys()) ==> registry == old(registry)
      ensures key !in old(RegisteredKeys()) ==> registry == Some(old(RegisteredKeys()) + [key])
      ensures NoDuplicates(old(RegisteredKeys())) ==> NoDuplicates(RegisteredKeys())
      ensures Elements(RegisteredKeys()) == Elements(old(RegisteredKeys())) + {key}
    {
      key := CacheKey(languages, tags);
      var cacheKeys := RegisteredKeys();
      if key !in cacheKeys {
        cacheKeys := cacheKeys + [key];
        registry := Some(cacheKeys);
      }
    }

    /** getTranslations: register the key; serve the cached export on a hit,
        otherwise fetch it, store it under the key and return it. */
    method GetTranslations(db: Database, languages: seq<nat>, tags: seq<nat>) returns (result: Export)
      requires ForeignKeys(db)
      modifies this
      ensures var key := CacheKey(languages, tags);
        && (key in old(entries) ==> result == old(entries)[key] && entries == old(entries))
        && (key !in old(entries) ==>
              result == Fetched(db, languages, tags) && entries == old(entries)[key := result])
        && key in RegisteredKeys()
        && Elements(RegisteredKeys()) == Elements(old(RegisteredKeys())) + {key}
      ensures NoDuplicates(old(RegisteredKeys())) ==> NoDuplicates(RegisteredKeys())
      ensures old(Covered()) ==> Covered()
    {
      var cacheKey := GenerateCacheKey(languages, tags);
      if cacheKey in entries {
        return entries[cacheKey];
      }
      result := FetchTranslationsFromDatabase(db, languages, tags);
      entries := entries[cacheKey := result];
    }

    /** clearTranslationCache: forget every registered key, then the
        registry itself. */
    method ClearTranslationCache()
      modifies this
      ensures entries == old(entries) - Elements(old(RegisteredKeys()))
      ensures registry == None
      ensures old(Covered()) ==> entries == map[]
    {
      var cacheKeys := RegisteredKeys();
      var i := 0;
      while i < |cacheKeys|
        invariant 0 <= i <= |cacheKeys|
        invariant registry == old(registry)
        invariant entries == old(entries) - Elements(cacheKeys[..i])
      {
        assert Elements(cacheKeys[..i + 1]) == Elements(cacheKeys[..i]) + {cacheKeys[i]};
        entries := entries - {cacheKeys[i]};
        i := i + 1;
      }
      assert cacheKeys[..i] == cacheKeys;
      registry := None;
    }
  }

  /** A repeated lookup with permuted filters and no invalidation in
      between is served from the cache and returns the same export. */
  method RepeatedLookupIsStable(cache: TranslationCacheService, db: Database,
                                l1: seq<nat>, t1: seq<nat>, l2: seq<nat>, t2: seq<nat>)
    returns (first: Export, second: Export)
    requires ForeignKeys(db)
    requires multiset(l1) == multiset(l2) && multiset(t1) == multiset(t2)
    modifies cache
    ensures second == first
    ensures CacheKey(l1, t1) !in old(cache.entries) ==> first == Fetched(db, l1, t1)
  {
    first := cache.GetTranslations(db, l1, t1);
    CacheKeyIdentifiesFilter(l1, t1, l2, t2);
    second := cache.GetTranslations(db, l2, t2);
  }

  /** After invalidation no earlier export is served: the next lookup of any
      filter reads the store. */
  method LookupAfterClearReadsStore(cache: TranslationCacheService, db: Database,
                                    languages: seq<nat>, tags: seq<nat>)
    returns (result: Export)
    requires ForeignKeys(db) && cache.Covered()
    modifies cache
    ensures result == Fetched(db, languages, tags)
    ensures cache.Covered()
  {
    cache.ClearTranslationCache();
    result := cache.GetTranslations(db, languages, tags);
  }
}
