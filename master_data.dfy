/** The master data provider (src/providers/master-data/master-data.ts): the query variables of a
    master data request and the browser locale they carry. The browser language
    (`navigator.language`) is an argument; the query itself and the `JSON.parse` of its answer are
    library and network calls. */
module MasterData {
  import opened Wrappers
  import opened Strings
  import Apollo

  /** `MasterDataKeys`. */
  datatype MasterDataKey = Weekdays | Months | BookingStatus

  function KeyName(k: MasterDataKey): (name: string)
    ensures |name| > 0 && '.' !in name
  {
    match k
    case Weekdays => "weekdays"
    case Months => "months"
    case BookingStatus => "booking_status"
  }

  /** Every key has its own name. */
  lemma KeyNameInjective(a: MasterDataKey, b: MasterDataKey)
    ensures KeyName(a) == KeyName(b) <==> a == b
  {
    if a != b {
      assert KeyName(a)[0] != KeyName(b)[0] || |KeyName(a)| != |KeyName(b)|;
    }
  }

  // ---------------------------------------------------------------------------------------------
  // getLocale

  /** The characters the case-insensitive pattern `(es|en)` matches one by one. */
  predicate IsE(c: char) { c == 'e' || c == 'E' }
  predicate IsSOrN(c: char) { c == 's' || c == 'S' || c == 'n' || c == 'N' }

  /** `s` holds "es" or "en" somewhere, in any letter case. */
  predicate MentionsEsOrEn(s: string)
  {
    exists i :: 0 <= i < |s| - 1 && IsE(s[i]) && IsSOrN(s[i + 1])
  }

  /** `/(es|en)/gi.test(s)`: a scan for the pattern from the left. The literal builds a fresh
      regular expression on every call, so the `g` flag's `lastIndex` always starts at 0. */
  function PatternTest(s: string): (found: bool)
    ensures found <==> MentionsEsOrEn(s)
    decreases |s|
  {
    if |s| < 2 then false
    else if IsE(s[0]) && IsSOrN(s[1]) then true
    else
      var rest := PatternTest(s[1..]);
      assert forall i :: 1 <= i < |s| - 1 ==> s[i] == s[1..][i - 1] && s[i + 1] == s[1..][i];
      rest
  }

  /** `getLocale`: the part of the language before the first '-', when it mentions "es" or "en";
      "en" otherwise. */
  function GetLocale(language: string): (lang: string)
    ensures var first := Split(language, '-')[0];
      (MentionsEsOrEn(first) ==> lang == first) && (!MentionsEsOrEn(first) ==> lang == "en")
  {
    var userLang := Split(language, '-')[0];
    if PatternTest(userLang) then userLang else "en"
  }

  /** The locale is never empty, never holds '-', is always a prefix of the language or "en",
      and always mentions "es" or "en". */
  lemma GetLocaleShape(language: string)
    ensures var lang := GetLocale(language);
      |lang| >= 2 && '-' !in lang && MentionsEsOrEn(lang) && (lang <= language || lang == "en")
  {
    FirstPieceIsPrefix(language, '-');
    assert MentionsEsOrEn("en") by {
      assert IsE("en"[0]) && IsSOrN("en"[1]);
    }
  }

  /** Locale of a locale: already a bare language that passes the test, so it comes back. */
  lemma GetLocaleIdempotent(language: string)
    ensures GetLocale(GetLocale(language)) == GetLocale(language)
  {
    var lang := GetLocale(language);
    GetLocaleShape(language);
    SplitNoSep(lang, '-');
  }

  /** Examples: a region is dropped, an unsupported language falls back to English. */
  lemma GetLocaleExamples()
    ensures GetLocale("es-ES") == "es"
    ensures GetLocale("de-DE") == "en"
    ensures GetLocale("") == "en"
  {
    SplitCons("es", '-', "ES");
    SplitNoSep("ES", '-');
    assert "es" + ['-'] + "ES" == "es-ES";
    assert MentionsEsOrEn("es") by {
      assert IsE("es"[0]) && IsSOrN("es"[1]);
    }
    SplitCons("de", '-', "DE");
    SplitNoSep("DE", '-');
    assert "de" + ['-'] + "DE" == "de-DE";
  }

  // ---------------------------------------------------------------------------------------------
  // getMasterDataInfo

  /** `MasterDataQueryVariables`. */
  datatype QueryVariables = QueryVariables(opt_id: string, lang: string)

  /** The master data query as sent: the client it goes through and its variables. */
  datatype WatchQuery = WatchQuery(client: Apollo.Client, variables: QueryVariables)

  /** The cache id the answer to a query is stored under: the entry comes back with
      `__typename` "MasterData" and the query's `opt_id` and `lang`. */
  function AnswerCacheId(v: QueryVariables): (id: Option<string>)
    ensures id == Some(v.opt_id + "." + v.lang)
  {
    Apollo.DataIdFromObject(map[Apollo.Typename := "MasterData", "opt_id" := v.opt_id, "lang" := v.lang])
  }

  /** `MasterDataProvider`. */
  class Provider {
    const apolloProvider: Apollo.Provider

    constructor (apollo: Apollo.Provider)
      ensures apolloProvider == apollo
    {
      apolloProvider := apollo;
    }

    /** `getMasterDataInfo`: watches the master data entry of the key in the browser's locale,
        through the shared client (built on the first request). */
    method GetMasterDataInfo(key: MasterDataKey, language: string) returns (q: WatchQuery)
      modifies apolloProvider`apollo, apolloProvider`inits
      ensures q.variables == QueryVariables(KeyName(key), GetLocale(language))
      ensures apolloProvider.apollo == Some(q.client)
      ensures old(apolloProvider.apollo).Some? ==> q.client == old(apolloProvider.apollo).value
    {
      var client := apolloProvider.GetApolloClient();
      q := WatchQuery(client, QueryVariables(KeyName(key), GetLocale(language)));
    }
  }

  /** Two master data queries share a cache entry exactly when they ask for the same key in
      the same locale. */
  lemma AnswersCachedApart(k1: MasterDataKey, lang1: string, k2: MasterDataKey, lang2: string)
    ensures AnswerCacheId(QueryVariables(KeyName(k1), GetLocale(lang1)))
         == AnswerCacheId(QueryVariables(KeyName(k2), GetLocale(lang2)))
      <==> k1 == k2 && GetLocale(lang1) == GetLocale(lang2)
  {
    Apollo.MasterDataIdInjective(KeyName(k1), GetLocale(lang1), KeyName(k2), GetLocale(lang2));
    KeyNameInjective(k1, k2);
  }
}
