/** Filtered, paginated listing of translations. The service builds a query
    step by step (one optional condition per request parameter), runs it
    over the non-deleted rows in store order, and cuts out one page. */
module TranslationSearch {
  import opened Text
  import opened Schema

  /** Request input: parameter name -> raw string value. */
  type Params = map<string, string>

  /** Laravel's `filled`: present and not blank after trimming. */
  predicate Filled(params: Params, name: string) {
    name in params && !IsBlank(params[name])
  }

  /** An id column compared with a request string: the string spells the id. */
  predicate IdMatches(param: string, id: nat) {
    IsNumeral(param) && DigitsValue(param) == id
  }

  // ---------------------------------------------------------------------
  // SQL LIKE
  // ---------------------------------------------------------------------

  /** `s LIKE pattern`: `%` matches any run of characters, `_` any single
      character, every other character itself. */
  predicate Like(pattern: string, s: string)
    decreases |pattern| + |s|
  {
    if pattern == [] then s == []
    else if pattern[0] == '%' then Like(pattern[1..], s) || (s != [] && Like(pattern, s[1..]))
    else s != [] && (pattern[0] == '_' || pattern[0] == s[0]) && Like(pattern[1..], s[1..])
  }

  predicate WildcardFree(p: string) {
    '%' !in p && '_' !in p
  }

  /** A pattern without wildcards matches exactly itself. */
  lemma {:induction false} LikeLiteral(p: string, s: string)
    requires WildcardFree(p)
    ensures Like(p, s) <==> s == p
  {
    if p != [] && s != [] {
      LikeLiteral(p[1..], s[1..]);
      assert p == [p[0]] + p[1..];
      assert s == [s[0]] + s[1..];
    }
  }

  /** A lone `%` matches every string. */
  lemma {:induction false} LikeAny(s: string)
    ensures Like("%", s)
  {
    assert "%"[1..] == "";
    if s != [] {
      LikeAny(s[1..]);
    }
  }

  /** `v%` with a wildcard-free v is a prefix test. */
  lemma {:induction false} LikePrefix(v: string, s: string)
    requires WildcardFree(v)
    ensures Like(v + "%", s) <==> IsPrefix(v, s)
  {
    if v == [] {
      assert v + "%" == "%";
      LikeAny(s);
    } else {
      var p := v + "%";
      assert p[0] == v[0];
      assert p[1..] == v[1..] + "%";
      assert v[0] in v;
      if s != [] {
        LikePrefix(v[1..], s[1..]);
        if IsPrefix(v[1..], s[1..]) && v[0] == s[0] {
          assert s[..|v|] == [s[0]] + s[1..][..|v| - 1];
          assert v == [v[0]] + v[1..];
        }
        if IsPrefix(v, s) {
          assert s[1..][..|v| - 1] == s[..|v|][1..];
        }
      }
    }
  }

  /** `%v%` with a wildcard-free v is a substring test. */
  lemma {:induction false} LikeContains(v: string, s: string)
    requires WildcardFree(v)
    ensures Like("%" + v + "%", s) <==> Contains(s, v)
  {
    var p := "%" + v + "%";
    assert p[0] == '%';
    assert p[1..] == v + "%";
    LikePrefix(v, s);
    if s != [] {
      LikeContains(v, s[1..]);
    }
  }

  // ---------------------------------------------------------------------
  // The query builder
  // ---------------------------------------------------------------------

  /** One condition of the query. TagIs stands for the join with
      translation_tag restricted to one tag id, made distinct again. */
  datatype Where =
    | LanguageIs(language: string)
    | TagIs(tag: string)
    | KeyLike(pattern: string)
    | KeyIs(key: string)
    | ValueLike(pattern: string)

  predicate Satisfies(t: Translation, w: Where) {
    match w
    case LanguageIs(p) => IdMatches(p, t.languageId)
    case TagIs(p) => IsNumeral(p) && DigitsValue(p) in t.tags
    case KeyLike(p) => Like(p, t.key)
    case KeyIs(k) => t.key == k
    case ValueLike(p) => Like(p, t.value)
  }

  predicate SatisfiesAll(t: Translation, wheres: seq<Where>) {
    forall i :: 0 <= i < |wheres| ==> Satisfies(t, wheres[i])
  }

  /** The builder the filters add their conditions to. */
  class Query {
    var wheres: seq<Where>

    constructor()
      ensures wheres == []
    {
      wheres := [];
    }
  }

  /** applyLanguageFilter: `language_id = language` when `language` is filled. */
  method ApplyLanguageFilter(query: Query, params: Params)
    modifies query
    ensures Filled(params, "language") ==> query.wheres == old(query.wheres) + [LanguageIs(params["language"])]
    ensures !Filled(params, "language") ==> query.wheres == old(query.wheres)
  {
    if Filled(params, "language") {
      query.wheres := query.wheres + [LanguageIs(params["language"])];
    }
  }

  /** applyTagFilter: join on translation_tag with `tag_id = tag` when `tag`
      is filled. */
  method ApplyTagFilter(query: Query, params: Params)
    modifies query
    ensures Filled(params, "tag") ==> query.wheres == old(query.wheres) + [TagIs(params["tag"])]
    ensures !Filled(params, "tag") ==> query.wheres == old(query.wheres)
  {
    if Filled(params, "tag") {
      var tagId := params["tag"];
      query.wheres := query.wheres + [TagIs(tagId)];
    }
  }

  /** applyKeyFilter: a LIKE match when the key holds `%`, equality
      otherwise. The ends-with-`%` test sits in the branch where the key has
      no `%`, so it never holds. */
  method ApplyKeyFilter(query: Query, params: Params)
    modifies query
    ensures Filled(params, "key") && '%' in params["key"] ==>
              query.wheres == old(query.wheres) + [KeyLike(params["key"])]
    ensures Filled(params, "key") && '%' !in params["key"] ==>
              query.wheres == old(query.wheres) + [KeyIs(params["key"])]
    ensures !Filled(params, "key") ==> query.wheres == old(query.wheres)
  {
    if Filled(params, "key") {
      var key := params["key"];
      if '%' in key {
        query.wheres := query.wheres + [KeyLike(key)];
      } else if |key| > 0 && key[|key| - 1] == '%' {
        assert false;
      } else {
        query.wheres := query.wheres + [KeyIs(key)];
      }
    }
  }

  /** hasFullTextIndex: a placeholder that never finds an index. */
  function HasFullTextIndex(table: string, column: string): bool {
    false
  }

  /** applyContentFilter: `value LIKE %value%` when `value` is filled; the
      full-text branch needs an index that is never reported. */
  method ApplyContentFilter(query: Query, params: Params, driver: string)
    modifies query
    ensures Filled(params, "value") ==>
              query.wheres == old(query.wheres) + [ValueLike("%" + params["value"] + "%")]
    ensures !Filled(params, "value") ==> query.wheres == old(query.wheres)
  {
    if Filled(params, "value") {
      var value := params["value"];
      if driver == "mysql" && HasFullTextIndex("translations", "value") {
        assert false;
      } else {
        query.wheres := query.wheres + [ValueLike("%" + value + "%")];
      }
    }
  }

  /** Running a query: the non-deleted rows satisfying every condition, in
      store order. */
  function Execute(rows: seq<Translation>, wheres: seq<Where>): (r: seq<Translation>)
    ensures forall t :: t in r <==> t in rows && !t.deleted && SatisfiesAll(t, wheres)
  {
    if rows == [] then []
    else
      var rest := Execute(rows[1..], wheres);
      assert forall t :: t in rows <==> t == rows[0] || t in rows[1..];
      if !rows[0].deleted && SatisfiesAll(rows[0], wheres) then [rows[0]] + rest else rest
  }

  // ---------------------------------------------------------------------
  // What a search means
  // ---------------------------------------------------------------------

  /** The rows a request asks for: not soft-deleted, and for each filled
      filter parameter the corresponding condition; absent or blank
      parameters impose nothing, present ones combine conjunctively. */
  predicate Wanted(t: Translation, params: Params) {
    && !t.deleted
    && (Filled(params, "language") ==> IdMatches(params["language"], t.languageId))
    && (Filled(params, "tag") ==> exists tag :: tag in t.tags && IdMatches(params["tag"], tag))
    && (Filled(params, "key") ==>
          if '%' in params["key"] then Like(params["key"], t.key) else t.key == params["key"])
    && (Filled(params, "value") ==> Like("%" + params["value"] + "%", t.value))
  }

  /** The wanted rows in store order. */
  function Matching(rows: seq<Translation>, params: Params): (r: seq<Translation>)
    ensures forall t :: t in r <==> t in rows && Wanted(t, params)
    ensures |r| <= |rows|
  {
    if rows == [] then []
    else
      var rest := Matching(rows[1..], params);
      assert forall t :: t in rows <==> t == rows[0] || t in rows[1..];
      if Wanted(rows[0], params) then [rows[0]] + rest else rest
  }

  lemma SatisfiesAllAppend(t: Translation, a: seq<Where>, b: seq<Where>)
    ensures SatisfiesAll(t, a + b) <==> SatisfiesAll(t, a) && SatisfiesAll(t, b)
  {
    if SatisfiesAll(t, a) && SatisfiesAll(t, b) {
      forall i | 0 <= i < |a + b| ensures Satisfies(t, (a + b)[i]) {
        if i < |a| { assert (a + b)[i] == a[i]; } else { assert (a + b)[i] == b[i - |a|]; }
      }
    }
    if SatisfiesAll(t, a + b) {
      forall i | 0 <= i < |a| ensures Satisfies(t, a[i]) { assert (a + b)[i] == a[i]; }
      forall i | 0 <= i < |b| ensures Satisfies(t, b[i]) { assert (a + b)[|a| + i] == b[i]; }
    }
  }

  lemma SatisfiesOne(t: Translation, w: Where)
    ensures SatisfiesAll(t, [w]) <==> Satisfies(t, w)
  {
    assert [w][0] == w;
  }

  /** The conditions the four filters contribute, one at a time. */
  lemma {:induction false} SatisfiesOptional(t: Translation, w: seq<Where>, on: bool, c: Where)
    requires w == (if on then [c] else [])
    ensures SatisfiesAll(t, w) <==> (on ==> Satisfies(t, c))
  {
    if on { SatisfiesOne(t, c); }
  }

  lemma TagConditions(t: Translation, p: string)
    ensures Satisfies(t, TagIs(p)) <==> exists tag :: tag in t.tags && IdMatches(p, tag)
  {
    if Satisfies(t, TagIs(p)) {
      assert IdMatches(p, DigitsValue(p));
    }
  }

  /** The conditions the filters add mean exactly the wanted rows. */
  lemma BuiltConditionsMeanWanted(params: Params, w1: seq<Where>, w2: seq<Where>,
                                  w3: seq<Where>, w4: seq<Where>, t: Translation)
    requires w1 == (if Filled(params, "language") then [LanguageIs(params["language"])] else [])
    requires w2 == (if Filled(params, "tag") then [TagIs(params["tag"])] else [])
    requires w3 == (if !Filled(params, "key") then []
                    else if '%' in params["key"] then [KeyLike(params["key"])]
                    else [KeyIs(params["key"])])
    requires w4 == (if Filled(params, "value") then [ValueLike("%" + params["value"] + "%")] else [])
    ensures !t.deleted && SatisfiesAll(t, w1 + w2 + w3 + w4) <==> Wanted(t, params)
  {
    SatisfiesAllAppend(t, w1 + w2 + w3, w4);
    SatisfiesAllAppend(t, w1 + w2, w3);
    SatisfiesAllAppend(t, w1, w2);
    if Filled(params, "language") {
      SatisfiesOptional(t, w1, true, LanguageIs(params["language"]));
    }
    if Filled(params, "tag") {
      SatisfiesOptional(t, w2, true, TagIs(params["tag"]));
      TagConditions(t, params["tag"]);
    }
    if Filled(params, "key") {
      var c := if '%' in params["key"] then KeyLike(params["key"]) else KeyIs(params["key"]);
      SatisfiesOptional(t, w3, true, c);
    }
    if Filled(params, "value") {
      SatisfiesOptional(t, w4, true, ValueLike("%" + params["value"] + "%"));
    }
  }

  lemma {:induction false} ExecuteIsMatching(rows: seq<Translation>, wheres: seq<Where>, params: Params)
    requires forall t: Translation :: (!t.deleted && SatisfiesAll(t, wheres)) <==> Wanted(t, params)
    ensures Execute(rows, wheres) == Matching(rows, params)
  {
    if rows != [] {
      ExecuteIsMatching(rows[1..], wheres, params);
    }
  }

  // ---------------------------------------------------------------------
  // Pagination
  // ---------------------------------------------------------------------

  const DefaultPerPage: nat := 15

  /** One page of results and the total over all pages. */
  datatype Page = Page(items: seq<Translation>, total: nat, perPage: nat, currentPage: nat)

  /** The page size: the request's, unless absent or zero. */
  function PageSize(perPage: Option<nat>): (n: nat)
    ensures n >= 1
    ensures perPage.Some? && perPage.value > 0 ==> n == perPage.value
    ensures perPage.None? || perPage.value == 0 ==> n == DefaultPerPage
  {
    if perPage.Some? && perPage.value > 0 then perPage.value else DefaultPerPage
  }

  /** The page number: the request's, unless absent or zero. */
  function PageNumber(page: Option<nat>): (n: nat)
    ensures n >= 1
    ensures page.Some? && page.value > 0 ==> n == page.value
    ensures page.None? || page.value == 0 ==> n == 1
  {
    if page.Some? && page.value > 0 then page.value else 1
  }

  /** Where a page starts among the matching rows. */
  function PageStart(size: nat, number: nat): nat
    requires number >= 1
  {
    (number - 1) * size
  }

  /** At most size rows of matches from position start on. */
  function Window(matches: seq<Translation>, start: nat, size: nat): (w: seq<Translation>)
    ensures |w| <= size
    ensures forall k :: 0 <= k < |w| ==> start + k < |matches| && w[k] == matches[start + k]
    ensures start + size <= |matches| ==> |w| == size
    ensures start < |matches| ==> |w| > 0 || size == 0
  {
    var from := if start < |matches| then start else |matches|;
    var to := if start + size < |matches| then start + size else |matches|;
    matches[from..to]
  }

  /** The page holding the rows from (page - 1) * perPage on. */
  function Paginate(matches: seq<Translation>, perPage: Option<nat>, page: Option<nat>): (r: Page)
    ensures r.total == |matches|
    ensures r.perPage == PageSize(perPage) && r.currentPage == PageNumber(page)
    ensures r.items == Window(matches, PageStart(r.perPage, r.currentPage), r.perPage)
  {
    var size, number := PageSize(perPage), PageNumber(page);
    Page(Window(matches, PageStart(size, number), size), |matches|, size, number)
  }

  /** Every listed row is one of the matches. */
  lemma PageItemsMatch(matches: seq<Translation>, perPage: Option<nat>, page: Option<nat>)
    ensures forall t :: t in Paginate(matches, perPage, page).items ==> t in matches
  {
    var r := Paginate(matches, perPage, page);
    forall t | t in r.items ensures t in matches {
      var k :| 0 <= k < |r.items| && r.items[k] == t;
      assert t == matches[PageStart(r.perPage, r.currentPage) + k];
    }
  }

  /** The page and the place on it of the row at position j. */
  function PageOf(j: nat, size: nat): (r: (nat, nat))
    requires size >= 1
    ensures r.0 >= 1 && r.1 < size && PageStart(size, r.0) + r.1 == j
  {
    var q, m := j / size, j % size;
    assert q * size + m == j;
    (q + 1, m)
  }

  /** Every matching row is on exactly the page its position says: row j
      is item j % perPage of page j / perPage + 1. */
  lemma PageCoversRow(matches: seq<Translation>, perPage: Option<nat>, j: nat)
    requires j < |matches|
    ensures var (p, k) := PageOf(j, PageSize(perPage));
            var r := Paginate(matches, perPage, Some(p));
            k < |r.items| && r.items[k] == matches[j]
  {
  }

  /** search: build the query filter by filter, run it, and paginate with
      per_page defaulting to 15 and page to 1. */
  method Search(db: Database, params: Params, perPage: Option<nat>, page: Option<nat>, driver: string)
    returns (result: Page)
    ensures result == Paginate(Matching(db.rows, params), perPage, page)
  {
    var query := new Query();
    ghost var w1 := if Filled(params, "language") then [LanguageIs(params["language"])] else [];
    ghost var w2 := if Filled(params, "tag") then [TagIs(params["tag"])] else [];
    ghost var w3 := if !Filled(params, "key") then []
                    else if '%' in params["key"] then [KeyLike(params["key"])]
                    else [KeyIs(params["key"])];
    ghost var w4 := if Filled(params, "value") then [ValueLike("%" + params["value"] + "%")] else [];
    ApplyLanguageFilter(query, params);
    ApplyTagFilter(query, params);
    ApplyKeyFilter(query, params);
    ApplyContentFilter(query, params, driver);
    assert query.wheres == w1 + w2 + w3 + w4;
    forall t: Translation ensures (!t.deleted && SatisfiesAll(t, query.wheres)) <==> Wanted(t, params) {
      BuiltConditionsMeanWanted(params, w1, w2, w3, w4, t);
    }
    ExecuteIsMatching(db.rows, query.wheres, params);
    result := Paginate(Execute(db.rows, query.wheres), perPage, page);
  }

  // ---------------------------------------------------------------------
  // Properties of a search
  // ---------------------------------------------------------------------

  /** Every listed row is a wanted row of the store. */
  lemma SearchSound(rows: seq<Translation>, params: Params, perPage: Option<nat>, page: Option<nat>)
    ensures forall t :: t in Paginate(Matching(rows, params), perPage, page).items ==>
              t in rows && Wanted(t, params)
  {
    PageItemsMatch(Matching(rows, params), perPage, page);
  }

  lemma RowOnSomePage(matches: seq<Translation>, perPage: Option<nat>, t: Translation)
    requires t in matches
    ensures exists p :: p >= 1 && t in Paginate(matches, perPage, Some(p)).items
  {
    var j :| 0 <= j < |matches| && matches[j] == t;
    var (p, k) := PageOf(j, PageSize(perPage));
    PageCoversRow(matches, perPage, j);
    assert Paginate(matches, perPage, Some(p)).items[k] == t;
  }

  /** Every wanted row of the store is listed on some page. */
  lemma SearchComplete(rows: seq<Translation>, params: Params, perPage: Option<nat>, t: Translation)
    requires t in rows && Wanted(t, params)
    ensures exists p :: p >= 1 && t in Paginate(Matching(rows, params), perPage, Some(p)).items
  {
    RowOnSomePage(Matching(rows, params), perPage, t);
  }

  /** The live rows, in store order. */
  function Live(rows: seq<Translation>): (r: seq<Translation>)
    ensures forall t :: t in r <==> t in rows && !t.deleted
  {
    if rows == [] then []
    else
      var rest := Live(rows[1..]);
      assert forall t :: t in rows <==> t == rows[0] || t in rows[1..];
      if !rows[0].deleted then [rows[0]] + rest else rest
  }

  /** With no filter filled, the search lists every live row, in order. */
  lemma {:induction false} NoFilterListsAllLive(rows: seq<Translation>, params: Params)
    requires !Filled(params, "language") && !Filled(params, "tag")
    requires !Filled(params, "key") && !Filled(params, "value")
    ensures Matching(rows, params) == Live(rows)
  {
    if rows != [] {
      NoFilterListsAllLive(rows[1..], params);
    }
  }

  /** Only `language`, `tag`, `key` and `value` select rows: any other
      parameter (`language_id`, `tags`, `search`, ...) is ignored. */
  lemma {:induction false} OtherParamsIgnored(rows: seq<Translation>, params: Params, name: string, v: string)
    requires name !in {"language", "tag", "key", "value"}
    ensures Matching(rows, params[name := v]) == Matching(rows, params)
  {
    if rows != [] {
      OtherParamsIgnored(rows[1..], params, name, v);
      assert Wanted(rows[0], params[name := v]) == Wanted(rows[0], params);
    }
  }

  /** A filled `language` restricts every listed row to that language id. */
  lemma LanguageFilterRestricts(rows: seq<Translation>, params: Params, perPage: Option<nat>, page: Option<nat>)
    requires Filled(params, "language")
    ensures forall t :: t in Paginate(Matching(rows, params), perPage, page).items ==>
              IdMatches(params["language"], t.languageId)
  {
    PageItemsMatch(Matching(rows, params), perPage, page);
  }

  /** Without `%`, the key filter is equality; with a trailing `%` after a
      wildcard-free stem, it is a prefix search. Both directions: among the
      rows the other filters keep, exactly those with the key, or with a key
      starting with the stem, are wanted. */
  lemma KeyFilterMeaning(t: Translation, params: Params)
    requires Filled(params, "key")
    ensures '%' !in params["key"] ==>
              (Wanted(t, params) <==> Wanted(t, params - {"key"}) && t.key == params["key"])
    ensures var k := params["key"];
            |k| > 0 && k[|k| - 1] == '%' && WildcardFree(k[..|k| - 1]) ==>
              (Wanted(t, params) <==> Wanted(t, params - {"key"}) && IsPrefix(k[..|k| - 1], t.key))
  {
    var k := params["key"];
    var others := params - {"key"};
    assert !Filled(others, "key");
    assert forall name :: name != "key" ==> Filled(others, name) == Filled(params, name);
    assert forall name :: name != "key" && name in params ==> others[name] == params[name];
    if |k| > 0 && k[|k| - 1] == '%' && WildcardFree(k[..|k| - 1]) {
      assert k == k[..|k| - 1] + "%";
      LikePrefix(k[..|k| - 1], t.key);
    }
  }

  /** The value filter is a substring test when the value has no wildcard:
      among the rows the other filters keep, exactly those whose value
      contains it are wanted. */
  lemma ValueFilterIsSubstring(t: Translation, params: Params)
    requires Filled(params, "value") && WildcardFree(params["value"])
    ensures Wanted(t, params) <==> Wanted(t, params - {"value"}) && Contains(t.value, params["value"])
  {
    var others := params - {"value"};
    assert !Filled(others, "value");
    assert forall name :: name != "value" ==> Filled(others, name) == Filled(params, name);
    assert forall name :: name != "value" && name in params ==> others[name] == params[name];
    LikeContains(params["value"], t.value);
  }

  predicate DistinctIds(rows: seq<Translation>) {
    forall i, j :: 0 <= i < j < |rows| ==> rows[i].id != rows[j].id
  }

  lemma {:induction false} MatchingKeepsDistinctIds(rows: seq<Translation>, params: Params)
    requires DistinctIds(rows)
    ensures DistinctIds(Matching(rows, params))
  {
    if rows != [] {
      MatchingKeepsDistinctIds(rows[1..], params);
      var rest := Matching(rows[1..], params);
      if Wanted(rows[0], params) {
        var r := [rows[0]] + rest;
        forall i, j | 0 <= i < j < |r| ensures r[i].id != r[j].id {
          if i == 0 {
            assert r[j] == rest[j - 1] && r[j] in rows[1..];
          } else {
            assert r[i] == rest[i - 1] && r[j] == rest[j - 1];
          }
        }
      }
    }
  }

  /** A page of rows with distinct ids holds distinct ids. */
  lemma PageKeepsDistinctIds(matches: seq<Translation>, perPage: Option<nat>, page: Option<nat>)
    requires DistinctIds(matches)
    ensures DistinctIds(Paginate(matches, perPage, page).items)
  {
    var r := Paginate(matches, perPage, page);
    var offset := PageStart(r.perPage, r.currentPage);
    forall i, j | 0 <= i < j < |r.items| ensures r.items[i].id != r.items[j].id {
      assert r.items[i] == matches[offset + i] && r.items[j] == matches[offset + j];
    }
  }

  /** With the tag filter every listed row carries the tag, and no row is
      listed twice on a page. */
  lemma TagFilterDistinct(db: Database, params: Params, perPage: Option<nat>, page: Option<nat>)
    requires Consistent(db) && Filled(params, "tag")
    ensures var items := Paginate(Matching(db.rows, params), perPage, page).items;
            && (forall t :: t in items ==> exists tag :: tag in t.tags && IdMatches(params["tag"], tag))
            && DistinctIds(items)
  {
    MatchingKeepsDistinctIds(db.rows, params);
    PageKeepsDistinctIds(Matching(db.rows, params), perPage, page);
    PageItemsMatch(Matching(db.rows, params), perPage, page);
  }
}
