/** The translation endpoints over the store and the export cache: listing
    delegates to the search, export to the cache, and every mutation
    (create, update, soft delete) clears the cache after changing the store.
    Route-model binding and request validation run before the action. */
module TranslationControllers {
  import opened Text
  import opened Schema
  import opened TranslationCache
  import opened TranslationSearch
  import opened Requests

  /** What an action answers. */
  datatype Response =
    | Created(translation: Translation)       // 201 with the new resource
    | Ok(translation: Translation)            // 200 with the resource
    | NoContent                               // 204, empty body
    | Listing(page: Page)                     // 200 with one page
    | Download(document: Export)              // the export document as a download
    | ValidationFailed(errors: set<string>)   // 422 with the failing fields
    | NotFound                                // 404: no live row with the route id

  function TagSet(tags: seq<nat>): set<nat> {
    set t | t in tags
  }

  /** The row a valid payload creates under id: no tags unless the payload
      carries some, and then exactly those. */
  function NewTranslation(p: TranslationPayload, id: nat): (t: Translation)
    requires p.key.Some? && p.value.Some? && p.languageId.Some?
    ensures t.id == id && !t.deleted
    ensures t.key == p.key.value && t.value == p.value.value && t.languageId == p.languageId.value
    ensures p.tags.Some? ==> t.tags == TagSet(p.tags.value)
    ensures p.tags.None? ==> t.tags == {}
  {
    Translation(id, p.key.value, p.value.value, p.languageId.value,
                if p.tags.Some? then TagSet(p.tags.value) else {}, false)
  }

  /** A row after a valid update: key, value and language overwritten, the
      tag set replaced only when the payload carries tags. */
  function Updated(t: Translation, p: TranslationPayload): (u: Translation)
    requires p.key.Some? && p.value.Some? && p.languageId.Some?
    ensures u.id == t.id && u.deleted == t.deleted
    ensures u.key == p.key.value && u.value == p.value.value && u.languageId == p.languageId.value
    ensures p.tags.Some? ==> u.tags == TagSet(p.tags.value)
    ensures p.tags.None? ==> u.tags == t.tags
  {
    var u := t.(key := p.key.value, value := p.value.value, languageId := p.languageId.value);
    if p.tags.Some? then u.(tags := TagSet(p.tags.value)) else u
  }

  // ---------------------------------------------------------------------
  // Accepted mutations keep the schema's invariants
  // ---------------------------------------------------------------------

  lemma CreateKeepsConsistent(db: Database, p: TranslationPayload)
    requires Consistent(db) && TranslationErrors(p, db, None) == {}
    ensures p.key.Some? && p.value.Some? && p.languageId.Some?
    ensures Consistent(db.(rows := db.rows + [NewTranslation(p, db.nextId)], nextId := db.nextId + 1))
  {
    TranslationAcceptedIffValid(p, db, None);
    var t := NewTranslation(p, db.nextId);
    var after := db.(rows := db.rows + [t], nextId := db.nextId + 1);
    var n := |db.rows|;
    assert after.rows[n] == t;
    forall i | 0 <= i < n ensures after.rows[i] == db.rows[i] {
    }
    assert t.tags <= db.tagIds;
  }

  lemma UpdateKeepsConsistent(db: Database, i: nat, p: TranslationPayload)
    requires Consistent(db) && i < |db.rows| && TranslationErrors(p, db, Some(db.rows[i].id)) == {}
    ensures p.key.Some? && p.value.Some? && p.languageId.Some?
    ensures Consistent(db.(rows := db.rows[i := Updated(db.rows[i], p)]))
  {
    TranslationAcceptedIffValid(p, db, Some(db.rows[i].id));
    var u := Updated(db.rows[i], p);
    var after := db.(rows := db.rows[i := u]);
    assert u.tags <= db.tagIds;
    forall j, k | 0 <= j < k < |after.rows|
      ensures after.rows[j].key != after.rows[k].key || after.rows[j].languageId != after.rows[k].languageId
    {
      if j == i {
        assert db.rows[k].id != db.rows[i].id;
      } else if k == i {
        assert db.rows[j].id != db.rows[i].id;
      }
    }
  }

  lemma SoftDeleteKeepsConsistent(db: Database, i: nat)
    requires Consistent(db) && i < |db.rows|
    ensures Consistent(db.(rows := db.rows[i := db.rows[i].(deleted := true)]))
  {
    var after := db.(rows := db.rows[i := db.rows[i].(deleted := true)]);
    assert forall j :: 0 <= j < |after.rows| ==>
      after.rows[j].id == db.rows[j].id && after.rows[j].key == db.rows[j].key
      && after.rows[j].languageId == db.rows[j].languageId && after.rows[j].tags == db.rows[j].tags;
  }

  // ---------------------------------------------------------------------
  // Cached exports agree with the store
  // ---------------------------------------------------------------------

  lemma {:induction false} SelectRowsByElements(rows: seq<Translation>, l1: seq<nat>, t1: seq<nat>,
                                                l2: seq<nat>, t2: seq<nat>)
    requires multiset(l1) == multiset(l2) && multiset(t1) == multiset(t2)
    ensures SelectRows(rows, l1, t1) == SelectRows(rows, l2, t2)
  {
    if rows != [] {
      SelectRowsByElements(rows[1..], l1, t1, l2, t2);
      assert forall x :: x in l1 <==> x in multiset(l1);
      assert forall x :: x in l2 <==> x in multiset(l2);
      assert forall x :: x in t1 <==> x in multiset(t1);
      assert forall x :: x in t2 <==> x in multiset(t2);
      assert Selected(rows[0], l1, t1) == Selected(rows[0], l2, t2);
    }
  }

  /** Filters that share a cache key select the same export. */
  lemma FetchedRespectsKey(db: Database, l1: seq<nat>, t1: seq<nat>, l2: seq<nat>, t2: seq<nat>)
    requires ForeignKeys(db) && CacheKey(l1, t1) == CacheKey(l2, t2)
    ensures Fetched(db, l1, t1) == Fetched(db, l2, t2)
  {
    CacheKeyIdentifiesFilter(l1, t1, l2, t2);
    SelectRowsByElements(db.rows, l1, t1, l2, t2);
  }

  /** Every cached export is what the store yields now for its filter. */
  ghost predicate Fresh(cache: TranslationCacheService, db: Database)
    reads cache
  {
    ForeignKeys(db)
    && forall l: seq<nat>, t: seq<nat> {:trigger CacheKey(l, t)} ::
         CacheKey(l, t) in cache.entries ==> cache.entries[CacheKey(l, t)] == Fetched(db, l, t)
  }

  // ---------------------------------------------------------------------
  // The controller
  // ---------------------------------------------------------------------

  class TranslationController {
    var db: Database
    const cache: TranslationCacheService

    /** The store satisfies its schema, every cached export is registered,
        and every cached export is current. */
    ghost predicate Valid()
      reads this, cache
    {
      Consistent(db) && cache.Covered() && Fresh(cache, db)
    }

    constructor(store: Database, exportCache: TranslationCacheService)
      requires Consistent(store) && exportCache.entries == map[]
      ensures db == store && cache == exportCache && Valid()
    {
      db := store;
      cache := exportCache;
    }

    /** index: one page of the search; the cache is neither read nor cleared. */
    method Index(params: Params, perPage: Option<nat>, page: Option<nat>, driver: string)
      returns (r: Response)
      ensures r == Listing(Paginate(Matching(db.rows, params), perPage, page))
    {
      var translations := Search(db, params, perPage, page, driver);
      r := Listing(translations);
    }

    /** store: validate, create the row (with the payload's tags when given),
        then clear the cache. */
    method Store(p: TranslationPayload) returns (r: Response)
      requires Valid()
      modifies this, cache
      ensures Valid()
      ensures TranslationErrors(p, old(db), None) != {} ==>
                && r == ValidationFailed(TranslationErrors(p, old(db), None))
                && db == old(db)
                && cache.entries == old(cache.entries) && cache.registry == old(cache.registry)
      ensures TranslationErrors(p, old(db), None) == {} ==>
                && p.key.Some? && p.value.Some? && p.languageId.Some?
                && var t := NewTranslation(p, old(db.nextId));
                   && r == Created(t)
                   && db == old(db).(rows := old(db.rows) + [t], nextId := old(db.nextId) + 1)
                   && cache.entries == map[] && cache.registry == None
    {
      var errors := TranslationErrors(p, db, None);
      if errors != {} {
        return ValidationFailed(errors);
      }
      CreateKeepsConsistent(db, p);
      var translation := Translation(db.nextId, p.key.value, p.value.value, p.languageId.value, {}, false);
      if p.tags.Some? {
        translation := translation.(tags := TagSet(p.tags.value));
      }
      db := db.(rows := db.rows + [translation], nextId := db.nextId + 1);
      cache.ClearTranslationCache();
      r := Created(translation);
    }

    /** update: bind the live row, validate with that row ignored by the
        unique rule, overwrite it (tags only when given), clear the cache. */
    method Update(id: nat, p: TranslationPayload) returns (r: Response)
      requires Valid()
      modifies this, cache
      ensures Valid()
      ensures FindLive(old(db.rows), id).None? ==>
                r == NotFound && db == old(db)
                && cache.entries == old(cache.entries) && cache.registry == old(cache.registry)
      ensures FindLive(old(db.rows), id).Some? && TranslationErrors(p, old(db), Some(id)) != {} ==>
                r == ValidationFailed(TranslationErrors(p, old(db), Some(id))) && db == old(db)
                && cache.entries == old(cache.entries) && cache.registry == old(cache.registry)
      ensures FindLive(old(db.rows), id).Some? && TranslationErrors(p, old(db), Some(id)) == {} ==>
                && p.key.Some? && p.value.Some? && p.languageId.Some?
                && var i := FindLive(old(db.rows), id).value;
                   var t := Updated(old(db.rows)[i], p);
                   && r == Ok(t)
                   && db == old(db).(rows := old(db.rows)[i := t])
                   && cache.entries == map[] && cache.registry == None
    {
      var found := FindLive(db.rows, id);
      if found.None? {
        return NotFound;
      }
      var i := found.value;
      var errors := TranslationErrors(p, db, Some(id));
      if errors != {} {
        return ValidationFailed(errors);
      }
      UpdateKeepsConsistent(db, i, p);
      var translation := db.rows[i].(key := p.key.value, value := p.value.value, languageId := p.languageId.value);
      if p.tags.Some? {
        translation := translation.(tags := TagSet(p.tags.value));
      }
      db := db.(rows := db.rows[i := translation]);
      cache.ClearTranslationCache();
      r := Ok(translation);
    }

    /** destroy: bind the live row, mark it deleted (it stays in the table
        with its tags), clear the cache and answer 204. */
    method Destroy(id: nat) returns (r: Response)
      requires Valid()
      modifies this, cache
      ensures Valid()
      ensures FindLive(old(db.rows), id).None? ==>
                r == NotFound && db == old(db)
                && cache.entries == old(cache.entries) && cache.registry == old(cache.registry)
      ensures FindLive(old(db.rows), id).Some? ==>
                var i := FindLive(old(db.rows), id).value;
                && r == NoContent
                && db == old(db).(rows := old(db.rows)[i := old(db.rows)[i].(deleted := true)])
                && cache.entries == map[] && cache.registry == None
    {
      var found := FindLive(db.rows, id);
      if found.None? {
        return NotFound;
      }
      var i := found.value;
      SoftDeleteKeepsConsistent(db, i);
      db := db.(rows := db.rows[i := db.rows[i].(deleted := true)]);
      cache.ClearTranslationCache();
      r := NoContent;
    }

    /** export: the cache's document for the requested languages and tags,
        each defaulting to the empty list. Because every cached document is
        current, the answer is always what the store holds now; the cache
        gains at most this document and the registry at most its key. */
    method ExportTranslations(languages: Option<seq<nat>>, tags: Option<seq<nat>>) returns (r: Response)
      requires Valid()
      modifies cache
      ensures Valid()
      ensures var ls := if languages.Some? then languages.value else [];
              var ts := if tags.Some? then tags.value else [];
              r == Download(Fetched(db, ls, ts))
              && CacheKey(ls, ts) in cache.entries && CacheKey(ls, ts) in cache.RegisteredKeys()
    ensures var ls := if languages.Some? then languages.value else [];
            var ts := if tags.Some? then tags.value else [];
            cache.entries == old(cache.entries)[CacheKey(ls, ts) := Fetched(db, ls, ts)]
            && Elements(cache.RegisteredKeys()) == Elements(old(cache.RegisteredKeys())) + {CacheKey(ls, ts)}
    {
      var ls := if languages.Some? then languages.value else [];
      var ts := if tags.Some? then tags.value else [];
      ghost var key := CacheKey(ls, ts);
      ghost var hit := key in cache.entries;
      if hit {
        assert cache.entries[key] == Fetched(db, ls, ts);
        assert cache.entries[key := Fetched(db, ls, ts)] == cache.entries;
      }
      var translations := cache.GetTranslations(db, ls, ts);
      forall l: seq<nat>, t: seq<nat> | CacheKey(l, t) in cache.entries
        ensures cache.entries[CacheKey(l, t)] == Fetched(db, l, t)
      {
        if CacheKey(l, t) == CacheKey(ls, ts) {
          FetchedRespectsKey(db, l, t, ls, ts);
        }
      }
      r := Download(translations);
    }
  }

  /** A read after a write: whatever was exported before, an export after an
      accepted update reflects the updated row. */
  method ExportAfterUpdate(c: TranslationController, id: nat, p: TranslationPayload,
                           languages: seq<nat>, tags: seq<nat>)
    returns (before: Response, update: Response, after: Response)
    requires c.Valid()
    modifies c, c.cache
    ensures c.Valid()
    ensures before == Download(Fetched(old(c.db), languages, tags))
    ensures after == Download(Fetched(c.db, languages, tags))
    ensures update.Ok? ==> update.translation in c.db.rows
  {
    before := c.ExportTranslations(Some(languages), Some(tags));
    ghost var rows := c.db.rows;
    update := c.Update(id, p);
    if update.Ok? {
      var i := FindLive(rows, id).value;
      assert c.db.rows[i] == update.translation;
    }
    after := c.ExportTranslations(Some(languages), Some(tags));
  }
}
