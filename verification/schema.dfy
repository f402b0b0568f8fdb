/** The persisted entities and the invariants the database schema enforces
    on them: the foreign keys of a translation, the (translation, tag)
    primary key of the join table (a translation's tags are a set) and the
    unique index on (key, language_id). */
module Schema {
  import opened Text

  /** A row of `languages`; its id is the key it is stored under. */
  datatype Language = Language(code: string, name: string)

  /** A row of `translations` together with its tag ids from `translation_tag`.
      `deleted` stands for a non-null `deleted_at` (soft delete). */
  datatype Translation = Translation(
    id: nat,
    key: string,
    value: string,
    languageId: nat,
    tags: set<nat>,
    deleted: bool)

  /** The relational store: languages by id, existing tag ids, translation
      rows in insertion order, and the next auto-increment id. */
  datatype Database = Database(
    languages: map<nat, Language>,
    tagIds: set<nat>,
    rows: seq<Translation>,
    nextId: nat)

  /** Every translation row points at an existing language. */
  predicate ForeignKeys(db: Database) {
    forall i :: 0 <= i < |db.rows| ==> db.rows[i].languageId in db.languages
  }

  /** The schema's invariants over all rows, soft-deleted ones included:
      foreign keys, tags that exist, distinct ids below the next id, and
      the unique index on (key, language_id). */
  predicate Consistent(db: Database) {
    && ForeignKeys(db)
    && (forall i :: 0 <= i < |db.rows| ==> db.rows[i].tags <= db.tagIds && db.rows[i].id < db.nextId)
    && (forall i, j :: 0 <= i < j < |db.rows| ==> db.rows[i].id != db.rows[j].id)
    && (forall i, j :: 0 <= i < j < |db.rows| ==>
          db.rows[i].key != db.rows[j].key || db.rows[i].languageId != db.rows[j].languageId)
  }

  /** Route-model binding: the index of the row with this id that is not
      soft-deleted, if any. */
  function FindLive(rows: seq<Translation>, id: nat): (r: Option<nat>)
    ensures r.Some? ==> r.value < |rows| && rows[r.value].id == id && !rows[r.value].deleted
    ensures r.None? ==> forall i :: 0 <= i < |rows| ==> rows[i].id != id || rows[i].deleted
  {
    if rows == [] then None
    else if rows[0].id == id && !rows[0].deleted then Some(0)
    else
      match FindLive(rows[1..], id)
      case None => None
      case Some(k) => Some(k + 1)
  }
}
