/** The rules of the two form requests, as the set of fields a payload
    fails on. A request is accepted exactly when that set is empty; the
    rules are checked before any controller code runs. */
module Requests {
  import opened Text
  import opened Schema

  /** `required` on a string field: present and not blank after trimming. */
  predicate Required(field: Option<string>) {
    field.Some? && !IsBlank(field.value)
  }

  // ---------------------------------------------------------------------
  // TranslationRequest
  // ---------------------------------------------------------------------

  /** The fields a translation payload may carry; tags is optional. */
  datatype TranslationPayload = TranslationPayload(
    key: Option<string>,
    value: Option<string>,
    languageId: Option<nat>,
    tags: Option<seq<nat>>)

  /** The unique rule's query: some row, soft-deleted ones included, with
      this key and the payload's language id, other than the ignored id.
      Without a language id the query compares with NULL and finds nothing. */
  predicate KeyTaken(rows: seq<Translation>, key: string, languageId: Option<nat>, ignore: Option<nat>) {
    && languageId.Some?
    && rows != []
    && ((rows[0].key == key && rows[0].languageId == languageId.value && ignore != Some(rows[0].id))
        || KeyTaken(rows[1..], key, languageId, ignore))
  }

  /** The fields a translation payload fails on. ignore is the id of the
      translation being updated, None on create. */
  function TranslationErrors(p: TranslationPayload, db: Database, ignore: Option<nat>): (errors: set<string>)
    ensures errors <= {"key", "value", "language_id", "tags"}
  {
    var keyErrors :=
      if !Required(p.key) || KeyTaken(db.rows, p.key.value, p.languageId, ignore) then {"key"} else {};
    var valueErrors := if !Required(p.value) then {"value"} else {};
    var languageErrors :=
      if p.languageId.None? || p.languageId.value !in db.languages then {"language_id"} else {};
    var tagErrors :=
      if p.tags.Some? && exists i :: 0 <= i < |p.tags.value| && p.tags.value[i] !in db.tagIds
      then {"tags"} else {};
    keyErrors + valueErrors + languageErrors + tagErrors
  }

  /** A payload the rules accept, stated row by row: every field present,
      an existing language and existing tags, and no row (soft-deleted or
      not) but the ignored one with the same key and language. */
  predicate ValidTranslation(p: TranslationPayload, db: Database, ignore: Option<nat>) {
    && p.key.Some? && !IsBlank(p.key.value)
    && p.value.Some? && !IsBlank(p.value.value)
    && p.languageId.Some? && p.languageId.value in db.languages
    && (forall i ::
          (0 <= i < |db.rows| && db.rows[i].key == p.key.value && db.rows[i].languageId == p.languageId.value)
          ==> ignore == Some(db.rows[i].id))
    && (p.tags.Some? ==> forall i :: 0 <= i < |p.tags.value| ==> p.tags.value[i] in db.tagIds)
  }

  lemma {:induction false} KeyTakenMeans(rows: seq<Translation>, key: string, languageId: nat, ignore: Option<nat>)
    ensures KeyTaken(rows, key, Some(languageId), ignore)
        <==> exists i :: 0 <= i < |rows| && rows[i].key == key && rows[i].languageId == languageId
                         && ignore != Some(rows[i].id)
  {
    if rows != [] {
      KeyTakenMeans(rows[1..], key, languageId, ignore);
      if KeyTaken(rows[1..], key, Some(languageId), ignore) {
        var i :| 0 <= i < |rows[1..]| && rows[1..][i].key == key && rows[1..][i].languageId == languageId
                 && ignore != Some(rows[1..][i].id);
        assert rows[i + 1] == rows[1..][i];
      }
      if exists i :: 0 <= i < |rows| && rows[i].key == key && rows[i].languageId == languageId
                     && ignore != Some(rows[i].id) {
        var i :| 0 <= i < |rows| && rows[i].key == key && rows[i].languageId == languageId
                 && ignore != Some(rows[i].id);
        if i > 0 {
          assert rows[1..][i - 1] == rows[i];
        }
      }
    }
  }

  /** The rules accept a payload exactly when it is valid. */
  lemma TranslationAcceptedIffValid(p: TranslationPayload, db: Database, ignore: Option<nat>)
    ensures TranslationErrors(p, db, ignore) == {} <==> ValidTranslation(p, db, ignore)
  {
    if p.key.Some? && p.languageId.Some? {
      KeyTakenMeans(db.rows, p.key.value, p.languageId.value, ignore);
    }
  }

  /** key, value and language_id are all required. */
  lemma MissingFieldRejected(p: TranslationPayload, db: Database, ignore: Option<nat>)
    ensures !Required(p.key) ==> "key" in TranslationErrors(p, db, ignore)
    ensures !Required(p.value) ==> "value" in TranslationErrors(p, db, ignore)
    ensures p.languageId.None? ==> "language_id" in TranslationErrors(p, db, ignore)
  {
  }

  /** Any row with the same key and language blocks the key, a soft-deleted
      one included, unless it is the translation being updated. */
  lemma DuplicateKeyRejected(p: TranslationPayload, db: Database, ignore: Option<nat>, i: nat)
    requires Required(p.key) && p.languageId.Some?
    requires i < |db.rows| && db.rows[i].key == p.key.value && db.rows[i].languageId == p.languageId.value
    requires ignore != Some(db.rows[i].id)
    ensures "key" in TranslationErrors(p, db, ignore)
  {
    KeyTakenMeans(db.rows, p.key.value, p.languageId.value, ignore);
  }

  /** Re-saving a translation with its own key and language passes the
      unique rule, since the key's only holder is the ignored row. */
  lemma OwnKeyAccepted(p: TranslationPayload, db: Database, i: nat)
    requires Consistent(db) && i < |db.rows|
    requires Required(p.key) && p.key.value == db.rows[i].key && p.languageId == Some(db.rows[i].languageId)
    ensures "key" !in TranslationErrors(p, db, Some(db.rows[i].id))
  {
    KeyTakenMeans(db.rows, p.key.value, db.rows[i].languageId, Some(db.rows[i].id));
  }

  /** Tags, when given, must all exist. */
  lemma UnknownTagRejected(p: TranslationPayload, db: Database, ignore: Option<nat>, tag: nat)
    requires p.tags.Some? && tag in p.tags.value && tag !in db.tagIds
    ensures "tags" in TranslationErrors(p, db, ignore)
  {
  }

  // ---------------------------------------------------------------------
  // LanguageRequest
  // ---------------------------------------------------------------------

  datatype LanguagePayload = LanguagePayload(code: Option<string>, name: Option<string>)

  const MaxCodeLength := 10
  const MaxNameLength := 255

  /** The unique rule on languages.code, ignoring the route language. */
  predicate CodeTaken(languages: map<nat, Language>, code: string, ignore: Option<nat>) {
    exists id :: id in languages && languages[id].code == code && ignore != Some(id)
  }

  /** The fields a language payload fails on. ignore is the id of the
      language being updated, None on create. */
  function LanguageErrors(p: LanguagePayload, languages: map<nat, Language>, ignore: Option<nat>)
    : (errors: set<string>)
    ensures errors <= {"code", "name"}
  {
    var codeErrors :=
      if !Required(p.code) || |p.code.value| > MaxCodeLength || CodeTaken(languages, p.code.value, ignore)
      then {"code"} else {};
    var nameErrors := if !Required(p.name) || |p.name.value| > MaxNameLength then {"name"} else {};
    codeErrors + nameErrors
  }

  predicate CodesUnique(languages: map<nat, Language>) {
    forall a, b :: a in languages && b in languages && languages[a].code == languages[b].code ==> a == b
  }

  /** A payload the rules accept, stated language by language: a code
      present, not blank, at most 10 characters and held by no language but
      the ignored one, and a name present, not blank and at most 255
      characters. */
  predicate ValidLanguage(p: LanguagePayload, languages: map<nat, Language>, ignore: Option<nat>) {
    && p.code.Some? && !IsBlank(p.code.value) && |p.code.value| <= MaxCodeLength
    && (forall id :: id in languages && languages[id].code == p.code.value ==> ignore == Some(id))
    && p.name.Some? && !IsBlank(p.name.value) && |p.name.value| <= MaxNameLength
  }

  /** The rules accept a language payload exactly when it is valid. */
  lemma LanguageAcceptedIffValid(p: LanguagePayload, languages: map<nat, Language>, ignore: Option<nat>)
    ensures LanguageErrors(p, languages, ignore) == {} <==> ValidLanguage(p, languages, ignore)
  {
  }

  /** A missing, blank or over-long code is rejected. */
  lemma BadCodeRejected(p: LanguagePayload, languages: map<nat, Language>, ignore: Option<nat>)
    requires p.code.None? || IsBlank(p.code.value) || |p.code.value| > MaxCodeLength
    ensures "code" in LanguageErrors(p, languages, ignore)
  {
  }

  /** A missing, blank or over-long name is rejected. */
  lemma BadNameRejected(p: LanguagePayload, languages: map<nat, Language>, ignore: Option<nat>)
    requires p.name.None? || IsBlank(p.name.value) || |p.name.value| > MaxNameLength
    ensures "name" in LanguageErrors(p, languages, ignore)
  {
  }

  /** Updating a language while keeping its own code passes the code rules. */
  lemma OwnCodeAccepted(p: LanguagePayload, languages: map<nat, Language>, id: nat)
    requires CodesUnique(languages) && id in languages
    requires p.code == Some(languages[id].code) && Required(p.code) && |p.code.value| <= MaxCodeLength
    ensures "code" !in LanguageErrors(p, languages, Some(id))
  {
  }

  /** Storing an accepted payload under the ignored id (update) or a fresh
      id (create) keeps language codes unique. */
  lemma AcceptedCodeKeepsUnique(p: LanguagePayload, languages: map<nat, Language>, ignore: Option<nat>, target: nat)
    requires CodesUnique(languages) && LanguageErrors(p, languages, ignore) == {}
    requires ignore.Some? ==> target == ignore.value
    requires ignore.None? ==> target !in languages
    ensures CodesUnique(languages[target := Language(p.code.value, p.name.value)])
  {
    var updated := languages[target := Language(p.code.value, p.name.value)];
    forall a, b | a in updated && b in updated && updated[a].code == updated[b].code
      ensures a == b
    {
      if a != target && b != target {
        assert languages[a].code == languages[b].code;
      }
    }
  }
}
