/** The bulk translation seeder: 100000 records spread over the languages,
    each key made unique per language with a counter suffix, written in
    batches of 1000, with one to three tag relations queued per inserted
    translation and written once 1000 have gathered, plus the remainder at
    the end. The random choices and the database are parameters. */
module TranslationsSeeding {
  import opened Text

  const BatchSize: nat := 1000
  const TotalRecords: nat := 100000
  const BatchCount: nat := TotalRecords / BatchSize

  /** A language as the seeder reads it: its id and code. */
  datatype LanguageRow = LanguageRow(id: nat, code: string)

  /** A translation row as the seeder writes it. */
  datatype Record = Record(key: string, value: string, languageId: nat)

  /** A translation_tag row. */
  datatype Relation = Relation(translationId: nat, tagId: nat)

  datatype Outcome = AlreadySeeded | NoLanguages | Seeded

  // ---------------------------------------------------------------------
  // Keys
  // ---------------------------------------------------------------------

  /** "key_" followed by i / |languages| rounded down. */
  function BaseKey(i: nat, languageCount: nat): string
    requires languageCount > 0
  {
    "key_" + NatToString(i / languageCount)
  }

  /** The n-th key tried for a base: the base itself, then base_1, base_2, ... */
  function Candidate(base: string, n: nat): string {
    if n == 0 then base else base + "_" + NatToString(n)
  }

  /** Different suffix counts give different keys. */
  lemma CandidateInjective(base: string, a: nat, b: nat)
    ensures Candidate(base, a) == Candidate(base, b) <==> a == b
  {
    if a != b && a != 0 && b != 0 && Candidate(base, a) == Candidate(base, b) {
      var c := Candidate(base, a);
      assert NatToString(a) == c[|base| + 1..];
      assert NatToString(b) == c[|base| + 1..];
      NatToStringInjective(a, b);
    }
  }

  function CandidatesBelow(base: string, n: nat): set<string> {
    set m | 0 <= m < n :: Candidate(base, m)
  }

  lemma CandidateIsNew(base: string, n: nat)
    ensures Candidate(base, n) !in CandidatesBelow(base, n)
    ensures CandidatesBelow(base, n + 1) == CandidatesBelow(base, n) + {Candidate(base, n)}
  {
    forall m | 0 <= m < n ensures Candidate(base, m) != Candidate(base, n) {
      CandidateInjective(base, m, n);
    }
  }

  /** The first counter from n on whose candidate is not used, when every
      candidate below n is used. It exists because every candidate skipped
      is a different member of the finite set of used keys. */
  function FirstFreeFrom(base: string, used: set<string>, n: nat): (m: nat)
    requires CandidatesBelow(base, n) <= used
    ensures n <= m && Candidate(base, m) !in used && CandidatesBelow(base, m) <= used
    decreases |used - CandidatesBelow(base, n)|
  {
    if Candidate(base, n) !in used then n
    else
      CandidateIsNew(base, n);
      assert used - CandidatesBelow(base, n + 1) < used - CandidatesBelow(base, n);
      FirstFreeFrom(base, used, n + 1)
  }

  /** The counter of the key the inner loop settles on. */
  function FirstFree(base: string, used: set<string>): nat {
    assert CandidatesBelow(base, 0) == {};
    FirstFreeFrom(base, used, 0)
  }

  /** The key the inner loop settles on: base when it is free, otherwise
      base_n for the least n that is free. */
  function FreeKey(base: string, used: set<string>): string {
    Candidate(base, FirstFree(base, used))
  }

  /** A counter whose candidate is free while every earlier one is used is
      the one FirstFree names: the stopping point is unique. */
  lemma FirstFreeIsLeast(base: string, used: set<string>, m: nat)
    requires Candidate(base, m) !in used && CandidatesBelow(base, m) <= used
    ensures m == FirstFree(base, used)
  {

  }

  /** The key is free and the base itself when the base is free. */
  lemma FreeKeyIsFree(base: string, used: set<string>)
    ensures FreeKey(base, used) !in used
    ensures base !in used ==> FreeKey(base, used) == base
  {
    if base !in used {
      assert CandidatesBelow(base, 0) == {};
      FirstFreeIsLeast(base, used, 0);
    }
  }

  /** The inner while loop: try the base, then base_1, base_2, ... and stop
      at the first key not yet used for the language. It ends because every
      key it skips is a different member of the finite set of used keys. */
  method NextFreeKey(base: string, used: set<string>) returns (key: string, n: nat)
    ensures key !in used && key == Candidate(base, n)
    ensures CandidatesBelow(base, n) <= used
    ensures n == FirstFree(base, used) && key == FreeKey(base, used)
  {
    key := base;
    var counter: nat := 1;
    ghost var seen: set<string> := {};
    while key in used
      invariant counter >= 1 && key == Candidate(base, counter - 1)
      invariant seen == CandidatesBelow(base, counter - 1) && seen <= used
      decreases |used - seen|
    {
      CandidateIsNew(base, counter - 1);
      assert used - (seen + {key}) < used - seen;
      seen := seen + {key};
      key := base + "_" + NatToString(counter);
      counter := counter + 1;
    }
    n := counter - 1;
    FirstFreeIsLeast(base, used, n);
  }

  /** The keys already generated for a language. */
  function UsedFor(used: map<nat, set<string>>, languageId: nat): set<string> {
    if languageId in used then used[languageId] else {}
  }

  /** No two records share both key and language. */
  predicate DistinctPairs(records: seq<Record>) {
    forall j, k :: 0 <= j < k < |records| ==>
      records[j].key != records[k].key || records[j].languageId != records[k].languageId
  }

  /** Every record's key is registered as used for its language. */
  predicate Registered(records: seq<Record>, used: map<nat, set<string>>) {
    forall j :: 0 <= j < |records| ==> records[j].key in UsedFor(used, records[j].languageId)
  }

  lemma AddFreshRecord(records: seq<Record>, used: map<nat, set<string>>, r: Record)
    requires DistinctPairs(records) && Registered(records, used)
    requires r.key !in UsedFor(used, r.languageId)
    ensures DistinctPairs(records + [r])
    ensures Registered(records + [r], used[r.languageId := UsedFor(used, r.languageId) + {r.key}])
  {
    var after := records + [r];
    forall j, k | 0 <= j < k < |after|
      ensures after[j].key != after[k].key || after[j].languageId != after[k].languageId
    {
      if k == |records| {
        assert after[j] == records[j];
      } else {
        assert after[j] == records[j] && after[k] == records[k];
      }
    }
  }

  lemma DistinctPrefix(a: seq<Record>, b: seq<Record>)
    requires DistinctPairs(a + b)
    ensures DistinctPairs(a)
  {
    forall j, k | 0 <= j < k < |a| ensures a[j].key != a[k].key || a[j].languageId != a[k].languageId {
      assert (a + b)[j] == a[j] && (a + b)[k] == a[k];
    }
  }

  lemma RegisteredPrefix(a: seq<Record>, b: seq<Record>, used: map<nat, set<string>>)
    requires Registered(a + b, used)
    ensures Registered(a, used)
  {
    forall j | 0 <= j < |a| ensures a[j].key in UsedFor(used, a[j].languageId) {
      assert (a + b)[j] == a[j];
    }
  }

  // ---------------------------------------------------------------------
  // The records a run generates and the ones that reach the table
  // ---------------------------------------------------------------------

  /** The run's random language choices: one index into the languages per
      record, and at least one language to choose from. */
  predicate ChoicesValid(languages: seq<LanguageRow>, choice: seq<nat>) {
    && |languages| > 0
    && |choice| == TotalRecords
    && forall i :: 0 <= i < |choice| ==> choice[i] < |languages|
  }

  /** The keys generated so far for a language. */
  function KeysOf(records: seq<Record>, languageId: nat): set<string> {
    if records == [] then {}
    else
      var last := records[|records| - 1];
      KeysOf(records[..|records| - 1], languageId) + (if last.languageId == languageId then {last.key} else {})
  }

  lemma {:induction false} KeysOfMeans(records: seq<Record>, languageId: nat, key: string)
    ensures key in KeysOf(records, languageId)
        <==> exists j :: 0 <= j < |records| && records[j].languageId == languageId && records[j].key == key
  {
    if records != [] {
      var front := records[..|records| - 1];
      KeysOfMeans(front, languageId, key);
      if exists j :: 0 <= j < |front| && front[j].languageId == languageId && front[j].key == key {
        var j :| 0 <= j < |front| && front[j].languageId == languageId && front[j].key == key;
        assert records[j] == front[j];
      }
      if exists j :: 0 <= j < |records| && records[j].languageId == languageId && records[j].key == key {
        var j :| 0 <= j < |records| && records[j].languageId == languageId && records[j].key == key;
        if j < |front| {
          assert front[j] == records[j];
        }
      }
    }
  }

  /** The first count records the loop generates, those of failed batches
      included: record i is in the language languages[choice[i]], its key is
      the first candidate for BaseKey(i) not generated before for that
      language, and its value names the key and the language code. */
  function Generate(languages: seq<LanguageRow>, choice: seq<nat>, count: nat): (records: seq<Record>)
    requires ChoicesValid(languages, choice) && count <= TotalRecords
    ensures |records| == count
  {
    if count == 0 then []
    else
      var earlier := Generate(languages, choice, count - 1);
      var language := languages[choice[count - 1]];
      var key := FreeKey(BaseKey(count - 1, |languages|), KeysOf(earlier, language.id));
      earlier + [Record(key, "Translation value " + key + " in " + language.code, language.id)]
  }

  /** Record j is in the language chosen for it, its value names its key and
      that language's code, and its key is BaseKey(j) unless that key was
      generated before for the language, and then BaseKey(j) with a suffix. */
  lemma {:induction false} GeneratedRecord(languages: seq<LanguageRow>, choice: seq<nat>, count: nat, j: nat)
    requires ChoicesValid(languages, choice) && j < count <= TotalRecords
    ensures var r := Generate(languages, choice, count)[j];
            var earlier := Generate(languages, choice, j);
            && r.languageId == languages[choice[j]].id
            && r.value == "Translation value " + r.key + " in " + languages[choice[j]].code
            && r.key == FreeKey(BaseKey(j, |languages|), KeysOf(earlier, r.languageId))
            && (BaseKey(j, |languages|) !in KeysOf(earlier, r.languageId) ==> r.key == BaseKey(j, |languages|))
  {
    if j < count - 1 {
      GeneratedRecord(languages, choice, count - 1, j);
      assert Generate(languages, choice, count)[j] == Generate(languages, choice, count - 1)[j];
    } else {
      var r := Generate(languages, choice, count)[j];
      FreeKeyIsFree(BaseKey(j, |languages|), KeysOf(Generate(languages, choice, j), r.languageId));
    }
  }

  /** No two generated records share key and language. */
  lemma {:induction false} GeneratedPairsDistinct(languages: seq<LanguageRow>, choice: seq<nat>, count: nat)
    requires ChoicesValid(languages, choice) && count <= TotalRecords
    ensures DistinctPairs(Generate(languages, choice, count))
  {
    if count > 0 {
      GeneratedPairsDistinct(languages, choice, count - 1);
      var earlier := Generate(languages, choice, count - 1);
      var records := Generate(languages, choice, count);
      var r := records[count - 1];
      assert records == earlier + [r];
      FreeKeyIsFree(BaseKey(count - 1, |languages|), KeysOf(earlier, r.languageId));
      KeysOfMeans(earlier, r.languageId, r.key);
      forall j, k | 0 <= j < k < count
        ensures records[j].key != records[k].key || records[j].languageId != records[k].languageId
      {
        assert records[j] == earlier[j];
        if k < count - 1 {
          assert records[k] == earlier[k];
        }
      }
    }
  }

  /** The records of the first k batches whose insert succeeds: batch b
      holds records b * 1000 up to b * 1000 + 999 and is inserted at loop
      index b * 1000 + 999, where the insert fails when that index is in
      failAt. */
  function Survivors(all: seq<Record>, failAt: set<nat>, k: nat): (r: seq<Record>)
    requires k * BatchSize <= |all|
    ensures |r| <= k * BatchSize
  {
    if k == 0 then []
    else
      Survivors(all, failAt, k - 1)
      + (if k * BatchSize - 1 in failAt then [] else all[(k - 1) * BatchSize..k * BatchSize])
  }

  /** The batches of a prefix do not depend on what follows it. */
  lemma {:induction false} SurvivorsPrefix(all: seq<Record>, more: seq<Record>, failAt: set<nat>, k: nat)
    requires k * BatchSize <= |all|
    ensures Survivors(all + more, failAt, k) == Survivors(all, failAt, k)
  {
    if k > 0 {
      SurvivorsPrefix(all, more, failAt, k - 1);
      assert (all + more)[(k - 1) * BatchSize..k * BatchSize] == all[(k - 1) * BatchSize..k * BatchSize];
    }
  }

  /** Without failures every generated record of the first k batches is
      inserted, in order. */
  lemma {:induction false} NoFailureInsertsAll(all: seq<Record>, k: nat)
    requires k * BatchSize <= |all|
    ensures Survivors(all, {}, k) == all[..k * BatchSize]
  {
    if k > 0 {
      NoFailureInsertsAll(all, k - 1);
      assert all[..k * BatchSize] == all[..(k - 1) * BatchSize] + all[(k - 1) * BatchSize..k * BatchSize];
    }
  }

  /** A failing batch loses exactly its own records: every inserted record
      was generated, so the inserted records are among the generated ones. */
  lemma {:induction false} SurvivorsAreGenerated(all: seq<Record>, failAt: set<nat>, k: nat)
    requires k * BatchSize <= |all|
    ensures forall r :: r in Survivors(all, failAt, k) ==> r in all
  {
    if k > 0 {
      SurvivorsAreGenerated(all, failAt, k - 1);
    }
  }

  /** Where the loop stands after generating i records, k batches flushed:
      the generated records are those Generate describes, the pending batch
      is what came after the flushed batches, the inserted records are the
      survivors of the flushed batches, and the used keys per language are
      the generated ones. */
  ghost predicate Generation(languages: seq<LanguageRow>, choice: seq<nat>, failAt: set<nat>, i: nat, k: nat,
                             generated: seq<Record>, batch: seq<Record>, used: map<nat, set<string>>,
                             inserted: seq<Record>)
    requires ChoicesValid(languages, choice)
  {
    && i <= TotalRecords
    && generated == Generate(languages, choice, i)
    && i == k * BatchSize + |batch|
    && batch == generated[k * BatchSize..]
    && inserted == Survivors(generated, failAt, k)
    && forall languageId :: UsedFor(used, languageId) == KeysOf(generated, languageId)
  }

  /** 100000 is a multiple of 1000, so the batch pending at the last index
      is a full one. */
  lemma LastBatchIsFull(i: nat, k: nat, pending: nat)
    requires i == k * BatchSize + pending && 1 <= pending <= BatchSize && i == TotalRecords
    ensures pending == BatchSize
  {
    assert k == BatchCount - 1;
  }

  /** When the loop has run to the end with nothing left over, the records
      inserted are the survivors of all 100 batches, and all records when no
      batch failed. */
  lemma GenerationDone(languages: seq<LanguageRow>, choice: seq<nat>, failAt: set<nat>, k: nat,
                       generated: seq<Record>, used: map<nat, set<string>>, inserted: seq<Record>)
    requires ChoicesValid(languages, choice)
    requires Generation(languages, choice, failAt, TotalRecords, k, generated, [], used, inserted)
    ensures inserted == Survivors(Generate(languages, choice, TotalRecords), failAt, BatchCount)
    ensures failAt == {} ==> inserted == Generate(languages, choice, TotalRecords)
  {
    assert k == BatchCount;
    if failAt == {} {
      NoFailureInsertsAll(generated, k);
      assert generated[..k * BatchSize] == generated;
    }
  }

  /** The next generated record is the one built from the used keys of its
      language. */
  lemma GenerateAppend(languages: seq<LanguageRow>, choice: seq<nat>, i: nat, r: Record)
    requires ChoicesValid(languages, choice) && i < TotalRecords
    requires r.languageId == languages[choice[i]].id
    requires r.key == FreeKey(BaseKey(i, |languages|), KeysOf(Generate(languages, choice, i), r.languageId))
    requires r.value == "Translation value " + r.key + " in " + languages[choice[i]].code
    ensures Generate(languages, choice, i + 1) == Generate(languages, choice, i) + [r]
  {
  }

  /** Registering a generated key keeps the used keys equal to the generated ones. */
  lemma UsedAppend(generated: seq<Record>, used: map<nat, set<string>>, r: Record)
    requires forall languageId :: UsedFor(used, languageId) == KeysOf(generated, languageId)
    ensures forall languageId ::
              UsedFor(used[r.languageId := UsedFor(used, r.languageId) + {r.key}], languageId)
              == KeysOf(generated + [r], languageId)
  {
    assert (generated + [r])[..|generated + [r]| - 1] == generated;
  }

  /** Generating record i: its key is the free key for its base among the
      used keys of its language. */
  lemma GenerationStep(languages: seq<LanguageRow>, choice: seq<nat>, failAt: set<nat>, i: nat, k: nat,
                       generated: seq<Record>, batch: seq<Record>, used: map<nat, set<string>>,
                       inserted: seq<Record>, r: Record)
    requires ChoicesValid(languages, choice) && i < TotalRecords
    requires Generation(languages, choice, failAt, i, k, generated, batch, used, inserted)
    requires r.languageId == languages[choice[i]].id
    requires r.key == FreeKey(BaseKey(i, |languages|), UsedFor(used, r.languageId))
    requires r.value == "Translation value " + r.key + " in " + languages[choice[i]].code
    ensures Generation(languages, choice, failAt, i + 1, k, generated + [r], batch + [r],
                       used[r.languageId := UsedFor(used, r.languageId) + {r.key}], inserted)
  {
    GenerateAppend(languages, choice, i, r);
    UsedAppend(generated, used, r);
    SurvivorsPrefix(generated, [r], failAt, k);
    assert (generated + [r])[k * BatchSize..] == batch + [r];
  }

  /** Flushing a full batch: its records survive unless the insert at the
      current index fails. */
  lemma GenerationFlush(languages: seq<LanguageRow>, choice: seq<nat>, failAt: set<nat>, i: nat, k: nat,
                        generated: seq<Record>, batch: seq<Record>, used: map<nat, set<string>>,
                        inserted: seq<Record>)
    requires ChoicesValid(languages, choice)
    requires Generation(languages, choice, failAt, i, k, generated, batch, used, inserted)
    requires |batch| == BatchSize
    ensures i - 1 in failAt ==> Generation(languages, choice, failAt, i, k + 1, generated, [], used, inserted)
    ensures i - 1 !in failAt ==>
              Generation(languages, choice, failAt, i, k + 1, generated, [], used, inserted + batch)
  {
    assert inserted + [] == inserted;
  }

  // ---------------------------------------------------------------------
  // Tag relations
  // ---------------------------------------------------------------------

  /** One relation per chosen tag of a translation. */
  function TagRelations(id: nat, tags: seq<nat>): (r: seq<Relation>)
    ensures |r| == |tags|
    ensures forall k :: 0 <= k < |tags| ==> r[k] == Relation(id, tags[k])
  {
    if tags == [] then [] else TagRelations(id, tags[..|tags| - 1]) + [Relation(id, tags[|tags| - 1])]
  }

  /** The relations queued for a list of inserted ids, in order. */
  function RelationsFor(ids: seq<nat>, pick: nat -> seq<nat>): seq<Relation> {
    if ids == [] then []
    else RelationsFor(ids[..|ids| - 1], pick) + TagRelations(ids[|ids| - 1], pick(ids[|ids| - 1]))
  }

  lemma {:induction false} RelationsForAppend(a: seq<nat>, b: seq<nat>, pick: nat -> seq<nat>)
    ensures RelationsFor(a + b, pick) == RelationsFor(a, pick) + RelationsFor(b, pick)
    decreases |b|
  {
    if b != [] {
      var front := b[..|b| - 1];
      assert (a + b)[..|a + b| - 1] == a + front;
      RelationsForAppend(a, front, pick);
    } else {
      assert a + b == a;
    }
  }

  /** The relations of one inserted batch: for each id, a relation per
      picked tag, appended to those already queued. */
  method QueueRelations(ids: seq<nat>, pick: nat -> seq<nat>, queued: seq<Relation>)
    returns (relations: seq<Relation>)
    ensures relations == queued + RelationsFor(ids, pick)
  {
    relations := queued;
    var j := 0;
    while j < |ids|
      invariant 0 <= j <= |ids|
      invariant relations == queued + RelationsFor(ids[..j], pick)
    {
      var translationId := ids[j];
      var randomTags := pick(translationId);
      var k := 0;
      ghost var before := relations;
      while k < |randomTags|
        invariant 0 <= k <= |randomTags|
        invariant relations == before + TagRelations(translationId, randomTags[..k])
      {
        assert randomTags[..k + 1][..k] == randomTags[..k];
        relations := relations + [Relation(translationId, randomTags[k])];
        k := k + 1;
      }
      assert randomTags[..k] == randomTags;
      assert ids[..j + 1][..j] == ids[..j];
      j := j + 1;
    }
    assert ids[..j] == ids;
  }

  /** How many relations name a translation. */
  function CountFor(relations: seq<Relation>, id: nat): nat {
    if relations == [] then 0
    else CountFor(relations[..|relations| - 1], id) + (if relations[|relations| - 1].translationId == id then 1 else 0)
  }

  lemma {:induction false} CountForAppend(a: seq<Relation>, b: seq<Relation>, id: nat)
    ensures CountFor(a + b, id) == CountFor(a, id) + CountFor(b, id)
    decreases |b|
  {
    if b != [] {
      assert (a + b)[..|a + b| - 1] == a + b[..|b| - 1];
      CountForAppend(a, b[..|b| - 1], id);
    } else {
      assert a + b == a;
    }
  }

  lemma {:induction false} CountTagRelations(translationId: nat, tags: seq<nat>, id: nat)
    ensures CountFor(TagRelations(translationId, tags), id) == if id == translationId then |tags| else 0
  {
    if tags != [] {
      CountTagRelations(translationId, tags[..|tags| - 1], id);
    }
  }

  predicate DistinctIds(ids: seq<nat>) {
    forall j, k :: 0 <= j < k < |ids| ==> ids[j] != ids[k]
  }

  /** With distinct ids, an id has exactly as many relations as tags were
      picked for it, and an id not inserted has none. */
  lemma {:induction false} RelationsPerId(ids: seq<nat>, pick: nat -> seq<nat>, id: nat)
    requires DistinctIds(ids)
    ensures CountFor(RelationsFor(ids, pick), id) == if id in ids then |pick(id)| else 0
  {
    if ids != [] {
      var front, last := ids[..|ids| - 1], ids[|ids| - 1];
      RelationsPerId(front, pick, id);
      CountForAppend(RelationsFor(front, pick), TagRelations(last, pick(last)), id);
      CountTagRelations(last, pick(last), id);
      assert id in ids <==> id in front || id == last;
      if id == last {
        assert id !in front;
      }
    }
  }

  /** Each inserted translation gets between one and three tag relations. */
  lemma OneToThreeTagsEach(ids: seq<nat>, pick: nat -> seq<nat>)
    requires DistinctIds(ids)
    requires forall id :: 1 <= |pick(id)| <= 3
    ensures forall id :: id in ids ==> 1 <= CountFor(RelationsFor(ids, pick), id) <= 3
  {
    forall id | id in ids ensures 1 <= CountFor(RelationsFor(ids, pick), id) <= 3 {
      RelationsPerId(ids, pick, id);
    }
  }

  // ---------------------------------------------------------------------
  // The database the seeder writes to
  // ---------------------------------------------------------------------

  /** The translations and translation_tag tables as append-only sinks;
      ids are handed out consecutively. */
  class SeedSink {
    var records: seq<Record>
    var relations: seq<Relation>
    var nextId: nat

    /** A multi-row insert: the rows get the next ids, in order. */
    method InsertRecords(batch: seq<Record>) returns (ids: seq<nat>)
      modifies this
      ensures records == old(records) + batch && relations == old(relations)
      ensures nextId == old(nextId) + |batch|
      ensures |ids| == |batch| && forall j :: 0 <= j < |ids| ==> ids[j] == old(nextId) + j
    {
      var first := nextId;
      ids := seq(|batch|, j => first + j);
      records := records + batch;
      nextId := nextId + |batch|;
    }

    method InsertRelations(batch: seq<Relation>)
      modifies this
      ensures relations == old(relations) + batch
      ensures records == old(records) && nextId == old(nextId)
    {
      relations := relations + batch;
    }
  }

  /** What a run has done so far, against the sink's state at the start
      (records0, relations0, id0): the records that reached the table and
      their consecutive ids; the relations written plus those still queued
      are those of the inserted ids; no two generated records share key and
      language, and every generated key is registered as used. */
  ghost predicate Progress(sink: SeedSink, records0: seq<Record>, relations0: seq<Relation>, id0: nat,
                           inserted: seq<Record>, insertedIds: seq<nat>, batch: seq<Record>,
                           queued: seq<Relation>, used: map<nat, set<string>>, pick: nat -> seq<nat>)
    reads sink
  {
    && sink.records == records0 + inserted
    && |insertedIds| == |inserted| && sink.nextId == id0 + |inserted|
    && (forall j :: 0 <= j < |insertedIds| ==> insertedIds[j] == id0 + j)
    && sink.relations + queued == relations0 + RelationsFor(insertedIds, pick)
    && DistinctPairs(inserted + batch)
    && Registered(inserted + batch, used)
  }

  /** Appending a record whose key is not yet used for its language. */
  lemma AppendKeepsProgress(sink: SeedSink, records0: seq<Record>, relations0: seq<Relation>, id0: nat,
                            inserted: seq<Record>, insertedIds: seq<nat>, batch: seq<Record>,
                            queued: seq<Relation>, used: map<nat, set<string>>, pick: nat -> seq<nat>,
                            r: Record)
    requires Progress(sink, records0, relations0, id0, inserted, insertedIds, batch, queued, used, pick)
    requires r.key !in UsedFor(used, r.languageId)
    ensures Progress(sink, records0, relations0, id0, inserted, insertedIds, batch + [r], queued,
                     used[r.languageId := UsedFor(used, r.languageId) + {r.key}], pick)
  {
    AddFreshRecord(inserted + batch, used, r);
    assert inserted + batch + [r] == inserted + (batch + [r]);
  }

  /** The try block of one batch: insert the records (or lose them when the
      insert fails), queue the tag relations of the inserted ids, and write
      the queued relations once there are at least 1000. The batch is empty
      afterwards either way. */
  method InsertBatch(sink: SeedSink, batch: seq<Record>, fails: bool, pick: nat -> seq<nat>,
                     queued: seq<Relation>, ghost records0: seq<Record>, ghost relations0: seq<Relation>,
                     ghost id0: nat, ghost inserted: seq<Record>, ghost insertedIds: seq<nat>,
                     ghost used: map<nat, set<string>>)
    returns (relations: seq<Relation>, ghost inserted': seq<Record>, ghost insertedIds': seq<nat>,
             ids: seq<nat>)
    requires Progress(sink, records0, relations0, id0, inserted, insertedIds, batch, queued, used, pick)
    modifies sink
    ensures Progress(sink, records0, relations0, id0, inserted', insertedIds', [], relations, used, pick)
    ensures fails ==> inserted' == inserted && relations == queued
                      && sink.records == old(sink.records) && sink.relations == old(sink.relations)
    ensures !fails ==> inserted' == inserted + batch && insertedIds' == insertedIds + ids
    ensures !fails && |queued + RelationsFor(ids, pick)| >= BatchSize ==>
              relations == [] && sink.relations == old(sink.relations) + (queued + RelationsFor(ids, pick))
    ensures !fails && |queued + RelationsFor(ids, pick)| < BatchSize ==>
              relations == queued + RelationsFor(ids, pick) && sink.relations == old(sink.relations)
    ensures relations == [] || sink.relations == old(sink.relations)
    ensures |relations| < BatchSize || relations == queued
  {
    if fails {
      DistinctPrefix(inserted, batch);
      RegisteredPrefix(inserted, batch, used);
      assert inserted + [] == inserted;
      return queued, inserted, insertedIds, [];
    }
    ids := sink.InsertRecords(batch);
    relations := QueueRelations(ids, pick, queued);
    assert (sink.relations + queued) + RelationsFor(ids, pick) == sink.relations + (queued + RelationsFor(ids, pick));
    if |relations| >= BatchSize {
      sink.InsertRelations(relations);
      relations := [];
    }
    RelationsForAppend(insertedIds, ids, pick);
    assert (relations0 + RelationsFor(insertedIds, pick)) + RelationsFor(ids, pick)
        == relations0 + (RelationsFor(insertedIds, pick) + RelationsFor(ids, pick));
    inserted', insertedIds' := inserted + batch, insertedIds + ids;
    assert inserted' + [] == inserted + batch;
  }

  /** One pass of the for loop: generate record i under the first key for
      its base not yet used for its language, add it to the batch, and
      insert the batch once it holds 1000 records or i is the last index. */
  method SeedRecord(sink: SeedSink, languages: seq<LanguageRow>, choice: seq<nat>, pick: nat -> seq<nat>,
                    failAt: set<nat>, i: nat, currentBatch: seq<Record>, tagRelations: seq<Relation>,
                    usedKeysPerLanguage: map<nat, set<string>>, ghost records0: seq<Record>,
                    ghost relations0: seq<Relation>, ghost id0: nat, ghost k: nat, ghost generated: seq<Record>,
                    ghost inserted: seq<Record>, ghost insertedIds: seq<nat>)
    returns (batch: seq<Record>, relations: seq<Relation>, used: map<nat, set<string>>, ghost k': nat,
             ghost generated': seq<Record>, ghost inserted': seq<Record>, ghost insertedIds': seq<nat>)
    requires ChoicesValid(languages, choice) && i < TotalRecords
    requires |currentBatch| < BatchSize && |tagRelations| < BatchSize
    requires Generation(languages, choice, failAt, i, k, generated, currentBatch, usedKeysPerLanguage, inserted)
    requires Progress(sink, records0, relations0, id0, inserted, insertedIds, currentBatch, tagRelations,
                      usedKeysPerLanguage, pick)
    modifies sink
    ensures |batch| < BatchSize && |relations| < BatchSize
    ensures i + 1 == TotalRecords ==> batch == []
    ensures Generation(languages, choice, failAt, i + 1, k', generated', batch, used, inserted')
    ensures Progress(sink, records0, relations0, id0, inserted', insertedIds', batch, relations, used, pick)
  {
    var language := languages[choice[i]];
    var languageId := language.id;
    var baseKey := BaseKey(i, |languages|);
    var key, _ := NextFreeKey(baseKey, UsedFor(usedKeysPerLanguage, languageId));
    var record := Record(key, "Translation value " + key + " in " + language.code, languageId);
    GenerationStep(languages, choice, failAt, i, k, generated, currentBatch, usedKeysPerLanguage, inserted, record);
    AppendKeepsProgress(sink, records0, relations0, id0, inserted, insertedIds,
                        currentBatch, tagRelations, usedKeysPerLanguage, pick, record);
    used := usedKeysPerLanguage[languageId := UsedFor(usedKeysPerLanguage, languageId) + {key}];
    batch := currentBatch + [record];
    generated' := generated + [record];
    relations, batch, k', inserted', insertedIds' :=
      FlushBatch(sink, languages, choice, pick, failAt, i + 1, batch, tagRelations, used,
                 records0, relations0, id0, k, generated', inserted, insertedIds);
  }

  /** The flush after a record is queued: when the batch is full or the
      last record has been generated, the batch is inserted (or dropped when
      its insert fails) and a new one is started. count is the number of
      records generated so far. */
  method FlushBatch(sink: SeedSink, languages: seq<LanguageRow>, choice: seq<nat>, pick: nat -> seq<nat>,
                    failAt: set<nat>, count: nat, batch: seq<Record>, queued: seq<Relation>,
                    used: map<nat, set<string>>, ghost records0: seq<Record>, ghost relations0: seq<Relation>,
                    ghost id0: nat, ghost k: nat, ghost generated: seq<Record>, ghost inserted: seq<Record>,
                    ghost insertedIds: seq<nat>)
    returns (relations: seq<Relation>, batch': seq<Record>, ghost k': nat, ghost inserted': seq<Record>,
             ghost insertedIds': seq<nat>)
    requires ChoicesValid(languages, choice)
    requires 1 <= |batch| <= BatchSize && |queued| < BatchSize
    requires Generation(languages, choice, failAt, count, k, generated, batch, used, inserted)
    requires Progress(sink, records0, relations0, id0, inserted, insertedIds, batch, queued, used, pick)
    modifies sink
    ensures |batch'| < BatchSize && |relations| < BatchSize
    ensures count == TotalRecords ==> batch' == []
    ensures Generation(languages, choice, failAt, count, k', generated, batch', used, inserted')
    ensures Progress(sink, records0, relations0, id0, inserted', insertedIds', batch', relations, used, pick)
  {
    relations, batch', k', inserted', insertedIds' := queued, batch, k, inserted, insertedIds;
    if |batch| == BatchSize || count == TotalRecords {
      if count == TotalRecords {
        LastBatchIsFull(count, k, |batch|);
      }
      GenerationFlush(languages, choice, failAt, count, k, generated, batch, used, inserted);
      var batchIds;
      relations, inserted', insertedIds', batchIds :=
        InsertBatch(sink, batch, count - 1 in failAt, pick, queued, records0, relations0, id0, inserted,
                    insertedIds, used);
      batch' := [];
      k' := k + 1;
    }
  }

  // ---------------------------------------------------------------------
  // run()
  // ---------------------------------------------------------------------

  /** run(): nothing when a live translation exists; otherwise 100000
      records, record i in language languages[choice[i]] with a key unique
      for that language, the batch insert at a loop index in failAt
      failing. inserted and insertedIds are the records that reached the
      table and the ids they got. */
  method Run(sink: SeedSink, anyTranslation: bool, languages: seq<LanguageRow>,
             choice: seq<nat>, pick: nat -> seq<nat>, failAt: set<nat>)
    returns (outcome: Outcome, ghost inserted: seq<Record>, ghost insertedIds: seq<nat>)
    requires |choice| == TotalRecords
    requires |languages| > 0 ==> forall i :: 0 <= i < |choice| ==> choice[i] < |languages|
    modifies sink
    ensures anyTranslation ==> outcome == AlreadySeeded
    ensures !anyTranslation && |languages| == 0 ==> outcome == NoLanguages
    ensures outcome != Seeded ==>
              sink.records == old(sink.records) && sink.relations == old(sink.relations)
              && sink.nextId == old(sink.nextId)
    ensures outcome == Seeded <==> !anyTranslation && |languages| > 0
    ensures sink.records == old(sink.records) + inserted
    ensures DistinctPairs(inserted)
    ensures |insertedIds| == |inserted| && sink.nextId == old(sink.nextId) + |inserted|
    ensures forall j :: 0 <= j < |insertedIds| ==> insertedIds[j] == old(sink.nextId) + j
    ensures sink.relations == old(sink.relations) + RelationsFor(insertedIds, pick)
    ensures outcome == Seeded ==>
              && ChoicesValid(languages, choice)
              && inserted == Survivors(Generate(languages, choice, TotalRecords), failAt, BatchCount)
    ensures outcome == Seeded && failAt == {} ==>
              ChoicesValid(languages, choice) && inserted == Generate(languages, choice, TotalRecords)
  {
    inserted, insertedIds := [], [];
    if anyTranslation {
      return AlreadySeeded, inserted, insertedIds;
    }
    if |languages| == 0 {
      return NoLanguages, inserted, insertedIds;
    }
    var currentBatch: seq<Record> := [];
    var tagRelations: seq<Relation> := [];
    var usedKeysPerLanguage: map<nat, set<string>> := map[];
    var i := 0;
    ghost var generated: seq<Record> := [];
    ghost var k: nat := 0;
    assert ChoicesValid(languages, choice);
    while i < TotalRecords
      invariant 0 <= i <= TotalRecords
      invariant |currentBatch| < BatchSize && |tagRelations| < BatchSize
      invariant i == TotalRecords ==> currentBatch == []
      invariant Generation(languages, choice, failAt, i, k, generated, currentBatch, usedKeysPerLanguage, inserted)
      invariant Progress(sink, old(sink.records), old(sink.relations), old(sink.nextId), inserted, insertedIds,
                         currentBatch, tagRelations, usedKeysPerLanguage, pick)
    {
      currentBatch, tagRelations, usedKeysPerLanguage, k, generated, inserted, insertedIds :=
        SeedRecord(sink, languages, choice, pick, failAt, i, currentBatch, tagRelations, usedKeysPerLanguage,
                   old(sink.records), old(sink.relations), old(sink.nextId), k, generated, inserted, insertedIds);
      i := i + 1;
    }
    GenerationDone(languages, choice, failAt, k, generated, usedKeysPerLanguage, inserted);
    if tagRelations != [] {
      sink.InsertRelations(tagRelations);
    }
    assert inserted + currentBatch == inserted;
    return Seeded, inserted, insertedIds;
  }

  /** The ids a seeding run hands out are distinct, so each inserted
      translation ends up with one to three tag relations. */
  lemma SeededIdsGetOneToThreeTags(first: nat, insertedIds: seq<nat>, pick: nat -> seq<nat>)
    requires forall j :: 0 <= j < |insertedIds| ==> insertedIds[j] == first + j
    requires forall id :: 1 <= |pick(id)| <= 3
    ensures DistinctIds(insertedIds)
    ensures forall id :: id in insertedIds ==> 1 <= CountFor(RelationsFor(insertedIds, pick), id) <= 3
  {
    OneToThreeTagsEach(insertedIds, pick);
  }
}
