/**
 * The local development seed (server/local-questions.ts): nine fixed test questions, one per
 * default category, inserted into the question table unless a question with the same text is
 * already stored.
 */
module LocalSeed {
  import opened Seqs
  import opened Catalog
  import opened Storage

  /** `localTestQuestions`: one free question for each of the categories 1 to 9. */
  function LocalTestQuestions(): (qs: seq<NewQuestion>)
    ensures |qs| == 9
    ensures forall i :: 0 <= i < |qs| ==> qs[i].categoryId == i + 1 && !qs[i].isPremium && |qs[i].questionText| > 0
  {
    [ NewQuestion("What values are most important to you in a partner?", 1, false),
      NewQuestion("How did your family celebrate holidays when you were growing up?", 2, false),
      NewQuestion("What makes you laugh the most?", 3, false),
      NewQuestion("How do you prefer to communicate when something is bothering you?", 4, false),
      NewQuestion("What are your thoughts on budgeting and financial planning?", 5, false),
      NewQuestion("How does your faith influence your daily decisions?", 6, false),
      NewQuestion("What does physical intimacy mean to you in a relationship?", 7, false),
      NewQuestion("Where do you see us in five years?", 8, false),
      NewQuestion("What's a topic you've always wanted to discuss but haven't yet?", 9, false) ]
  }

  /** `new Set(existingQuestions.map(q => q.questionText))`. */
  function ExistingTexts(db: Db): (texts: set<string>)
    ensures forall t :: t in texts <==> exists q :: q in db.questions && q.questionText == t
  {
    set q | q in db.questions :: q.questionText
  }

  /** The fixture questions whose text is not stored yet, in fixture order. */
  function ToInsert(fixture: seq<NewQuestion>, existing: set<string>): (rows: seq<NewQuestion>)
    ensures IsSubsequence(rows, fixture)
    ensures forall q :: q in rows <==> q in fixture && q.questionText !in existing
  {
    Filter((q: NewQuestion) => q.questionText !in existing, fixture)
  }

  /**
   * `seedLocalQuestions`: the missing test questions are inserted in one batch (none when all
   * exist); the result carries the table afterwards and how many rows were added. The routine
   * runs with `fixture == LocalTestQuestions()`; the properties below hold for any fixture.
   */
  function Seed(fixture: seq<NewQuestion>, db: Db): (r: (Db, nat))
    ensures r.1 == |ToInsert(fixture, ExistingTexts(db))| <= |fixture|
    ensures r.1 == 0 ==> r.0 == db
    ensures r.0.categories == db.categories
    ensures |r.0.questions| == |db.questions| + r.1
    ensures r.0.questions[..|db.questions|] == db.questions
    ensures forall i :: 0 <= i < r.1 ==>
              var q := r.0.questions[|db.questions| + i];
              NewQuestion(q.questionText, q.categoryId, q.isPremium) == ToInsert(fixture, ExistingTexts(db))[i]
  {
    var rows := ToInsert(fixture, ExistingTexts(db));
    if |rows| == 0 then (db, 0)
    else
      var r := BulkCreateQuestions(db, rows);
      assert r.0.questions[..|db.questions|] == db.questions;
      (r.0, |rows|)
  }

  /** Every row a seed run adds is a test question whose text was not stored before. */
  lemma SeedAddsOnlyMissingTexts(fixture: seq<NewQuestion>, db: Db)
    ensures var after := Seed(fixture, db).0;
            forall i :: |db.questions| <= i < |after.questions| ==>
              && after.questions[i].questionText !in ExistingTexts(db)
              && NewQuestion(after.questions[i].questionText, after.questions[i].categoryId, after.questions[i].isPremium)
                   in fixture
  {
    var rows := ToInsert(fixture, ExistingTexts(db));
    var after := Seed(fixture, db).0;
    forall i | |db.questions| <= i < |after.questions|
      ensures && after.questions[i].questionText !in ExistingTexts(db)
              && NewQuestion(after.questions[i].questionText, after.questions[i].categoryId, after.questions[i].isPremium)
                   in fixture
    {
      var k := i - |db.questions|;
      assert rows[k] in rows;
    }
  }

  /** After a seed run every test question's text is stored. */
  lemma SeedStoresEveryText(fixture: seq<NewQuestion>, db: Db)
    ensures forall q :: q in fixture ==> q.questionText in ExistingTexts(Seed(fixture, db).0)
  {
    var rows := ToInsert(fixture, ExistingTexts(db));
    var after := Seed(fixture, db).0;
    forall q | q in fixture ensures q.questionText in ExistingTexts(after) {
      if q.questionText in ExistingTexts(db) {
        var p :| p in db.questions && p.questionText == q.questionText;
        var k :| 0 <= k < |db.questions| && db.questions[k] == p;
        assert after.questions[k] == p;
      } else {
        assert q in rows;
        var k :| 0 <= k < |rows| && rows[k] == q;
        var r := BulkCreateQuestions(db, rows);
        assert after.questions[|db.questions| + k] == r.1[k];
      }
    }
  }

  /** Running the seed a second time inserts nothing and leaves the table as it is. */
  lemma SeedIsIdempotent(fixture: seq<NewQuestion>, db: Db)
    ensures var once := Seed(fixture, db).0;
            Seed(fixture, once) == (once, 0)
  {
    var once := Seed(fixture, db).0;
    SeedStoresEveryText(fixture, db);
    assert ToInsert(fixture, ExistingTexts(once)) == [];
  }

  /** On an empty question table the whole fixture goes in, in fixture order. */
  lemma SeedOnEmptyTableInsertsAll(fixture: seq<NewQuestion>, db: Db)
    requires |db.questions| == 0
    ensures Seed(fixture, db).1 == |fixture|
    ensures forall i :: 0 <= i < |fixture| ==>
              var q := Seed(fixture, db).0.questions[i];
              NewQuestion(q.questionText, q.categoryId, q.isPremium) == fixture[i]
  {
    assert ExistingTexts(db) == {};
    FilterKeepsAll((q: NewQuestion) => q.questionText !in ExistingTexts(db), fixture);
  }

  /** Seeding keeps question ids unique and below the next serial value. */
  lemma SeedKeepsValid(fixture: seq<NewQuestion>, db: Db)
    requires Valid(db)
    ensures Valid(Seed(fixture, db).0)
  {
    BulkCreateKeepsValid(db, ToInsert(fixture, ExistingTexts(db)));
  }
}
