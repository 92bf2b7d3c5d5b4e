/**
 * The server's storage layer (server/storage.ts) over an in-memory table: categories, questions
 * and the next serial question id.
 */
module Storage {
  import opened Wrappers
  import opened Seqs
  import opened Catalog

  datatype Db = Db(categories: seq<Category>, questions: seq<Question>, nextQuestionId: int)

  /** Question ids are unique (primary key) and below the next serial value. */
  predicate Valid(db: Db)
  {
    && (forall i, j :: 0 <= i < j < |db.questions| ==> db.questions[i].id != db.questions[j].id)
    && (forall q :: q in db.questions ==> q.id < db.nextQuestionId)
  }

  // ---------------------------------------------------------------- categories

  predicate SortedByOrder(cs: seq<Category>)
  {
    forall i, j :: 0 <= i < j < |cs| ==> cs[i].order <= cs[j].order
  }

  /** A category no later than every element of a sorted list can go in front of it. */
  lemma SortedCons(h: Category, t: seq<Category>)
    requires SortedByOrder(t)
    requires forall x :: x in t ==> h.order <= x.order
    ensures SortedByOrder([h] + t)
  {
    var r := [h] + t;
    forall i, j | 0 <= i < j < |r| ensures r[i].order <= r[j].order {
      if i == 0 {
        assert r[j] in t;
      } else {
        assert r[i] == t[i - 1] && r[j] == t[j - 1];
      }
    }
  }

  /** The first element of a sorted list is no later than any of its elements. */
  lemma HeadIsLeast(sorted: seq<Category>, c: Category)
    requires SortedByOrder(sorted)
    requires |sorted| == 0 || c.order <= sorted[0].order
    ensures forall x :: x in sorted ==> c.order <= x.order
  {
    forall x | x in sorted ensures c.order <= x.order {
      var k :| 0 <= k < |sorted| && sorted[k] == x;
      assert sorted[0].order <= sorted[k].order;
    }
  }

  lemma SortedTail(sorted: seq<Category>)
    requires |sorted| > 0 && SortedByOrder(sorted)
    ensures SortedByOrder(sorted[1..])
  {
    var tail := sorted[1..];
    forall i, j | 0 <= i < j < |tail| ensures tail[i].order <= tail[j].order {
      assert tail[i] == sorted[i + 1] && tail[j] == sorted[j + 1];
    }
  }

  /** After inserting a later category into the tail, the head still comes first. */
  lemma HeadBoundsInsertion(sorted: seq<Category>, c: Category, rest: seq<Category>)
    requires |sorted| > 0 && SortedByOrder(sorted)
    requires sorted[0].order < c.order
    requires multiset(rest) == multiset(sorted[1..]) + multiset{c}
    ensures forall x :: x in rest ==> sorted[0].order <= x.order
  {
    var tail := sorted[1..];
    forall x | x in rest ensures sorted[0].order <= x.order {
      assert x in multiset(rest);
      if x != c {
        assert x in multiset(tail);
        var k :| 0 <= k < |tail| && tail[k] == x;
        assert sorted[k + 1] == x;
      }
    }
  }

  /** Places `c` before the first category of no smaller order. */
  function InsertByOrder(c: Category, sorted: seq<Category>): (r: seq<Category>)
    requires SortedByOrder(sorted)
    ensures SortedByOrder(r)
    ensures multiset(r) == multiset(sorted) + multiset{c}
  {
    if |sorted| == 0 || c.order <= sorted[0].order then
      HeadIsLeast(sorted, c);
      SortedCons(c, sorted);
      [c] + sorted
    else
      SortedTail(sorted);
      var rest := InsertByOrder(c, sorted[1..]);
      HeadBoundsInsertion(sorted, c, rest);
      SortedCons(sorted[0], rest);
      assert sorted == [sorted[0]] + sorted[1..];
      [sorted[0]] + rest
  }

  function SortByOrder(cs: seq<Category>): (r: seq<Category>)
    ensures SortedByOrder(r)
    ensures multiset(r) == multiset(cs)
  {
    if |cs| == 0 then []
    else
      assert cs == [cs[0]] + cs[1..];
      InsertByOrder(cs[0], SortByOrder(cs[1..]))
  }

  /** `getCategories`: every stored category, ascending by `order`. */
  function GetCategories(db: Db): (r: seq<Category>)
    ensures SortedByOrder(r)
    ensures multiset(r) == multiset(db.categories)
    ensures |r| == |db.categories|
  {
    var r := SortByOrder(db.categories);
    assert |r| == |multiset(r)| == |multiset(db.categories)| == |db.categories|;
    r
  }

  /** A table already in order is returned as it is. */
  lemma {:induction false} SortedIsUnchanged(cs: seq<Category>)
    requires SortedByOrder(cs)
    ensures SortByOrder(cs) == cs
    decreases |cs|
  {
    if |cs| > 0 {
      SortedIsUnchanged(cs[1..]);
    }
  }

  /** `updateCategoryOrder`: only the `order` of the rows with that id changes; none matching gives undefined. */
  function UpdateCategoryOrder(db: Db, id: int, order: int): (r: (Db, Option<Category>))
    ensures |r.0.categories| == |db.categories|
    ensures forall i :: 0 <= i < |db.categories| ==>
              r.0.categories[i] == if db.categories[i].id == id then db.categories[i].(order := order)
                                   else db.categories[i]
    ensures r.0.questions == db.questions && r.0.nextQuestionId == db.nextQuestionId
    ensures r.1.None? <==> forall c :: c in db.categories ==> c.id != id
    ensures r.1.Some? ==> r.1.value in r.0.categories && r.1.value.id == id && r.1.value.order == order
  {
    var cs := seq(|db.categories|, i requires 0 <= i < |db.categories| =>
                if db.categories[i].id == id then db.categories[i].(order := order) else db.categories[i]);
    var found := FindCategory(db.categories, id);
    assert found.Some? ==> found.value.(order := order) in cs by {
      if found.Some? {
        var k :| 0 <= k < |db.categories| && db.categories[k] == found.value;
        assert cs[k] == found.value.(order := order);
      }
    }
    (db.(categories := cs), match found case Some(c) => Some(c.(order := order)) case None => None)
  }

  /** The fields the category editor sends. */
  datatype CategoryPatch = CategoryPatch(name: string, icon: string, colorPrimary: string, colorSecondary: string)

  /** `updateCategory`: the patched fields of the rows with that id are replaced; id and order stay. */
  function UpdateCategory(db: Db, id: int, patch: CategoryPatch): (r: (Db, Option<Category>))
    ensures |r.0.categories| == |db.categories|
    ensures forall i :: 0 <= i < |db.categories| ==>
              && r.0.categories[i].id == db.categories[i].id
              && r.0.categories[i].order == db.categories[i].order
              && (db.categories[i].id != id ==> r.0.categories[i] == db.categories[i])
              && (db.categories[i].id == id ==>
                    r.0.categories[i] == Category(id, patch.name, patch.icon, patch.colorPrimary,
                                                  patch.colorSecondary, db.categories[i].order))
    ensures r.1.None? <==> forall c :: c in db.categories ==> c.id != id
    ensures r.0.questions == db.questions && r.0.nextQuestionId == db.nextQuestionId
  {
    var apply := (c: Category) => c.(name := patch.name, icon := patch.icon,
                                     colorPrimary := patch.colorPrimary, colorSecondary := patch.colorSecondary);
    var cs := seq(|db.categories|, i requires 0 <= i < |db.categories| =>
                if db.categories[i].id == id then apply(db.categories[i]) else db.categories[i]);
    (db.(categories := cs), match FindCategory(db.categories, id) case Some(c) => Some(apply(c)) case None => None)
  }

  // ---------------------------------------------------------------- questions

  /** `getQuestions`: with a non-empty id list, the questions in those categories; otherwise all. */
  function GetQuestions(db: Db, categoryIds: Option<seq<int>>): (r: seq<Question>)
    ensures categoryIds.None? || |categoryIds.value| == 0 ==> r == db.questions
    ensures categoryIds.Some? && |categoryIds.value| > 0 ==>
              && IsSubsequence(r, db.questions)
              && forall q :: q in r <==> q in db.questions && q.categoryId in categoryIds.value
  {
    match categoryIds
    case Some(ids) => if |ids| > 0 then Filter((q: Question) => q.categoryId in ids, db.questions) else db.questions
    case None => db.questions
  }

  /** `bulkCreateQuestions`: rows get consecutive fresh ids and are appended; an empty batch does nothing. */
  function BulkCreateQuestions(db: Db, rows: seq<NewQuestion>): (r: (Db, seq<Question>))
    ensures |rows| == 0 ==> r.0 == db && r.1 == []
    ensures |r.1| == |rows|
    ensures forall i :: 0 <= i < |rows| ==>
              && r.1[i].questionText == rows[i].questionText
              && r.1[i].categoryId == rows[i].categoryId
              && r.1[i].isPremium == rows[i].isPremium
              && r.1[i].id == db.nextQuestionId + i
    ensures r.0.questions == db.questions + r.1
    ensures r.0.categories == db.categories
    ensures r.0.nextQuestionId == db.nextQuestionId + |rows|
  {
    if |rows| == 0 then (db, [])
    else
      var created := seq(|rows|, i requires 0 <= i < |rows| =>
        Question(db.nextQuestionId + i, rows[i].questionText, rows[i].categoryId, rows[i].isPremium));
      (db.(questions := db.questions + created, nextQuestionId := db.nextQuestionId + |rows|), created)
  }

  /** Bulk creation keeps ids unique and below the serial counter. */
  lemma BulkCreateKeepsValid(db: Db, rows: seq<NewQuestion>)
    requires Valid(db)
    ensures Valid(BulkCreateQuestions(db, rows).0)
  {
    var r := BulkCreateQuestions(db, rows);
    var qs := r.0.questions;
    var n := |db.questions|;
    forall i, j | 0 <= i < j < |qs| ensures qs[i].id != qs[j].id {
      if j >= n {
        if i < n {
          assert qs[i] in db.questions;
        }
      }
    }
    forall q | q in qs ensures q.id < r.0.nextQuestionId {
      var k :| 0 <= k < |qs| && qs[k] == q;
      if k < n {
        assert qs[k] in db.questions;
      }
    }
  }

  /** `getQuestionCount`: the number of stored questions, which bounds every category's count. */
  function GetQuestionCount(db: Db): (n: nat)
    ensures forall cat :: Occurrences(db.questions, cat) <= n
    ensures n == 0 <==> db.questions == []
  {
    assert forall cat :: Occurrences(db.questions, cat) <= |db.questions| by {
      forall cat ensures Occurrences(db.questions, cat) <= |db.questions| {
        OccurrencesAtMost(db.questions, cat);
      }
    }
    |db.questions|
  }

  /** A bulk import grows the question count by exactly the number of rows imported. */
  lemma BulkCreateAddsToCount(db: Db, rows: seq<NewQuestion>)
    ensures GetQuestionCount(BulkCreateQuestions(db, rows).0) == GetQuestionCount(db) + |rows|
  {
  }

  // ---------------------------------------------------------------- counts by category

  datatype CategoryCount = CategoryCount(categoryId: int, count: int)

  function CategoryIdsOf(qs: seq<Question>): (ids: seq<int>)
    ensures |ids| == |qs|
    ensures forall i :: 0 <= i < |qs| ==> ids[i] == qs[i].categoryId
  {
    seq(|qs|, i requires 0 <= i < |qs| => qs[i].categoryId)
  }

  /** How many of `qs` belong to category `cat`. */
  function Occurrences(qs: seq<Question>, cat: int): nat
  {
    if |qs| == 0 then 0
    else Occurrences(qs[..|qs| - 1], cat) + (if qs[|qs| - 1].categoryId == cat then 1 else 0)
  }

  lemma {:induction false} OccurrencesAtMost(qs: seq<Question>, cat: int)
    ensures Occurrences(qs, cat) <= |qs|
  {
    if |qs| > 0 {
      OccurrencesAtMost(qs[..|qs| - 1], cat);
    }
  }

  lemma {:induction false} OccurrencesAbsent(qs: seq<Question>, cat: int)
    requires cat !in CategoryIdsOf(qs)
    ensures Occurrences(qs, cat) == 0
    decreases |qs|
  {
    if |qs| > 0 {
      var init := qs[..|qs| - 1];
      assert forall x :: x in CategoryIdsOf(init) ==> x in CategoryIdsOf(qs) by {
        forall x | x in CategoryIdsOf(init) ensures x in CategoryIdsOf(qs) {
          var k :| 0 <= k < |init| && CategoryIdsOf(init)[k] == x;
          assert CategoryIdsOf(qs)[k] == x;
        }
      }
      assert CategoryIdsOf(qs)[|qs| - 1] == qs[|qs| - 1].categoryId;
      OccurrencesAbsent(init, cat);
    }
  }

  /** Each distinct value once, in order of first occurrence (a JavaScript `Map`'s key order). */
  function FirstOccurrences(s: seq<int>): (r: seq<int>)
    ensures forall x :: x in r <==> x in s
    ensures NoDuplicates(r)
  {
    if |s| == 0 then []
    else
      var init := FirstOccurrences(s[..|s| - 1]);
      assert s == s[..|s| - 1] + [s[|s| - 1]];
      if s[|s| - 1] in init then init else init + [s[|s| - 1]]
  }

  function Keys(es: seq<CategoryCount>): (ks: seq<int>)
    ensures |ks| == |es|
    ensures forall i :: 0 <= i < |es| ==> ks[i] == es[i].categoryId
  {
    seq(|es|, i requires 0 <= i < |es| => es[i].categoryId)
  }

  function SumCounts(es: seq<CategoryCount>): int
  {
    if |es| == 0 then 0 else SumCounts(es[..|es| - 1]) + es[|es| - 1].count
  }

  /** Changing one entry's count changes the sum by the difference. */
  lemma {:induction false} SumCountsUpdate(es: seq<CategoryCount>, k: int, e: CategoryCount)
    requires 0 <= k < |es|
    ensures SumCounts(es[k := e]) == SumCounts(es) - es[k].count + e.count
    decreases |es|
  {
    var n := |es|;
    if k < n - 1 {
      assert es[k := e][..n - 1] == es[..n - 1][k := e];
      SumCountsUpdate(es[..n - 1], k, e);
    } else {
      assert es[k := e][..n - 1] == es[..n - 1];
    }
  }

  /** Position of the entry for `cat`, or `|es|` when there is none (`Map.get` returning undefined). */
  function IndexOfKey(es: seq<CategoryCount>, cat: int): (k: nat)
    ensures k <= |es|
    ensures k < |es| ==> es[k].categoryId == cat
    ensures k == |es| ==> cat !in Keys(es)
  {
    if |es| == 0 then 0
    else if es[0].categoryId == cat then 0
    else
      var k := IndexOfKey(es[1..], cat);
      assert Keys(es) == [es[0].categoryId] + Keys(es[1..]);
      k + 1
  }

  /** The position found is that of the first entry for `cat`. */
  lemma {:induction false} IndexOfKeyIsFirst(es: seq<CategoryCount>, cat: int)
    ensures forall i :: 0 <= i < IndexOfKey(es, cat) ==> es[i].categoryId != cat
  {
    if |es| > 0 && es[0].categoryId != cat {
      IndexOfKeyIsFirst(es[1..], cat);
      assert forall i :: 1 <= i < IndexOfKey(es, cat) ==> es[i] == es[1..][i - 1];
    }
  }

  /** `entries` is the per-category table of `qs`: keys in first-occurrence order, exact counts, full sum. */
  ghost predicate Tallied(qs: seq<Question>, entries: seq<CategoryCount>)
  {
    && Keys(entries) == FirstOccurrences(CategoryIdsOf(qs))
    && (forall j :: 0 <= j < |entries| ==> entries[j].count == Occurrences(qs, entries[j].categoryId) > 0)
    && SumCounts(entries) == |qs|
  }

  /** `countMap.set(cat, (countMap.get(cat) || 0) + 1)`. */
  function Tally(entries: seq<CategoryCount>, cat: int): seq<CategoryCount>
  {
    var k := IndexOfKey(entries, cat);
    if k < |entries| then entries[k := CategoryCount(cat, entries[k].count + 1)]
    else entries + [CategoryCount(cat, 1)]
  }

  /** The category ids of one more question at the end. */
  lemma IdsSnoc(before: seq<Question>, q: Question)
    ensures CategoryIdsOf(before + [q]) == CategoryIdsOf(before) + [q.categoryId]
  {
  }

  /** One more question at the end counts once more for its own category only. */
  lemma OccurrencesSnoc(before: seq<Question>, q: Question)
    ensures forall x :: Occurrences(before + [q], x) == Occurrences(before, x) + (if q.categoryId == x then 1 else 0)
  {
    assert (before + [q])[..|before|] == before;
  }

  /** A value seen before keeps the first-occurrence list; a new one is appended to it. */
  lemma FirstOccurrencesSnoc(s: seq<int>, x: int)
    ensures x in FirstOccurrences(s) ==> FirstOccurrences(s + [x]) == FirstOccurrences(s)
    ensures x !in FirstOccurrences(s) ==> FirstOccurrences(s + [x]) == FirstOccurrences(s) + [x]
  {
    assert (s + [x])[..|s|] == s;
  }

  /** Counting a question whose category already has an entry. */
  lemma TallyExisting(before: seq<Question>, q: Question, entries: seq<CategoryCount>)
    requires Tallied(before, entries)
    requires IndexOfKey(entries, q.categoryId) < |entries|
    ensures Tallied(before + [q], Tally(entries, q.categoryId))
  {
    var c := q.categoryId;
    var k := IndexOfKey(entries, c);
    var e := CategoryCount(c, entries[k].count + 1);
    var next := entries[k := e];
    IdsSnoc(before, q);
    OccurrencesSnoc(before, q);
    FirstOccurrencesSnoc(CategoryIdsOf(before), q.categoryId);
    SumCountsUpdate(entries, k, e);
    assert Keys(entries)[k] == c;
    assert c in FirstOccurrences(CategoryIdsOf(before));
    assert Keys(next) == Keys(entries);
    forall j | 0 <= j < |next|
      ensures next[j].count == Occurrences(before + [q], next[j].categoryId) > 0
    {
      if j != k {
        assert Keys(entries)[j] != Keys(entries)[k];
      }
    }
  }

  /** Counting a question whose category has no entry yet. */
  lemma TallyNew(before: seq<Question>, q: Question, entries: seq<CategoryCount>)
    requires Tallied(before, entries)
    requires q.categoryId !in Keys(entries)
    ensures Tallied(before + [q], Tally(entries, q.categoryId))
  {
    var c := q.categoryId;
    var next := entries + [CategoryCount(c, 1)];
    IdsSnoc(before, q);
    OccurrencesSnoc(before, q);
    FirstOccurrencesSnoc(CategoryIdsOf(before), q.categoryId);
    assert c !in FirstOccurrences(CategoryIdsOf(before));
    OccurrencesAbsent(before, c);
    assert Keys(next) == Keys(entries) + [c];
    assert next[..|next| - 1] == entries;
    forall j | 0 <= j < |next|
      ensures next[j].count == Occurrences(before + [q], next[j].categoryId) > 0
    {
      if j < |entries| {
        assert Keys(entries)[j] in FirstOccurrences(CategoryIdsOf(before));
      }
    }
  }

  /** Counting one more question keeps the table exact. */
  lemma TallyStep(before: seq<Question>, q: Question, entries: seq<CategoryCount>)
    requires Tallied(before, entries)
    ensures Tallied(before + [q], Tally(entries, q.categoryId))
  {
    if IndexOfKey(entries, q.categoryId) < |entries| {
      TallyExisting(before, q, entries);
    } else {
      TallyNew(before, q, entries);
    }
  }

  /**
   * `getQuestionCountByCategory`: one entry per distinct category id, in order of first occurrence,
   * each holding the exact (hence positive) number of questions, the counts summing to the total.
   */
  method GetQuestionCountByCategory(db: Db) returns (entries: seq<CategoryCount>)
    ensures Keys(entries) == FirstOccurrences(CategoryIdsOf(db.questions))
    ensures forall j :: 0 <= j < |entries| ==>
              entries[j].count == Occurrences(db.questions, entries[j].categoryId) > 0
    ensures SumCounts(entries) == GetQuestionCount(db)
  {
    var qs := db.questions;
    entries := [];
    var i := 0;
    while i < |qs|
      invariant 0 <= i <= |qs|
      invariant Tallied(qs[..i], entries)
    {
      TallyStep(qs[..i], qs[i], entries);
      assert qs[..i + 1] == qs[..i] + [qs[i]];
      entries := Tally(entries, qs[i].categoryId);
      i := i + 1;
    }
    assert qs[..i] == qs;
  }

  /**
   * `find(e => e.categoryId === cat)?.count || 0`: the count of the first entry for `cat`
   * (a zero count reads as 0 either way), and 0 when there is none.
   */
  function CountFor(entries: seq<CategoryCount>, cat: int): (r: int)
    ensures cat !in Keys(entries) ==> r == 0
    ensures forall j :: (0 <= j < |entries| && entries[j].categoryId == cat &&
                         (forall i :: 0 <= i < j ==> entries[i].categoryId != cat)) ==> r == entries[j].count
  {
    IndexOfKeyIsFirst(entries, cat);
    var k := IndexOfKey(entries, cat);
    if k < |entries| && entries[k].count != 0 then entries[k].count else 0
  }

  /** Looking a category up in the per-category table gives its exact question count, 0 included. */
  lemma CountForIsExact(db: Db, entries: seq<CategoryCount>, cat: int)
    requires Keys(entries) == FirstOccurrences(CategoryIdsOf(db.questions))
    requires forall j :: 0 <= j < |entries| ==>
               entries[j].count == Occurrences(db.questions, entries[j].categoryId) > 0
    ensures CountFor(entries, cat) == Occurrences(db.questions, cat)
  {
    if IndexOfKey(entries, cat) == |entries| {
      OccurrencesAbsent(db.questions, cat);
    }
  }
}
