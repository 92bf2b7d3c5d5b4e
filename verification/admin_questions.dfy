/**
 * The pure parts of the question administration page (client/src/pages/AdminQuestions.tsx): the
 * add-question form check, the CSV import parser and the search / category filter of the list.
 */
module AdminQuestions {
  import opened Wrappers
  import opened Seqs
  import opened Text
  import opened Decimal
  import opened Catalog

  // ---------------------------------------------------------------- add question

  /** The add form as typed: the category comes from a select whose values are decimal ids. */
  datatype QuestionForm = QuestionForm(questionText: string, categoryId: string, isPremium: bool)

  /** The create request body; a `categoryId` that `parseInt` rejects is `None` (`NaN`). */
  datatype CreateRequest = CreateRequest(questionText: string, categoryId: Option<int>, isPremium: bool)

  datatype AddOutcome = MissingFields | Submit(request: CreateRequest)

  /** `handleAddQuestion`: an empty text or category stops at a toast; otherwise the form is sent. */
  function AddQuestion(form: QuestionForm): (r: AddOutcome)
    ensures r.MissingFields? <==> |form.questionText| == 0 || |form.categoryId| == 0
    ensures r.Submit? ==>
              && r.request.questionText == form.questionText
              && r.request.categoryId == ParseInt(form.categoryId)
              && r.request.isPremium == form.isPremium
  {
    if |form.questionText| == 0 || |form.categoryId| == 0 then MissingFields
    else Submit(CreateRequest(form.questionText, ParseInt(form.categoryId), form.isPremium))
  }

  /** Picking category `n` in the select and typing some text sends exactly that id and text. */
  lemma AddQuestionSendsSelectedCategory(text: string, n: nat, isPremium: bool)
    requires |text| > 0
    ensures AddQuestion(QuestionForm(text, NatToString(n), isPremium)) ==
              Submit(CreateRequest(text, Some(n), isPremium))
  {
    ParseIntRoundTrip(n);
  }

  // ---------------------------------------------------------------- CSV import

  /** `categories?.find(c => c.name.toLowerCase() === name.toLowerCase())`: the first such category. */
  function FindByName(categories: Option<seq<Category>>, name: string): (r: Option<Category>)
    ensures r.None? <==> categories.None? || forall c :: c in categories.value ==> Lower(c.name) != Lower(name)
    ensures r.Some? ==> categories.Some? && r.value in categories.value && Lower(r.value.name) == Lower(name)
    ensures r.Some? ==> FirstMatch(categories.value, name, r.value)
  {
    match categories
    case None => None
    case Some(cs) => FirstNamed(cs, name)
  }

  /** `c` sits at a position of `cs` before which no name matches `name` ignoring case. */
  ghost predicate FirstMatch(cs: seq<Category>, name: string, c: Category)
  {
    exists i :: 0 <= i < |cs| && cs[i] == c && forall j :: 0 <= j < i ==> Lower(cs[j].name) != Lower(name)
  }

  function FirstNamed(cs: seq<Category>, name: string): (r: Option<Category>)
    ensures r.None? <==> forall c :: c in cs ==> Lower(c.name) != Lower(name)
    ensures r.Some? ==> r.value in cs && Lower(r.value.name) == Lower(name)
    ensures r.Some? ==> FirstMatch(cs, name, r.value)
  {
    if |cs| == 0 then None
    else if Lower(cs[0].name) == Lower(name) then
      assert FirstMatch(cs, name, cs[0]) by { assert cs[0] == cs[0]; }
      Some(cs[0])
    else
      var r := FirstNamed(cs[1..], name);
      assert forall c :: c in cs ==> c == cs[0] || c in cs[1..];
      assert r.Some? ==> FirstMatch(cs, name, r.value) by {
        if r.Some? {
          var i :| 0 <= i < |cs[1..]| && cs[1..][i] == r.value
                   && forall j :: 0 <= j < i ==> Lower(cs[1..][j].name) != Lower(name);
          assert cs[i + 1] == r.value;
          forall j | 0 <= j < i + 1 ensures Lower(cs[j].name) != Lower(name) {
            if j > 0 { assert cs[j] == cs[1..][j - 1]; }
          }
        }
      }
      r
  }

  /** `parts[k].trim().replace(/^"|"$/g, '')`. */
  function Field(s: string): string
  {
    StripQuotes(Trim(s))
  }

  /**
   * One CSV line: at least two comma-separated fields, the first the text and the second a
   * category name; a line with no matching category or an empty text gives nothing.
   */
  function ParseLine(categories: Option<seq<Category>>, line: string): (r: Option<NewQuestion>)
    ensures r.Some? <==>
              var parts := Split(line, ',');
              |parts| >= 2 && |Field(parts[0])| > 0 && FindByName(categories, Field(parts[1])).Some?
    ensures r.Some? ==>
              var parts := Split(line, ',');
              r.value == NewQuestion(Field(parts[0]), FindByName(categories, Field(parts[1])).value.id, false)
  {
    var parts := Split(line, ',');
    if |parts| < 2 then None
    else
      var text := Field(parts[0]);
      match FindByName(categories, Field(parts[1]))
      case None => None
      case Some(c) => if |text| == 0 then None else Some(NewQuestion(text, c.id, false))
  }

  /** The records of a list of lines, in line order. */
  function ParseLines(categories: Option<seq<Category>>, lines: seq<string>): (records: seq<NewQuestion>)
    ensures |records| <= |lines|
    ensures forall r :: r in records ==>
              && !r.isPremium
              && |r.questionText| > 0
              && categories.Some?
              && exists c :: c in categories.value && c.id == r.categoryId
    ensures forall r :: r in records <==> exists line :: line in lines && ParseLine(categories, line) == Some(r)
  {
    FilterMapComplete((line: string) => ParseLine(categories, line), lines);
    FilterMap((line: string) => ParseLine(categories, line), lines)
  }

  /** A single line gives its record, or nothing when it does not parse. */
  lemma ParseLinesSingle(categories: Option<seq<Category>>, line: string)
    ensures ParseLines(categories, [line]) ==
              if ParseLine(categories, line).Some? then [ParseLine(categories, line).value] else []
  {
    FilterMapSingle((l: string) => ParseLine(categories, l), line);
  }

  /** `handleCsvImport`'s loop: the trimmed text split into lines, each line parsed. */
  function ParseCsv(categories: Option<seq<Category>>, csv: string): (records: seq<NewQuestion>)
    ensures |records| <= |Split(Trim(csv), '\n')|
    ensures forall r :: r in records <==>
              exists line :: line in Split(Trim(csv), '\n') && ParseLine(categories, line) == Some(r)
  {
    ParseLines(categories, Split(Trim(csv), '\n'))
  }

  /** Records come out in line order: the records of two blocks of lines are concatenated. */
  lemma ParseLinesFollowsLineOrder(categories: Option<seq<Category>>, a: seq<string>, b: seq<string>)
    ensures ParseLines(categories, a + b) == ParseLines(categories, a) + ParseLines(categories, b)
  {
    FilterMapAppend((line: string) => ParseLine(categories, line), a, b);
  }

  /** With no categories loaded, nothing can be imported. */
  lemma NoCategoriesNoRecords(csv: string)
    ensures ParseCsv(None, csv) == []
  {
    FilterMapAllNone((line: string) => ParseLine(None, line), Split(Trim(csv), '\n'));
  }

  /** A clean field has no white space at its ends and no quote at either end. */
  predicate CleanField(s: string)
  {
    && |s| > 0
    && ',' !in s
    && !IsSpace(s[0]) && !IsSpace(s[|s| - 1])
    && s[0] != '"' && s[|s| - 1] != '"'
  }

  /** A line `text,name` for a known category name is read back as that text and category. */
  lemma ParseLineRoundTrip(categories: seq<Category>, text: string, name: string)
    requires CleanField(text) && CleanField(name)
    requires exists c :: c in categories && c.name == name
    ensures ParseLine(Some(categories), text + [','] + name) ==
              Some(NewQuestion(text, FindByName(Some(categories), name).value.id, false))
  {
    var line := text + [','] + name;
    assert Join([text, name], ',') == line;
    SplitJoin([text, name], ',');
    TrimNoSpace(text);
    TrimNoSpace(name);
    var c :| c in categories && c.name == name;
    assert Lower(c.name) == Lower(name);
  }

  /** Two clean lines `text,name` for known names import as two records, in line order. */
  lemma ParseCsvTwoLines(categories: seq<Category>, t1: string, n1: string, t2: string, n2: string)
    requires CleanField(t1) && CleanField(n1) && CleanField(t2) && CleanField(n2)
    requires '\n' !in t1 && '\n' !in n1 && '\n' !in t2 && '\n' !in n2
    requires exists c :: c in categories && c.name == n1
    requires exists c :: c in categories && c.name == n2
    ensures ParseCsv(Some(categories), t1 + [','] + n1 + ['\n'] + t2 + [','] + n2) ==
              [ NewQuestion(t1, FindByName(Some(categories), n1).value.id, false),
                NewQuestion(t2, FindByName(Some(categories), n2).value.id, false) ]
  {
    var l1, l2 := t1 + [','] + n1, t2 + [','] + n2;
    assert t1 + [','] + n1 + ['\n'] + t2 + [','] + n2 == l1 + ['\n'] + l2;
    assert l1[0] == t1[0] && l2[|l2| - 1] == n2[|n2| - 1];
    CsvOfTwoLines(Some(categories), l1, l2);
    CleanLineRecord(categories, t1, n1);
    CleanLineRecord(categories, t2, n2);
  }

  /** A clean line `text,name` for a known name, taken on its own, yields exactly its record. */
  lemma CleanLineRecord(categories: seq<Category>, text: string, name: string)
    requires CleanField(text) && CleanField(name)
    requires exists c :: c in categories && c.name == name
    ensures ParseLines(Some(categories), [text + [','] + name]) ==
              [NewQuestion(text, FindByName(Some(categories), name).value.id, false)]
  {
    ParseLinesSingle(Some(categories), text + [','] + name);
    ParseLineRoundTrip(categories, text, name);
  }

  /** A CSV of two newline-free lines, with no white space at its ends, imports each line in turn. */
  lemma CsvOfTwoLines(categories: Option<seq<Category>>, l1: string, l2: string)
    requires '\n' !in l1 && '\n' !in l2
    requires |l1| > 0 && !IsSpace(l1[0]) && |l2| > 0 && !IsSpace(l2[|l2| - 1])
    ensures ParseCsv(categories, l1 + ['\n'] + l2) == ParseLines(categories, [l1]) + ParseLines(categories, [l2])
  {
    var csv := l1 + ['\n'] + l2;
    assert csv[0] == l1[0] && csv[|csv| - 1] == l2[|l2| - 1];
    TrimNoSpace(csv);
    LinesOfTwo(l1, l2);
    assert [l1, l2] == [l1] + [l2];
    ParseLinesFollowsLineOrder(categories, [l1], [l2]);
  }

  /** Two newline-free lines joined by a newline split back into those two lines. */
  lemma LinesOfTwo(l1: string, l2: string)
    requires '\n' !in l1 && '\n' !in l2
    ensures Split(l1 + ['\n'] + l2, '\n') == [l1, l2]
  {
    assert [l1, l2][1..] == [l2];
    assert Join([l1, l2], '\n') == l1 + ['\n'] + l2;
    SplitJoin([l1, l2], '\n');
  }

  datatype ImportOutcome = NothingToImport | BulkRequest(questions: seq<NewQuestion>)

  /** After the loop: no record means a toast and no request; otherwise one bulk request with all. */
  function CsvImport(categories: Option<seq<Category>>, csv: string): (r: ImportOutcome)
    ensures r.NothingToImport? <==> |ParseCsv(categories, csv)| == 0
    ensures r.BulkRequest? ==> r.questions == ParseCsv(categories, csv)
  {
    var records := ParseCsv(categories, csv);
    if |records| == 0 then NothingToImport else BulkRequest(records)
  }

  // ---------------------------------------------------------------- search

  /** The category select: `'all'`, or a decimal id compared with `parseInt`. */
  predicate MatchesCategory(filterCategory: string, q: Question)
  {
    filterCategory == "all" || ParseInt(filterCategory) == Some(q.categoryId)
  }

  /** `filteredQuestions`: the questions whose lower-cased text contains the lower-cased term, in the chosen category. */
  function SearchQuestions(questions: Option<seq<Question>>, searchTerm: string, filterCategory: string)
    : (r: Option<seq<Question>>)
    ensures r.None? <==> questions.None?
    ensures r.Some? ==> IsSubsequence(r.value, questions.value)
    ensures r.Some? ==> forall q :: q in r.value <==>
              && q in questions.value
              && Contains(Lower(q.questionText), Lower(searchTerm))
              && MatchesCategory(filterCategory, q)
  {
    match questions
    case None => None
    case Some(qs) =>
      Some(Filter((q: Question) => Contains(Lower(q.questionText), Lower(searchTerm)) && MatchesCategory(filterCategory, q), qs))
  }

  /** An empty search with category `'all'` shows the whole list, in order. */
  lemma EmptySearchShowsAll(qs: seq<Question>)
    ensures SearchQuestions(Some(qs), "", "all") == Some(qs)
  {
    forall q: Question ensures Contains(Lower(q.questionText), Lower("")) {
      assert OccursAt(Lower(q.questionText), "", 0);
    }
    FilterKeepsAll((q: Question) => Contains(Lower(q.questionText), Lower("")) && MatchesCategory("all", q), qs);
  }

  /** The search ignores ASCII case: an upper-case term finds the same questions as its lower-case form. */
  lemma SearchIgnoresCase(qs: Option<seq<Question>>, term: string, filterCategory: string)
    ensures SearchQuestions(qs, term, filterCategory) == SearchQuestions(qs, Lower(term), filterCategory)
  {
    assert Lower(Lower(term)) == Lower(term);
  }
}
