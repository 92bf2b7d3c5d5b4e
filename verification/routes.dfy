/**
 * The decision logic of the HTTP handlers in server/routes.ts: the admin guard, the parsing of the
 * `categoryIds` query, the dashboard statistics, the bulk import partition and the order endpoint.
 * Storage is the in-memory table of module Storage; the zod schema is an abstract `validate`
 * function that either yields the row's insert payload or rejects it.
 */
module Routes {
  import opened Wrappers
  import opened Seqs
  import opened Text
  import opened Decimal
  import opened Catalog
  import opened Storage

  const Ok := 200
  const Created := 201
  const BadRequest := 400
  const Unauthorized := 401
  const NotFound := 404

  // ---------------------------------------------------------------- requireAdmin

  /** `requireAdmin`: the session flag must be truthy; an absent flag counts as false. */
  function RequireAdmin(isAdmin: Option<bool>): (refusal: Option<int>)
    ensures refusal.None? <==> isAdmin == Some(true)
    ensures refusal.Some? ==> refusal.value == Unauthorized
  {
    if isAdmin == Some(true) then None else Some(Unauthorized)
  }

  // ---------------------------------------------------------------- GET /api/questions

  /**
   * The `categoryIds` query: absent or empty means no filter; otherwise the comma-separated parts
   * that `parseInt` accepts, in order, the `NaN`s dropped.
   */
  function ParseCategoryIds(param: Option<string>): (ids: Option<seq<int>>)
    ensures ids.Some? <==> param.Some? && param.value != ""
    ensures ids.Some? ==> param.Some? && |ids.value| <= |Split(param.value, ',')|
    ensures ids.Some? ==> forall x :: x in ids.value ==>
              exists part :: part in Split(param.value, ',') && ParseInt(part) == Some(x)
    ensures ids.Some? ==> forall part :: part in Split(param.value, ',') && ParseInt(part).Some? ==>
              ParseInt(part).value in ids.value
  {
    match param
    case None => None
    case Some(s) =>
      if |s| == 0 then None
      else
        FilterMapComplete(ParseInt, Split(s, ','));
        Some(FilterMap(ParseInt, Split(s, ',')))
  }

  /** The list a client sends: the decimal ids joined by commas. */
  function JoinIds(ns: seq<nat>): string
    requires |ns| >= 1
  {
    Join(seq(|ns|, i requires 0 <= i < |ns| => NatToString(ns[i])), ',')
  }

  /** A comma-joined list of decimal ids is read back exactly, in order. */
  lemma ParseCategoryIdsRoundTrip(ns: seq<nat>)
    requires |ns| >= 1
    ensures ParseCategoryIds(Some(JoinIds(ns))) == Some(ns)
  {
    var parts := seq(|ns|, i requires 0 <= i < |ns| => NatToString(ns[i]));
    forall i | 0 <= i < |parts| ensures ',' !in parts[i] {
      assert AllDigits(parts[i]);
    }
    SplitJoin(parts, ',');
    assert |JoinIds(ns)| > 0 by {
      JoinLength(parts, ',');
    }
    forall i | 0 <= i < |parts| ensures ParseInt(parts[i]) == Some(ns[i] as int) {
      ParseIntRoundTrip(ns[i]);
    }
    FilterMapAllSome(ParseInt, parts, ns);
  }

  /** Three pieces: each piece's value when `f` accepts it, in order. */
  lemma FilterMapThree<A, B>(f: A -> Option<B>, a: A, b: A, c: A)
    ensures FilterMap(f, [a, b, c]) == FilterMap(f, [a]) + FilterMap(f, [b]) + FilterMap(f, [c])
  {
    assert [a, b, c] == [a] + [b] + [c];
    FilterMapAppend(f, [a] + [b], [c]);
    FilterMapAppend(f, [a], [b]);
  }

  /** Splitting `x,junk,y` at commas gives the three parts back when none holds a comma. */
  lemma SplitThree(x: string, junk: string, y: string)
    requires ',' !in x && ',' !in junk && ',' !in y
    ensures Split(x + [','] + junk + [','] + y, ',') == [x, junk, y]
  {
    var parts := [x, junk, y];
    assert parts[1..] == [junk, y] && parts[1..][1..] == [y];
    assert Join([y], ',') == y;
    assert Join([junk, y], ',') == junk + [','] + y;
    assert Join(parts, ',') == x + [','] + (junk + [','] + y);
    assert x + [','] + (junk + [','] + y) == x + [','] + junk + [','] + y;
    SplitJoin(parts, ',');
  }

  /** Parsing three pieces, the middle one not a number: the two numbers, in order. */
  lemma ParsePiecesSkipsMiddle(x: string, junk: string, y: string, m: int, n: int)
    requires ParseInt(x) == Some(m) && ParseInt(junk).None? && ParseInt(y) == Some(n)
    ensures FilterMap(ParseInt, [x, junk, y]) == [m, n]
  {
    FilterMapThree(ParseInt, x, junk, y);
    FilterMapSingle(ParseInt, x);
    FilterMapSingle(ParseInt, junk);
    FilterMapSingle(ParseInt, y);
  }

  /** A part that is not a number is skipped; the numbers around it keep their order. */
  lemma ParseCategoryIdsSkipsNaN(m: nat, n: nat, junk: string)
    requires forall i :: 0 <= i < |junk| ==> !IsDigit(junk[i]) && junk[i] != ','
    ensures ParseCategoryIds(Some(NatToString(m) + [','] + junk + [','] + NatToString(n))) == Some([m, n])
  {
    var x, y := NatToString(m), NatToString(n);
    var s := x + [','] + junk + [','] + y;
    assert ',' !in x by { assert AllDigits(x); }
    assert ',' !in y by { assert AllDigits(y); }
    assert ',' !in junk by { assert forall c :: c in junk ==> c != ','; }
    SplitThree(x, junk, y);
    ParseIntRoundTrip(m);
    ParseIntRoundTrip(n);
    ParseIntNoDigits(junk);
    ParsePiecesSkipsMiddle(x, junk, y, m, n);
    assert |s| > 0;
  }

  /** A joined list is at least as long as its first piece. */
  lemma JoinLength(parts: seq<string>, sep: char)
    requires |parts| >= 1
    ensures |Join(parts, sep)| >= |parts[0]|
  {
  }

  /** `GET /api/questions`: the questions of the listed categories, or all of them. */
  function QuestionsEndpoint(db: Db, param: Option<string>): (r: seq<Question>)
    ensures IsSubsequence(r, db.questions)
    ensures forall q :: q in r <==>
              q in db.questions &&
              (ParseCategoryIds(param).None? || |ParseCategoryIds(param).value| == 0 ||
               q.categoryId in ParseCategoryIds(param).value)
  {
    var r := GetQuestions(db, ParseCategoryIds(param));
    assert ParseCategoryIds(param).None? || |ParseCategoryIds(param).value| == 0 ==> IsSubsequence(r, db.questions) by {
      SubsequenceOfItself(db.questions);
    }
    r
  }

  /** A query none of whose parts is a number filters nothing: every question comes back. */
  lemma UnparsableFilterReturnsEverything(db: Db, s: string)
    requires forall i :: 0 <= i < |s| ==> !IsDigit(s[i])
    ensures QuestionsEndpoint(db, Some(s)) == db.questions
  {
    if |s| > 0 {
      var parts := Split(s, ',');
      forall i | 0 <= i < |parts| ensures ParseInt(parts[i]) == None {
        forall k | 0 <= k < |parts[i]| ensures !IsDigit(parts[i][k]) {
          PieceCharsComeFromInput(parts, ',', i, k);
          assert parts[i][k] in Join(parts, ',');
        }
        ParseIntNoDigits(parts[i]);
      }
      FilterMapAllNone(ParseInt, parts);
    }
  }

  /** Every character of a piece occurs in the joined string. */
  lemma {:induction false} PieceCharsComeFromInput(parts: seq<string>, sep: char, i: int, k: int)
    requires |parts| >= 1
    requires 0 <= i < |parts| && 0 <= k < |parts[i]|
    ensures parts[i][k] in Join(parts, sep)
    decreases |parts|
  {
    if |parts| > 1 {
      var j := Join(parts, sep);
      if i == 0 {
        assert j[k] == parts[0][k];
      } else {
        PieceCharsComeFromInput(parts[1..], sep, i - 1, k);
        var rest := Join(parts[1..], sep);
        var p :| 0 <= p < |rest| && rest[p] == parts[i][k];
        assert j[|parts[0]| + 1 + p] == rest[p];
      }
    }
  }

  // ---------------------------------------------------------------- GET /api/admin/dashboard

  datatype CategoryStat = CategoryStat(category: Category, count: int)

  datatype Dashboard = Dashboard(totalQuestions: nat, totalCategories: nat, categoryStats: seq<CategoryStat>)

  /**
   * The dashboard body: the totals, and one statistic per category in `getCategories` order whose
   * count is the category's entry in the per-category table, or 0 when it has none.
   */
  method BuildDashboard(db: Db) returns (d: Dashboard)
    ensures d.totalQuestions == |db.questions|
    ensures d.totalCategories == |db.categories|
    ensures |d.categoryStats| == |GetCategories(db)|
    ensures forall i :: 0 <= i < |d.categoryStats| ==>
              && d.categoryStats[i].category == GetCategories(db)[i]
              && d.categoryStats[i].count == Occurrences(db.questions, GetCategories(db)[i].id)
  {
    var total := GetQuestionCount(db);
    var categories := GetCategories(db);
    var table := GetQuestionCountByCategory(db);
    var stats := seq(|categories|, i requires 0 <= i < |categories| =>
                   CategoryStat(categories[i], CountFor(table, categories[i].id)));
    forall i | 0 <= i < |stats|
      ensures stats[i].count == Occurrences(db.questions, categories[i].id)
    {
      CountForIsExact(db, table, categories[i].id);
    }
    d := Dashboard(total, |categories|, stats);
  }

  /** `GET /api/admin/dashboard`: 401 for a non-admin session, else 200 with the dashboard. */
  method DashboardEndpoint(db: Db, isAdmin: Option<bool>) returns (status: int, body: Option<Dashboard>)
    ensures isAdmin != Some(true) <==> status == Unauthorized
    ensures status == Unauthorized <==> body.None?
    ensures status != Unauthorized ==> status == Ok
    ensures body.Some? ==> body.value.totalCategories == |db.categories|
    ensures body.Some? ==> body.value.totalQuestions == |db.questions|
    ensures body.Some? ==> |body.value.categoryStats| == |GetCategories(db)|
    ensures body.Some? ==> forall i :: 0 <= i < |body.value.categoryStats| ==>
              && body.value.categoryStats[i].category == GetCategories(db)[i]
              && body.value.categoryStats[i].count == Occurrences(db.questions, GetCategories(db)[i].id)
  {
    match RequireAdmin(isAdmin)
    case Some(refusal) =>
      status, body := refusal, None;
    case None =>
      var d := BuildDashboard(db);
      status, body := Ok, Some(d);
  }

  // ---------------------------------------------------------------- POST /api/admin/questions/bulk

  /** `req.body.questions`: either not an array at all, or an array of raw rows. */
  datatype BulkBody<R> = NotAnArray | Rows(rows: seq<R>)

  /** The 1-based numbers of the rows the schema rejects, in row order. */
  function ErrorRows<R>(validate: R -> Option<NewQuestion>, rows: seq<R>): (errs: seq<int>)
    ensures |errs| + |FilterMap(validate, rows)| == |rows|
    ensures forall k :: 0 <= k < |errs| ==> 1 <= errs[k] <= |rows| && validate(rows[errs[k] - 1]).None?
    ensures forall k, l :: 0 <= k < l < |errs| ==> errs[k] < errs[l]
    ensures forall i :: 0 <= i < |rows| && validate(rows[i]).None? ==> i + 1 in errs
    decreases |rows|
  {
    if |rows| == 0 then []
    else
      var init := rows[..|rows| - 1];
      var last := rows[|rows| - 1];
      assert rows == init + [last];
      FilterMapSnocLength(validate, init, last);
      var before := ErrorRows(validate, init);
      if validate(last).None? then before + [|rows|] else before
  }

  /**
   * The loop over the rows: each is either valid, its payload kept in order, or an error tagged
   * with its 1-based row number.
   */
  method PartitionRows<R>(rows: seq<R>, validate: R -> Option<NewQuestion>)
    returns (valid: seq<NewQuestion>, errors: seq<int>)
    ensures valid == FilterMap(validate, rows)
    ensures errors == ErrorRows(validate, rows)
    ensures |valid| + |errors| == |rows|
  {
    valid, errors := [], [];
    var i := 0;
    while i < |rows|
      invariant 0 <= i <= |rows|
      invariant valid == FilterMap(validate, rows[..i])
      invariant errors == ErrorRows(validate, rows[..i])
    {
      OneMoreRow(validate, rows, i);
      match validate(rows[i]) {
        case Some(data) =>
          valid := valid + [data];
        case None =>
          errors := errors + [i + 1];
      }
      i := i + 1;
    }
    assert rows[..i] == rows;
  }

  /** What one more row adds to the valid list and to the error rows. */
  lemma OneMoreRow<R>(validate: R -> Option<NewQuestion>, rows: seq<R>, i: int)
    requires 0 <= i < |rows|
    ensures validate(rows[i]).Some? ==>
              && FilterMap(validate, rows[..i + 1]) == FilterMap(validate, rows[..i]) + [validate(rows[i]).value]
              && ErrorRows(validate, rows[..i + 1]) == ErrorRows(validate, rows[..i])
    ensures validate(rows[i]).None? ==>
              && FilterMap(validate, rows[..i + 1]) == FilterMap(validate, rows[..i])
              && ErrorRows(validate, rows[..i + 1]) == ErrorRows(validate, rows[..i]) + [i + 1]
  {
    var prefix := rows[..i + 1];
    assert prefix == rows[..i] + [rows[i]];
    assert prefix[..i] == rows[..i];
    FilterMapAppend(validate, rows[..i], [rows[i]]);
  }

  datatype BulkReply = BulkReply(status: int, created: nat, errors: seq<int>)

  /**
   * `POST /api/admin/questions/bulk`: 401 for a non-admin session; 400 when the body is not an
   * array or no row is valid; otherwise the valid rows are created and the reply is 201 with
   * their number and the rejected row numbers.
   */
  method BulkImport<R>(db: Db, isAdmin: Option<bool>, body: BulkBody<R>, validate: R -> Option<NewQuestion>)
    returns (db': Db, reply: BulkReply)
    ensures isAdmin != Some(true) ==> reply.status == Unauthorized && db' == db
    ensures isAdmin == Some(true) && body.NotAnArray? ==> reply.status == BadRequest && db' == db
    ensures isAdmin == Some(true) && body.Rows? && |FilterMap(validate, body.rows)| == 0 ==>
              reply.status == BadRequest && db' == db && reply.errors == ErrorRows(validate, body.rows)
    ensures isAdmin == Some(true) && body.Rows? && |FilterMap(validate, body.rows)| > 0 ==>
              && reply.status == Created
              && db' == BulkCreateQuestions(db, FilterMap(validate, body.rows)).0
              && reply.created == |FilterMap(validate, body.rows)|
              && reply.errors == ErrorRows(validate, body.rows)
              && reply.created + |reply.errors| == |body.rows|
  {
    if RequireAdmin(isAdmin).Some? {
      return db, BulkReply(Unauthorized, 0, []);
    }
    match body
    case NotAnArray =>
      db', reply := db, BulkReply(BadRequest, 0, []);
    case Rows(rows) =>
      var valid, errors := PartitionRows(rows, validate);
      if |valid| == 0 {
        db', reply := db, BulkReply(BadRequest, 0, errors);
      } else {
        var result := BulkCreateQuestions(db, valid);
        db', reply := result.0, BulkReply(Created, |result.1|, errors);
      }
  }

  /** A successful import grows the table by exactly the number it reports, and keeps it valid. */
  lemma BulkImportGrowsTableByCreated<R>(db: Db, rows: seq<R>, validate: R -> Option<NewQuestion>)
    requires Valid(db)
    requires |FilterMap(validate, rows)| > 0
    ensures var db' := BulkCreateQuestions(db, FilterMap(validate, rows)).0;
            && |db'.questions| == |db.questions| + |FilterMap(validate, rows)|
            && |db'.questions| - |db.questions| + |ErrorRows(validate, rows)| == |rows|
            && Valid(db')
  {
    BulkCreateKeepsValid(db, FilterMap(validate, rows));
  }

  // ---------------------------------------------------------------- PUT /api/admin/categories/:id/order

  /** `req.body.order` as far as `typeof order` sees it. */
  datatype OrderField = NumberValue(n: int) | NotNumber

  datatype OrderReply = OrderReply(status: int, category: Option<Category>)

  /**
   * `PUT /api/admin/categories/:id/order`: 401 for a non-admin session, 400 when `order` is not a
   * number, 404 when no category has the id (a `NaN` id matches none), else 200 with the row.
   */
  function OrderEndpoint(db: Db, isAdmin: Option<bool>, idParam: string, order: OrderField): (r: (Db, OrderReply))
    ensures r.1.status in {Ok, BadRequest, Unauthorized, NotFound}
    ensures r.1.status == Unauthorized <==> isAdmin != Some(true)
    ensures r.1.status == BadRequest <==> isAdmin == Some(true) && order.NotNumber?
    ensures r.1.status == NotFound <==>
              && isAdmin == Some(true) && order.NumberValue?
              && (ParseInt(idParam).None? || forall c :: c in db.categories ==> c.id != ParseInt(idParam).value)
    ensures r.1.status != Ok ==> r.0 == db && r.1.category.None?
    ensures r.1.status == Ok ==>
              && r.1.category.Some?
              && r.1.category.value.order == order.n
              && Some(r.1.category.value.id) == ParseInt(idParam)
              && r.0 == UpdateCategoryOrder(db, ParseInt(idParam).value, order.n).0
  {
    if isAdmin != Some(true) then (db, OrderReply(Unauthorized, None))
    else
      match order
      case NotNumber => (db, OrderReply(BadRequest, None))
      case NumberValue(n) =>
        match ParseInt(idParam)
        case None => (db, OrderReply(NotFound, None))
        case Some(id) =>
          var updated := UpdateCategoryOrder(db, id, n);
          match updated.1
          case None => (db, OrderReply(NotFound, None))
          case Some(c) => (updated.0, OrderReply(Ok, Some(c)))
  }
}
