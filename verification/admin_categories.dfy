/**
 * The category administration page (client/src/pages/AdminCategories.tsx): the two order
 * requests behind the move-up and move-down arrows, and the body of the edit request, together
 * with what they do once the server (module Storage) has applied them.
 */
module AdminCategories {
  import opened Wrappers
  import opened Catalog
  import opened Storage

  /** One `PUT /api/admin/categories/:id/order` request. */
  datatype OrderRequest = OrderRequest(id: int, order: int)

  /**
   * `handleMoveUp(category, index)`: nothing at the first row or before the list has loaded;
   * otherwise the category takes its predecessor's order and the predecessor takes the category's.
   */
  function MoveUp(categories: Option<seq<Category>>, category: Category, index: int): (reqs: seq<OrderRequest>)
    requires categories.Some? && index != 0 ==> 0 < index <= |categories.value|
    ensures index == 0 || categories.None? ==> reqs == []
    ensures index != 0 && categories.Some? ==>
              reqs == [OrderRequest(category.id, categories.value[index - 1].order),
                       OrderRequest(categories.value[index - 1].id, category.order)]
  {
    if index == 0 || categories.None? then []
    else
      var prev := categories.value[index - 1];
      [OrderRequest(category.id, prev.order), OrderRequest(prev.id, category.order)]
  }

  /**
   * `handleMoveDown(category, index)`: nothing at the last row or before the list has loaded;
   * otherwise the category and its successor exchange orders.
   */
  function MoveDown(categories: Option<seq<Category>>, category: Category, index: int): (reqs: seq<OrderRequest>)
    requires categories.Some? && index != |categories.value| - 1 ==> -1 <= index < |categories.value| - 1
    ensures categories.None? || index == |categories.value| - 1 ==> reqs == []
    ensures categories.Some? && index != |categories.value| - 1 ==>
              reqs == [OrderRequest(category.id, categories.value[index + 1].order),
                       OrderRequest(categories.value[index + 1].id, category.order)]
  {
    if categories.None? || index == |categories.value| - 1 then []
    else
      var next := categories.value[index + 1];
      [OrderRequest(category.id, next.order), OrderRequest(next.id, category.order)]
  }

  /** The server handling the requests one after the other. */
  function ApplyOrderRequests(db: Db, reqs: seq<OrderRequest>): Db
    decreases |reqs|
  {
    if |reqs| == 0 then db
    else ApplyOrderRequests(UpdateCategoryOrder(db, reqs[0].id, reqs[0].order).0, reqs[1..])
  }

  predicate DistinctIds(cs: seq<Category>)
  {
    forall i, j :: 0 <= i < j < |cs| ==> cs[i].id != cs[j].id
  }

  function Orders(cs: seq<Category>): (os: seq<int>)
    ensures |os| == |cs|
    ensures forall i :: 0 <= i < |cs| ==> os[i] == cs[i].order
  {
    seq(|cs|, i requires 0 <= i < |cs| => cs[i].order)
  }

  /** Exchanging two entries keeps the multiset of a sequence. */
  lemma SwapKeepsMultiset(s: seq<int>, a: int, b: int)
    requires 0 <= a < |s| && 0 <= b < |s|
    ensures multiset(s[a := s[b]][b := s[a]]) == multiset(s)
  {
  }

  /** With unique ids, setting the order of one id changes exactly the row at its position. */
  lemma UpdateAt(db: Db, a: int, order: int)
    requires DistinctIds(db.categories)
    requires 0 <= a < |db.categories|
    ensures UpdateCategoryOrder(db, db.categories[a].id, order).0 ==
              db.(categories := db.categories[a := db.categories[a].(order := order)])
  {
    var r := UpdateCategoryOrder(db, db.categories[a].id, order).0;
    assert r.categories == db.categories[a := db.categories[a].(order := order)];
  }

  /** Two requests are handled one after the other. */
  lemma ApplyTwo(db: Db, r1: OrderRequest, r2: OrderRequest)
    ensures ApplyOrderRequests(db, [r1, r2]) ==
              UpdateCategoryOrder(UpdateCategoryOrder(db, r1.id, r1.order).0, r2.id, r2.order).0
  {
    var reqs := [r1, r2];
    var db1 := UpdateCategoryOrder(db, r1.id, r1.order).0;
    assert reqs[1..] == [r2];
    assert ApplyOrderRequests(db, reqs) == ApplyOrderRequests(db1, [r2]);
    assert [r2][1..] == [];
    assert ApplyOrderRequests(db1, [r2]) == ApplyOrderRequests(UpdateCategoryOrder(db1, r2.id, r2.order).0, []);
  }

  /** Setting one row's order keeps every id where it was. */
  lemma SetOrderKeepsIds(cs: seq<Category>, a: int, order: int)
    requires DistinctIds(cs)
    requires 0 <= a < |cs|
    ensures DistinctIds(cs[a := cs[a].(order := order)])
  {
    var cs' := cs[a := cs[a].(order := order)];
    assert forall i :: 0 <= i < |cs| ==> cs'[i].id == cs[i].id;
  }

  /** Two order requests for two distinct stored ids set those two rows' orders and nothing else. */
  lemma TwoUpdates(db: Db, a: int, oa: int, b: int, ob: int)
    requires DistinctIds(db.categories)
    requires 0 <= a < |db.categories| && 0 <= b < |db.categories| && a != b
    ensures var cs := db.categories;
            ApplyOrderRequests(db, [OrderRequest(cs[a].id, oa), OrderRequest(cs[b].id, ob)]) ==
              db.(categories := cs[a := cs[a].(order := oa)][b := cs[b].(order := ob)])
  {
    var cs := db.categories;
    ApplyTwo(db, OrderRequest(cs[a].id, oa), OrderRequest(cs[b].id, ob));
    UpdateAt(db, a, oa);
    var db1 := db.(categories := cs[a := cs[a].(order := oa)]);
    SetOrderKeepsIds(cs, a, oa);
    UpdateAt(db1, b, ob);
  }

  /** Exchanging the orders of two rows keeps the multiset of orders. */
  lemma SwapKeepsOrders(cs: seq<Category>, a: int, b: int)
    requires 0 <= a < |cs| && 0 <= b < |cs|
    ensures multiset(Orders(cs[a := cs[a].(order := cs[b].order)][b := cs[b].(order := cs[a].order)])) ==
              multiset(Orders(cs))
  {
    var swapped := cs[a := cs[a].(order := cs[b].order)][b := cs[b].(order := cs[a].order)];
    assert Orders(swapped) == Orders(cs)[a := Orders(cs)[b]][b := Orders(cs)[a]];
    SwapKeepsMultiset(Orders(cs), a, b);
  }

  /** Point updates at two different positions commute. */
  lemma UpdatesCommute(cs: seq<Category>, a: int, x: Category, b: int, y: Category)
    requires 0 <= a < |cs| && 0 <= b < |cs| && a != b
    ensures cs[b := y][a := x] == cs[a := x][b := y]
  {
  }

  /**
   * Two requests exchanging the orders of two distinct stored categories: whatever order the
   * server handles them in, exactly those two rows change, each taking the other's order, and the
   * multiset of orders is unchanged.
   */
  lemma ExchangeOrders(db: Db, a: int, b: int)
    requires DistinctIds(db.categories)
    requires 0 <= a < |db.categories| && 0 <= b < |db.categories| && a != b
    ensures var cs := db.categories;
            var swapped := cs[a := cs[a].(order := cs[b].order)][b := cs[b].(order := cs[a].order)];
            && ApplyOrderRequests(db, [OrderRequest(cs[a].id, cs[b].order), OrderRequest(cs[b].id, cs[a].order)]) ==
                 db.(categories := swapped)
            && ApplyOrderRequests(db, [OrderRequest(cs[b].id, cs[a].order), OrderRequest(cs[a].id, cs[b].order)]) ==
                 db.(categories := swapped)
            && multiset(Orders(swapped)) == multiset(Orders(cs))
  {
    var cs := db.categories;
    TwoUpdates(db, a, cs[b].order, b, cs[a].order);
    TwoUpdates(db, b, cs[a].order, a, cs[b].order);
    UpdatesCommute(cs, a, cs[a].(order := cs[b].order), b, cs[b].(order := cs[a].order));
    SwapKeepsOrders(cs, a, b);
  }

  /** Moving a row up, with the list the server sent: the row and its predecessor exchange orders. */
  lemma MoveUpExchangesWithPredecessor(db: Db, shown: seq<Category>, index: int, a: int, b: int)
    requires DistinctIds(db.categories)
    requires 0 < index < |shown|
    requires 0 <= a < |db.categories| && db.categories[a] == shown[index]
    requires 0 <= b < |db.categories| && db.categories[b] == shown[index - 1]
    requires shown[index].id != shown[index - 1].id
    ensures var cs := db.categories;
            var r := ApplyOrderRequests(db, MoveUp(Some(shown), shown[index], index));
            && r.categories == cs[a := cs[a].(order := cs[b].order)][b := cs[b].(order := cs[a].order)]
            && multiset(Orders(r.categories)) == multiset(Orders(cs))
  {
    ExchangeOrders(db, a, b);
  }

  /**
   * Moving a row up with whatever list the page shows, stale or not: at the first row nothing is
   * sent; otherwise every stored row with the predecessor's id takes the row's shown order, every
   * other stored row with the row's id takes the predecessor's shown order, and the rest stay.
   */
  lemma MoveUpWritesShownOrders(db: Db, shown: seq<Category>, index: int)
    requires 0 <= index < |shown|
    ensures var cs := db.categories;
            var r := ApplyOrderRequests(db, MoveUp(Some(shown), shown[index], index));
            && (index == 0 ==> r == db)
            && |r.categories| == |cs|
            && forall j :: 0 <= j < |cs| ==>
                 r.categories[j] ==
                   if index == 0 then cs[j]
                   else if cs[j].id == shown[index - 1].id then cs[j].(order := shown[index].order)
                   else if cs[j].id == shown[index].id then cs[j].(order := shown[index - 1].order)
                   else cs[j]
  {
    if index > 0 {
      var reqs := MoveUp(Some(shown), shown[index], index);
      ApplyTwo(db, reqs[0], reqs[1]);
    }
  }

  /** Moving a row down: the row and its successor exchange orders. */
  lemma MoveDownExchangesWithSuccessor(db: Db, shown: seq<Category>, index: int, a: int, b: int)
    requires DistinctIds(db.categories)
    requires 0 <= index < |shown| - 1
    requires 0 <= a < |db.categories| && db.categories[a] == shown[index]
    requires 0 <= b < |db.categories| && db.categories[b] == shown[index + 1]
    requires shown[index].id != shown[index + 1].id
    ensures var cs := db.categories;
            var r := ApplyOrderRequests(db, MoveDown(Some(shown), shown[index], index));
            && r.categories == cs[a := cs[a].(order := cs[b].order)][b := cs[b].(order := cs[a].order)]
            && multiset(Orders(r.categories)) == multiset(Orders(cs))
  {
    ExchangeOrders(db, a, b);
  }

  /**
   * Moving a row down with whatever list the page shows: at the last row nothing is sent; otherwise
   * every stored row with the successor's id takes the row's shown order, every other stored row
   * with the row's id takes the successor's shown order, and the rest stay.
   */
  lemma MoveDownWritesShownOrders(db: Db, shown: seq<Category>, index: int)
    requires 0 <= index < |shown|
    ensures var cs := db.categories;
            var r := ApplyOrderRequests(db, MoveDown(Some(shown), shown[index], index));
            && (index == |shown| - 1 ==> r == db)
            && |r.categories| == |cs|
            && forall j :: 0 <= j < |cs| ==>
                 r.categories[j] ==
                   if index == |shown| - 1 then cs[j]
                   else if cs[j].id == shown[index + 1].id then cs[j].(order := shown[index].order)
                   else if cs[j].id == shown[index].id then cs[j].(order := shown[index + 1].order)
                   else cs[j]
  {
    if index < |shown| - 1 {
      var reqs := MoveDown(Some(shown), shown[index], index);
      ApplyTwo(db, reqs[0], reqs[1]);
    }
  }

  /** `handleUpdateCategory`: with a category open in the editor, its id and its four visual fields only. */
  function UpdateRequest(editCategory: Option<Category>): (r: Option<(int, CategoryPatch)>)
    ensures r.None? <==> editCategory.None?
    ensures r.Some? ==> r.value.0 == editCategory.value.id
  {
    match editCategory
    case None => None
    case Some(c) => Some((c.id, CategoryPatch(c.name, c.icon, c.colorPrimary, c.colorSecondary)))
  }

  /**
   * Saving an edited copy of a stored category makes the stored row equal to the copy, provided the
   * copy's order is the stored one (the payload has no order); every other row is untouched.
   */
  lemma EditedCategoryIsStored(db: Db, k: int, edited: Category)
    requires DistinctIds(db.categories)
    requires 0 <= k < |db.categories|
    requires edited.id == db.categories[k].id && edited.order == db.categories[k].order
    ensures var req := UpdateRequest(Some(edited)).value;
            var r := UpdateCategory(db, req.0, req.1);
            && r.0.categories[k] == edited
            && r.1 == Some(edited)
            && forall i :: 0 <= i < |db.categories| && i != k ==> r.0.categories[i] == db.categories[i]
  {
    var req := UpdateRequest(Some(edited)).value;
    var r := UpdateCategory(db, req.0, req.1);
    assert db.categories[k] in db.categories;
    var found := FindCategory(db.categories, edited.id);
    var j :| 0 <= j < |db.categories| && db.categories[j] == found.value;
    assert j == k;
  }

  /** The edit request never carries an order, so an edit cannot reorder categories. */
  lemma EditKeepsOrders(db: Db, edited: Category)
    ensures var req := UpdateRequest(Some(edited)).value;
            Orders(UpdateCategory(db, req.0, req.1).0.categories) == Orders(db.categories)
  {
  }
}
