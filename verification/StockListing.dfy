/**
  InventoryItem.findAllWithStock of src/models/InventoryItem.js: one grouped LEFT JOIN that stands for
  BaseModel.findAll followed by one stock query for each row.
*/
module StockListing {
  import opened Numbers
  import opened Wrappers
  import opened CrudModel
  import opened CrudTenancy

  datatype Stock = Stock(item: Id, quantity: int, deleted: bool)

  /** A listed item with its quantity_on_hand. */
  datatype Stocked = Stocked(row: Row, onHand: int)

  // ---------------------------------------------------------------------------
  // The plain meaning
  // ---------------------------------------------------------------------------

  /** Sum of an item's stock that is not soft-deleted; 0 when there is none. */
  function StockOf(stock: seq<Stock>, id: Id): int {
    if stock == [] then 0
    else
      var last := stock[|stock| - 1];
      StockOf(stock[..|stock| - 1], id) + if last.item == id && !last.deleted then last.quantity else 0
  }

  function Enriched(rows: seq<Row>, stock: seq<Stock>): (r: seq<Stocked>)
    ensures |r| == |rows|
  {
    seq(|rows|, i requires 0 <= i < |rows| => Stocked(rows[i], StockOf(stock, rows[i].id)))
  }

  // ---------------------------------------------------------------------------
  // The query
  // ---------------------------------------------------------------------------

  /** A row of the join; `quantity` is None when the outer join found no stock. */
  datatype Joined = Joined(row: Row, quantity: Option<int>)

  datatype Group = Group(row: Row, quantities: seq<Option<int>>)

  /** Quantities that ON s.item_id = i.id AND s.deleted_at IS NULL lets through. */
  function Matches(stock: seq<Stock>, id: Id): seq<Option<int>> {
    if stock == [] then []
    else
      var last := stock[|stock| - 1];
      Matches(stock[..|stock| - 1], id) + if last.item == id && !last.deleted then [Some(last.quantity)] else []
  }

  function Paired(row: Row, quantities: seq<Option<int>>): (r: seq<Joined>)
    ensures |r| == |quantities|
  {
    seq(|quantities|, i requires 0 <= i < |quantities| => Joined(row, quantities[i]))
  }

  /** One item's rows of the LEFT JOIN: its matches, or a single row with NULL. */
  function OuterMatches(stock: seq<Stock>, id: Id): (r: seq<Option<int>>)
    ensures r != []
  {
    if Matches(stock, id) == [] then [None] else Matches(stock, id)
  }

  function LeftJoin(rows: seq<Row>, stock: seq<Stock>): seq<Joined> {
    if rows == [] then []
    else
      var last := rows[|rows| - 1];
      LeftJoin(rows[..|rows| - 1], stock) + Paired(last, OuterMatches(stock, last.id))
  }

  function WhereItem(joined: seq<Joined>, where: Row -> bool): seq<Joined> {
    if joined == [] then []
    else
      var last := joined[|joined| - 1];
      WhereItem(joined[..|joined| - 1], where) + if where(last.row) then [last] else []
  }

  /** Adds a row to the group of its item id, wherever that group is, or opens a new group. */
  function AddToGroup(groups: seq<Group>, j: Joined): seq<Group> {
    if groups == [] then [Group(j.row, [j.quantity])]
    else
      var front, last := groups[..|groups| - 1], groups[|groups| - 1];
      if last.row.id == j.row.id then front + [last.(quantities := last.quantities + [j.quantity])]
      else if exists g <- front :: g.row.id == j.row.id then AddToGroup(front, j) + [last]
      else groups + [Group(j.row, [j.quantity])]
  }

  /** GROUP BY i.id */
  function GroupById(joined: seq<Joined>): seq<Group> {
    if joined == [] then [] else AddToGroup(GroupById(joined[..|joined| - 1]), joined[|joined| - 1])
  }

  /** SQL SUM: NULLs are skipped, and the sum of nothing but NULLs is NULL. */
  function Sum(quantities: seq<Option<int>>): Option<int> {
    if quantities == [] then None
    else
      var sum, last := Sum(quantities[..|quantities| - 1]), quantities[|quantities| - 1];
      if last.None? then sum else Some(sum.GetOr(0) + last.value)
  }

  function Selected(groups: seq<Group>): (r: seq<Stocked>)
    ensures |r| == |groups|
  {
    seq(|groups|, i requires 0 <= i < |groups| => Stocked(groups[i].row, Sum(groups[i].quantities).GetOr(0)))
  }

  /** ORDER BY, LIMIT and OFFSET over the groups. */
  function CutStocked(q: Listing, rows: seq<Stocked>): seq<Stocked> {
    var ordered := if q.descending then Reverse(rows) else rows;
    var limit, offset := SafeLimit(q.limit), SafeOffset(q.offset);
    ordered[Min(offset, |rows|)..Min(offset + limit, |rows|)]
  }

  function StockQuery(rows: seq<Row>, stock: seq<Stock>, where: Row -> bool, q: Listing): seq<Stocked> {
    CutStocked(q, Selected(GroupById(WhereItem(LeftJoin(rows, stock), where))))
  }

  // ---------------------------------------------------------------------------
  // Grouping the join gives back the items
  // ---------------------------------------------------------------------------

  lemma {:induction false} SumOfMatches(stock: seq<Stock>, id: Id)
    ensures Sum(Matches(stock, id)).GetOr(0) == StockOf(stock, id)
  {
    if stock != [] {
      var front, last := stock[..|stock| - 1], stock[|stock| - 1];
      SumOfMatches(front, id);
      if last.item == id && !last.deleted {
        SumAppend(Matches(front, id), Some(last.quantity));
      } else {
        assert Matches(stock, id) == Matches(front, id);
      }
    }
  }

  lemma SumAppend(quantities: seq<Option<int>>, x: Option<int>)
    ensures Sum(quantities + [x]) == if x.None? then Sum(quantities) else Some(Sum(quantities).GetOr(0) + x.value)
  {
    assert (quantities + [x])[..|quantities|] == quantities;
  }

  /** The NULL row of the outer join sums to 0, as COALESCE has it. */
  lemma SumOfOuter(stock: seq<Stock>, id: Id)
    ensures Sum(OuterMatches(stock, id)).GetOr(0) == StockOf(stock, id)
  {
    SumOfMatches(stock, id);
    SumAppend([], None);
    var none: seq<Option<int>> := [];
    assert none + [None] == [None];
  }

  lemma WhereAppend(joined: seq<Joined>, j: Joined, where: Row -> bool)
    ensures WhereItem(joined + [j], where) == WhereItem(joined, where) + if where(j.row) then [j] else []
  {
    assert (joined + [j])[..|joined|] == joined;
  }

  lemma {:induction false} WherePaired(joined: seq<Joined>, row: Row, quantities: seq<Option<int>>, where: Row -> bool)
    ensures WhereItem(joined + Paired(row, quantities), where)
            == WhereItem(joined, where) + if where(row) then Paired(row, quantities) else []
  {
    if quantities == [] {
      assert joined + Paired(row, quantities) == joined;
    } else {
      var front, last := quantities[..|quantities| - 1], quantities[|quantities| - 1];
      assert Paired(row, quantities) == Paired(row, front) + [Joined(row, last)];
      WherePaired(joined, row, front, where);
      WhereAppend(joined + Paired(row, front), Joined(row, last), where);
      assert joined + Paired(row, quantities) == (joined + Paired(row, front)) + [Joined(row, last)];
    }
  }

  /** The WHERE clause speaks of the item only, so it may as well run before the join. */
  lemma {:induction false} WhereBeforeJoin(rows: seq<Row>, stock: seq<Stock>, where: Row -> bool)
    ensures WhereItem(LeftJoin(rows, stock), where) == LeftJoin(Select(rows, where), stock)
  {
    if rows != [] {
      var front, last := rows[..|rows| - 1], rows[|rows| - 1];
      WhereBeforeJoin(front, stock, where);
      WherePaired(LeftJoin(front, stock), last, OuterMatches(stock, last.id), where);
      SelectLast(rows, where);
      if where(last) {
        LeftJoinAppend(Select(front, where), last, stock);
      }
    }
  }

  lemma LeftJoinAppend(rows: seq<Row>, row: Row, stock: seq<Stock>)
    ensures LeftJoin(rows + [row], stock) == LeftJoin(rows, stock) + Paired(row, OuterMatches(stock, row.id))
  {
    assert (rows + [row])[..|rows|] == rows;
  }

  lemma GroupAppend(joined: seq<Joined>, j: Joined)
    ensures GroupById(joined + [j]) == AddToGroup(GroupById(joined), j)
  {
    assert (joined + [j])[..|joined|] == joined;
  }

  /** The rows of an item that has no group yet end up in one new last group. */
  lemma {:induction false} GroupPaired(joined: seq<Joined>, row: Row, quantities: seq<Option<int>>)
    requires quantities != []
    requires forall g <- GroupById(joined) :: g.row.id != row.id
    ensures GroupById(joined + Paired(row, quantities)) == GroupById(joined) + [Group(row, quantities)]
  {
    var front, last := quantities[..|quantities| - 1], quantities[|quantities| - 1];
    PairedAppend(joined, row, front, last);
    assert front + [last] == quantities;
    GroupAppend(joined + Paired(row, front), Joined(row, last));
    if front == [] {
      assert joined + Paired(row, front) == joined;
      NewGroup(GroupById(joined), Joined(row, last));
    } else {
      GroupPaired(joined, row, front);
      GrowLast(GroupById(joined), Group(row, front), last);
    }
  }

  lemma PairedAppend(joined: seq<Joined>, row: Row, quantities: seq<Option<int>>, x: Option<int>)
    ensures joined + Paired(row, quantities + [x]) == (joined + Paired(row, quantities)) + [Joined(row, x)]
  {
  }

  lemma GrowLast(groups: seq<Group>, g: Group, x: Option<int>)
    ensures AddToGroup(groups + [g], Joined(g.row, x)) == groups + [Group(g.row, g.quantities + [x])]
  {
    assert (groups + [g])[..|groups|] == groups;
  }

  lemma NewGroup(groups: seq<Group>, j: Joined)
    requires forall g <- groups :: g.row.id != j.row.id
    ensures AddToGroup(groups, j) == groups + [Group(j.row, [j.quantity])]
  {
    if groups != [] {
      assert groups[|groups| - 1] in groups;
      forall g | g in groups[..|groups| - 1] ensures g.row.id != j.row.id {
        assert g in groups;
      }
    }
  }

  function ItemGroups(rows: seq<Row>, stock: seq<Stock>): (r: seq<Group>)
    ensures |r| == |rows|
  {
    seq(|rows|, i requires 0 <= i < |rows| => Group(rows[i], OuterMatches(stock, rows[i].id)))
  }

  lemma ItemGroupsMore(rows: seq<Row>, row: Row, stock: seq<Stock>)
    ensures ItemGroups(rows + [row], stock) == ItemGroups(rows, stock) + [Group(row, OuterMatches(stock, row.id))]
  {
  }

  lemma NewItem(rows: seq<Row>, row: Row, stock: seq<Stock>)
    requires UniqueIds(rows + [row])
    ensures UniqueIds(rows)
    ensures forall g <- ItemGroups(rows, stock) :: g.row.id != row.id
  {
    forall i, j | 0 <= i < j < |rows| ensures rows[i].id != rows[j].id {
      assert (rows + [row])[i].id != (rows + [row])[j].id;
    }
    forall i | 0 <= i < |rows| ensures ItemGroups(rows, stock)[i].row.id != row.id {
      assert (rows + [row])[i].id != (rows + [row])[|rows|].id;
    }
  }

  /** Each item is one group, in item order, holding exactly its own matches. */
  lemma {:induction false} GroupsAreItems(rows: seq<Row>, stock: seq<Stock>)
    requires UniqueIds(rows)
    ensures GroupById(LeftJoin(rows, stock)) == ItemGroups(rows, stock)
  {
    if rows != [] {
      var front, last := rows[..|rows| - 1], rows[|rows| - 1];
      assert rows == front + [last];
      NewItem(front, last, stock);
      GroupsAreItems(front, stock);
      LeftJoinAppend(front, last, stock);
      GroupPaired(LeftJoin(front, stock), last, OuterMatches(stock, last.id));
      ItemGroupsMore(front, last, stock);
    }
  }

  lemma SelectedIsEnriched(rows: seq<Row>, stock: seq<Stock>)
    ensures Selected(ItemGroups(rows, stock)) == Enriched(rows, stock)
  {
    forall i | 0 <= i < |rows| ensures Selected(ItemGroups(rows, stock))[i] == Enriched(rows, stock)[i] {
      SumOfOuter(stock, rows[i].id);
    }
  }

  lemma CutCommutes(q: Listing, rows: seq<Row>, stock: seq<Stock>)
    ensures CutStocked(q, Enriched(rows, stock))
            == Enriched(Page(Ordered(q, rows), SafeLimit(q.limit), SafeOffset(q.offset)), stock)
  {
    var from, to := Min(SafeOffset(q.offset), |rows|), Min(SafeOffset(q.offset) + SafeLimit(q.limit), |rows|);
    if q.descending {
      assert Reverse(Enriched(rows, stock)) == Enriched(Reverse(rows), stock);
    }
    EnrichedSlice(Ordered(q, rows), stock, from, to);
  }

  lemma EnrichedSlice(rows: seq<Row>, stock: seq<Stock>, from: nat, to: nat)
    requires from <= to <= |rows|
    ensures Enriched(rows, stock)[from..to] == Enriched(rows[from..to], stock)
  {
  }

  /** The grouped join is the plain listing with the plain sums: same rows, same order, same page. */
  lemma QueryMeansListing(rows: seq<Row>, stock: seq<Stock>, where: Row -> bool, q: Listing)
    requires UniqueIds(rows)
    ensures StockQuery(rows, stock, where, q)
            == Enriched(Page(Ordered(q, Select(rows, where)), SafeLimit(q.limit), SafeOffset(q.offset)), stock)
  {
    WhereBeforeJoin(rows, stock, where);
    SelectKeepsUnique(rows, where);
    GroupsAreItems(Select(rows, where), stock);
    SelectedIsEnriched(Select(rows, where), stock);
    CutCommutes(q, Select(rows, where), stock);
  }

  /** findAllWithStock.  Its column white-list leaves out filterableColumns, which InventoryItem does not
      declare. */
  method FindAllWithStock(table: ModelTable, stock: seq<Stock>, org: Option<OrgId>, q: Listing) returns (page: seq<Stocked>)
    requires table.model.filterable == {} && UniqueIds(table.rows)
    ensures page == Enriched(FindAll(table.model, table.rows, org, q), stock)
  {
    if q.onlyDeleted && !table.model.softDelete {
      return [];
    }
    var conditions := table.BuildConditions(org, q);
    var where := (row: Row) => AllHold(table.model, conditions, row);
    page := StockQuery(table.rows, stock, where, q);
    QueryMeansListing(table.rows, stock, where, q);
    SelectCongruent(table.rows, where, ListedWhere(table.model, org, q));
  }

  // ---------------------------------------------------------------------------
  // Conservation
  // ---------------------------------------------------------------------------

  function LiveTotal(stock: seq<Stock>): int {
    if stock == [] then 0
    else
      var last := stock[|stock| - 1];
      LiveTotal(stock[..|stock| - 1]) + if last.deleted then 0 else last.quantity
  }

  function OnHandTotal(rows: seq<Row>, stock: seq<Stock>): int {
    if rows == [] then 0
    else OnHandTotal(rows[..|rows| - 1], stock) + StockOf(stock, rows[|rows| - 1].id)
  }

  /** The foreign key fk_inventory_stock_item. */
  predicate ItemsExist(rows: seq<Row>, stock: seq<Stock>) {
    forall s <- stock :: exists row <- rows :: row.id == s.item
  }

  /** Over the whole item table the quantities add up to the live stock: nothing is counted twice and
      nothing is lost. */
  lemma {:induction false} StockConserved(rows: seq<Row>, stock: seq<Stock>)
    requires UniqueIds(rows) && ItemsExist(rows, stock)
    ensures OnHandTotal(rows, stock) == LiveTotal(stock)
  {
    if stock == [] {
      NoStock(rows);
    } else {
      var front, last := stock[..|stock| - 1], stock[|stock| - 1];
      assert last in stock;
      StockConserved(rows, front);
      var row :| row in rows && row.id == last.item;
      var i :| 0 <= i < |rows| && rows[i] == row;
      OneMoreStock(rows, stock, i);
    }
  }

  lemma {:induction false} NoStock(rows: seq<Row>)
    ensures OnHandTotal(rows, []) == 0
  {
    if rows != [] {
      NoStock(rows[..|rows| - 1]);
    }
  }

  lemma {:induction false} OneMoreStock(rows: seq<Row>, stock: seq<Stock>, i: nat)
    requires UniqueIds(rows) && stock != [] && i < |rows| && rows[i].id == stock[|stock| - 1].item
    ensures var last := stock[|stock| - 1];
            OnHandTotal(rows, stock) == OnHandTotal(rows, stock[..|stock| - 1]) + if last.deleted then 0 else last.quantity
  {
    if i == |rows| - 1 {
      SumsWithout(rows[..i], stock);
    } else {
      assert rows[i].id != rows[|rows| - 1].id;
      OneMoreStock(rows[..|rows| - 1], stock, i);
    }
  }

  /** A stock row of some other item changes none of these sums. */
  lemma {:induction false} SumsWithout(rows: seq<Row>, stock: seq<Stock>)
    requires stock != [] && forall row <- rows :: row.id != stock[|stock| - 1].item
    ensures OnHandTotal(rows, stock) == OnHandTotal(rows, stock[..|stock| - 1])
  {
    if rows != [] {
      assert rows[|rows| - 1] in rows;
      SumsWithout(rows[..|rows| - 1], stock);
    }
  }
}
