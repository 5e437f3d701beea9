/** Paging of the list handler of src/controllers/crudController.js over BaseModel.findAll and count. */
module CrudPaging {
  import opened Numbers
  import opened Wrappers
  import opened CrudModel
  import opened CrudTenancy

  /** Math.ceil(total / limit); a zero limit gives Infinity and is outside this definition. */
  function TotalPages(total: nat, limit: int): int
    requires limit != 0
  {
    if limit > 0 then (total + limit - 1) / limit else -(total / -limit)
  }

  // ---------------------------------------------------------------------------
  // Cutting a sequence into pages
  // ---------------------------------------------------------------------------

  /** The stretch of `whole` that the handler fetches for page n: the offset multiplies the limit as it
      was asked, the size is clamped to 100. */
  function PageOf(whole: seq<Row>, limit: int, n: int): seq<Row> {
    Page(whole, SafeLimit(Min(limit, 100)), SafeOffset((Max(1, n) - 1) * limit))
  }

  /** Pages 1 to n, one after another. */
  function Joined(page: int -> seq<Row>, n: int): seq<Row>
    decreases n
  {
    if n <= 0 then [] else Joined(page, n - 1) + page(n)
  }

  lemma {:induction false} JoinedCongruent(page: int -> seq<Row>, page': int -> seq<Row>, n: int)
    requires forall k :: page(k) == page'(k)
    ensures Joined(page, n) == Joined(page', n)
    decreases n
  {
    if n > 0 {
      JoinedCongruent(page, page', n - 1);
    }
  }

  function Cut(whole: seq<Row>, limit: int): int -> seq<Row> {
    n => PageOf(whole, limit, n)
  }

  function PagesOf(whole: seq<Row>, limit: int, n: int): seq<Row> {
    Joined(Cut(whole, limit), n)
  }

  lemma OneMore(n: nat, limit: nat)
    requires n >= 1
    ensures (n - 1) * limit >= 0
    ensures n * limit == (n - 1) * limit + limit
  {
  }

  /** Up to the clamp, the first n pages are a prefix. */
  lemma {:induction false} PagesArePrefix(whole: seq<Row>, limit: nat, n: nat)
    requires 1 <= limit <= 100
    ensures n * limit >= 0
    ensures PagesOf(whole, limit, n) == whole[..Min(n * limit, |whole|)]
  {
    if n > 0 {
      OneMore(n, limit);
      PagesArePrefix(whole, limit, n - 1);
      var from := (n - 1) * limit;
      assert PageOf(whole, limit, n) == whole[Min(from, |whole|)..Min(from + limit, |whole|)];
    }
  }

  /** Beyond the clamp every page shows 100 rows of its longer stretch, so from the first page on a row is
      missing. */
  lemma {:induction false} PagesSkip(whole: seq<Row>, limit: nat, n: nat)
    requires limit > 100 && |whole| > 100 && n >= 1
    ensures n * limit >= 0
    ensures |PagesOf(whole, limit, n)| < Min(n * limit, |whole|)
  {
    OneMore(n, limit);
    var from := (n - 1) * limit;
    assert PageOf(whole, limit, n) == whole[Min(from, |whole|)..Min(from + 100, |whole|)];
    if n == 1 {
      assert PagesOf(whole, limit, 0) == [];
    } else {
      PagesSkip(whole, limit, n - 1);
    }
  }

  lemma CeilCovers(total: nat, limit: nat)
    requires limit >= 1
    ensures TotalPages(total, limit) >= 0
    ensures TotalPages(total, limit) * limit >= total
    ensures total > 0 ==> TotalPages(total, limit) >= 1
    ensures total <= limit && total > 0 ==> TotalPages(total, limit) == 1
  {
    var n := (total + limit - 1) / limit;
    var rest := (total + limit - 1) % limit;
    assert total + limit - 1 == limit * n + rest;
    if total > 0 && n <= 0 {
      AtMostZero(limit, n);
      assert false;
    }
    if total <= limit && total > 0 && n >= 2 {
      TwiceAtLeast(limit, n);
      assert false;
    }
  }

  lemma AtMostZero(limit: nat, n: int)
    ensures n <= 0 ==> limit * n <= 0
  {
  }

  lemma TwiceAtLeast(limit: nat, n: int)
    ensures n >= 2 ==> limit * n >= 2 * limit
  {
    if n > 2 {
      TwiceAtLeast(limit, n - 1);
      assert limit * n == limit * (n - 1) + limit;
    }
  }

  predicate Tiles(limit: int, total: nat) {
    1 <= limit <= 100 || (limit > 100 && total <= 100) || (limit < 0 && total == 0)
  }

  lemma PagesOfTile(whole: seq<Row>, limit: int)
    requires limit != 0
    ensures PagesOf(whole, limit, TotalPages(|whole|, limit)) == whole <==> Tiles(limit, |whole|)
  {
    var n := TotalPages(|whole|, limit);
    if limit < 0 {
      assert n <= 0;
    } else {
      CeilCovers(|whole|, limit);
      if limit <= 100 {
        PagesArePrefix(whole, limit, n);
      } else if |whole| > 100 {
        PagesSkip(whole, limit, n);
      } else if whole != [] {
        SinglePage(whole, limit);
      }
    }
  }

  lemma SinglePage(whole: seq<Row>, limit: nat)
    requires |whole| <= 100 < limit
    ensures PagesOf(whole, limit, 1) == whole
  {
    assert PagesOf(whole, limit, 0) == [];
    assert PageOf(whole, limit, 1) == whole[0..|whole|];
  }

  // ---------------------------------------------------------------------------
  // The list handler
  // ---------------------------------------------------------------------------

  /** What the listing ranges over, in the order of the listing. */
  function Whole(model: Model, rows: seq<Row>, org: Option<OrgId>, r: Request): (whole: seq<Row>)
    requires r.ListRows?
    ensures |whole| == |View(model, rows, org, QueryOf(r))|
  {
    Ordered(QueryOf(r), View(model, rows, org, QueryOf(r)))
  }

  /** Data of pages 1 to n as the handler answers them, one after another. */
  function FirstPages(model: Model, rows: seq<Row>, org: Option<OrgId>, r: Request, n: int): seq<Row>
    requires r.ListRows?
  {
    Joined(k => FindAll(model, rows, org, QueryOf(r.(page := k))), n)
  }

  /** The page number selects from the listing but does not change what is listed. */
  lemma PageNumberOnlyCuts(model: Model, rows: seq<Row>, org: Option<OrgId>, r: Request, n: int)
    requires r.ListRows?
    ensures FindAll(model, rows, org, QueryOf(r.(page := n))) == PageOf(Whole(model, rows, org, r), r.limit, n)
  {
    var q, q' := QueryOf(r), QueryOf(r.(page := n));
    SelectCongruent(rows, ListedWhere(model, org, q), ListedWhere(model, org, q'));
    assert View(model, rows, org, q) == View(model, rows, org, q');
  }

  lemma FirstPagesCut(model: Model, rows: seq<Row>, org: Option<OrgId>, r: Request, n: int)
    requires r.ListRows?
    ensures FirstPages(model, rows, org, r, n) == PagesOf(Whole(model, rows, org, r), r.limit, n)
  {
    var shown := k => FindAll(model, rows, org, QueryOf(r.(page := k)));
    forall k: int ensures shown(k) == Cut(Whole(model, rows, org, r), r.limit)(k) {
      PageNumberOnlyCuts(model, rows, org, r, k);
    }
    JoinedCongruent(shown, Cut(Whole(model, rows, org, r), r.limit), n);
  }

  /** The count the list handler runs beside a listing. */
  function CountOf(r: Request): Request
    requires r.ListRows?
  {
    CountRows(r.filters, r.withDeleted, r.onlyDeleted)
  }

  /** The two queries range over the same rows. */
  lemma CountsTheListing(model: Model, rows: seq<Row>, org: Option<OrgId>, r: Request)
    requires r.ListRows?
    ensures |View(model, rows, org, CountQuery(CountOf(r)))| == |Whole(model, rows, org, r)|
  {
    SelectCongruent(rows, ListedWhere(model, org, QueryOf(r)), ListedWhere(model, org, CountQuery(CountOf(r))));
  }

  /** For a fixed table, the pages the handler announces, one after another, are exactly the listed rows,
      without repeat or gap, if and only if the limit is between 1 and 100, or is larger but at most 100
      rows match, or is negative and none match. */
  lemma PagesTile(model: Model, rows: seq<Row>, org: Option<OrgId>, r: Request)
    requires r.ListRows? && r.limit != 0
    ensures var total := |View(model, rows, org, CountQuery(CountOf(r)))|;
            FirstPages(model, rows, org, r, TotalPages(total, r.limit)) == Whole(model, rows, org, r) <==> Tiles(r.limit, total)
  {
    var whole := Whole(model, rows, org, r);
    CountsTheListing(model, rows, org, r);
    FirstPagesCut(model, rows, org, r, TotalPages(|whole|, r.limit));
    PagesOfTile(whole, r.limit);
  }

  // ---------------------------------------------------------------------------
  // Soft-delete views
  // ---------------------------------------------------------------------------

  function Live(r: Request): Request
    requires r.ListRows?
  {
    r.(withDeleted := false, onlyDeleted := false)
  }

  function Archived(r: Request): Request
    requires r.ListRows?
  {
    r.(withDeleted := false, onlyDeleted := true)
  }

  function Everything(r: Request): Request
    requires r.ListRows?
  {
    r.(withDeleted := true, onlyDeleted := false)
  }

  /** The live and the archived view are the two halves of the view with deleted rows: each is that view
      restricted by the mark, and their sizes add up. */
  lemma {:induction false} ViewsPartition(model: Model, rows: seq<Row>, org: Option<OrgId>, r: Request)
    requires r.ListRows?
    ensures var all := View(model, rows, org, QueryOf(Everything(r)));
            var live := View(model, rows, org, QueryOf(Live(r)));
            var archived := View(model, rows, org, QueryOf(Archived(r)));
            && live == Select(all, (row: Row) => model.softDelete ==> !row.deleted)
            && archived == Select(all, (row: Row) => model.softDelete && row.deleted)
            && |live| + |archived| == |all|
  {
    var where := ListedWhere(model, org, QueryOf(Everything(r)));
    var isLive := (row: Row) => model.softDelete ==> !row.deleted;
    var isArchived := (row: Row) => model.softDelete && row.deleted;
    SelectBoth(rows, where, isLive, ListedWhere(model, org, QueryOf(Live(r))));
    var all := Select(rows, where);
    SelectHalves(all, isLive, isArchived);
    if model.softDelete {
      SelectBoth(rows, where, isArchived, ListedWhere(model, org, QueryOf(Archived(r))));
    } else {
      SelectNone(all, isArchived);
    }
  }

  lemma {:induction false} SelectBoth(rows: seq<Row>, p: Row -> bool, q: Row -> bool, both: Row -> bool)
    requires forall row: Row :: both(row) <==> p(row) && q(row)
    ensures Select(Select(rows, p), q) == Select(rows, both)
  {
    if rows != [] {
      var front, last := rows[..|rows| - 1], rows[|rows| - 1];
      SelectBoth(front, p, q, both);
      SelectLast(rows, p);
      SelectLast(rows, both);
      SelectAppend(Select(front, p), last, q);
    }
  }

  lemma {:induction false} SelectHalves(rows: seq<Row>, p: Row -> bool, q: Row -> bool)
    requires forall row: Row :: q(row) <==> !p(row)
    ensures |Select(rows, p)| + |Select(rows, q)| == |rows|
  {
    if rows != [] {
      SelectHalves(rows[..|rows| - 1], p, q);
      SelectLast(rows, p);
      SelectLast(rows, q);
    }
  }
}
