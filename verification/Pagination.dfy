/** Page requests, and the client loop that reads a listing page by page. */
module Pagination {
  import opened Wrappers

  const MEDIUM := 20
  const EXTRA_LARGE := 100
  const VALID_SIZES: set<int> := {5, 10, MEDIUM, 50, EXTRA_LARGE}

  datatype Info = Info(page: int, size: int, total: nat, totalPages: int)

  /** Integer division that truncates toward zero. */
  function TruncDiv(a: int, b: int): int
    requires b != 0
  {
    if a >= 0 then a / b else -((-a) / b)
  }

  class Request {
    var page: int
    var size: int

    constructor (page: int, size: int)
      ensures this.page == page && this.size == size
    {
      this.page, this.size := page, size;
    }

    /** Zero means the default; what remains must be a real page of an allowed size. */
    method Validate() returns (ok: bool)
      modifies this
      ensures page == (if old(page) == 0 then 1 else old(page))
      ensures size == (if old(size) == 0 then MEDIUM else old(size))
      ensures ok <==> old(page) >= 0 && old(size) in VALID_SIZES + {0}
      ensures ok ==> page >= 1 && size in VALID_SIZES
    {
      if page == 0 {
        page := 1;
      }
      if size == 0 {
        size := MEDIUM;
      }
      if page < 1 {
        return false;
      }
      return size in VALID_SIZES;
    }
  }

  /** `ToGormParams`: limit and offset. */
  function Window(page: int, size: int): (int, int) {
    var limit := if size == 0 then MEDIUM else size;
    (limit, ((if page > 1 then page else 1) - 1) * limit)
  }

  /** `ConvertToPaginationInfo`. */
  function ToInfo(page: int, size: int, total: nat): Info {
    Info(page, size, total, if size == 0 then 0 else TruncDiv(total + size - 1, size))
  }

  function Min(a: int, b: int): int {
    if a < b then a else b
  }

  /** The rows of an ordered table that a limit and an offset select. */
  function Select<T>(rows: seq<T>, limit: nat, offset: nat): seq<T> {
    rows[Min(offset, |rows|)..Min(offset + limit, |rows|)]
  }

  /** One page of the table. */
  function Page<T>(rows: seq<T>, page: int, size: int): seq<T>
    requires page >= 1 && size > 0
  {
    PageBounds(page, size);
    Select(rows, Window(page, size).0, Window(page, size).1)
  }

  lemma PageBounds(page: int, size: int)
    requires page >= 1 && size > 0
    ensures Window(page, size) == (size, (page - 1) * size) && (page - 1) * size >= 0
    ensures page * size == (page - 1) * size + size
  {
  }

  /** The number of pages is where the windows stop meeting the table. */
  lemma LastPage(size: int, total: nat, page: int)
    requires size > 0 && page >= 1
    ensures (page - 1) * size < total <==> page <= ToInfo(page, size, total).totalPages
  {
    var pages := (total + size - 1) / size;
    var r := (total + size - 1) % size;
    assert total + size - 1 == pages * size + r;
    if page <= pages {
      Scale(page - 1, pages - 1, size);
      assert (pages - 1) * size == pages * size - size;
    } else {
      Scale(pages, page - 1, size);
    }
  }

  lemma Scale(a: int, b: int, n: nat)
    requires a <= b
    ensures a * n <= b * n
  {
  }

  /** A row is on one page only, and that page exists. */
  lemma RowIsOnOnePage(size: int, total: nat, row: nat, page: int)
    requires size > 0 && row < total && page >= 1
    ensures (page - 1) * size <= row < page * size <==> page == row / size + 1
    ensures 1 <= row / size + 1 <= ToInfo(page, size, total).totalPages
  {
    var k := row / size;
    assert row == k * size + row % size;
    if page - 1 < k {
      Scale(page, k, size);
    } else if page - 1 > k {
      Scale(k + 1, page - 1, size);
      assert (k + 1) * size == k * size + size;
    }
    LastPage(size, total, k + 1);
  }

  /** Pages `1..k`, one after the other. */
  function Pages<T>(rows: seq<T>, k: nat, size: int): seq<T>
    requires size > 0
  {
    if k == 0 then [] else Pages(rows, k - 1, size) + Page(rows, k, size)
  }

  lemma {:induction false} PagesArePrefix<T>(rows: seq<T>, k: nat, size: int)
    requires size > 0
    ensures k * size >= 0 && Pages(rows, k, size) == rows[..Min(k * size, |rows|)]
  {
    if k > 0 {
      PagesArePrefix(rows, k - 1, size);
      PageBounds(k, size);
    }
  }

  /** The pages together are the table, each row once and in order. */
  lemma PagesAreTheTable<T>(rows: seq<T>, size: int)
    requires size > 0
    ensures var n := ToInfo(1, size, |rows|).totalPages; n >= 0 && Pages(rows, n, size) == rows
  {
    var n := ToInfo(1, size, |rows|).totalPages;
    PagesArePrefix(rows, n, size);
    LastPage(size, |rows|, n + 1);
  }

  datatype Container = Container(id: int, kind: int, status: int)

  const ALGORITHM := 0
  const ENABLED := 1

  function Matching(rows: seq<Container>, kind: int, status: int): (r: seq<Container>)
    ensures forall c :: c in r <==> c in rows && c.kind == kind && c.status == status
    ensures |r| <= |rows|
  {
    if rows == [] then []
    else (if rows[0].kind == kind && rows[0].status == status then [rows[0]] else []) + Matching(rows[1..], kind, status)
  }

  /** Index of the first container with the ID, or the length. */
  function FirstWith(rows: seq<Container>, id: int): (k: nat)
    ensures k <= |rows|
    ensures k < |rows| ==> rows[k].id == id
    ensures forall i :: 0 <= i < k ==> rows[i].id != id
  {
    if rows == [] || rows[0].id == id then 0 else 1 + FirstWith(rows[1..], id)
  }

  /** The pages the loop asks for. */
  function Asked(total: nat): (pages: nat)
    ensures pages >= 1 && total <= pages * EXTRA_LARGE && (pages > 1 ==> (pages - 1) * EXTRA_LARGE < total)
  {
    var n := TruncDiv(total + EXTRA_LARGE - 1, EXTRA_LARGE);
    if n < 1 then 1 else n
  }

  /** The last page asked for: the last there is, or an earlier one that comes without pagination
      info. */
  function Stop(bare: set<int>, page: int, n: int): (last: int)
    requires page <= n
    ensures page <= last <= n
    ensures last < n ==> last in bare
    ensures forall p :: page <= p < last ==> p !in bare
    decreases n - page
  {
    if page == n || page in bare then page else Stop(bare, page + 1, n)
  }

  /** The page loop, against a table that does not change meanwhile.  The call for a page in
      `failing` fails, and the answer for a page in `bare` has no pagination info. */
  method CollectPages(rows: seq<Container>, failing: set<int>, bare: set<int>) returns (r: Result<seq<Container>>)
    ensures r.Ok? <==> forall page :: 1 <= page <= Stop(bare, 1, Asked(|rows|)) ==> page !in failing
    ensures r.Ok? ==> r.value == rows[..Min(Stop(bare, 1, Asked(|rows|)) * EXTRA_LARGE, |rows|)]
    ensures r.Ok? ==> (r.value == rows <==> forall page :: 1 <= page < Asked(|rows|) ==> page !in bare)
  {
    var page, items := 1, [];
    while true
      invariant 1 <= page <= Asked(|rows|) && Stop(bare, page, Asked(|rows|)) == Stop(bare, 1, Asked(|rows|))
      invariant items == Pages(rows, page - 1, EXTRA_LARGE)
      invariant forall p :: 1 <= p < page ==> p !in failing
      decreases Asked(|rows|) - page
    {
      if page in failing {
        return Err("list containers failed");
      }
      var found := Page(rows, page, EXTRA_LARGE);
      items := items + found;
      LastPage(EXTRA_LARGE, |rows|, page);
      if page in bare || page >= ToInfo(page, EXTRA_LARGE, |rows|).totalPages || found == [] {
        break;
      }
      page := page + 1;
    }
    assert page == Stop(bare, 1, Asked(|rows|));
    PagesArePrefix(rows, page, EXTRA_LARGE);
    LastPage(EXTRA_LARGE, |rows|, page + 1);
    return Ok(items);
  }

  /** `listAlgorithmContainers`. */
  method ListAlgorithmContainers(table: seq<Container>, failing: set<int>, bare: set<int>, algorithmId: Option<int>)
    returns (r: Result<seq<Container>>)
    ensures var rows := Matching(table, ALGORITHM, ENABLED);
      var last := Stop(bare, 1, Asked(|rows|));
      var seen := rows[..Min(last * EXTRA_LARGE, |rows|)];
      && (r.Ok? <==> forall page :: 1 <= page <= last ==> page !in failing)
      && (r.Ok? && algorithmId.None? ==> r.value == seen)
      && (r.Ok? && algorithmId.Some? ==>
            var k := FirstWith(seen, algorithmId.value);
            r.value == if k < |seen| then [seen[k]] else [])
  {
    r := CollectPages(Matching(table, ALGORITHM, ENABLED), failing, bare);
    if r.Err? || algorithmId.None? {
      return;
    }
    var k := FirstWith(r.value, algorithmId.value);
    return Ok(if k < |r.value| then [r.value[k]] else []);
  }

  /** The order of the table is kept: the matches of its first part come before those of the rest. */
  lemma {:induction false} MatchingConcat(a: seq<Container>, b: seq<Container>, kind: int, status: int)
    ensures Matching(a + b, kind, status) == Matching(a, kind, status) + Matching(b, kind, status)
    decreases |a|
  {
    if a == [] {
      assert a + b == b;
    } else {
      assert (a + b)[1..] == a[1..] + b;
      MatchingConcat(a[1..], b, kind, status);
    }
  }

  /** Requests that were not validated: a page before the first is the first, no size is the default
      of 20 for the query, and no pages for the answer. */
  lemma UnvalidatedRequests(page: int, size: int, total: nat)
    ensures page < 1 ==> Window(page, size) == Window(1, size)
    ensures Window(page, 0) == Window(page, 20)
    ensures Window(1, size).1 == 0
    ensures ToInfo(page, 0, total) == Info(page, 0, total, 0)
    ensures ToInfo(page, size, total).page == page && ToInfo(page, size, total).size == size && ToInfo(page, size, total).total == total
  {
  }
}
