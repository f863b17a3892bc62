/** Paged queries: the window a page shows and the number of pages reported with it. */
module Paging {
  import opened Wrappers

  const DEFAULT_COUNT := 10
  const MAX_COUNT := 100

  datatype Rows<T> = Rows(data: seq<T>, count: nat, pages: nat)

  function EffectivePage(page: int): int {
    if page == 0 then 1 else page
  }

  function EffectiveCount(count: int): (r: int)
    ensures r <= MAX_COUNT && r != 0
  {
    if count == 0 then DEFAULT_COUNT else if count > MAX_COUNT then MAX_COUNT else count
  }

  function Offset(size: int, page: int): int {
    size * (page - 1)
  }

  /** The database's `LIMIT offset, count`, refused when one of the two is negative. */
  function Limit<T>(all: seq<T>, offset: int, count: int): Option<seq<T>> {
    if offset < 0 || count < 0 then None
    else if offset >= |all| then Some([])
    else Some(all[offset..if offset + count < |all| then offset + count else |all|])
  }

  /** The number of pages of the given size that `n` rows fill. */
  function Pages(n: nat, size: nat): nat
    requires size > 0
  {
    n / size + if n % size > 0 then 1 else 0
  }

  /** The rows answered, if any, and whether an error comes with them. */
  datatype Reply<T> = Reply(rows: Option<Rows<T>>, failed: bool)

  /** What the database does with the two queries, and what the rows' own hook makes of each row. */
  datatype Db<!T> = Db(finds: bool, counts: bool, after: T -> T)

  function Mapped<T>(f: T -> T, rows: seq<T>): seq<T> {
    seq(|rows|, i requires 0 <= i < |rows| => f(rows[i]))
  }

  /**
   What a query answers. The rows are counted only when the page has some; if counting fails the
   page comes with the error, uncounted and without the hook.
   */
  function Answer<T>(all: seq<T>, page: int, pageCount: int, db: Db<T>): Reply<T> {
    var size := EffectiveCount(pageCount);
    var data := Limit(all, Offset(size, EffectivePage(page)), size);
    if !db.finds || data.None? then Reply(None, true)
    else if |data.value| == 0 then Reply(Some(Rows([], 0, 0)), false)
    else if !db.counts then Reply(Some(Rows(data.value, 0, 0)), true)
    else Reply(Some(Rows(Mapped(db.after, data.value), |all|, Pages(|all|, size))), false)
  }

  method CountPages(count: nat, size: nat) returns (pages: nat)
    requires size > 0
    ensures pages == Pages(count, size)
  {
    pages := count / size;
    if count % size > 0 {
      pages := pages + 1;
    }
  }

  class QueryParams {
    var page: int
    var pageCount: int

    constructor (page: int, pageCount: int)
      ensures this.page == page && this.pageCount == pageCount
    {
      this.page, this.pageCount := page, pageCount;
    }
  }

  /** `all`: the rows that meet the conditions, in order. */
  method QueryRows<T>(all: seq<T>, params: QueryParams, db: Db<T>) returns (reply: Reply<T>)
    modifies params
    ensures params.page == EffectivePage(old(params.page)) && params.pageCount == EffectiveCount(old(params.pageCount))
    ensures reply == Answer(all, old(params.page), old(params.pageCount), db)
  {
    if params.page == 0 {
      params.page := 1;
    }
    if params.pageCount == 0 {
      params.pageCount := DEFAULT_COUNT;
    }
    if params.pageCount > MAX_COUNT {
      params.pageCount := MAX_COUNT;
    }
    var size := params.pageCount;
    var found := Limit(all, Offset(size, params.page), size);
    if !db.finds || found.None? {
      return Reply(None, true);
    }
    if |found.value| == 0 {
      return Reply(Some(Rows([], 0, 0)), false);
    }
    if !db.counts {
      return Reply(Some(Rows(found.value, 0, 0)), true);
    }
    var pages := CountPages(|all|, size);
    var data := RunHooks(found.value, db.after);
    return Reply(Some(Rows(data, |all|, pages)), false);
  }

  method RunHooks<T>(rows: seq<T>, after: T -> T) returns (r: seq<T>)
    ensures r == Mapped(after, rows)
  {
    r := rows;
    for i := 0 to |rows|
      invariant |r| == |rows|
      invariant forall j | 0 <= j < |rows| :: r[j] == if j < i then after(rows[j]) else rows[j]
    {
      r := r[i := after(r[i])];
    }
  }

  lemma SignOfOffset(size: int, page: int)
    requires size > 0
    ensures Offset(size, page) < 0 <==> page < 1
  {
  }

  // ---- Pages partition the rows ----

  function PageOf<T>(all: seq<T>, size: nat, page: nat): seq<T>
    requires size > 0 && page > 0
  {
    var window := Limit(all, Offset(size, page), size);
    if window.Some? then window.value else []
  }

  /** Pages 1 to `k`, one after the other. */
  function FirstPages<T>(all: seq<T>, size: nat, k: nat): seq<T>
    requires size > 0
  {
    if k == 0 then [] else FirstPages(all, size, k - 1) + PageOf(all, size, k)
  }

  /** There are just enough pages: the last is not empty, and together they hold every row. */
  lemma PagesIsCeiling(n: nat, size: nat)
    requires size > 0
    ensures n <= size * Pages(n, size) < n + size
  {
  }

  lemma {:induction false} FirstPagesArePrefix<T>(all: seq<T>, size: nat, k: nat)
    requires size > 0
    ensures FirstPages(all, size, k) == all[..if size * k < |all| then size * k else |all|]
  {
    if k > 0 {
      FirstPagesArePrefix(all, size, k - 1);
      var offset := size * (k - 1);
      assert offset + size == size * k;
    }
  }

  /** Where the offset of a page falls among the rows. */
  lemma OffsetFalls(n: nat, size: nat, page: nat)
    requires size > 0 && page > 0
    ensures page > Pages(n, size) <==> Offset(size, page) >= n
    ensures page < Pages(n, size) ==> Offset(size, page) + size < n
  {
    var pages := Pages(n, size);
    PagesIsCeiling(n, size);
    Steps(size, pages, page - 1);
    Steps(size, page, pages);
    Steps(size, page + 1, pages);
  }

  lemma Steps(size: nat, a: nat, b: nat)
    ensures a <= b ==> size * a <= size * b
    ensures size * (a + 1) == size * a + size
    ensures a > 0 ==> size * (a - 1) == size * a - size
  {
  }

  /**
   The pages 1 to `Pages` are the rows, each once and in order. Every page but the last is full,
   and a page is empty exactly when it comes after the last.
   */
  lemma PagesPartition<T>(all: seq<T>, size: nat, page: nat)
    requires size > 0 && page > 0
    ensures FirstPages(all, size, Pages(|all|, size)) == all
    ensures PageOf(all, size, page) == [] <==> page > Pages(|all|, size)
    ensures page < Pages(|all|, size) ==> |PageOf(all, size, page)| == size
  {
    PagesIsCeiling(|all|, size);
    FirstPagesArePrefix(all, size, Pages(|all|, size));
    OffsetFalls(|all|, size, page);
    SignOfOffset(size, page);
  }

  /** The page size in force: 10 unless one is asked for, and never more than 100. */
  function SizeFor(pageCount: int): int {
    if pageCount == 0 then 10 else if pageCount > 100 then 100 else pageCount
  }

  /**
   With a database that works, a query fails exactly for a page before the first or a negative
   size, and otherwise answers with the page asked for, the first if none is. Beyond the last page it
   reports no rows and no pages at all: its numbers are right exactly when the page exists or there
   is nothing to count.
   */
  lemma AnswerIsRightIff<T>(all: seq<T>, page: int, pageCount: int, after: T -> T)
    ensures Answer(all, page, pageCount, Db(true, true, after)).failed <==> pageCount < 0 || page < 0
    ensures pageCount >= 0 && page >= 0 ==>
              var (reply, size) := (Answer(all, page, pageCount, Db(true, true, after)), SizeFor(pageCount));
              var shown := if page == 0 then 1 else page;
              && reply.rows.Some?
              && reply.rows.value.data == Mapped(after, PageOf(all, size, shown))
              && (reply.rows.value.count == |all| && reply.rows.value.pages == Pages(|all|, size)
                  <==> shown <= Pages(|all|, size) || all == [])
  {
    var p, size := EffectivePage(page), EffectiveCount(pageCount);
    if size > 0 {
      SignOfOffset(size, p);
      PagesIsCeiling(|all|, size);
      if p > 0 {
        PagesPartition(all, size, p);
      }
    }
  }

  /**
   With a database that may fail: a failing search answers nothing, a failing count the rows as they
   are, uncounted, and nobody counts when the page is empty. The hook is applied place by place.
   */
  lemma FailuresOfQuery<T>(all: seq<T>, page: int, pageCount: int, db: Db<T>)
    requires pageCount >= 0 && page >= 0
    ensures var (reply, shown) := (Answer(all, page, pageCount, db), PageOf(all, SizeFor(pageCount), if page == 0 then 1 else page));
            && (reply.failed <==> !db.finds || (shown != [] && !db.counts))
            && (reply.rows.None? <==> !db.finds)
            && (reply.rows.Some? && reply.failed ==> reply.rows.value == Rows(shown, 0, 0))
            && (reply.rows.Some? && !reply.failed ==>
                  && |reply.rows.value.data| == |shown|
                  && forall i | 0 <= i < |shown| :: reply.rows.value.data[i] == db.after(shown[i]))
  {
    SignOfOffset(SizeFor(pageCount), if page == 0 then 1 else page);
  }
}
