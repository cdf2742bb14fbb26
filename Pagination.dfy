/** buildPagination (src/utils/pagination.js): page size and offset from the
    `page` and `limit` query values. A value that is absent or not a number
    (NaN) is None; JavaScript treats both as falsy, like 0. */
module Pagination {
  import opened Wrappers
  import opened Collections

  datatype Page = Page(take: int, skip: int, current: int)

  /** `Number(v) || fallback`: NaN, absence and 0 all give the fallback. */
  function OrDefault(v: Option<int>, fallback: int): int
  {
    if v.None? || v.value == 0 then fallback else v.value
  }

  function BuildPagination(page: Option<int>, limit: Option<int>): (p: Page)
    ensures 1 <= p.take <= 100
    ensures limit.None? || limit == Some(0) ==> p.take == 10
    ensures limit.Some? && limit.value < 0 ==> p.take == 1
    ensures limit.Some? && limit.value > 100 ==> p.take == 100
    ensures limit.Some? && 1 <= limit.value <= 100 ==> p.take == limit.value
    ensures p.current >= 1
    ensures page.None? || page.value <= 0 ==> p.current == 1
    ensures page.Some? && page.value >= 1 ==> p.current == page.value
    ensures p.skip >= 0 && (p.current == 1 <==> p.skip == 0)
  {
    var take := Max(1, Min(100, OrDefault(limit, 10)));
    var current := Max(1, OrDefault(page, 1));
    Page(take, (current - 1) * take, current)
  }

  /** Consecutive pages of one size are adjacent windows: page n + 1 starts
      where page n ends, so no item is skipped or shown twice. */
  lemma ConsecutivePagesAdjoin(n: int, limit: Option<int>)
    requires n >= 1
    ensures BuildPagination(Some(n + 1), limit).skip
      == BuildPagination(Some(n), limit).skip + BuildPagination(Some(n), limit).take
  {
  }
}
