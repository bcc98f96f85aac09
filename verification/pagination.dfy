/** Page arithmetic: the back end's offset/limit pages with `has_next` and
    `has_prev` (routes/users.py, routes/dashboard.py), and the front ends'
    previous/next page stepping (apps/utenti, apps/report). */
module Pagination {

  /** `math.ceil(a / b)` for a non-negative count and a positive page size. */
  function CeilDiv(a: nat, b: nat): (r: nat)
    requires b > 0
    ensures a <= r * b
    ensures r > 0 ==> (r - 1) * b < a
  {
    (a + b - 1) / b
  }

  /** One page of a list, as the list endpoints return it. */
  datatype Page<T> = Page(items: seq<T>, total: nat, page: nat, perPage: nat,
                          hasNext: bool, hasPrev: bool)

  function Min(a: int, b: int): int {
    if a <= b then a else b
  }

  /** SQL `OFFSET k`: the rows after the first `k`. */
  function Offset<T>(s: seq<T>, k: nat): (r: seq<T>)
    ensures |r| == if k <= |s| then |s| - k else 0
    ensures forall i :: 0 <= i < |r| ==> r[i] == s[k + i]
  {
    if k >= |s| then [] else s[k..]
  }

  /** SQL `LIMIT n`: the first `n` rows, or all of them when fewer. */
  function Limit<T>(s: seq<T>, n: nat): (r: seq<T>)
    ensures |r| == if |s| <= n then |s| else n
    ensures r == s[..|r|]
  {
    if |s| <= n then s else s[..n]
  }

  /** The rows of page `page`: `OFFSET (page - 1) * perPage LIMIT perPage`. */
  function Window<T>(all: seq<T>, page: nat, perPage: nat): seq<T>
    requires page >= 1
  {
    Limit(Offset(all, (page - 1) * perPage), perPage)
  }

  /** The page at offset `(page - 1) * perPage` holding at most `perPage`
      items; `has_next` is `page < ceil(total / perPage)` and `has_prev` is
      `page > 1`. Page and size are validated by the endpoint's query rules
      before this runs. */
  function Paginate<T>(all: seq<T>, page: nat, perPage: nat): (r: Page<T>)
    requires page >= 1 && perPage >= 1
    ensures r.total == |all| && r.page == page && r.perPage == perPage
    ensures |r.items| <= perPage
    ensures (page - 1) * perPage <= |all| ==>
              r.items == all[(page - 1) * perPage..Min(page * perPage, |all|)]
    ensures (page - 1) * perPage >= |all| ==> r.items == []
    ensures r.items == Window(all, page, perPage)
    ensures r.hasPrev <==> page > 1
    ensures r.hasNext <==> page * perPage < |all|
  {
    var offset := (page - 1) * perPage;
    var end := page * perPage;
    PageEnd(page, perPage);
    var start := Min(offset, |all|);
    var stop := Min(end, |all|);
    HasNextIff(page, perPage, |all|);
    assert all[start..stop] == Window(all, page, perPage);
    Page(all[start..stop], |all|, page, perPage, page < CeilDiv(|all|, perPage), page > 1)
  }

  /** A page ends one page size after it starts. */
  lemma PageEnd(page: nat, perPage: nat)
    requires page >= 1
    ensures (page - 1) * perPage + perPage == page * perPage
  {
  }

  /** `page < ceil(total / perPage)` says the same as "some item lies past
      this page". */
  lemma HasNextIff(page: nat, perPage: nat, total: nat)
    requires perPage >= 1
    ensures page < CeilDiv(total, perPage) <==> page * perPage < total
  {
    var c := CeilDiv(total, perPage);
    if page < c {
      MulMonotone(page, c - 1, perPage);
    } else {
      MulMonotone(c, page, perPage);
    }
  }

  lemma MulMonotone(a: nat, b: nat, k: nat)
    requires a <= b
    ensures a * k <= b * k
  {
  }

  /** `previousPage`: step back only from a page after the first; the flag
      says whether the list is reloaded. */
  function PreviousPage(current: int): (r: (int, bool))
    ensures r.1 <==> current > 1
    ensures r.0 == (if current > 1 then current - 1 else current)
    ensures current >= 1 ==> r.0 >= 1
  {
    if current > 1 then (current - 1, true) else (current, false)
  }

  /** `nextPage`: step forward only while before the last page. */
  function NextPage(current: int, totalPages: int): (r: (int, bool))
    ensures r.1 <==> current < totalPages
    ensures r.0 == (if current < totalPages then current + 1 else current)
    ensures r.0 <= (if current < totalPages then totalPages else current)
  {
    if current < totalPages then (current + 1, true) else (current, false)
  }

  /** Stepping keeps a page that starts inside `1..totalPages` inside it, and
      a forward step is undone by a backward one. */
  lemma SteppingStaysInRange(current: int, totalPages: int)
    requires 1 <= current <= totalPages
    ensures 1 <= PreviousPage(current).0 <= totalPages
    ensures 1 <= NextPage(current, totalPages).0 <= totalPages
    ensures NextPage(current, totalPages).1 ==>
              PreviousPage(NextPage(current, totalPages).0).0 == current
  {
  }
}
