/**
 * Paging through the manual-review queue. The database orders by creation time;
 * rows created at the same time may come in any order, and a different one each query.
 */
module ReviewQueue {
  import opened Prelude
  import opened WorkflowModel

  /** The workflow waits for a human decision. */
  predicate Waits(w: WorkflowRow) {
    w.status == WorkflowStatus.AwaitingApproval || w.status == WorkflowStatus.Escalated
  }

  function WaitingIds(workflows: map<Uuid, WorkflowRow>): set<Uuid> {
    set id | id in workflows && Waits(workflows[id])
  }

  /** An answer the database may give to the ordered queue query. */
  ghost predicate IsQueueOrder(workflows: map<Uuid, WorkflowRow>, order: seq<Uuid>) {
    && (forall id :: id in order <==> id in workflows && Waits(workflows[id]))
    && (forall i, j | 0 <= i < j < |order| :: order[i] != order[j])
    && (forall i, j | 0 <= i < j < |order| :: workflows[order[i]].createdAt <= workflows[order[j]].createdAt)
  }

  function Least(a: nat, b: nat): nat {
    if a <= b then a else b
  }

  /** `LIMIT limit OFFSET offset` on the ordered rows, together with the unlimited count. */
  function ReviewQueue(order: seq<Uuid>, limit: nat, offset: nat): (seq<Uuid>, nat) {
    (order[Least(offset, |order|)..Least(offset + limit, |order|)], |order|)
  }

  function Offset(page: nat, pageSize: nat): nat
    requires page >= 1
  {
    (page - 1) * pageSize
  }

  /** What the endpoint returns for a page number from 1 on. */
  function PageItems(order: seq<Uuid>, page: nat, pageSize: nat): seq<Uuid>
    requires page >= 1
  {
    ReviewQueue(order, pageSize, Offset(page, pageSize)).0
  }

  /** `Page.build`'s page count. */
  function TotalPages(total: nat, pageSize: nat): nat {
    if pageSize != 0 then (total + pageSize - 1) / pageSize else 0
  }

  /** The pages 1, 2, ... one after another, each from its own query. */
  function AllPages(orders: seq<seq<Uuid>>, pageSize: nat): seq<Uuid> {
    if orders == [] then []
    else AllPages(orders[..|orders| - 1], pageSize) + PageItems(orders[|orders| - 1], |orders|, pageSize)
  }

  // ----- One order -----

  /** The page count is the ceiling of total / page size. */
  lemma TotalPagesIsCeiling(total: nat, pageSize: nat)
    requires pageSize >= 1
    ensures var p := TotalPages(total, pageSize);
      && total <= p * pageSize < total + pageSize
      && (total == 0 <==> p == 0)
  {
    var x := total + pageSize - 1;
    var p := x / pageSize;
    assert x == p * pageSize + x % pageSize;
  }

  lemma ItemsOfPage(order: seq<Uuid>, k: nat, pageSize: nat, offset: nat)
    requires offset == k * pageSize
    ensures PageItems(order, k + 1, pageSize) == order[Least(offset, |order|)..Least(offset + pageSize, |order|)]
  {
  }

  /** Beside each page comes the number of all waiting workflows; no page holds more than asked for. */
  lemma TotalCountsWaiting(workflows: map<Uuid, WorkflowRow>, order: seq<Uuid>, limit: nat, offset: nat)
    requires IsQueueOrder(workflows, order)
    ensures var (rows, total) := ReviewQueue(order, limit, offset);
      && total == |WaitingIds(workflows)|
      && |rows| <= limit
      && rows <= order[Least(offset, total)..]
      && (|rows| < limit ==> rows == order[Least(offset, total)..])
  {
    CountDistinct(order, WaitingIds(workflows));
  }

  /** The queue lists exactly the workflows `_decide` accepts. */
  lemma QueueIsDecidable(workflows: map<Uuid, WorkflowRow>, order: seq<Uuid>, c: Call)
    requires IsQueueOrder(workflows, order) && c.Decide?
    ensures c.id in order <==> Refusal(workflows, c).None?
  {
  }

  lemma {:induction false} PagesArePrefix(order: seq<Uuid>, orders: seq<seq<Uuid>>, pageSize: nat)
    requires forall k | 0 <= k < |orders| :: orders[k] == order
    ensures AllPages(orders, pageSize) == order[..Least(|orders| * pageSize, |order|)]
  {
    hide PageItems;
    if orders != [] {
      var k := |orders| - 1;
      var offset := k * pageSize;
      PagesArePrefix(order, orders[..k], pageSize);
      ItemsOfPage(order, k, pageSize, offset);
      assert |orders| * pageSize == offset + pageSize;
      var l, h := Least(offset, |order|), Least(offset + pageSize, |order|);
      assert order[..l] + order[l..h] == order[..h];
    }
  }

  /** All pages but the last are full, the last is not empty, and later pages are. */
  lemma PageSizes(order: seq<Uuid>, page: nat, pageSize: nat)
    requires page >= 1 && pageSize >= 1
    ensures var last := TotalPages(|order|, pageSize); var items := PageItems(order, page, pageSize);
      && (page < last ==> |items| == pageSize)
      && (page == last ==> 1 <= |items| <= pageSize)
      && (page > last ==> items == [])
  {
    hide PageItems, TotalPages;
    TotalPagesIsCeiling(|order|, pageSize);
    ItemsOfPage(order, page - 1, pageSize, (page - 1) * pageSize);
    PageBounds(|order|, TotalPages(|order|, pageSize), page, pageSize, (page - 1) * pageSize);
  }

  lemma PageBounds(total: nat, last: nat, page: nat, pageSize: nat, offset: nat)
    requires page >= 1 && pageSize >= 1 && offset == (page - 1) * pageSize
    requires total <= last * pageSize < total + pageSize
    ensures page < last ==> Least(offset + pageSize, total) - Least(offset, total) == pageSize
    ensures page == last ==> 1 <= Least(offset + pageSize, total) - Least(offset, total) <= pageSize
    ensures page > last ==> Least(offset, total) == total
  {
    assert page * pageSize == offset + pageSize;
    if page < last {
      TimesMonotone(page, last - 1, pageSize);
      assert last * pageSize == (last - 1) * pageSize + pageSize;
    } else if page > last {
      TimesMonotone(last, page - 1, pageSize);
    }
  }

  lemma TimesMonotone(a: nat, b: nat, c: nat)
    requires a <= b
    ensures a * c <= b * c
  {
    assert (b - a) * c >= 0;
    assert b * c == (b - a) * c + a * c;
  }

  // ----- Any order each time -----

  /** No two waiting workflows were created at the same time. */
  predicate CreationOrderIsTotal(workflows: map<Uuid, WorkflowRow>) {
    forall a, b | a in workflows && b in workflows && a != b
      && Waits(workflows[a]) && Waits(workflows[b]) ::
      workflows[a].createdAt != workflows[b].createdAt
  }

  /** With a total creation order the database has only one answer. */
  lemma {:induction false} OrderIsUnique(workflows: map<Uuid, WorkflowRow>, p: seq<Uuid>, q: seq<Uuid>, n: nat)
    requires CreationOrderIsTotal(workflows) && IsQueueOrder(workflows, p) && IsQueueOrder(workflows, q)
    requires n <= |p|
    ensures n <= |q| && p[..n] == q[..n]
  {
    if n > 0 {
      OrderIsUnique(workflows, p, q, n - 1);
      NextInLine(workflows, p, q, n - 1);
      assert p[..n] == p[..n - 1] + [p[n - 1]];
      assert q[..n] == q[..n - 1] + [q[n - 1]];
    }
  }

  /** What is listed, but neither before k nor at k, was created no earlier than the entry at k. */
  lemma CreatedNoEarlier(workflows: map<Uuid, WorkflowRow>, order: seq<Uuid>, k: nat, id: Uuid)
    requires IsQueueOrder(workflows, order) && k < |order|
    requires id in order && id !in order[..k] && id != order[k]
    ensures id in workflows && order[k] in workflows
    ensures workflows[order[k]].createdAt <= workflows[id].createdAt
  {
    var j :| 0 <= j < |order| && order[j] == id;
    assert order[k] in order;
  }

  lemma ListedOnce(workflows: map<Uuid, WorkflowRow>, order: seq<Uuid>, k: nat)
    requires IsQueueOrder(workflows, order) && k < |order|
    ensures order[k] !in order[..k] && order[k] in order
  {
  }

  lemma NextInLine(workflows: map<Uuid, WorkflowRow>, p: seq<Uuid>, q: seq<Uuid>, k: nat)
    requires CreationOrderIsTotal(workflows) && IsQueueOrder(workflows, p) && IsQueueOrder(workflows, q)
    requires k < |p| && k <= |q| && p[..k] == q[..k]
    ensures k < |q| && q[k] == p[k]
  {
    ListedOnce(workflows, p, k);
    assert p[k] in q;
    if k < |q| && p[k] != q[k] {
      ListedOnce(workflows, q, k);
      assert q[k] in p;
      CreatedNoEarlier(workflows, q, k, p[k]);
      CreatedNoEarlier(workflows, p, k, q[k]);
    }
  }

  lemma SameOrder(workflows: map<Uuid, WorkflowRow>, p: seq<Uuid>, q: seq<Uuid>)
    requires CreationOrderIsTotal(workflows) && IsQueueOrder(workflows, p) && IsQueueOrder(workflows, q)
    ensures p == q
  {
    OrderIsUnique(workflows, p, q, |p|);
    OrderIsUnique(workflows, q, p, |q|);
  }

  /** A reader who fetches every page, each by its own query. */
  ghost predicate FetchesAllPages(workflows: map<Uuid, WorkflowRow>, orders: seq<seq<Uuid>>, pageSize: nat) {
    && (forall k | 0 <= k < |orders| :: IsQueueOrder(workflows, orders[k]))
    && (forall k | 0 <= k < |orders| :: |orders| == TotalPages(|orders[k]|, pageSize))
  }

  lemma PagesPartitionQueue(workflows: map<Uuid, WorkflowRow>, order: seq<Uuid>, orders: seq<seq<Uuid>>, pageSize: nat)
    requires pageSize >= 1 && CreationOrderIsTotal(workflows) && IsQueueOrder(workflows, order)
    requires FetchesAllPages(workflows, orders, pageSize) && |orders| == TotalPages(|order|, pageSize)
    ensures AllPages(orders, pageSize) == order
  {
    forall k | 0 <= k < |orders|
      ensures orders[k] == order
    {
      SameOrder(workflows, orders[k], order);
    }
    PagesArePrefix(order, orders, pageSize);
    TotalPagesIsCeiling(|order|, pageSize);
  }

  /** However the database breaks ties, the fetched pages list the waiting workflows, oldest first, each once. */
  ghost predicate PagingIsExact(workflows: map<Uuid, WorkflowRow>) {
    forall order, orders, pageSize: nat ::
      pageSize >= 1 && IsQueueOrder(workflows, order) && FetchesAllPages(workflows, orders, pageSize)
      && |orders| == TotalPages(|order|, pageSize)
      ==> IsQueueOrder(workflows, AllPages(orders, pageSize))
  }

  lemma {:induction false} OldestLast(workflows: map<Uuid, WorkflowRow>, ids: set<Uuid>) returns (m: Uuid)
    requires ids != {} && ids <= workflows.Keys
    ensures m in ids && forall id | id in ids :: workflows[id].createdAt <= workflows[m].createdAt
  {
    m :| m in ids;
    if ids != {m} {
      assert ids == {m} + (ids - {m});
      var n := OldestLast(workflows, ids - {m});
      if workflows[m].createdAt < workflows[n].createdAt {
        m := n;
      }
    }
  }

  lemma {:induction false} SomeOrder(workflows: map<Uuid, WorkflowRow>, ids: set<Uuid>) returns (order: seq<Uuid>)
    requires ids <= workflows.Keys
    ensures forall id :: id in order <==> id in ids
    ensures forall i, j | 0 <= i < j < |order| :: order[i] != order[j]
    ensures forall i, j | 0 <= i < j < |order| :: workflows[order[i]].createdAt <= workflows[order[j]].createdAt
  {
    if ids == {} {
      order := [];
    } else {
      var m := OldestLast(workflows, ids);
      var rest := SomeOrder(workflows, ids - {m});
      order := rest + [m];
      assert forall i | 0 <= i < |rest| :: rest[i] in rest && order[i] == rest[i];
    }
  }

  function Swap(order: seq<Uuid>, i: nat, j: nat): (swapped: seq<Uuid>)
    requires i < j < |order|
    ensures |swapped| == |order|
  {
    order[i := order[j]][j := order[i]]
  }

  lemma SwapKeepsMembers(order: seq<Uuid>, i: nat, j: nat)
    requires i < j < |order|
    ensures forall id :: id in Swap(order, i, j) <==> id in order
  {
    var swapped := Swap(order, i, j);
    assert swapped[i] == order[j] && swapped[j] == order[i];
    forall id | id in order
      ensures id in swapped
    {
      var k :| 0 <= k < |order| && order[k] == id;
      assert k != i && k != j ==> swapped[k] == order[k];
    }
  }

  lemma SwapKeepsDistinct(order: seq<Uuid>, i: nat, j: nat)
    requires i < j < |order|
    requires forall k, l | 0 <= k < l < |order| :: order[k] != order[l]
    ensures forall k, l | 0 <= k < l < |order| :: Swap(order, i, j)[k] != Swap(order, i, j)[l]
  {
  }

  /** Swapping two entries created at the same time gives another answer the database may give. */
  lemma SwapIsOrder(workflows: map<Uuid, WorkflowRow>, order: seq<Uuid>, i: nat, j: nat)
    requires IsQueueOrder(workflows, order) && i < j < |order|
    requires order[i] in workflows && order[j] in workflows
    requires workflows[order[i]].createdAt == workflows[order[j]].createdAt
    ensures IsQueueOrder(workflows, Swap(order, i, j))
  {
    var swapped := Swap(order, i, j);
    SwapKeepsMembers(order, i, j);
    SwapKeepsDistinct(order, i, j);
    forall k | 0 <= k < |order|
      ensures order[k] in workflows && swapped[k] in workflows
      ensures workflows[swapped[k]].createdAt == workflows[order[k]].createdAt
    {
      assert order[k] in order;
    }
    hide Swap;
  }

  lemma {:induction false} PagesOfOne(orders: seq<seq<Uuid>>, n: nat)
    requires forall k | 0 <= k < |orders| :: |orders[k]| == n
    requires |orders| <= n
    ensures |AllPages(orders, 1)| == |orders|
    ensures forall k | 0 <= k < |orders| :: AllPages(orders, 1)[k] == orders[k][k]
  {
    if orders != [] {
      PagesOfOne(orders[..|orders| - 1], n);
      assert Offset(|orders|, 1) == |orders| - 1;
    }
  }

  /** Read page by page, one workflow each, the queue shows `twice` on two pages and `never` on none. */
  ghost predicate ShowsTwiceAndNever(workflows: map<Uuid, WorkflowRow>, orders: seq<seq<Uuid>>, twice: Uuid, never: Uuid) {
    var pages := AllPages(orders, 1);
    && FetchesAllPages(workflows, orders, 1)
    && (exists i, j | 0 <= i < j < |pages| :: pages[i] == pages[j] == twice)
    && never !in pages
  }

  /** Of any two waiting workflows created at the same time, some reading shows one twice and never the other. */
  lemma TieBreaksPaging(workflows: map<Uuid, WorkflowRow>, a: Uuid, b: Uuid)
    requires a in workflows && b in workflows && a != b
    requires Waits(workflows[a]) && Waits(workflows[b])
    requires workflows[a].createdAt == workflows[b].createdAt
    ensures exists orders :: ShowsTwiceAndNever(workflows, orders, a, b)
    ensures !PagingIsExact(workflows)
  {
    hide ShowsTwiceAndNever, PagingIsExact;
    var order := SomeOrder(workflows, WaitingIds(workflows));
    assert IsQueueOrder(workflows, order);
    var i :| 0 <= i < |order| && order[i] == a;
    var j :| 0 <= j < |order| && order[j] == b;
    if i < j {
      TieShowsTwice(workflows, order, i, j);
    } else {
      SwapIsOrder(workflows, order, j, i);
      TieShowsTwice(workflows, Swap(order, j, i), j, i);
    }
  }

  lemma TieShowsTwice(workflows: map<Uuid, WorkflowRow>, order: seq<Uuid>, i: nat, j: nat)
    requires IsQueueOrder(workflows, order) && i < j < |order|
    requires order[i] in workflows && order[j] in workflows
    requires workflows[order[i]].createdAt == workflows[order[j]].createdAt
    ensures exists orders :: ShowsTwiceAndNever(workflows, orders, order[i], order[j])
    ensures !PagingIsExact(workflows)
  {
    hide IsQueueOrder, AllPages, PageItems;
    var swapped := Swap(order, i, j);
    SwapIsOrder(workflows, order, i, j);
    var orders := seq(|order|, k => if k == j then swapped else order);
    PagesOfOne(orders, |order|);
    var pages := AllPages(orders, 1);
    assert pages[i] == pages[j] == order[i];
    assert FetchesAllPages(workflows, orders, 1);
    NotAnOrder(workflows, pages, i, j);
    forall k | 0 <= k < |pages|
      ensures pages[k] != order[j]
    {
      DistinctInOrder(workflows, order, if k == j then i else k, j);
    }
    assert ShowsTwiceAndNever(workflows, orders, order[i], order[j]);
  }

  lemma DistinctInOrder(workflows: map<Uuid, WorkflowRow>, order: seq<Uuid>, i: nat, j: nat)
    requires IsQueueOrder(workflows, order) && i < |order| && j < |order| && i != j
    ensures order[i] != order[j]
  {
  }

  lemma NotAnOrder(workflows: map<Uuid, WorkflowRow>, pages: seq<Uuid>, i: nat, j: nat)
    requires i < j < |pages| && pages[i] == pages[j]
    ensures !IsQueueOrder(workflows, pages)
  {
  }

  /** Paging is exact, for every page size and every tie-break, iff creation times are distinct. */
  lemma PagingIsExactIff(workflows: map<Uuid, WorkflowRow>)
    ensures PagingIsExact(workflows) <==> CreationOrderIsTotal(workflows)
  {
    if CreationOrderIsTotal(workflows) {
      forall order, orders, pageSize: nat |
        pageSize >= 1 && IsQueueOrder(workflows, order) && FetchesAllPages(workflows, orders, pageSize)
        && |orders| == TotalPages(|order|, pageSize)
        ensures IsQueueOrder(workflows, AllPages(orders, pageSize))
      {
        PagesPartitionQueue(workflows, order, orders, pageSize);
      }
    } else {
      var a, b :| a in workflows && b in workflows && a != b
        && Waits(workflows[a]) && Waits(workflows[b])
        && workflows[a].createdAt == workflows[b].createdAt;
      TieBreaksPaging(workflows, a, b);
    }
  }
}
