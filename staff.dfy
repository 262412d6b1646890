/**
 * The staff panel's REST handlers: a status change with its audit log, the paged order search,
 * and the sub-status update that moves a fully printed order from "processing" to "ready".
 * The order handler's own update operations are not visible; their success is a parameter.
 */
module Staff {
  import opened PhpValues
  import opened Orders
  import PrintingSubstatus

  datatype StaffLog = StaffLog(orderId: int, userId: int, staffUserId: int, action: string,
                               oldStatus: string, newStatus: string)

  datatype StatusResponse = StatusResponse(code: nat, success: bool, oldStatus: string, newStatus: string)

  datatype SubStatusResponse = SubStatusResponse(code: nat, success: bool, statusChanged: bool, newStatus: string)

  datatype SearchResponse =
    | SearchRejected(code: nat)
    | SearchPage(code: nat, results: seq<Order>, total: nat, page: int, perPage: int, hasMore: bool)

  // ---------------------------------------------------------------------------------------
  // Search

  /** The WHERE clause: not archived, and the query occurs in one of the six searched columns. */
  predicate Matches(o: Order, q: string)
  {
    !o.archived
    && (Contains(o.orderNumber, q) || Contains(o.bookTitle, q) || Contains(o.bookSize, q)
        || Contains(o.paperType, q) || Contains(o.printType, q) || Contains(o.bindingType, q))
  }

  /** Archived orders never match; an empty query matches every other order; a rank-4 match is a hit in a paper, print or binding column. */
  lemma MatchesCases(o: Order, q: string)
    ensures o.archived ==> !Matches(o, q)
    ensures !o.archived ==> Matches(o, "")
    ensures Matches(o, q) && Rank(o, q) == 4 ==> Contains(o.paperType, q) || Contains(o.printType, q) || Contains(o.bindingType, q)
  {
    assert "" <= o.orderNumber;
  }

  /** The CASE of the ORDER BY: a hit in the order number ranks first, then the title, then the size. */
  function Rank(o: Order, q: string): (r: int)
    ensures 1 <= r <= 4
    ensures r == 1 <==> Contains(o.orderNumber, q)
    ensures r == 2 <==> !Contains(o.orderNumber, q) && Contains(o.bookTitle, q)
    ensures r == 3 <==> !Contains(o.orderNumber, q) && !Contains(o.bookTitle, q) && Contains(o.bookSize, q)
  {
    if Contains(o.orderNumber, q) then 1
    else if Contains(o.bookTitle, q) then 2
    else if Contains(o.bookSize, q) then 3
    else 4
  }

  /** `a` may come before `b`: a better rank, or the same rank and not older. */
  predicate Before(a: Order, b: Order, q: string)
  {
    Rank(a, q) < Rank(b, q) || (Rank(a, q) == Rank(b, q) && a.createdAt >= b.createdAt)
  }

  ghost predicate Ranked(s: seq<Order>, q: string)
  {
    forall i, j :: 0 <= i < j < |s| ==> Before(s[i], s[j], q)
  }

  /** The matching rows, in table order. */
  function MatchingOrders(table: seq<Order>, q: string): (r: seq<Order>)
    ensures |r| <= |table|
    ensures forall o :: o in r <==> o in table && Matches(o, q)
  {
    if table == [] then []
    else (if Matches(table[0], q) then [table[0]] else []) + MatchingOrders(table[1..], q)
  }

  function InsertRanked(o: Order, s: seq<Order>, q: string): (r: seq<Order>)
    ensures multiset(r) == multiset(s) + multiset{o}
    ensures |r| == |s| + 1
  {
    if s == [] then [o]
    else if Before(o, s[0], q) then [o] + s
    else
      assert s == [s[0]] + s[1..];
      [s[0]] + InsertRanked(o, s[1..], q)
  }

  lemma {:induction false} InsertRankedKeepsRanked(o: Order, s: seq<Order>, q: string)
    requires Ranked(s, q)
    ensures Ranked(InsertRanked(o, s, q), q)
  {
    if s == [] {
    } else if Before(o, s[0], q) {
      PrependRanked(o, s, q);
    } else {
      assert Ranked(s[1..], q);
      InsertRankedKeepsRanked(o, s[1..], q);
      HeadStaysFirst(o, s, q);
    }
  }

  /** A row that goes before the head of a ranked list goes before all of it. */
  lemma PrependRanked(o: Order, s: seq<Order>, q: string)
    requires Ranked(s, q) && s != [] && Before(o, s[0], q)
    ensures Ranked([o] + s, q)
  {
    forall x | x in s
      ensures Before(o, x, q)
    {
      var k :| 0 <= k < |s| && s[k] == x;
      if k > 0 {
        assert Before(s[0], s[k], q);
      }
    }
    PrependBeforeAll(o, s, q);
  }

  /** When the new row does not go first, the head stays in front of the ranked rest. */
  lemma HeadStaysFirst(o: Order, s: seq<Order>, q: string)
    requires Ranked(s, q) && s != [] && !Before(o, s[0], q)
    requires Ranked(InsertRanked(o, s[1..], q), q)
    ensures Ranked(InsertRanked(o, s, q), q)
  {
    var r := InsertRanked(o, s[1..], q);
    assert InsertRanked(o, s, q) == [s[0]] + r;
    HeadBeforeInserted(o, s, q);
    PrependBeforeAll(s[0], r, q);
  }

  /** The head of a ranked list goes before every row of its tail with a later row inserted. */
  lemma HeadBeforeInserted(o: Order, s: seq<Order>, q: string)
    requires Ranked(s, q) && s != [] && !Before(o, s[0], q)
    ensures forall x :: x in InsertRanked(o, s[1..], q) ==> Before(s[0], x, q)
  {
    var r := InsertRanked(o, s[1..], q);
    forall x | x in r
      ensures Before(s[0], x, q)
    {
      assert x in multiset(r);
      if x != o {
        assert x in multiset(s[1..]);
        var k :| 0 <= k < |s[1..]| && s[1..][k] == x;
        assert s[k + 1] == x;
      }
    }
  }

  lemma PrependBeforeAll(h: Order, r: seq<Order>, q: string)
    requires Ranked(r, q) && forall x :: x in r ==> Before(h, x, q)
    ensures Ranked([h] + r, q)
  {
    var full := [h] + r;
    forall i, j | 0 <= i < j < |full|
      ensures Before(full[i], full[j], q)
    {
      if i == 0 {
        assert full[j] == r[j - 1] && full[j] in r;
      } else {
        assert full[i] == r[i - 1] && full[j] == r[j - 1];
      }
    }
  }

  /** The rows in the query's ORDER BY order; equal keys keep their table order. */
  function SortRanked(s: seq<Order>, q: string): (r: seq<Order>)
    ensures multiset(r) == multiset(s) && |r| == |s|
  {
    if s == [] then []
    else
      assert s == [s[0]] + s[1..];
      InsertRanked(s[0], SortRanked(s[1..], q), q)
  }

  lemma {:induction false} SortRankedIsRanked(s: seq<Order>, q: string)
    ensures Ranked(SortRanked(s, q), q)
  {
    if s != [] {
      SortRankedIsRanked(s[1..], q);
      InsertRankedKeepsRanked(s[0], SortRanked(s[1..], q), q);
    }
  }

  /** `LIMIT limit OFFSET offset` over the ranked rows; a negative bound makes the query fail, leaving no rows. */
  function LimitOffset(s: seq<Order>, limit: int, offset: int): (r: seq<Order>)
    ensures limit < 0 || offset < 0 ==> r == []
    ensures limit >= 0 ==> |r| <= limit
    ensures limit >= 0 && offset >= 0 && offset >= |s| ==> r == []
    ensures limit >= 0 && 0 <= offset < |s| ==>
              r == s[offset..if offset + limit < |s| then offset + limit else |s|]
  {
    if limit < 0 || offset < 0 || offset >= |s| then []
    else if offset + limit < |s| then s[offset..offset + limit]
    else s[offset..]
  }

  /** A window of a ranked list is ranked and holds only rows of the list. */
  lemma LimitOffsetRanked(s: seq<Order>, limit: int, offset: int, q: string)
    requires Ranked(s, q)
    ensures Ranked(LimitOffset(s, limit, offset), q)
    ensures forall o :: o in LimitOffset(s, limit, offset) ==> o in s
  {
  }

  /** Fetching one row past the page and dropping it again yields the page, and tells whether rows follow it. */
  lemma {:induction false} OneExtraRow(all: seq<Order>, perPage: nat, offset: nat)
    ensures var fetched := LimitOffset(all, perPage + 1, offset);
            && (|fetched| > perPage <==> |all| > offset + perPage)
            && (|fetched| > perPage ==> fetched[..|fetched| - 1] == LimitOffset(all, perPage, offset))
            && (|fetched| <= perPage ==> fetched == LimitOffset(all, perPage, offset))
  {
  }

  /**
   * search_orders: fetch one row more than a page, report whether there was one and drop it;
   * the total counts every match.
   */
  method SearchOrders(table: seq<Order>, q: string, page: int, perPage: int)
    returns (orders: seq<Order>, total: nat, hasMore: bool)
    ensures total == |MatchingOrders(table, q)|
    ensures Ranked(orders, q)
    ensures forall o :: o in orders ==> o in MatchingOrders(table, q)
    ensures page >= 1 && perPage >= 0 ==>
              && (hasMore <==> |SortRanked(MatchingOrders(table, q), q)| > (page - 1) * perPage + perPage)
              && |orders| <= perPage
              && orders == LimitOffset(SortRanked(MatchingOrders(table, q), q), perPage, (page - 1) * perPage)
  {
    var matching := MatchingOrders(table, q);
    var all := SortRanked(matching, q);
    var fetched := LimitOffset(all, perPage + 1, (page - 1) * perPage);
    hasMore := |fetched| > perPage;
    orders := DropExtra(fetched, perPage);
    total := |matching|;
    SortRankedIsRanked(matching, q);
    SortRankedMembers(matching, q);
    PageOfRanked(all, matching, q, page, perPage);
  }

  /** The extra row fetched to detect a next page, dropped again. */
  function DropExtra(fetched: seq<Order>, perPage: int): (r: seq<Order>)
    ensures |fetched| > perPage && fetched != [] ==> r == fetched[..|fetched| - 1]
    ensures |fetched| <= perPage || fetched == [] ==> r == fetched
  {
    if |fetched| > perPage && |fetched| > 0 then fetched[..|fetched| - 1] else fetched
  }

  /** Sorting keeps the rows it was given. */
  lemma SortRankedMembers(s: seq<Order>, q: string)
    ensures forall o :: o in SortRanked(s, q) ==> o in s
  {
    forall o | o in SortRanked(s, q)
      ensures o in s
    {
      assert o in multiset(SortRanked(s, q));
    }
  }

  /**
   * A page cut from a ranked list of rows, fetching one extra row and dropping it, is ranked,
   * holds only those rows, and is the plain window with "has more" telling whether rows follow.
   */
  lemma PageOfRanked(all: seq<Order>, rows: seq<Order>, q: string, page: int, perPage: int)
    requires Ranked(all, q) && forall o :: o in all ==> o in rows
    ensures Ranked(DropExtra(LimitOffset(all, perPage + 1, (page - 1) * perPage), perPage), q)
    ensures forall o :: o in DropExtra(LimitOffset(all, perPage + 1, (page - 1) * perPage), perPage) ==> o in rows
    ensures page >= 1 && perPage >= 0 ==>
              && (|LimitOffset(all, perPage + 1, (page - 1) * perPage)| > perPage <==> |all| > (page - 1) * perPage + perPage)
              && |DropExtra(LimitOffset(all, perPage + 1, (page - 1) * perPage), perPage)| <= perPage
              && DropExtra(LimitOffset(all, perPage + 1, (page - 1) * perPage), perPage) == LimitOffset(all, perPage, (page - 1) * perPage)
  {
    var offset := (page - 1) * perPage;
    LimitOffsetRanked(all, perPage + 1, offset, q);
    if page >= 1 && perPage >= 0 {
      assert offset >= 0 by {
        MulMonotone(0, page - 1, perPage);
      }
      OneExtraRow(all, perPage, offset);
    }
  }

  /** search_orders_rest: an empty query (PHP's empty(), so also "0") is refused with 400. */
  method SearchOrdersRest(table: seq<Order>, q: string, page: int, perPage: int) returns (r: SearchResponse)
    ensures EmptyString(q) <==> r.SearchRejected?
    ensures r.SearchRejected? ==> r.code == 400
    ensures r.SearchPage? ==>
              && r.code == 200 && r.page == page && r.perPage == perPage
              && r.total == |MatchingOrders(table, q)|
              && (page >= 1 && perPage >= 0 ==>
                    (r.hasMore <==> |MatchingOrders(table, q)| > (page - 1) * perPage + perPage))
  {
    if EmptyString(q) {
      return SearchRejected(400);
    }
    var orders, total, hasMore := SearchOrders(table, q, page, perPage);
    assert |SortRanked(MatchingOrders(table, q), q)| == |MatchingOrders(table, q)|;
    r := SearchPage(200, orders, total, page, perPage, hasMore);
  }

  /** Paging: each page starts where the previous one ended, so pages never overlap or skip rows. */
  lemma {:induction false} PagesAreAdjacent(all: seq<Order>, perPage: nat, page: nat)
    requires page >= 1 && page * perPage < |all|
    ensures var p := LimitOffset(all, perPage, (page - 1) * perPage);
            var n := LimitOffset(all, perPage, page * perPage);
            p + n == all[(page - 1) * perPage..if (page + 1) * perPage < |all| then (page + 1) * perPage else |all|]
  {
    var lo := (page - 1) * perPage;
    var mid := page * perPage;
    assert lo + perPage == mid;
    assert mid + perPage == (page + 1) * perPage;
    var hi := if (page + 1) * perPage < |all| then (page + 1) * perPage else |all|;
    assert all[lo..mid] + all[mid..hi] == all[lo..hi];
  }

  // ---------------------------------------------------------------------------------------
  // Sub-status auto-completion

  /** The status update_sub_status_rest leaves: "ready" only for a fully done order that is processing. */
  function StatusAfterSubStatus(current: string, allDone: bool): (s: string)
    ensures s == "ready" <==> (allDone && current == "processing") || current == "ready"
    ensures s != current ==> allDone && current == "processing"
  {
    if allDone && current == "processing" then "ready" else current
  }

  /** The staff rule is exactly the intended printing auto-completion once every step is done. */
  lemma StaffRuleMatchesIntended(current: string)
    ensures StatusAfterSubStatus(current, true) == PrintingSubstatus.IntendedStatusAfterAutoComplete(current)
    ensures StatusAfterSubStatus(current, false) == current
  {
  }

  // ---------------------------------------------------------------------------------------
  // The handlers that write

  class StaffDesk {
    var orders: map<int, Order>
    var logs: seq<StaffLog>

    constructor(initial: map<int, Order>)
      ensures orders == initial && logs == []
    {
      orders := initial;
      logs := [];
    }

    /**
     * update_status_rest: 400 for a missing id or status, 404 for an unknown order, then the
     * order handler's update; on success the log records the status before and the one requested.
     */
    method UpdateStatusRest(orderId: int, status: string, staffUserId: int, updateOk: bool)
      returns (r: StatusResponse)
      modifies this
      ensures orderId == 0 || EmptyString(status) ==>
                r.code == 400 && !r.success && orders == old(orders) && logs == old(logs)
      ensures orderId != 0 && !EmptyString(status) && orderId !in old(orders) ==>
                r.code == 404 && !r.success && orders == old(orders) && logs == old(logs)
      ensures orderId != 0 && !EmptyString(status) && orderId in old(orders) && !updateOk ==>
                r.code == 400 && !r.success && orders == old(orders) && logs == old(logs)
      ensures orderId != 0 && !EmptyString(status) && orderId in old(orders) && updateOk ==>
                var before := old(orders)[orderId];
                && r == StatusResponse(200, true, before.status, status)
                && orders == old(orders)[orderId := before.(status := status)]
                && logs == old(logs) + [StaffLog(orderId, before.userId, staffUserId, "status_change", before.status, status)]
      ensures r.success <==> r.code == 200
    {
      if orderId == 0 || EmptyString(status) {
        return StatusResponse(400, false, "", "");
      }
      if orderId !in orders {
        return StatusResponse(404, false, "", "");
      }
      var current := orders[orderId];
      var oldStatus := current.status;
      if !updateOk {
        return StatusResponse(400, false, "", "");
      }
      orders := orders[orderId := current.(status := status)];
      logs := logs + [StaffLog(orderId, current.userId, staffUserId, "status_change", oldStatus, status)];
      r := StatusResponse(200, true, oldStatus, status);
    }

    /**
     * update_sub_status_rest: 400 for a missing id or key, 404 for an unknown order, 400 when the
     * sub-status write fails; then a fully done order that is processing moves to "ready" with a log.
     */
    method UpdateSubStatusRest(orderId: int, subStatusKey: string, staffUserId: int, updateOk: bool, allDone: bool)
      returns (r: SubStatusResponse)
      modifies this
      ensures orderId == 0 || EmptyString(subStatusKey) || orderId !in old(orders) || !updateOk ==>
                !r.success && orders == old(orders) && logs == old(logs)
      ensures !r.success ==> r.code == (if orderId != 0 && !EmptyString(subStatusKey) && orderId !in old(orders) then 404 else 400)
      ensures r.success <==> orderId != 0 && !EmptyString(subStatusKey) && orderId in old(orders) && updateOk
      ensures r.success ==>
                var before := old(orders)[orderId];
                && r.code == 200
                && r.newStatus == StatusAfterSubStatus(before.status, allDone)
                && (r.statusChanged <==> allDone && before.status == "processing")
                && orders == old(orders)[orderId := before.(status := r.newStatus)]
                && logs == old(logs) + (if r.statusChanged
                                        then [StaffLog(orderId, before.userId, staffUserId, "status_auto_complete", "processing", "ready")]
                                        else [])
    {
      if orderId == 0 || EmptyString(subStatusKey) {
        return SubStatusResponse(400, false, false, "");
      }
      if orderId !in orders {
        return SubStatusResponse(404, false, false, "");
      }
      var order := orders[orderId];
      if !updateOk {
        return SubStatusResponse(400, false, false, "");
      }
      var statusChanged := false;
      var newStatus := order.status;
      if allDone && order.status == "processing" {
        orders := orders[orderId := order.(status := "ready")];
        statusChanged := true;
        newStatus := "ready";
        logs := logs + [StaffLog(orderId, order.userId, staffUserId, "status_auto_complete", "processing", "ready")];
      } else {
        assert order.(status := order.status) == order;
      }
      r := SubStatusResponse(200, true, statusChanged, newStatus);
    }
  }
}
