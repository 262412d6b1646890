/**
 * The customer dashboard's decisions: which state a customer is in (no orders yet, files still
 * to upload, or tracking), which tab opens first, and the order summary. The orders and files
 * tables are sequences of rows; user id 0 stands for "not logged in".
 */
module Dashboard {
  import opened Orders

  /** A row of the files table; `deleted` is a non-NULL `deleted_at`. */
  datatype File = File(orderId: int, category: string, deleted: bool)

  datatype UserState = NewUser | PendingUpload | Tracking

  datatype Summary = Summary(totalOrders: nat, activeOrders: nat, completedOrders: nat, pendingUploads: nat)

  const ActiveStatuses: set<string> := {"pending", "confirmed", "processing", "ready"}

  predicate HasCategory(files: seq<File>, category: string)
  {
    exists i :: 0 <= i < |files| && files[i].category == category
  }

  /** The rule for "the files needed to print are there": a text file and a cover file. */
  predicate RequiredFilesPresent(files: seq<File>)
  {
    HasCategory(files, "text") && HasCategory(files, "cover")
  }

  /** has_required_files: one pass over the files, setting a flag for each required category. */
  method HasRequiredFiles(files: seq<File>) returns (r: bool)
    ensures r <==> RequiredFilesPresent(files)
  {
    if |files| == 0 {
      return false;
    }
    var hasText := false;
    var hasCover := false;
    for i := 0 to |files|
      invariant hasText <==> HasCategory(files[..i], "text")
      invariant hasCover <==> HasCategory(files[..i], "cover")
    {
      if files[i].category == "text" {
        hasText := true;
      }
      if files[i].category == "cover" {
        hasCover := true;
      }
      assert forall c :: HasCategory(files[..i + 1], c) <==> HasCategory(files[..i], c) || files[i].category == c by {
        forall c
          ensures HasCategory(files[..i + 1], c) <==> HasCategory(files[..i], c) || files[i].category == c
        {
          if HasCategory(files[..i + 1], c) {
            var k :| 0 <= k < i + 1 && files[..i + 1][k].category == c;
            if k < i {
              assert files[..i][k].category == c;
            }
          }
          if HasCategory(files[..i], c) {
            var k :| 0 <= k < i && files[..i][k].category == c;
            assert files[..i + 1][k].category == c;
          }
          if files[i].category == c {
            assert files[..i + 1][i].category == c;
          }
        }
      }
    }
    assert files[..|files|] == files;
    r := hasText && hasCover;
  }

  /** get_order_files: the order's files that are not deleted. */
  function LiveFiles(files: seq<File>, orderId: int): (r: seq<File>)
    ensures forall f :: f in r <==> f in files && f.orderId == orderId && !f.deleted
  {
    if files == [] then []
    else (if files[0].orderId == orderId && !files[0].deleted then [files[0]] else []) + LiveFiles(files[1..], orderId)
  }

  /** get_user_orders without its ordering: the user's orders that are not archived. */
  function UserOrders(orders: seq<Order>, userId: int): (r: seq<Order>)
    ensures |r| <= |orders|
    ensures forall o :: o in r <==> o in orders && o.userId == userId && !o.archived
  {
    if orders == [] then []
    else (if orders[0].userId == userId && !orders[0].archived then [orders[0]] else []) + UserOrders(orders[1..], userId)
  }

  /** The first row of `ORDER BY created_at DESC`: an order no other order is newer than. */
  function Newest(orders: seq<Order>): (o: Order)
    requires orders != []
    ensures o in orders && forall p :: p in orders ==> p.createdAt <= o.createdAt
  {
    if |orders| == 1 then orders[0]
    else
      var rest := Newest(orders[1..]);
      if orders[0].createdAt >= rest.createdAt then orders[0] else rest
  }

  /** get_user_state. */
  function StateOf(userId: int, orders: seq<Order>, files: seq<File>): (s: UserState)
    ensures userId == 0 || UserOrders(orders, userId) == [] <==> s == NewUser
    ensures s == PendingUpload <==>
              userId != 0 && UserOrders(orders, userId) != []
              && !RequiredFilesPresent(LiveFiles(files, Newest(UserOrders(orders, userId)).id))
  {
    if userId == 0 then NewUser
    else
      var mine := UserOrders(orders, userId);
      if mine == [] then NewUser
      else if !RequiredFilesPresent(LiveFiles(files, Newest(mine).id)) then PendingUpload
      else Tracking
  }

  /** get_default_tab. */
  function DefaultTab(s: UserState): (tab: string)
    ensures s == NewUser <==> tab == "order-form"
    ensures s == PendingUpload <==> tab == "upload-manager"
    ensures s == Tracking <==> tab == "user-orders"
  {
    match s
    case NewUser => "order-form"
    case PendingUpload => "upload-manager"
    case Tracking => "user-orders"
  }

  function CountWhere(orders: seq<Order>, statuses: set<string>): (n: nat)
    ensures n <= |orders|
  {
    if orders == [] then 0
    else (if orders[0].status in statuses then 1 else 0) + CountWhere(orders[1..], statuses)
  }

  /**
   * The user's orders that lack a live text file or a live cover file. The query counts
   * DISTINCT order ids; `id` is the orders table's primary key, so no two rows share one and
   * counting rows gives the same number.
   */
  function CountPending(orders: seq<Order>, files: seq<File>): (n: nat)
    ensures n <= |orders|
  {
    if orders == [] then 0
    else (if !RequiredFilesPresent(LiveFiles(files, orders[0].id)) then 1 else 0) + CountPending(orders[1..], files)
  }

  /** get_user_summary: all zeros without a user; otherwise counts over the user's live orders. */
  function SummaryOf(userId: int, orders: seq<Order>, files: seq<File>): (s: Summary)
    ensures userId == 0 ==> s == Summary(0, 0, 0, 0)
    ensures userId != 0 ==> s.totalOrders == |UserOrders(orders, userId)|
    ensures s.activeOrders <= s.totalOrders && s.completedOrders <= s.totalOrders && s.pendingUploads <= s.totalOrders
  {
    if userId == 0 then Summary(0, 0, 0, 0)
    else
      var mine := UserOrders(orders, userId);
      Summary(|mine|, CountWhere(mine, ActiveStatuses), CountWhere(mine, {"completed"}), CountPending(mine, files))
  }

  /** An order is never both active and completed, so the two counts together stay within the total. */
  lemma {:induction false} ActiveAndCompletedDisjoint(orders: seq<Order>)
    ensures CountWhere(orders, ActiveStatuses) + CountWhere(orders, {"completed"}) <= |orders|
  {
    if orders != [] {
      ActiveAndCompletedDisjoint(orders[1..]);
    }
  }

  lemma {:induction false} PendingCountsAnOrder(orders: seq<Order>, files: seq<File>, o: Order)
    requires o in orders && !RequiredFilesPresent(LiveFiles(files, o.id))
    ensures CountPending(orders, files) >= 1
  {
    if orders[0] != o {
      PendingCountsAnOrder(orders[1..], files, o);
    }
  }

  /**
   * The summary and the state agree: a logged-in customer is a new user exactly when the
   * summary counts no orders, and one sent to the upload tab has a pending upload counted.
   */
  lemma SummaryAgreesWithState(userId: int, orders: seq<Order>, files: seq<File>)
    requires userId != 0
    ensures StateOf(userId, orders, files) == NewUser <==> SummaryOf(userId, orders, files).totalOrders == 0
    ensures StateOf(userId, orders, files) == PendingUpload ==> SummaryOf(userId, orders, files).pendingUploads >= 1
  {
    var mine := UserOrders(orders, userId);
    if StateOf(userId, orders, files) == PendingUpload {
      PendingCountsAnOrder(mine, files, Newest(mine));
    }
  }
}
