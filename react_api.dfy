/**
 * The REST endpoints behind the React admin dashboard: the order list with its clamped paging
 * parameters and filter clauses, the single-order lookup, archive/restore responses and the
 * typing of an order row for the client. A database row is a map from column to value; the
 * firewall that hides orders from the display and the archive handler are parameters.
 */
module ReactDashboardApi {
  import opened Wrappers
  import opened PhpValues
  import Orders

  datatype Value = VStr(s: string) | VInt(i: int) | VFloat(f: real) | VNull

  type Row = map<string, Value>

  const NumericFields: seq<string> := ["id", "user_id", "total_price", "pages", "quantity", "archived"]
  const FloatFields: seq<string> := ["total_price"]

  // ---------------------------------------------------------------------------------------
  // Parameters and paging

  /** `max(1, intval(page ?? 1))`. */
  function ClampPage(page: Option<string>): (p: int)
    ensures p >= 1
    ensures page.None? ==> p == 1
    ensures page.Some? && IntVal(page.value) >= 1 ==> p == IntVal(page.value)
    ensures page.Some? && IntVal(page.value) < 1 ==> p == 1
  {
    var v := if page.Some? then IntVal(page.value) else 1;
    if v < 1 then 1 else v
  }

  /** `min(100, max(1, intval(per_page ?? 20)))`. */
  function ClampPerPage(perPage: Option<string>): (n: int)
    ensures 1 <= n <= 100
    ensures perPage.None? ==> n == 20
    ensures perPage.Some? && 1 <= IntVal(perPage.value) <= 100 ==> n == IntVal(perPage.value)
    ensures perPage.Some? && IntVal(perPage.value) < 1 ==> n == 1
    ensures perPage.Some? && IntVal(perPage.value) > 100 ==> n == 100
  {
    var v := if perPage.Some? then IntVal(perPage.value) else 20;
    var atLeastOne := if v < 1 then 1 else v;
    if atLeastOne > 100 then 100 else atLeastOne
  }

  /** The blanks FILTER_VALIDATE_BOOLEAN strips first: space, tab, line feed, vertical tab and carriage return (not NUL). */
  predicate IsFilterSpace(c: char)
  {
    c == ' ' || c == '\t' || c == '\n' || c == '\r' || c as int == 11
  }

  /** FILTER_VALIDATE_BOOLEAN: "1", "true", "on" and "yes", in any case and surrounded by blanks. */
  predicate BooleanParam(raw: Option<string>)
  {
    raw.Some? && Lower(TrimWith(raw.value, IsFilterSpace)) in {"1", "true", "on", "yes"}
  }

  /** Case does not matter: "TRUE" is true; "0" and an absent parameter are false. */
  lemma BooleanParamCases(upper: string, zero: string)
    requires upper == "TRUE" && zero == "0"
    ensures BooleanParam(Some(upper))
    ensures !BooleanParam(None) && !BooleanParam(Some(zero))
  {
    assert Lower(upper) == "true" && Lower(zero) == "0";
    TrimWithOfTrimmed(upper, IsFilterSpace);
    TrimWithOfTrimmed(zero, IsFilterSpace);
  }

  /** The filter does not strip NUL: "\0true" is false, although PHP's trim() would reduce it to "true". */
  lemma NulLedTrueIsFalse(nulTrue: string)
    requires nulTrue == [0 as char] + "true"
    ensures !BooleanParam(Some(nulTrue))
    ensures Trim(nulTrue) == "true"
  {
    NulLedIsNotBoolean(nulTrue);
    var nul, word: string := [0 as char], "true";
    assert nulTrue == nul + word + [];
    PhpValues.TrimWithOfPadded(nul, word, [], IsTrimChar);
  }

  lemma NulLedIsNotBoolean(s: string)
    requires s != [] && s[0] == 0 as char && s[|s| - 1] == 'e'
    ensures !BooleanParam(Some(s))
  {
    TrimWithOfTrimmed(s, IsFilterSpace);
    var lowered := Lower(s);
    assert lowered[0] == 0 as char;
    assert lowered != "1" && lowered != "true" && lowered != "on" && lowered != "yes";
  }



  function Offset(page: int, perPage: int): int
  {
    (page - 1) * perPage
  }

  /** `ceil(total / per_page)`. */
  function TotalPages(total: nat, perPage: int): (n: nat)
    requires perPage >= 1
    ensures n * perPage >= total
    ensures n == 0 || (n - 1) * perPage < total
  {
    (total + perPage - 1) / perPage
  }

  /** Every row of the result set falls on a page that the pagination announces. */
  lemma {:induction false} EveryRowHasAPage(total: nat, perPage: int, i: nat)
    requires perPage >= 1 && i < total
    ensures var page := i / perPage + 1;
            1 <= page <= TotalPages(total, perPage) && Offset(page, perPage) <= i < Offset(page, perPage) + perPage
  {
    var page := i / perPage + 1;
    var n := TotalPages(total, perPage);
    assert Offset(page, perPage) == (i / perPage) * perPage;
    assert (i / perPage) * perPage <= i < (i / perPage) * perPage + perPage;
  }

  // ---------------------------------------------------------------------------------------
  // The WHERE clauses

  datatype Clause =
    | ArchivedIs(flag: int)
    | StatusIs(status: string)
    | SearchFor(id: int, term: string)
    | DateFrom(date: string)
    | DateTo(date: string)

  /** The text of a column, or None for a missing or NULL one. */
  function Column(row: Row, name: string): (r: Option<string>)
    ensures r.Some? <==> name in row && row[name].VStr?
  {
    if name in row && row[name].VStr? then Some(row[name].s) else None
  }

  predicate Like(row: Row, name: string, term: string)
  {
    Column(row, name).Some? && Orders.Contains(Column(row, name).value, term)
  }

  /** Lexicographic order on strings, as MySQL compares `Y-m-d` dates. */
  predicate NotAfter(a: string, b: string)
  {
    a == [] || (b != [] && (a[0] < b[0] || (a[0] == b[0] && NotAfter(a[1..], b[1..]))))
  }

  /** `DATE(created_at)`: the date part of a `Y-m-d H:i:s` timestamp. */
  function DatePart(s: string): (d: string)
    ensures |d| <= 10 && d <= s
  {
    if |s| <= 10 then s else s[..10]
  }

  predicate Admits(c: Clause, row: Row)
  {
    match c
    case ArchivedIs(flag) => Column(row, "archived").Some? && IntVal(Column(row, "archived").value) == flag
    case StatusIs(status) => Column(row, "status") == Some(status)
    case SearchFor(id, term) =>
      (Column(row, "id").Some? && IntVal(Column(row, "id").value) == id)
      || Like(row, "customer_name", term) || Like(row, "customer_phone", term) || Like(row, "customer_email", term)
    case DateFrom(date) => Column(row, "created_at").Some? && NotAfter(date, DatePart(Column(row, "created_at").value))
    case DateTo(date) => Column(row, "created_at").Some? && NotAfter(DatePart(Column(row, "created_at").value), date)
  }

  /** The clauses joined with AND. */
  predicate AdmitsAll(clauses: seq<Clause>, row: Row)
  {
    forall i :: 0 <= i < |clauses| ==> Admits(clauses[i], row)
  }

  /** The list's filter: the requested archive state, and each non-empty criterion. */
  predicate Wanted(row: Row, archived: bool, status: string, search: string, dateFrom: string, dateTo: string)
  {
    && Admits(ArchivedIs(if archived then 1 else 0), row)
    && (EmptyString(status) || Admits(StatusIs(status), row))
    && (EmptyString(search) || Admits(SearchFor(IntVal(search), search), row))
    && (EmptyString(dateFrom) || Admits(DateFrom(dateFrom), row))
    && (EmptyString(dateTo) || Admits(DateTo(dateTo), row))
  }

  /** `if (cond) $where[] = clause;` */
  function AddIf(clauses: seq<Clause>, cond: bool, c: Clause): (r: seq<Clause>)
    ensures forall x :: x in r <==> x in clauses || (cond && x == c)
    ensures |r| >= |clauses| && r[..|clauses|] == clauses
  {
    if cond then clauses + [c] else clauses
  }

  lemma AdmitsAllAddIf(clauses: seq<Clause>, cond: bool, c: Clause, row: Row)
    ensures AdmitsAll(AddIf(clauses, cond, c), row) <==> AdmitsAll(clauses, row) && (!cond || Admits(c, row))
  {
    if cond {
      assert AddIf(clauses, cond, c)[|clauses|] == c;
    }
  }

  /** The clause list of the order list, as a value. */
  function WhereClauses(archived: bool, status: string, search: string, dateFrom: string, dateTo: string): (clauses: seq<Clause>)
    ensures 1 <= |clauses| <= 5 && clauses[0] == ArchivedIs(if archived then 1 else 0)
    ensures |clauses| == 1 <==> EmptyString(status) && EmptyString(search) && EmptyString(dateFrom) && EmptyString(dateTo)
  {
    var c0 := [ArchivedIs(if archived then 1 else 0)];
    var c1 := AddIf(c0, !EmptyString(status), StatusIs(status));
    var c2 := AddIf(c1, !EmptyString(search), SearchFor(IntVal(search), search));
    var c3 := AddIf(c2, !EmptyString(dateFrom), DateFrom(dateFrom));
    AddIf(c3, !EmptyString(dateTo), DateTo(dateTo))
  }

  /**
   * The `$where` list: the archive clause always comes first; the status, search and date
   * clauses are appended only for non-empty parameters.
   */
  method BuildWhere(archived: bool, status: string, search: string, dateFrom: string, dateTo: string)
    returns (clauses: seq<Clause>)
    ensures clauses == WhereClauses(archived, status, search, dateFrom, dateTo)
  {
    clauses := [ArchivedIs(if archived then 1 else 0)];
    if !EmptyString(status) {
      clauses := clauses + [StatusIs(status)];
    }
    if !EmptyString(search) {
      clauses := clauses + [SearchFor(IntVal(search), search)];
    }
    if !EmptyString(dateFrom) {
      clauses := clauses + [DateFrom(dateFrom)];
    }
    if !EmptyString(dateTo) {
      clauses := clauses + [DateTo(dateTo)];
    }
  }

  /** The archive clause always comes first, and the status clause is present exactly when a status is given. */
  lemma WhereClausesShape(archived: bool, status: string, search: string, dateFrom: string, dateTo: string)
    ensures var clauses := WhereClauses(archived, status, search, dateFrom, dateTo);
            && clauses[0] == ArchivedIs(if archived then 1 else 0)
            && (StatusIs(status) in clauses <==> !EmptyString(status))
  {
    var c0 := [ArchivedIs(if archived then 1 else 0)];
    var c1 := AddIf(c0, !EmptyString(status), StatusIs(status));
    var c2 := AddIf(c1, !EmptyString(search), SearchFor(IntVal(search), search));
    var c3 := AddIf(c2, !EmptyString(dateFrom), DateFrom(dateFrom));
    var c4 := AddIf(c3, !EmptyString(dateTo), DateTo(dateTo));
    assert c4[0] == c3[0] == c2[0] == c1[0] == c0[0];
    assert StatusIs(status) in c4 <==> StatusIs(status) in c3;
    assert StatusIs(status) in c3 <==> StatusIs(status) in c2;
    assert StatusIs(status) in c2 <==> StatusIs(status) in c1;
  }

  /** Four conditional appends after a first clause admit a row exactly when every clause added does. */
  lemma AdmitsAllChain(row: Row, c0: Clause, p1: bool, x1: Clause, p2: bool, x2: Clause, p3: bool, x3: Clause, p4: bool, x4: Clause)
    ensures AdmitsAll(AddIf(AddIf(AddIf(AddIf([c0], p1, x1), p2, x2), p3, x3), p4, x4), row)
            <==> Admits(c0, row) && (!p1 || Admits(x1, row)) && (!p2 || Admits(x2, row))
                 && (!p3 || Admits(x3, row)) && (!p4 || Admits(x4, row))
  {
    var c1 := AddIf([c0], p1, x1);
    var c2 := AddIf(c1, p2, x2);
    var c3 := AddIf(c2, p3, x3);
    assert AdmitsAll([c0], row) <==> Admits(c0, row) by {
      assert [c0][0] == c0;
    }
    AdmitsAllAddIf([c0], p1, x1, row);
    AdmitsAllAddIf(c1, p2, x2, row);
    AdmitsAllAddIf(c2, p3, x3, row);
    AdmitsAllAddIf(c3, p4, x4, row);
  }

  /** A row passes the joined clauses exactly when it meets the list's filter. */
  lemma WhereClausesMeanFilter(row: Row, archived: bool, status: string, search: string, dateFrom: string, dateTo: string)
    ensures AdmitsAll(WhereClauses(archived, status, search, dateFrom, dateTo), row)
            <==> Wanted(row, archived, status, search, dateFrom, dateTo)
  {
    AdmitsAllChain(row, ArchivedIs(if archived then 1 else 0),
                   !EmptyString(status), StatusIs(status),
                   !EmptyString(search), SearchFor(IntVal(search), search),
                   !EmptyString(dateFrom), DateFrom(dateFrom),
                   !EmptyString(dateTo), DateTo(dateTo));
  }

  function Where(rows: seq<Row>, clauses: seq<Clause>): (r: seq<Row>)
    ensures |r| <= |rows|
    ensures forall row :: row in r <==> row in rows && AdmitsAll(clauses, row)
  {
    if rows == [] then []
    else (if AdmitsAll(clauses, rows[0]) then [rows[0]] else []) + Where(rows[1..], clauses)
  }

  function Page(rows: seq<Row>, perPage: int, offset: int): (r: seq<Row>)
    requires perPage >= 1
    ensures |r| <= perPage
    ensures offset < 0 || offset >= |rows| ==> r == []
    ensures 0 <= offset < |rows| ==> r == rows[offset..if offset + perPage < |rows| then offset + perPage else |rows|]
  {
    if offset < 0 || offset >= |rows| then []
    else if offset + perPage < |rows| then rows[offset..offset + perPage]
    else rows[offset..]
  }

  function Shown(rows: seq<Row>, shown: Row -> bool): (r: seq<Row>)
    ensures |r| <= |rows|
    ensures forall row :: row in r <==> row in rows && shown(row)
  {
    if rows == [] then []
    else (if shown(rows[0]) then [rows[0]] else []) + Shown(rows[1..], shown)
  }

  // ---------------------------------------------------------------------------------------
  // format_order

  /** PHP's (int) cast: strings through intval(), floats truncated toward zero. */
  function IntOf(v: Value): int
  {
    match v
    case VStr(s) => IntVal(s)
    case VInt(i) => i
    case VFloat(f) => if f >= 0.0 then f.Floor else -((-f).Floor)
    case VNull => 0
  }

  /** The value format_order leaves in column `k`: NULL stays; numeric columns become ints, total_price an integral float. */
  function Formatted(k: string, v: Value): (r: Value)
    ensures v.VNull? ==> r == v
    ensures !v.VNull? && k == "total_price" ==> r == VFloat(IntOf(v) as real)
    ensures !v.VNull? && k in NumericFields && k != "total_price" ==> r == VInt(IntOf(v))
    ensures k !in NumericFields ==> r == v
  {
    if v.VNull? then v
    else if k == "total_price" then VFloat(IntOf(v) as real)
    else if k in NumericFields then VInt(IntOf(v))
    else v
  }

  /** Typing a row twice changes nothing more, and total_price never keeps a fractional part. */
  lemma FormattedIdempotent(k: string, v: Value)
    ensures Formatted(k, Formatted(k, v)) == Formatted(k, v)
    ensures Formatted("total_price", v).VFloat? ==> Formatted("total_price", v).f == Formatted("total_price", v).f.Floor as real
  {
    if !v.VNull? {
      var n := IntOf(v);
      assert (n as real).Floor == n && (-(n as real)).Floor == -n;
      assert IntOf(VFloat(n as real)) == n;
      assert IntOf(VInt(n)) == n;
    }
  }

  ghost predicate FormattedAs(r: Row, row: Row)
  {
    r.Keys == row.Keys && forall k :: k in r ==> r[k] == Formatted(k, row[k])
  }

  /** The value a column holds after the `(int)` loop. */
  function IntCast(k: string, v: Value): Value
  {
    if k in NumericFields && !v.VNull? then VInt(IntOf(v)) else v
  }

  /** `r` is `row` with the columns named in `done` cast to integers. */
  ghost predicate CastThrough(row: Row, r: Row, done: seq<string>)
  {
    r.Keys == row.Keys
    && forall k :: k in r ==> r[k] == (if k in done && !row[k].VNull? then VInt(IntOf(row[k])) else row[k])
  }

  /** One pass of the `(int)` loop; casting a column a second time changes nothing. */
  lemma CastStep(row: Row, r: Row, done: seq<string>, field: string)
    requires CastThrough(row, r, done)
    ensures CastThrough(row, if field in r && !r[field].VNull? then r[field := VInt(IntOf(r[field]))] else r, done + [field])
  {
    if field in r && !r[field].VNull? {
      assert IntOf(VInt(IntOf(row[field]))) == IntOf(row[field]);
    }
  }

  /** The `(int)` loop over the numeric fields. */
  method CastInts(row: Row) returns (r: Row)
    ensures r.Keys == row.Keys && forall k :: k in r ==> r[k] == IntCast(k, row[k])
  {
    r := row;
    for i := 0 to |NumericFields|
      invariant CastThrough(row, r, NumericFields[..i])
    {
      var field := NumericFields[i];
      CastStep(row, r, NumericFields[..i], field);
      assert NumericFields[..i + 1] == NumericFields[..i] + [field];
      if field in r && !r[field].VNull? {
        r := r[field := VInt(IntOf(r[field]))];
      }
    }
    assert NumericFields[..|NumericFields|] == NumericFields;
  }

  /** The `(float)` loop over the float fields, run on a row the `(int)` loop has typed. */
  method CastFloats(row: Row) returns (r: Row)
    ensures r.Keys == row.Keys
    ensures forall k :: k in r ==> r[k] == (if k in FloatFields && row[k].VInt? then VFloat(row[k].i as real) else row[k])
  {
    r := row;
    for i := 0 to |FloatFields|
      invariant r.Keys == row.Keys
      invariant forall k :: k in r ==> r[k] == (if k in FloatFields[..i] && row[k].VInt? then VFloat(row[k].i as real) else row[k])
    {
      var field := FloatFields[i];
      if field in r && r[field].VInt? {
        r := r[field := VFloat(r[field].i as real)];
      }
      assert FloatFields[..i + 1] == FloatFields[..i] + [field];
    }
    assert FloatFields[..|FloatFields|] == FloatFields;
  }

  /** format_order: no order gives an empty array; otherwise every column keeps its key and is typed. */
  method FormatOrder(order: Option<Row>) returns (r: Row)
    ensures order.None? ==> r == map[]
    ensures order.Some? ==> FormattedAs(r, order.value)
  {
    if order.None? {
      return map[];
    }
    var row := order.value;
    var typed := CastInts(row);
    r := CastFloats(typed);
    forall k | k in r
      ensures r[k] == Formatted(k, row[k])
    {
      assert typed[k] == IntCast(k, row[k]);
    }
  }

  // ---------------------------------------------------------------------------------------
  // The endpoints

  datatype Pagination = Pagination(total: nat, perPage: int, current: int, totalPages: nat)

  datatype ApiError = ApiError(code: string, status: nat)

  /**
   * get_orders: the clamped paging parameters, the total of every matching row, one page of
   * matching rows with the hidden ones removed, each typed for the client.
   */
  method GetOrders(table: seq<Row>, page: Option<string>, perPage: Option<string>, status: string, search: string,
                   archived: Option<string>, dateFrom: string, dateTo: string, shown: Row -> bool)
    returns (orders: seq<Row>, pagination: Pagination)
    ensures pagination.current == ClampPage(page) && pagination.perPage == ClampPerPage(perPage)
    ensures var matching := Where(table, WhereClauses(BooleanParam(archived), status, search, dateFrom, dateTo));
            && pagination.total == |matching|
            && pagination.totalPages == TotalPages(|matching|, pagination.perPage)
            && var visible := Shown(Page(matching, pagination.perPage, Offset(pagination.current, pagination.perPage)), shown);
               |orders| == |visible| && forall i :: 0 <= i < |orders| ==> FormattedAs(orders[i], visible[i])
    ensures |orders| <= pagination.perPage
  {
    var p := ClampPage(page);
    var n := ClampPerPage(perPage);
    var clauses := BuildWhere(BooleanParam(archived), status, search, dateFrom, dateTo);
    var matching := Where(table, clauses);
    var total := |matching|;
    var offset := Offset(p, n);
    var visible := Shown(Page(matching, n, offset), shown);
    orders := FormatAll(visible);
    pagination := Pagination(total, n, p, TotalPages(total, n));
  }

  /** array_map of format_order over the rows. */
  method FormatAll(rows: seq<Row>) returns (orders: seq<Row>)
    ensures |orders| == |rows| && forall i :: 0 <= i < |rows| ==> FormattedAs(orders[i], rows[i])
  {
    orders := [];
    for i := 0 to |rows|
      invariant |orders| == i
      invariant forall j :: 0 <= j < i ==> FormattedAs(orders[j], rows[j])
    {
      var formatted := FormatOrder(Some(rows[i]));
      orders := orders + [formatted];
    }
  }

  /** The first row whose id column reads as `id`, as `get_row` returns it. */
  function RowWithId(table: seq<Row>, id: int): (r: Option<Row>)
    ensures r.Some? ==> r.value in table && Column(r.value, "id").Some? && IntVal(Column(r.value, "id").value) == id
    ensures r.None? ==> forall row :: row in table ==> !(Column(row, "id").Some? && IntVal(Column(row, "id").value) == id)
  {
    if table == [] then None
    else if Column(table[0], "id").Some? && IntVal(Column(table[0], "id").value) == id then Some(table[0])
    else RowWithId(table[1..], id)
  }

  /** get_order: 400 for an id that is not positive, 404 for no such row, 403 when the firewall hides it. */
  method GetOrder(table: seq<Row>, idParam: string, shown: Row -> bool) returns (r: Result<Row, ApiError>)
    ensures IntVal(idParam) <= 0 ==> r == Failure(ApiError("invalid_order_id", 400))
    ensures IntVal(idParam) > 0 && RowWithId(table, IntVal(idParam)).None? ==> r == Failure(ApiError("order_not_found", 404))
    ensures IntVal(idParam) > 0 && RowWithId(table, IntVal(idParam)).Some? && !shown(RowWithId(table, IntVal(idParam)).value) ==>
              r == Failure(ApiError("access_denied", 403))
    ensures r.Success? ==>
              var row := RowWithId(table, IntVal(idParam)).value;
              IntVal(idParam) > 0 && shown(row) && FormattedAs(r.value, row)
  {
    var orderId := IntVal(idParam);
    if orderId <= 0 {
      return Failure(ApiError("invalid_order_id", 400));
    }
    var order := RowWithId(table, orderId);
    if order.None? {
      return Failure(ApiError("order_not_found", 404));
    }
    if !shown(order.value) {
      return Failure(ApiError("access_denied", 403));
    }
    var formatted := FormatOrder(order);
    r := Success(formatted);
  }

  /** archive_order and restore_order: 400 for an id that is not positive, 500 when the archive handler fails. */
  function ArchiveResponse(idParam: string, restore: bool, handlerOk: bool): (r: Result<bool, ApiError>)
    ensures IntVal(idParam) <= 0 ==> r.Failure? && r.error.status == 400
    ensures IntVal(idParam) > 0 && !handlerOk ==> r.Failure? && r.error.status == 500
    ensures r.Success? <==> IntVal(idParam) > 0 && handlerOk
    ensures r.Failure? && r.error.status == 500 ==> r.error.code == (if restore then "restore_failed" else "archive_failed")
  {
    if IntVal(idParam) <= 0 then Failure(ApiError("invalid_order_id", 400))
    else if !handlerOk then Failure(ApiError(if restore then "restore_failed" else "archive_failed", 500))
    else Success(true)
  }
}
