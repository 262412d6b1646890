/**
 * Backup and restore of the plugin's data (class-tabesh-export-import.php). Twelve sections
 * can be exported to a file and imported back. Every section except "customers" is a table of
 * its own; customers are WordPress users. An import first validates the file, then imports the
 * chosen sections one by one inside a transaction: the first section that fails rolls every
 * table back.
 *
 * Tables are sequences of rows with an auto-increment counter; a row is a map from column
 * names to values. Version strings are lists of numeric components, compared the way
 * version_compare orders plain numeric versions.
 */
module ExportImport {
  import opened Wrappers
  import opened PhpValues

  /** The whitelisted sections, in the order the plugin lists them. */
  const Sections: seq<string> := [
    "orders", "settings", "customers", "logs", "files", "file_versions", "upload_tasks",
    "book_format_settings", "file_comments", "document_metadata", "download_tokens", "security_logs"]

  /** is_valid_section. */
  predicate IsValidSection(s: string)
  {
    s in Sections
  }

  /** The sections kept in tables of the plugin's own. */
  predicate IsTableSection(s: string)
  {
    IsValidSection(s) && s != "customers"
  }

  /**
   * get_table_name: nothing for a section off the whitelist, the users table for "customers",
   * and the prefixed "tabesh_" table otherwise.
   */
  function TableName(section: string, prefix: string, usersTable: string): (r: Option<string>)
    ensures r.None? <==> !IsValidSection(section)
    ensures section == "customers" ==> r == Some(usersTable)
    ensures IsTableSection(section) ==> r == Some(prefix + "tabesh_" + section)
  {
    if !IsValidSection(section) then None
    else if section == "customers" then Some(usersTable)
    else Some(prefix + "tabesh_" + section)
  }

  /** Distinct table sections get distinct table names. */
  lemma TableNamesDistinct(a: string, b: string, prefix: string, usersTable: string)
    requires IsTableSection(a) && IsTableSection(b) && a != b
    ensures TableName(a, prefix, usersTable) != TableName(b, prefix, usersTable)
  {
    var na, nb := prefix + "tabesh_" + a, prefix + "tabesh_" + b;
    assert na[|prefix + "tabesh_"|..] == a;
    assert nb[|prefix + "tabesh_"|..] == b;
  }

  /**
   * The import mode. The plugin compares the mode string with 'merge' and 'replace'; any
   * other string behaves as neither: rows are appended and nothing is emptied first.
   */
  datatype Mode = Merge | Replace | Plain

  /** The mode a mode string selects. */
  function ModeOf(s: string): (m: Mode)
    ensures m == Merge <==> s == "merge"
    ensures m == Replace <==> s == "replace"
  {
    if s == "merge" then Merge else if s == "replace" then Replace else Plain
  }

  datatype Value = Str(s: string) | Num(n: int) | Null | Meta(m: map<string, seq<string>>)

  type Row = map<string, Value>

  /** The text of a column, or "" when it is absent or not text. */
  function StrField(r: Row, k: string): string
  {
    if k in r && r[k].Str? then r[k].s else ""
  }

  /** intval() of a column, 0 when it is absent. */
  function IntField(r: Row, k: string): int
  {
    if k !in r then 0
    else match r[k]
      case Num(n) => n
      case Str(s) => IntVal(s)
      case _ => 0
  }

  function RowId(r: Row): Option<int>
  {
    if "id" in r && r["id"].Num? then Some(r["id"].n) else None
  }

  /** A table: its rows in storage order and the next auto-increment id. */
  datatype Table = Table(rows: seq<Row>, nextId: int)

  /** TRUNCATE TABLE: no rows, and the counter starts again at 1. */
  function Truncate(t: Table): (t': Table)
    ensures t'.rows == [] && t'.nextId == 1
  {
    Table([], 1)
  }

  /** INSERT: the row is appended, under its own id when it has one, otherwise under the next id. */
  function Insert(t: Table, row: Row): (t': Table)
    ensures |t'.rows| == |t.rows| + 1 && t'.rows[..|t.rows|] == t.rows
    ensures RowId(row).Some? ==> t'.rows[|t.rows|] == row
    ensures RowId(row).None? ==> t'.rows[|t.rows|] == row["id" := Num(t.nextId)]
    ensures RowId(t'.rows[|t.rows|]).Some?
  {
    match RowId(row)
    case Some(id) => Table(t.rows + [row], if id + 1 > t.nextId then id + 1 else t.nextId)
    case None => Table(t.rows + [row["id" := Num(t.nextId)]], t.nextId + 1)
  }

  predicate HasId(t: Table, id: int)
  {
    exists i :: 0 <= i < |t.rows| && RowId(t.rows[i]) == Some(id)
  }

  /** UPDATE … WHERE id = `id`: the matching rows take the new column values. */
  function UpdateById(t: Table, id: int, changes: Row): (t': Table)
    requires "id" !in changes
    ensures |t'.rows| == |t.rows| && t'.nextId == t.nextId
    ensures forall i :: 0 <= i < |t.rows| ==>
              t'.rows[i] == (if RowId(t.rows[i]) == Some(id) then t.rows[i] + changes else t.rows[i])
    ensures forall i :: 0 <= i < |t.rows| ==> RowId(t'.rows[i]) == RowId(t.rows[i])
  {
    Table(seq(|t.rows|, i requires 0 <= i < |t.rows| =>
      if RowId(t.rows[i]) == Some(id) then t.rows[i] + changes else t.rows[i]), t.nextId)
  }

  predicate HasSetting(t: Table, key: string)
  {
    exists i :: 0 <= i < |t.rows| && "setting_key" in t.rows[i] && t.rows[i]["setting_key"] == Str(key)
  }

  /** UPDATE … WHERE setting_key = `key`. */
  function UpdateBySetting(t: Table, key: string, changes: Row): (t': Table)
    ensures |t'.rows| == |t.rows| && t'.nextId == t.nextId
    ensures forall i :: 0 <= i < |t.rows| ==>
              t'.rows[i] == (if "setting_key" in t.rows[i] && t.rows[i]["setting_key"] == Str(key)
                             then t.rows[i] + changes else t.rows[i])
  {
    Table(seq(|t.rows|, i requires 0 <= i < |t.rows| =>
      if "setting_key" in t.rows[i] && t.rows[i]["setting_key"] == Str(key) then t.rows[i] + changes else t.rows[i]),
      t.nextId)
  }

  /** A row without its "id" column. */
  function StripId(r: Row): (r': Row)
    ensures "id" !in r' && RowId(r').None?
    ensures forall k :: k != "id" ==> (k in r' <==> k in r)
    ensures forall k :: k in r' ==> r'[k] == r[k]
  {
    r - {"id"}
  }

  /** The table an import starts from: emptied in replace mode, as it is otherwise. */
  function BaseTable(t: Table, mode: Mode): (b: Table)
    ensures mode == Replace ==> b == Truncate(t)
    ensures mode != Replace ==> b == t
  {
    if mode == Replace then Truncate(t) else t
  }

  /** The order id an imported row names: intval of its "id", 0 when it has none. */
  function OrderIdOf(r: Row): int
  {
    IntField(r, "id")
  }

  /** One order row imported: what one pass of import_orders' loop does to the table. */
  function OrderStep(t: Table, order: Row, mode: Mode): (t': Table)
    ensures |t'.rows| >= |t.rows|
  {
    var orderId := OrderIdOf(order);
    var row := StripId(order);
    if mode == Merge && orderId != 0 then
      if HasId(t, orderId) then UpdateById(t, orderId, row) else Insert(t, row["id" := Num(orderId)])
    else Insert(t, row)
  }

  /** The table after import_orders' loop over `data`, starting from `t`. */
  function OrdersImported(t: Table, data: seq<Row>, mode: Mode): (t': Table)
    ensures |t'.rows| >= |t.rows|
    decreases |data|
  {
    if data == [] then t else OrderStep(OrdersImported(t, data[..|data| - 1], mode), data[|data| - 1], mode)
  }

  /**
   * import_orders. Every input row counts as imported. In merge mode a row with a non-zero id
   * updates the order with that id, or is inserted under that id when there is none; every
   * other row is inserted under a new id. Replace mode empties the table first.
   */
  method ImportOrders(t: Table, data: seq<Row>, mode: Mode) returns (t': Table, imported: nat)
    ensures imported == |data|
    ensures t' == OrdersImported(BaseTable(t, mode), data, mode)
    ensures mode != Merge ==> |t'.rows| == |BaseTable(t, mode).rows| + |data|
                                && t'.rows[..|BaseTable(t, mode).rows|] == BaseTable(t, mode).rows
    ensures mode == Merge ==> forall i :: 0 <= i < |data| && OrderIdOf(data[i]) != 0 ==> HasId(t', OrderIdOf(data[i]))
    ensures mode == Merge ==> |t'.rows| >= |t.rows|
    ensures mode == Merge ==> forall i :: 0 <= i < |t.rows| && RowId(t.rows[i]).Some?
                                  && (forall j :: 0 <= j < |data| ==> OrderIdOf(data[j]) != RowId(t.rows[i]).value)
                                  ==> t'.rows[i] == t.rows[i]
  {
    t' := BaseTable(t, mode);
    imported := 0;
    var n := 0;
    while n < |data|
      invariant 0 <= n <= |data| && imported == n
      invariant t' == OrdersImported(BaseTable(t, mode), data[..n], mode)
    {
      assert data[..n + 1][..n] == data[..n];
      var order := data[n];
      var orderId := OrderIdOf(order);
      var row := StripId(order);
      if mode == Merge && orderId != 0 {
        if HasId(t', orderId) {
          t' := UpdateById(t', orderId, row);
        } else {
          t' := Insert(t', row["id" := Num(orderId)]);
        }
      } else {
        t' := Insert(t', row);
      }
      imported := imported + 1;
      n := n + 1;
    }
    assert data[..n] == data;
    if mode == Merge {
      MergedOrdersHaveIds(t, data);
      MergedOrdersFrame(t, data);
    } else {
      OrdersAppendedAsSimple(BaseTable(t, mode), data, mode);
      SimpleImportedRows(BaseTable(t, mode), data);
    }
  }

  /** In merge mode every non-zero id of the file names an order afterwards. */
  lemma {:induction false} MergedOrdersHaveIds(t: Table, data: seq<Row>)
    ensures forall i :: 0 <= i < |data| && OrderIdOf(data[i]) != 0 ==> HasId(OrdersImported(t, data, Merge), OrderIdOf(data[i]))
    decreases |data|
  {
    if data != [] {
      var front := data[..|data| - 1];
      var before := OrdersImported(t, front, Merge);
      MergedOrdersHaveIds(t, front);
      var order := data[|data| - 1];
      var orderId, row := OrderIdOf(order), StripId(order);
      var after := OrdersImported(t, data, Merge);
      forall i | 0 <= i < |data| && OrderIdOf(data[i]) != 0
        ensures HasId(after, OrderIdOf(data[i]))
      {
        var id := OrderIdOf(data[i]);
        if orderId != 0 && HasId(before, orderId) {
          if i < |data| - 1 {
            assert front[i] == data[i];
            HasIdKeptByUpdate(before, orderId, row, id);
          } else {
            HasIdKeptByUpdate(before, orderId, row, orderId);
          }
        } else if orderId != 0 {
          if i < |data| - 1 {
            assert front[i] == data[i];
            HasIdKeptByInsert(before, after, row["id" := Num(orderId)], id);
          } else {
            HasIdAfterInsert(before, after, row["id" := Num(orderId)]);
          }
        } else {
          assert i < |data| - 1 && front[i] == data[i];
          HasIdKeptByInsert(before, after, row, id);
        }
      }
    }
  }

  /** In merge mode an order whose id the file never names is left as it was. */
  lemma {:induction false} MergedOrdersFrame(t: Table, data: seq<Row>)
    ensures forall i :: 0 <= i < |t.rows| && RowId(t.rows[i]).Some?
              && (forall j :: 0 <= j < |data| ==> OrderIdOf(data[j]) != RowId(t.rows[i]).value)
              ==> OrdersImported(t, data, Merge).rows[i] == t.rows[i]
    decreases |data|
  {
    if data != [] {
      var front := data[..|data| - 1];
      MergedOrdersFrame(t, front);
      forall i | 0 <= i < |t.rows| && RowId(t.rows[i]).Some?
                 && (forall j :: 0 <= j < |data| ==> OrderIdOf(data[j]) != RowId(t.rows[i]).value)
        ensures OrdersImported(t, data, Merge).rows[i] == t.rows[i]
      {
        assert forall j :: 0 <= j < |front| ==> front[j] == data[j];
        assert OrderIdOf(data[|data| - 1]) != RowId(t.rows[i]).value;
      }
    }
  }

  /** Every column of `values` is in `row` with the same value. */
  predicate Carries(row: Row, values: Row)
  {
    forall k :: k in values ==> k in row && row[k] == values[k]
  }

  /** Some row of the table has this id and carries these column values. */
  predicate StoredUnderId(t: Table, id: int, values: Row)
  {
    exists i :: 0 <= i < |t.rows| && RowId(t.rows[i]) == Some(id) && Carries(t.rows[i], values)
  }

  /** One merge step on an order with another id keeps what is stored under `id`. */
  lemma StoredUnderIdKept(t: Table, order: Row, id: int, values: Row)
    requires StoredUnderId(t, id, values) && OrderIdOf(order) != id
    ensures StoredUnderId(OrderStep(t, order, Merge), id, values)
  {
    var i :| 0 <= i < |t.rows| && RowId(t.rows[i]) == Some(id) && Carries(t.rows[i], values);
    assert OrderStep(t, order, Merge).rows[i] == t.rows[i];
  }

  /**
   * In merge mode the order named by a row's non-zero id ends up holding that row's columns
   * when no later row names the same id: an existing order is updated with them, a missing
   * one is inserted under that id.
   */
  lemma {:induction false} MergedOrderHoldsLastRow(t: Table, data: seq<Row>, j: nat)
    requires j < |data| && OrderIdOf(data[j]) != 0
    requires forall k :: j < k < |data| ==> OrderIdOf(data[k]) != OrderIdOf(data[j])
    ensures StoredUnderId(OrdersImported(t, data, Merge), OrderIdOf(data[j]), StripId(data[j]))
    decreases |data|
  {
    var front := data[..|data| - 1];
    var before := OrdersImported(t, front, Merge);
    var id, row := OrderIdOf(data[j]), StripId(data[j]);
    if j == |data| - 1 {
      OrderStepStores(before, data[j]);
    } else {
      assert front[j] == data[j];
      MergedOrderHoldsLastRow(t, front, j);
      StoredUnderIdKept(before, data[|data| - 1], id, row);
    }
  }

  /** One merge step on a row with a non-zero id stores the row's columns under that id. */
  lemma OrderStepStores(t: Table, order: Row)
    requires OrderIdOf(order) != 0
    ensures StoredUnderId(OrderStep(t, order, Merge), OrderIdOf(order), StripId(order))
  {
    var id, row := OrderIdOf(order), StripId(order);
    var after := OrderStep(t, order, Merge);
    if HasId(t, id) {
      var i :| 0 <= i < |t.rows| && RowId(t.rows[i]) == Some(id);
      assert after.rows[i] == t.rows[i] + row;
    } else {
      assert after.rows[|t.rows|] == row["id" := Num(id)];
    }
  }

  /** Outside merge mode import_orders appends every row under a fresh id, as import_simple_table does. */
  lemma {:induction false} OrdersAppendedAsSimple(t: Table, data: seq<Row>, mode: Mode)
    requires mode != Merge
    ensures OrdersImported(t, data, mode) == SimpleImported(t, data)
    decreases |data|
  {
    if data != [] {
      OrdersAppendedAsSimple(t, data[..|data| - 1], mode);
    }
  }

  lemma HasIdKeptByUpdate(t: Table, updated: int, changes: Row, id: int)
    requires "id" !in changes && HasId(t, id)
    ensures HasId(UpdateById(t, updated, changes), id)
  {
    var i :| 0 <= i < |t.rows| && RowId(t.rows[i]) == Some(id);
    assert RowId(UpdateById(t, updated, changes).rows[i]) == Some(id);
  }

  lemma HasIdAfterInsert(t: Table, t': Table, row: Row)
    requires RowId(row).Some? && t' == Insert(t, row)
    ensures HasId(t', RowId(row).value)
  {
    assert RowId(t'.rows[|t.rows|]) == RowId(row);
  }

  lemma HasIdKeptByInsert(t: Table, t': Table, row: Row, id: int)
    requires t' == Insert(t, row) && HasId(t, id)
    ensures HasId(t', id)
  {
    var i :| 0 <= i < |t.rows| && RowId(t.rows[i]) == Some(id);
    assert t'.rows[i] == t.rows[i];
  }

  /** The setting key of an imported row, "" when it has none. */
  function SettingKeyOf(r: Row): string
  {
    StrField(r, "setting_key")
  }

  /** A row whose setting key, if it has one, is text. */
  predicate TextKey(r: Row)
  {
    "setting_key" in r ==> r["setting_key"].Str?
  }

  /** One settings row imported: what one pass of import_settings' loop does to the table. */
  function SettingStep(t: Table, setting: Row, mode: Mode): (t': Table)
    ensures |t'.rows| >= |t.rows|
  {
    var key := SettingKeyOf(setting);
    var row := StripId(setting);
    if mode == Merge && HasSetting(t, key) then UpdateBySetting(t, key, row) else Insert(t, row)
  }

  /** The table after import_settings' loop over `data`, starting from `t`. */
  function SettingsImported(t: Table, data: seq<Row>, mode: Mode): (t': Table)
    ensures |t'.rows| >= |t.rows|
    decreases |data|
  {
    if data == [] then t else SettingStep(SettingsImported(t, data[..|data| - 1], mode), data[|data| - 1], mode)
  }

  /**
   * import_settings. Every input row counts as imported. In merge mode a row whose key is
   * already stored updates the stored rows with that key, and any other row is appended;
   * in any other mode every row is appended. Replace mode empties the table first.
   */
  method ImportSettings(t: Table, data: seq<Row>, mode: Mode) returns (t': Table, imported: nat)
    ensures imported == |data|
    ensures t' == SettingsImported(BaseTable(t, mode), data, mode)
    ensures mode != Merge ==> |t'.rows| == |BaseTable(t, mode).rows| + |data|
                                && t'.rows[..|BaseTable(t, mode).rows|] == BaseTable(t, mode).rows
    ensures mode == Merge ==> |t'.rows| >= |t.rows|
    ensures mode == Merge && (forall j :: 0 <= j < |data| ==> TextKey(data[j])) ==>
              forall i :: 0 <= i < |data| && "setting_key" in data[i] ==> HasSetting(t', data[i]["setting_key"].s)
  {
    t' := BaseTable(t, mode);
    imported := 0;
    var n := 0;
    while n < |data|
      invariant 0 <= n <= |data| && imported == n
      invariant t' == SettingsImported(BaseTable(t, mode), data[..n], mode)
    {
      assert data[..n + 1][..n] == data[..n];
      var setting := data[n];
      var key := SettingKeyOf(setting);
      var row := StripId(setting);
      if mode == Merge {
        if HasSetting(t', key) {
          t' := UpdateBySetting(t', key, row);
        } else {
          t' := Insert(t', row);
        }
      } else {
        t' := Insert(t', row);
      }
      imported := imported + 1;
      n := n + 1;
    }
    assert data[..n] == data;
    if mode == Merge {
      if forall j :: 0 <= j < |data| ==> TextKey(data[j]) {
        MergedSettingsHaveKeys(t, data);
        assert forall i :: 0 <= i < |data| && "setting_key" in data[i] ==> SettingKeyOf(data[i]) == data[i]["setting_key"].s;
      }
    } else {
      SettingsAppendedAsSimple(BaseTable(t, mode), data, mode);
      SimpleImportedRows(BaseTable(t, mode), data);
    }
  }

  /** In merge mode, with text keys, every key of the file is stored afterwards. */
  lemma {:induction false} MergedSettingsHaveKeys(t: Table, data: seq<Row>)
    requires forall j :: 0 <= j < |data| ==> TextKey(data[j])
    ensures forall i :: 0 <= i < |data| && "setting_key" in data[i] ==> HasSetting(SettingsImported(t, data, Merge), SettingKeyOf(data[i]))
    decreases |data|
  {
    if data != [] {
      var front := data[..|data| - 1];
      assert forall j :: 0 <= j < |front| ==> front[j] == data[j];
      MergedSettingsHaveKeys(t, front);
      var before := SettingsImported(t, front, Merge);
      var setting := data[|data| - 1];
      forall i | 0 <= i < |data| && "setting_key" in data[i]
        ensures HasSetting(SettingsImported(t, data, Merge), SettingKeyOf(data[i]))
      {
        assert TextKey(data[i]);
        SettingKept(before, SettingsImported(t, data, Merge), StripId(setting), SettingKeyOf(data[i]));
      }
    }
  }

  /** Outside merge mode import_settings appends every row under a fresh id, as import_simple_table does. */
  lemma {:induction false} SettingsAppendedAsSimple(t: Table, data: seq<Row>, mode: Mode)
    requires mode != Merge
    ensures SettingsImported(t, data, mode) == SimpleImported(t, data)
    decreases |data|
  {
    if data != [] {
      SettingsAppendedAsSimple(t, data[..|data| - 1], mode);
    }
  }

  /** The row's setting key is this text. */
  predicate KeyedBy(r: Row, key: string)
  {
    "setting_key" in r && r["setting_key"] == Str(key)
  }

  /** Some row of the table has this setting key and carries these column values. */
  predicate StoredUnderKey(t: Table, key: string, values: Row)
  {
    exists i :: 0 <= i < |t.rows| && KeyedBy(t.rows[i], key) && Carries(t.rows[i], values)
  }

  /**
   * In merge mode a setting ends up holding the columns of the last row of the file with its
   * key: an existing setting is updated with them, a new one is appended.
   */
  lemma {:induction false} MergedSettingHoldsLastRow(t: Table, data: seq<Row>, j: nat)
    requires j < |data| && KeyedBy(data[j], SettingKeyOf(data[j]))
    requires forall k :: j < k < |data| ==> SettingKeyOf(data[k]) != SettingKeyOf(data[j])
    ensures StoredUnderKey(SettingsImported(t, data, Merge), SettingKeyOf(data[j]), StripId(data[j]))
    decreases |data|
  {
    var front := data[..|data| - 1];
    var before := SettingsImported(t, front, Merge);
    var after := SettingsImported(t, data, Merge);
    var key, row := SettingKeyOf(data[j]), StripId(data[j]);
    if j == |data| - 1 {
      SettingStepStores(before, data[j]);
    } else {
      assert front[j] == data[j];
      MergedSettingHoldsLastRow(t, front, j);
      var i :| 0 <= i < |before.rows| && KeyedBy(before.rows[i], key) && Carries(before.rows[i], row);
      assert after.rows[i] == before.rows[i];
    }
  }

  /** One merge step stores the row's columns under its key. */
  lemma SettingStepStores(t: Table, setting: Row)
    requires KeyedBy(setting, SettingKeyOf(setting))
    ensures StoredUnderKey(SettingStep(t, setting, Merge), SettingKeyOf(setting), StripId(setting))
  {
    var key, row := SettingKeyOf(setting), StripId(setting);
    var after := SettingStep(t, setting, Merge);
    if HasSetting(t, key) {
      var i :| 0 <= i < |t.rows| && "setting_key" in t.rows[i] && t.rows[i]["setting_key"] == Str(key);
      assert after == UpdateBySetting(t, key, row);
      assert after.rows[i] == t.rows[i] + row;
    } else {
      assert after.rows[|t.rows|] == row["id" := Num(t.nextId)];
    }
  }

  /** In merge mode a stored row that no key of the file matches is left as it was. */
  lemma {:induction false} MergedSettingsFrame(t: Table, data: seq<Row>)
    ensures forall i :: 0 <= i < |t.rows| && (forall j :: 0 <= j < |data| ==> !KeyedBy(t.rows[i], SettingKeyOf(data[j])))
              ==> SettingsImported(t, data, Merge).rows[i] == t.rows[i]
    decreases |data|
  {
    if data != [] {
      var front := data[..|data| - 1];
      MergedSettingsFrame(t, front);
      forall i | 0 <= i < |t.rows| && (forall j :: 0 <= j < |data| ==> !KeyedBy(t.rows[i], SettingKeyOf(data[j])))
        ensures SettingsImported(t, data, Merge).rows[i] == t.rows[i]
      {
        assert forall j :: 0 <= j < |front| ==> front[j] == data[j];
        assert !KeyedBy(t.rows[i], SettingKeyOf(data[|data| - 1]));
      }
    }
  }

  /** A key stored before one merge step, or the key of the row merged, is stored after it. */
  lemma SettingKept(t: Table, t': Table, row: Row, k: string)
    requires "id" !in row && TextKey(row)
    requires var key := SettingKeyOf(row);
      t' == (if HasSetting(t, key) then UpdateBySetting(t, key, row) else Insert(t, row))
    requires HasSetting(t, k) || ("setting_key" in row && row["setting_key"] == Str(k))
    ensures HasSetting(t', k)
  {
    var key := SettingKeyOf(row);
    if HasSetting(t, k) {
      var i :| 0 <= i < |t.rows| && "setting_key" in t.rows[i] && t.rows[i]["setting_key"] == Str(k);
      if HasSetting(t, key) {
        if t.rows[i]["setting_key"] == Str(key) {
          assert key == k;
          if "setting_key" in row {
            assert t'.rows[i]["setting_key"] == row["setting_key"];
          }
        }
        assert "setting_key" in t'.rows[i] && t'.rows[i]["setting_key"] == Str(k);
      } else {
        assert t'.rows[i] == t.rows[i];
      }
    } else if HasSetting(t, key) {
      assert false;
    } else {
      assert t'.rows[|t.rows|]["setting_key"] == Str(k);
    }
  }

  /** The table after import_simple_table's loop over `data`: each row appended without its id. */
  function SimpleImported(t: Table, data: seq<Row>): (t': Table)
    decreases |data|
  {
    if data == [] then t else Insert(SimpleImported(t, data[..|data| - 1]), StripId(data[|data| - 1]))
  }

  /**
   * The rows a simple import appends: the table's rows are kept in front, and the i-th row of
   * the file follows them without its id, under the i-th id the counter hands out.
   */
  lemma {:induction false} SimpleImportedRows(t: Table, data: seq<Row>)
    ensures |SimpleImported(t, data).rows| == |t.rows| + |data|
    ensures SimpleImported(t, data).nextId == t.nextId + |data|
    ensures SimpleImported(t, data).rows[..|t.rows|] == t.rows
    ensures forall i :: 0 <= i < |data| ==>
              SimpleImported(t, data).rows[|t.rows| + i] == StripId(data[i])["id" := Num(t.nextId + i)]
    decreases |data|
  {
    if data != [] {
      var front := data[..|data| - 1];
      SimpleImportedRows(t, front);
      var before := SimpleImported(t, front);
      var after := SimpleImported(t, data);
      assert after.rows[..|before.rows|] == before.rows;
      assert after.rows[..|t.rows|] == before.rows[..|t.rows|];
      forall i | 0 <= i < |data|
        ensures after.rows[|t.rows| + i] == StripId(data[i])["id" := Num(t.nextId + i)]
      {
        if i < |front| {
          assert front[i] == data[i];
        }
      }
    }
  }

  /**
   * import_simple_table: every input row is appended without its "id", so the table gives it a
   * fresh one; replace mode empties the table first.
   */
  method ImportSimpleTable(t: Table, data: seq<Row>, mode: Mode) returns (t': Table, imported: nat)
    ensures imported == |data|
    ensures t' == SimpleImported(BaseTable(t, mode), data)
    ensures |t'.rows| == |BaseTable(t, mode).rows| + |data|
    ensures t'.rows[..|BaseTable(t, mode).rows|] == BaseTable(t, mode).rows
    ensures forall i :: 0 <= i < |data| ==>
              t'.rows[|BaseTable(t, mode).rows| + i] == StripId(data[i])["id" := Num(BaseTable(t, mode).nextId + i)]
  {
    var base := BaseTable(t, mode);
    t' := base;
    imported := 0;
    var n := 0;
    while n < |data|
      invariant 0 <= n <= |data| && imported == n
      invariant t' == SimpleImported(base, data[..n])
    {
      assert data[..n + 1][..n] == data[..n];
      t' := Insert(t', StripId(data[n]));
      imported := imported + 1;
      n := n + 1;
    }
    assert data[..n] == data;
    SimpleImportedRows(base, data);
  }

  /** A WordPress user as the customers section sees it. */
  datatype User = User(email: string, displayName: string, meta: map<string, string>)

  /** The meta entries an imported customer row sets: every key holding exactly one value. */
  function MetaUpdates(r: Row): (m: map<string, string>)
    ensures forall k :: k in m ==> "meta" in r && r["meta"].Meta? && k in r["meta"].m
                                   && |r["meta"].m[k]| == 1 && m[k] == r["meta"].m[k][0]
  {
    if "meta" in r && r["meta"].Meta?
    then map k | k in r["meta"].m && |r["meta"].m[k]| == 1 :: r["meta"].m[k][0]
    else map[]
  }

  /** What a merge import of a customer row does to the existing user: new e-mail, display name and single-valued meta. */
  function UpdatedUser(u: User, r: Row): (u': User)
    ensures u'.email == StrField(r, "user_email") && u'.displayName == StrField(r, "display_name")
    ensures u'.meta.Keys == u.meta.Keys + MetaUpdates(r).Keys
  {
    User(StrField(r, "user_email"), StrField(r, "display_name"), u.meta + MetaUpdates(r))
  }

  /** The user id of a customer row. */
  function CustomerIdOf(r: Row): int
  {
    IntField(r, "ID")
  }

  /** How many rows name an existing user. */
  function CountExisting(data: seq<Row>, users: map<int, User>): (n: nat)
    ensures n <= |data|
  {
    if data == [] then 0
    else CountExisting(data[..|data| - 1], users) + (if CustomerIdOf(data[|data| - 1]) in users then 1 else 0)
  }

  /** One customer row imported: in merge mode the user it names, if there is one, is updated. */
  function CustomerStep(users: map<int, User>, row: Row, mode: Mode): (users': map<int, User>)
    ensures users'.Keys == users.Keys
  {
    var id := CustomerIdOf(row);
    if id in users && mode == Merge then users[id := UpdatedUser(users[id], row)] else users
  }

  /** The users after import_customers' loop over `data`. */
  function CustomersImported(users: map<int, User>, data: seq<Row>, mode: Mode): (users': map<int, User>)
    ensures users'.Keys == users.Keys
    decreases |data|
  {
    if data == [] then users else CustomerStep(CustomersImported(users, data[..|data| - 1], mode), data[|data| - 1], mode)
  }

  /**
   * import_customers: never creates a user. In merge mode each row naming an existing user
   * updates that user and is counted; in any other mode nothing changes and nothing is counted.
   */
  method ImportCustomers(users: map<int, User>, data: seq<Row>, mode: Mode)
    returns (users': map<int, User>, imported: nat)
    ensures users' == CustomersImported(users, data, mode)
    ensures users'.Keys == users.Keys
    ensures mode != Merge ==> users' == users && imported == 0
    ensures mode == Merge ==> imported == CountExisting(data, users)
    ensures mode == Merge ==> forall id :: id in users && (forall j :: 0 <= j < |data| ==> CustomerIdOf(data[j]) != id)
                                  ==> users'[id] == users[id]
  {
    users' := users;
    imported := 0;
    var n := 0;
    while n < |data|
      invariant 0 <= n <= |data|
      invariant users' == CustomersImported(users, data[..n], mode)
      invariant mode != Merge ==> users' == users && imported == 0
      invariant mode == Merge ==> imported == CountExisting(data[..n], users)
      invariant forall id :: id in users && (forall j :: 0 <= j < n ==> CustomerIdOf(data[j]) != id)
                  ==> users'[id] == users[id]
    {
      assert data[..n + 1][..n] == data[..n];
      var row := data[n];
      var id := CustomerIdOf(row);
      if id in users' && mode == Merge {
        users' := users'[id := UpdatedUser(users'[id], row)];
        imported := imported + 1;
      }
      n := n + 1;
    }
    assert data[..n] == data;
  }

  /**
   * In merge mode a user named by a row ends up with that row's e-mail, display name and
   * single-valued meta when no later row names the same user.
   */
  lemma {:induction false} MergedCustomerHoldsLastRow(users: map<int, User>, data: seq<Row>, j: nat)
    requires j < |data| && CustomerIdOf(data[j]) in users
    requires forall k :: j < k < |data| ==> CustomerIdOf(data[k]) != CustomerIdOf(data[j])
    ensures var u := CustomersImported(users, data, Merge)[CustomerIdOf(data[j])];
      && u.email == StrField(data[j], "user_email") && u.displayName == StrField(data[j], "display_name")
      && forall k :: k in MetaUpdates(data[j]) ==> k in u.meta && u.meta[k] == MetaUpdates(data[j])[k]
    decreases |data|
  {
    var front := data[..|data| - 1];
    if j < |data| - 1 {
      assert front[j] == data[j];
      MergedCustomerHoldsLastRow(users, front, j);
    }
  }

  /** A customer as export_customers writes it. */
  function CustomerRow(id: int, u: User): (r: Row)
    ensures CustomerIdOf(r) == id
  {
    map["ID" := Num(id), "user_email" := Str(u.email), "display_name" := Str(u.displayName),
        "meta" := Meta(map k | k in u.meta :: [u.meta[k]])]
  }

  /** Importing an exported customer back onto the same user changes nothing. */
  lemma CustomerRoundTrip(id: int, u: User)
    ensures UpdatedUser(u, CustomerRow(id, u)) == u
  {
    var r := CustomerRow(id, u);
    assert MetaUpdates(r) == u.meta;
  }

  /** Plugin versions, compared component by component; a proper prefix is the older version. */
  predicate VersionGreater(a: seq<nat>, b: seq<nat>)
  {
    if a == [] then false
    else if b == [] then true
    else if a[0] != b[0] then a[0] > b[0]
    else VersionGreater(a[1..], b[1..])
  }

  lemma {:induction false} VersionGreaterIrreflexive(v: seq<nat>)
    ensures !VersionGreater(v, v)
  {
    if v != [] {
      VersionGreaterIrreflexive(v[1..]);
    }
  }

  lemma {:induction false} VersionGreaterAsymmetric(a: seq<nat>, b: seq<nat>)
    ensures VersionGreater(a, b) ==> !VersionGreater(b, a)
  {
    if a != [] && b != [] && a[0] == b[0] {
      VersionGreaterAsymmetric(a[1..], b[1..]);
    }
  }

  /** A version newer than a second one, itself newer than a third, is newer than the third. */
  lemma {:induction false} VersionGreaterTransitive(a: seq<nat>, b: seq<nat>, c: seq<nat>)
    requires VersionGreater(a, b) && VersionGreater(b, c)
    ensures VersionGreater(a, c)
  {
    if c != [] && a[0] == b[0] && b[0] == c[0] {
      VersionGreaterTransitive(a[1..], b[1..], c[1..]);
    }
  }

  /** Two different versions are always ordered one way or the other. */
  lemma {:induction false} VersionGreaterTotal(a: seq<nat>, b: seq<nat>)
    ensures a != b ==> VersionGreater(a, b) || VersionGreater(b, a)
  {
    if a != [] && b != [] && a[0] == b[0] {
      VersionGreaterTotal(a[1..], b[1..]);
      if a[1..] == b[1..] {
        assert a == [a[0]] + a[1..] && b == [b[0]] + b[1..];
      }
    }
  }

  datatype SectionData = List(rows: seq<Row>) | Scalar

  /** The sections object of a file: the keys in file order and the data under each key. */
  datatype FileSections = FileSections(keys: seq<string>, data: map<string, SectionData>)

  /** A decoded import file; an absent or null entry is `None`. */
  datatype ImportFile =
    | NotAnArray
    | FileArray(version: Option<seq<nat>>, exportDate: Option<string>, siteUrl: Option<string>,
                sections: Option<FileSections>)

  datatype ValidationError = InvalidFormat | MissingFields | NewerVersion(fileVersion: seq<nat>)

  /**
   * validate_import_data: rejects a value that is not an array, a file without version,
   * export date or sections, and a file made by a newer plugin version.
   */
  function ValidateImportData(f: ImportFile, pluginVersion: seq<nat>): (r: Option<ValidationError>)
    ensures r.None? <==> f.FileArray? && f.version.Some? && f.exportDate.Some? && f.sections.Some?
                         && !VersionGreater(f.version.value, pluginVersion)
    ensures r == Some(InvalidFormat) <==> f.NotAnArray?
  {
    if f.NotAnArray? then Some(InvalidFormat)
    else if f.version.None? || f.exportDate.None? || f.sections.None? then Some(MissingFields)
    else if VersionGreater(f.version.value, pluginVersion) then Some(NewerVersion(f.version.value))
    else None
  }

  /** A file exported by this plugin version, or by an older one, passes validation. */
  lemma OwnExportsValidate(sections: FileSections, date: string, site: string, fileVersion: seq<nat>, pluginVersion: seq<nat>)
    requires fileVersion == pluginVersion || VersionGreater(pluginVersion, fileVersion)
    ensures ValidateImportData(FileArray(Some(fileVersion), Some(date), Some(site), Some(sections)), pluginVersion).None?
  {
    VersionGreaterIrreflexive(pluginVersion);
    VersionGreaterAsymmetric(pluginVersion, fileVersion);
  }

  /** The sections of `list` that the file holds and the whitelist allows, in list order. */
  function Selected(list: seq<string>, fs: FileSections): (r: seq<string>)
    ensures |r| <= |list|
    ensures forall s :: s in r ==> s in list && s in fs.data && IsValidSection(s)
  {
    if list == [] then []
    else Selected(list[..|list| - 1], fs)
         + (var s := list[|list| - 1]; if s in fs.data && IsValidSection(s) then [s] else [])
  }

  lemma {:induction false} SelectedContains(list: seq<string>, fs: FileSections, i: nat)
    requires i < |list| && list[i] in fs.data && IsValidSection(list[i])
    ensures list[i] in Selected(list, fs)
  {
    if i < |list| - 1 {
      SelectedContains(list[..|list| - 1], fs, i);
    }
  }

  /** The sections an import goes through: the requested ones, or all those in the file when none are requested. */
  function ImportList(requested: seq<string>, fs: FileSections): seq<string>
  {
    if requested == [] then fs.keys else requested
  }

  function RowsOf(d: SectionData): seq<Row>
  {
    if d.List? then d.rows else []
  }

  datatype SectionOutcome = SectionOutcome(section: string, imported: nat, success: bool)

  datatype ImportResult = ImportResult(success: bool, error: Option<ValidationError>, results: seq<SectionOutcome>)

  datatype PreviewSection = PreviewSection(section: string, count: nat)

  datatype ImportPreview =
    | PreviewInvalid(error: ValidationError)
    | PreviewValid(version: seq<nat>, exportDate: string, siteUrl: string, sections: seq<PreviewSection>)

  /** The preview lines for the whitelisted sections of a file, in file order. */
  function PreviewSections(keys: seq<string>, data: map<string, SectionData>): (r: seq<PreviewSection>)
    ensures |r| <= |keys|
    ensures forall p :: p in r ==> p.section in keys && IsValidSection(p.section)
    ensures forall p :: p in r && p.section in data ==> p.count == |RowsOf(data[p.section])|
  {
    if keys == [] then []
    else
      var s := keys[|keys| - 1];
      PreviewSections(keys[..|keys| - 1], data)
      + (if IsValidSection(s) then [PreviewSection(s, if s in data then |RowsOf(data[s])| else 0)] else [])
  }

  /** The preview of a list of keys followed by another is the two previews one after the other. */
  lemma {:induction false} PreviewSectionsAppend(k1: seq<string>, k2: seq<string>, data: map<string, SectionData>)
    ensures PreviewSections(k1 + k2, data) == PreviewSections(k1, data) + PreviewSections(k2, data)
    decreases |k2|
  {
    if k2 == [] {
      assert k1 + k2 == k1;
    } else {
      var front := k2[..|k2| - 1];
      assert (k1 + k2)[..|k1 + k2| - 1] == k1 + front;
      PreviewSectionsAppend(k1, front, data);
    }
  }

  /** The preview of a single key: one line with its row count if it is whitelisted, none otherwise. */
  lemma PreviewOfOneKey(s: string, data: map<string, SectionData>)
    ensures PreviewSections([s], data)
            == if IsValidSection(s) then [PreviewSection(s, if s in data then |RowsOf(data[s])| else 0)] else []
  {
    assert [s][..0] == [];
  }

  /** Every whitelisted key of the file has its line in the preview. */
  lemma {:induction false} PreviewListsEveryValidKey(keys: seq<string>, data: map<string, SectionData>, i: nat)
    requires i < |keys| && IsValidSection(keys[i])
    ensures PreviewSection(keys[i], if keys[i] in data then |RowsOf(data[keys[i]])| else 0) in PreviewSections(keys, data)
  {
    assert keys == keys[..i] + [keys[i]] + keys[i + 1..];
    PreviewSectionsAppend(keys[..i] + [keys[i]], keys[i + 1..], data);
    PreviewSectionsAppend(keys[..i], [keys[i]], data);
    PreviewOfOneKey(keys[i], data);
  }

  /**
   * get_import_preview: the validation error for an invalid file, otherwise its version, date,
   * site (empty when absent) and the row count of each whitelisted section.
   */
  function GetImportPreview(f: ImportFile, pluginVersion: seq<nat>): (p: ImportPreview)
    ensures p.PreviewInvalid? <==> ValidateImportData(f, pluginVersion).Some?
    ensures p.PreviewValid? ==> p.version == f.version.value && p.exportDate == f.exportDate.value
    ensures p.PreviewValid? ==> p.siteUrl == (if f.siteUrl.Some? then f.siteUrl.value else "")
    ensures p.PreviewValid? ==> p.sections == PreviewSections(f.sections.value.keys, f.sections.value.data)
  {
    match ValidateImportData(f, pluginVersion)
    case Some(e) => PreviewInvalid(e)
    case None =>
      PreviewValid(f.version.value, f.exportDate.value, if f.siteUrl.Some? then f.siteUrl.value else "",
                   PreviewSections(f.sections.value.keys, f.sections.value.data))
  }

  /** The user ids of a table's "user_id" column, each once, in order of first appearance. */
  function DistinctUserIds(rows: seq<Row>): (ids: seq<int>)
    ensures forall i, j :: 0 <= i < j < |ids| ==> ids[i] != ids[j]
    ensures forall id :: id in ids <==> exists k :: 0 <= k < |rows| && IntField(rows[k], "user_id") == id
  {
    if rows == [] then []
    else
      var rest := DistinctUserIds(rows[..|rows| - 1]);
      var id := IntField(rows[|rows| - 1], "user_id");
      assert forall k :: 0 <= k < |rows| - 1 ==> rows[..|rows| - 1][k] == rows[k];
      if id in rest then rest else rest + [id]
  }

  /** The export rows of the users among `ids`. */
  function CustomerRows(ids: seq<int>, users: map<int, User>): (r: seq<Row>)
    ensures |r| <= |ids|
    ensures forall row :: row in r ==> CustomerIdOf(row) in ids && CustomerIdOf(row) in users
                                       && row == CustomerRow(CustomerIdOf(row), users[CustomerIdOf(row)])
    ensures forall id :: id in ids && id in users ==> CustomerRow(id, users[id]) in r
  {
    if ids == [] then []
    else
      var init := ids[..|ids| - 1];
      assert forall id :: id in ids ==> id in init || id == ids[|ids| - 1];
      CustomerRows(init, users)
      + (var id := ids[|ids| - 1]; if id in users then [CustomerRow(id, users[id])] else [])
  }

  datatype ExportFile = ExportFile(version: seq<nat>, exportDate: string, siteUrl: string, sections: FileSections)

  /** The file an export produces, read back as an import file. */
  function AsImportFile(e: ExportFile): ImportFile
  {
    FileArray(Some(e.version), Some(e.exportDate), Some(e.siteUrl), Some(e.sections))
  }

  /** The sections an export covers: those requested, or all of them when none are. */
  function ExportList(requested: seq<string>): seq<string>
  {
    if requested == [] then Sections else requested
  }

  /** The plugin's tables, by section, and the WordPress users. */
  datatype Contents = Contents(tables: map<string, Table>, users: map<int, User>)

  /**
   * What importing one whitelisted section from its rows leaves: the importer for that section
   * runs on its own table (emptied first in replace mode), or on the users for "customers".
   */
  function SectionImported(c: Contents, s: string, rows: seq<Row>, mode: Mode): (c': Contents)
    requires s == "customers" || s in c.tables
    ensures c'.tables.Keys == c.tables.Keys && c'.users.Keys == c.users.Keys
  {
    if s == "customers" then Contents(c.tables, CustomersImported(c.users, rows, mode))
    else
      var base := BaseTable(c.tables[s], mode);
      var t := if s == "orders" then OrdersImported(base, rows, mode)
               else if s == "settings" then SettingsImported(base, rows, mode)
               else SimpleImported(base, rows);
      Contents(c.tables[s := t], c.users)
  }

  /**
   * The count an importer reports for a section: every row of a table section, and for
   * customers the rows naming an existing user in merge mode, none otherwise.
   */
  function SectionCount(users: map<int, User>, s: string, rows: seq<Row>, mode: Mode): (n: nat)
    ensures n <= |rows|
    ensures s != "customers" ==> n == |rows|
    ensures s == "customers" && mode != Merge ==> n == 0
  {
    if s != "customers" then |rows|
    else if mode == Merge then CountExisting(rows, users)
    else 0
  }

  /** Only which users exist matters to the customers count. */
  lemma {:induction false} CountExistingByKeys(data: seq<Row>, users: map<int, User>, users': map<int, User>)
    requires users.Keys == users'.Keys
    ensures CountExisting(data, users) == CountExisting(data, users')
    decreases |data|
  {
    if data != [] {
      CountExistingByKeys(data[..|data| - 1], users, users');
    }
  }

  /** Every section of `sel` is held by the file, and is "customers" or has a table. */
  ghost predicate Runnable(c: Contents, sel: seq<string>, fs: FileSections)
  {
    forall s :: s in sel ==> (s == "customers" || s in c.tables) && s in fs.data
  }

  /** The contents after importing the first `n` sections of `sel` in turn. */
  function SectionsApplied(c: Contents, sel: seq<string>, n: nat, fs: FileSections, mode: Mode): (c': Contents)
    requires Runnable(c, sel, fs) && n <= |sel|
    ensures c'.tables.Keys == c.tables.Keys && c'.users.Keys == c.users.Keys
    decreases n
  {
    if n == 0 then c
    else
      var s := sel[n - 1];
      SectionImported(SectionsApplied(c, sel, n - 1, fs, mode), s, RowsOf(fs.data[s]), mode)
  }

  /** Importing one section changes only its own table, or only the users for "customers". */
  lemma SectionImportedFrame(c: Contents, s: string, rows: seq<Row>, mode: Mode)
    requires s == "customers" || s in c.tables
    ensures var c' := SectionImported(c, s, rows, mode);
      && (forall t :: t in c.tables && t != s ==> c'.tables[t] == c.tables[t])
      && (s != "customers" ==> c'.users == c.users)
      && (s == "customers" ==> c'.tables == c.tables)
  {
  }

  /** Importing sections leaves the tables of every other section as they were. */
  lemma {:induction false} SectionsAppliedFrame(c: Contents, sel: seq<string>, n: nat, fs: FileSections, mode: Mode)
    requires Runnable(c, sel, fs) && n <= |sel|
    ensures var c' := SectionsApplied(c, sel, n, fs, mode);
      && (forall t :: t in c.tables && t !in sel ==> c'.tables[t] == c.tables[t])
      && ("customers" !in sel ==> c'.users == c.users)
    decreases n
  {
    if n > 0 {
      SectionsAppliedFrame(c, sel, n - 1, fs, mode);
      SectionImportedFrame(SectionsApplied(c, sel, n - 1, fs, mode), sel[n - 1], RowsOf(fs.data[sel[n - 1]]), mode);
    }
  }

  /** The rows of a table carry the ids 1, 2, … in storage order, and the counter is just past them. */
  predicate NumberedFromOne(t: Table)
  {
    && t.nextId == |t.rows| + 1
    && forall i :: 0 <= i < |t.rows| ==> "id" in t.rows[i] && t.rows[i]["id"] == Num(i + 1)
  }

  /** Appending the rows of a table numbered from one to an emptied copy of it gives the table back. */
  lemma SimpleReimportRestores(t: Table)
    requires NumberedFromOne(t)
    ensures SimpleImported(Truncate(t), t.rows) == t
  {
    var r := SimpleImported(Truncate(t), t.rows);
    SimpleImportedRows(Truncate(t), t.rows);
    forall i | 0 <= i < |t.rows|
      ensures r.rows[i] == t.rows[i]
    {
      assert r.rows[0 + i] == StripId(t.rows[i])["id" := Num(1 + i)];
      assert r.rows[i].Keys == t.rows[i].Keys;
    }
  }

  /**
   * Importing in replace mode the rows a table section exports gives that section back unchanged
   * when its table is numbered from one.
   */
  lemma ReplaceImportRestores(c: Contents, s: string)
    requires s in c.tables && s != "customers" && NumberedFromOne(c.tables[s])
    ensures SectionImported(c, s, c.tables[s].rows, Replace) == c
  {
    var t := c.tables[s];
    SimpleReimportRestores(t);
    if s == "orders" {
      OrdersAppendedAsSimple(Truncate(t), t.rows, Replace);
    } else if s == "settings" {
      SettingsAppendedAsSimple(Truncate(t), t.rows, Replace);
    }
    assert c.tables[s := t] == c.tables;
  }

  /** The outcome a section reports when its importer succeeds. */
  function Succeeded(users: map<int, User>, s: string, fs: FileSections, mode: Mode): SectionOutcome
    requires s in fs.data
  {
    SectionOutcome(s, SectionCount(users, s, RowsOf(fs.data[s]), mode), true)
  }

  /**
   * Imports one whitelisted section from its rows through the importer for that section:
   * only that section's table, or the users for "customers", can change.
   */
  method ImportSection(tables: map<string, Table>, users: map<int, User>, s: string, rows: seq<Row>, mode: Mode)
    returns (tables': map<string, Table>, users': map<int, User>, imported: nat)
    requires s == "customers" || s in tables
    ensures Contents(tables', users') == SectionImported(Contents(tables, users), s, rows, mode)
    ensures imported == SectionCount(users, s, rows, mode)
    ensures tables'.Keys == tables.Keys && users'.Keys == users.Keys
    ensures forall t :: t in tables && t != s ==> tables'[t] == tables[t]
    ensures s != "customers" ==> users' == users
    ensures s == "customers" ==> tables' == tables
  {
    tables', users' := tables, users;
    if s == "customers" {
      users', imported := ImportCustomers(users, rows, mode);
    } else if s == "orders" {
      var t;
      t, imported := ImportOrders(tables[s], rows, mode);
      tables' := tables[s := t];
    } else if s == "settings" {
      var t;
      t, imported := ImportSettings(tables[s], rows, mode);
      tables' := tables[s := t];
    } else {
      var t;
      t, imported := ImportSimpleTable(tables[s], rows, mode);
      tables' := tables[s := t];
    }
  }

  function SectionsOf(results: seq<SectionOutcome>): (r: seq<string>)
    ensures |r| == |results| && forall j :: 0 <= j < |r| ==> r[j] == results[j].section
  {
    seq(|results|, j requires 0 <= j < |results| => results[j].section)
  }

  /** Every outcome so far succeeded, for a section outside `failing`. */
  ghost predicate AllSucceeded(results: seq<SectionOutcome>, failing: set<string>)
  {
    forall j :: 0 <= j < |results| ==> results[j].section !in failing && results[j].success
  }

  /** The run stopped at its last outcome, a failing section, and nothing failed before it. */
  ghost predicate StoppedAtLast(results: seq<SectionOutcome>, failing: set<string>)
  {
    results != [] && !results[|results| - 1].success && results[|results| - 1].section in failing
    && (forall j :: 0 <= j < |results| - 1 ==> results[j].section !in failing)
  }

  /**
   * What running the sections `sel` from `c0` until the first one in `failing` has produced so
   * far: one outcome per section run, the imported count of each section that succeeded, a
   * failed outcome for the section it stopped at, and the contents the successful sections wrote.
   */
  ghost predicate RanUpTo(c0: Contents, sel: seq<string>, fs: FileSections, mode: Mode, failing: set<string>,
                          ok: bool, results: seq<SectionOutcome>, c: Contents)
  {
    && Runnable(c0, sel, fs)
    && |results| <= |sel|
    && (!ok ==> |results| >= 1 && sel[|results| - 1] in failing
                && results[|results| - 1] == SectionOutcome(sel[|results| - 1], 0, false))
    && (forall j :: 0 <= j < |results| && (ok || j < |results| - 1) ==>
          sel[j] !in failing && results[j] == Succeeded(c0.users, sel[j], fs, mode))
    && c == SectionsApplied(c0, sel, if ok then |results| else |results| - 1, fs, mode)
  }

  /** A successful section extends a run that has not failed. */
  lemma RunSucceedsStep(c0: Contents, sel: seq<string>, fs: FileSections, mode: Mode, failing: set<string>,
                        results: seq<SectionOutcome>, c: Contents)
    requires |results| < |sel| && sel[|results|] !in failing
    requires RanUpTo(c0, sel, fs, mode, failing, true, results, c)
    ensures var s := sel[|results|];
      RanUpTo(c0, sel, fs, mode, failing, true, results + [Succeeded(c.users, s, fs, mode)],
              SectionImported(c, s, RowsOf(fs.data[s]), mode))
  {
    var n := |results|;
    var s := sel[n];
    var results' := results + [Succeeded(c.users, s, fs, mode)];
    assert SectionImported(c, s, RowsOf(fs.data[s]), mode) == SectionsApplied(c0, sel, n + 1, fs, mode);
    CountExistingByKeys(RowsOf(fs.data[s]), c0.users, c.users);
    assert results'[n] == Succeeded(c0.users, s, fs, mode);
    forall j | 0 <= j < n + 1
      ensures sel[j] !in failing && results'[j] == Succeeded(c0.users, sel[j], fs, mode)
    {
      if j < n {
        assert results'[j] == results[j];
      }
    }
  }

  /** What a finished run promises about its outcomes, in terms of the sections they name. */
  lemma RunOutcomes(c0: Contents, sel: seq<string>, fs: FileSections, mode: Mode, failing: set<string>,
                    ok: bool, results: seq<SectionOutcome>, c: Contents)
    requires RanUpTo(c0, sel, fs, mode, failing, ok, results, c) && (ok ==> |results| == |sel|)
    ensures ok <==> forall s :: s in sel ==> s !in failing
    ensures ok ==> SectionsOf(results) == sel && AllSucceeded(results, failing)
    ensures !ok ==> StoppedAtLast(results, failing)
  {
    if ok {
      assert forall j :: 0 <= j < |sel| ==> SectionsOf(results)[j] == sel[j];
    } else {
      assert sel[|results| - 1] in sel;
    }
  }

  /**
   * Runs the sections `sel` in turn from `c0`: stops at the first one in `failing`, and
   * otherwise imports each of them.
   */
  method RunList(c0: Contents, sel: seq<string>, fs: FileSections, mode: Mode, failing: set<string>)
    returns (ok: bool, results: seq<SectionOutcome>, c: Contents)
    requires Runnable(c0, sel, fs)
    ensures RanUpTo(c0, sel, fs, mode, failing, ok, results, c) && (ok ==> |results| == |sel|)
  {
    results := [];
    ok := true;
    c := c0;
    var i := 0;
    while i < |sel| && ok
      invariant 0 <= i <= |sel| && |results| == i
      invariant RanUpTo(c0, sel, fs, mode, failing, ok, results, c)
    {
      var s := sel[i];
      if s in failing {
        results := results + [SectionOutcome(s, 0, false)];
        ok := false;
      } else {
        RunSucceedsStep(c0, sel, fs, mode, failing, results, c);
        var tables', users', imported := ImportSection(c.tables, c.users, s, RowsOf(fs.data[s]), mode);
        c := Contents(tables', users');
        results := results + [SectionOutcome(s, imported, true)];
      }
      i := i + 1;
    }
  }

  /** The selected sections of `list` are runnable on tables that hold every table section. */
  lemma SelectedRunnable(c: Contents, list: seq<string>, fs: FileSections)
    requires forall x :: IsTableSection(x) ==> x in c.tables
    ensures Runnable(c, Selected(list, fs), fs)
  {
    forall s | s in Selected(list, fs)
      ensures (s == "customers" || s in c.tables) && s in fs.data
    {
      if s != "customers" {
        assert IsTableSection(s);
      }
    }
  }

  /**
   * The selected sections of `list` in turn, on values: stops at the first one in `failing`,
   * and otherwise imports each of them.
   */
  method RunSections(tables: map<string, Table>, users: map<int, User>, list: seq<string>, fs: FileSections,
                     mode: Mode, failing: set<string>)
    returns (ok: bool, results: seq<SectionOutcome>, tables': map<string, Table>, users': map<int, User>)
    requires forall x :: IsTableSection(x) ==> x in tables
    ensures tables'.Keys == tables.Keys && users'.Keys == users.Keys
    ensures RanUpTo(Contents(tables, users), Selected(list, fs), fs, mode, failing, ok, results, Contents(tables', users'))
    ensures ok ==> |results| == |Selected(list, fs)|
    ensures ok <==> forall s :: s in Selected(list, fs) ==> s !in failing
    ensures ok ==> SectionsOf(results) == Selected(list, fs)
    ensures ok ==> AllSucceeded(results, failing)
    ensures ok ==> forall t :: t in tables && t !in Selected(list, fs) ==> tables'[t] == tables[t]
    ensures !ok ==> StoppedAtLast(results, failing) && exists s :: s in Selected(list, fs) && s in failing
  {
    var c0 := Contents(tables, users);
    var selected := Selected(list, fs);
    SelectedRunnable(c0, list, fs);
    var c;
    ok, results, c := RunList(c0, selected, fs, mode, failing);
    tables', users' := c.tables, c.users;
    RunOutcomes(c0, selected, fs, mode, failing, ok, results, c);
    SectionsAppliedFrame(c0, selected, if ok then |selected| else |results| - 1, fs, mode);
  }

  /** The plugin's tables and its customers. */
  class Store {
    var tables: map<string, Table>
    var users: map<int, User>

    ghost predicate Valid()
      reads this
    {
      forall s :: IsTableSection(s) ==> s in tables
    }

    constructor(tables: map<string, Table>, users: map<int, User>)
      requires forall s :: IsTableSection(s) ==> s in tables
      ensures Valid() && this.tables == tables && this.users == users
    {
      this.tables := tables;
      this.users := users;
    }

    /** What export writes for a section: the table's rows, or the users who placed orders. */
    function SectionContent(s: string): (rows: seq<Row>)
      reads this
      ensures s != "customers" && s in tables ==> rows == tables[s].rows
      ensures s == "customers" ==> forall row :: row in rows ==>
                "orders" in tables && CustomerIdOf(row) in users && row == CustomerRow(CustomerIdOf(row), users[CustomerIdOf(row)])
                && exists k :: 0 <= k < |tables["orders"].rows| && IntField(tables["orders"].rows[k], "user_id") == CustomerIdOf(row)
      ensures s == "customers" && "orders" in tables ==>
                forall k :: 0 <= k < |tables["orders"].rows| && IntField(tables["orders"].rows[k], "user_id") in users ==>
                  CustomerRow(IntField(tables["orders"].rows[k], "user_id"), users[IntField(tables["orders"].rows[k], "user_id")]) in rows
    {
      if s == "customers" then
        (if "orders" in tables then CustomerRows(DistinctUserIds(tables["orders"].rows), users) else [])
      else if s in tables then tables[s].rows
      else []
    }

    /**
     * export: the plugin version, the date and site given, and the content of every
     * whitelisted section asked for (all twelve when none are), each once.
     */
    method Export(requested: seq<string>, pluginVersion: seq<nat>, date: string, site: string) returns (e: ExportFile)
      ensures e.version == pluginVersion && e.exportDate == date && e.siteUrl == site
      ensures forall i, j :: 0 <= i < j < |e.sections.keys| ==> e.sections.keys[i] != e.sections.keys[j]
      ensures forall s :: s in e.sections.keys <==> s in ExportList(requested) && IsValidSection(s)
      ensures forall s :: s in e.sections.data <==> s in e.sections.keys
      ensures forall s :: s in e.sections.data ==> e.sections.data[s] == List(SectionContent(s))
    {
      var list := ExportList(requested);
      var keys: seq<string> := [];
      var data: map<string, SectionData> := map[];
      var i := 0;
      while i < |list|
        invariant 0 <= i <= |list|
        invariant forall a, b :: 0 <= a < b < |keys| ==> keys[a] != keys[b]
        invariant forall s :: s in keys <==> s in list[..i] && IsValidSection(s)
        invariant forall s :: s in data <==> s in keys
        invariant forall s :: s in data ==> data[s] == List(SectionContent(s))
      {
        var s := list[i];
        assert list[..i + 1] == list[..i] + [s];
        if IsValidSection(s) {
          if s !in data {
            keys := keys + [s];
          }
          data := data[s := List(SectionContent(s))];
        }
        i := i + 1;
      }
      assert list[..i] == list;
      e := ExportFile(pluginVersion, date, site, FileSections(keys, data));
    }

    /**
     * import: an invalid file is refused before anything is written. Otherwise each section of
     * the list that the file holds and the whitelist allows is imported in turn; `failing` names
     * the sections whose importer reports a failure. The first such section rolls back every
     * change and the import fails; if there is none, the import succeeds.
     */
    method Import(f: ImportFile, requested: seq<string>, mode: string, pluginVersion: seq<nat>, failing: set<string>)
      returns (res: ImportResult)
      requires Valid()
      modifies this
      ensures Valid()
      ensures tables.Keys == old(tables).Keys && users.Keys == old(users).Keys
      ensures res.error == ValidateImportData(f, pluginVersion)
      ensures res.error.Some? ==> !res.success && res.results == [] && tables == old(tables) && users == old(users)
      ensures res.error.None? ==> SectionsImported(ImportList(requested, f.sections.value), f.sections.value, ModeOf(mode), failing,
                                                   res.success, res.results, old(tables), old(users))
    {
      var error := ValidateImportData(f, pluginVersion);
      if error.Some? {
        return ImportResult(false, error, []);
      }
      var fs := f.sections.value;
      var ok, results := ImportSections(ImportList(requested, fs), fs, ModeOf(mode), failing);
      res := ImportResult(ok, None, results);
    }

    /**
     * What running the sections of `list` in a transaction leaves: success exactly when no
     * selected section fails; on failure every table and user as before the transaction, and
     * the last outcome is the first failing section; on success one outcome per selected
     * section, and the tables of the other sections untouched. Each section run before the
     * failure, or every section on success, reports its importer's count; on success the
     * tables and users are those the importers write, section after section.
     */
    ghost predicate SectionsImported(list: seq<string>, fs: FileSections, mode: Mode, failing: set<string>, ok: bool,
                                     results: seq<SectionOutcome>, tables0: map<string, Table>, users0: map<int, User>)
      reads this
    {
      && (ok <==> forall s :: s in Selected(list, fs) ==> s !in failing)
      && (!ok ==> tables == tables0 && users == users0)
      && (!ok ==> |results| >= 1 && !results[|results| - 1].success && results[|results| - 1].section in failing
                  && forall j :: 0 <= j < |results| - 1 ==> results[j].section !in failing)
      && (ok ==> |results| == |Selected(list, fs)| && forall j :: 0 <= j < |results| ==> results[j].success)
      && (ok ==> forall t :: t in tables0 && t in tables && t !in Selected(list, fs) ==> tables[t] == tables0[t])
      && |results| <= |Selected(list, fs)|
      && (forall j :: 0 <= j < |results| && (ok || j < |results| - 1) ==>
            results[j] == Succeeded(users0, Selected(list, fs)[j], fs, mode))
      && (!ok ==> |results| >= 1 && results[|results| - 1] == SectionOutcome(Selected(list, fs)[|results| - 1], 0, false))
      && (ok ==> Runnable(Contents(tables0, users0), Selected(list, fs), fs)
                 && Contents(tables, users) == SectionsApplied(Contents(tables0, users0), Selected(list, fs),
                                                               |Selected(list, fs)|, fs, mode))
    }

    /**
     * The transaction of an import: the section writes are made on the live tables, and at the
     * first failure the snapshot taken before the first write is put back.
     */
    method ImportSections(list: seq<string>, fs: FileSections, mode: Mode, failing: set<string>)
      returns (ok: bool, results: seq<SectionOutcome>)
      requires Valid()
      modifies this
      ensures Valid()
      ensures tables.Keys == old(tables).Keys && users.Keys == old(users).Keys
      ensures SectionsImported(list, fs, mode, failing, ok, results, old(tables), old(users))
    {
      var snapshotTables, snapshotUsers := tables, users;
      var tables', users';
      ok, results, tables', users' := RunSections(tables, users, list, fs, mode, failing);
      tables, users := tables', users';
      if !ok {
        tables, users := snapshotTables, snapshotUsers;
      }
    }
  }
}
