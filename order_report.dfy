/**
 * The PDF export of the orders page (`generatePDF`): the table columns minus the
 * non-tabular ones, and one flat report row per filtered order.
 */
module OrderReport {
  import opened JsStrings
  import opened JsValues
  import opened Sequences
  import OrderSearch

  /** A column of the orders table; width and cell rendering are layout only. */
  datatype Column = Column(field: string, headerName: string)

  /** The columns of the orders table, in display order. */
  const OrderColumns: seq<Column> := [
    Column("orderId", "Order ID"),
    Column("user", "Customer"),
    Column("items", "Items"),
    Column("totalPrice", "Total Price"),
    Column("deliveryAddress", "Delivery Address"),
    Column("status", "Order Status"),
    Column("createdAt", "Created At"),
    Column("action", "Action")
  ]

  /** A column that is not exported: the action buttons and the images. */
  predicate NonTabular(c: Column) {
    c.field == "action" || c.field == "imageUrls"
  }

  /** The columns that go into the report: every column except the action and image columns, in order. */
  function ColumnsToExport(cols: seq<Column>): (r: seq<Column>)
    ensures |r| <= |cols|
    ensures forall i :: 0 <= i < |r| ==> !NonTabular(r[i])
    decreases |cols|
  {
    if cols == [] then []
    else if NonTabular(cols[0]) then ColumnsToExport(cols[1..])
    else [cols[0]] + ColumnsToExport(cols[1..])
  }

  /**
   * The exported columns keep their order and are exactly the tabular ones, each as
   * often as in the input.
   */
  lemma {:induction false} ColumnsToExportSpec(cols: seq<Column>)
    ensures IsSubsequence(ColumnsToExport(cols), cols)
    ensures forall c :: c in ColumnsToExport(cols) <==> c in cols && !NonTabular(c)
    ensures forall c :: multiset(ColumnsToExport(cols))[c] == if NonTabular(c) then 0 else multiset(cols)[c]
    decreases |cols|
  {
    if cols != [] {
      ColumnsToExportSpec(cols[1..]);
      assert cols == [cols[0]] + cols[1..];
      var r := ColumnsToExport(cols);
      if !NonTabular(cols[0]) {
        assert r == [cols[0]] + ColumnsToExport(cols[1..]);
        assert r[0] == cols[0] && r[1..] == ColumnsToExport(cols[1..]);
      }
      forall c ensures multiset(r)[c] == if NonTabular(c) then 0 else multiset(cols)[c] {
        assert multiset(cols)[c] == multiset([cols[0]])[c] + multiset(cols[1..])[c];
      }
    }
  }

  /** The field names of a list of columns. */
  function Fields(cols: seq<Column>): set<string> {
    set c | c in cols :: c.field
  }

  /** The fields every report row of the orders page carries. */
  const ExportedOrderFields: set<string> :=
    {"orderId", "user", "items", "totalPrice", "deliveryAddress", "status", "createdAt"}

  /** Filtering a concatenation filters each part. */
  lemma {:induction false} ColumnsToExportAppend(a: seq<Column>, b: seq<Column>)
    ensures ColumnsToExport(a + b) == ColumnsToExport(a) + ColumnsToExport(b)
    decreases |a|
  {
    if a != [] {
      assert (a + b)[0] == a[0] && (a + b)[1..] == a[1..] + b;
      ColumnsToExportAppend(a[1..], b);
      if !NonTabular(a[0]) {
        assert [a[0]] + (ColumnsToExport(a[1..]) + ColumnsToExport(b)) == ([a[0]] + ColumnsToExport(a[1..])) + ColumnsToExport(b);
      }
    } else {
      assert a + b == b;
    }
  }

  /** A list of tabular columns is exported as it is. */
  lemma {:induction false} ColumnsToExportKeepsTabular(cols: seq<Column>)
    requires forall i :: 0 <= i < |cols| ==> !NonTabular(cols[i])
    ensures ColumnsToExport(cols) == cols
    decreases |cols|
  {
    if cols != [] {
      ColumnsToExportKeepsTabular(cols[1..]);
    }
  }

  /** The fields of the tabular columns of the orders table. */
  lemma OrderColumnsPrefixFields()
    ensures Fields(OrderColumns[..7]) == ExportedOrderFields
  {
    var exported := OrderColumns[..7];
    FieldsOfSeven(exported);
    assert exported[0].field == "orderId" && exported[1].field == "user" && exported[2].field == "items";
    assert exported[3].field == "totalPrice" && exported[4].field == "deliveryAddress";
    assert exported[5].field == "status" && exported[6].field == "createdAt";
  }

  /** Exporting the orders table drops exactly its action column. */
  lemma ExportedOrderColumns()
    ensures ColumnsToExport(OrderColumns) == OrderColumns[..7]
    ensures Fields(ColumnsToExport(OrderColumns)) == ExportedOrderFields
  {
    var exported := OrderColumns[..7];
    assert OrderColumns == exported + [OrderColumns[7]];
    ColumnsToExportAppend(exported, [OrderColumns[7]]);
    assert forall i :: 0 <= i < |exported| ==> !NonTabular(exported[i]) by {
      assert exported[0].field == "orderId" && exported[1].field == "user" && exported[2].field == "items";
      assert exported[3].field == "totalPrice" && exported[4].field == "deliveryAddress";
      assert exported[5].field == "status" && exported[6].field == "createdAt";
    }
    ColumnsToExportKeepsTabular(exported);
    assert ColumnsToExport([OrderColumns[7]]) == [] by {
      assert NonTabular(OrderColumns[7]) && [OrderColumns[7]][1..] == [];
    }
    OrderColumnsPrefixFields();
  }

  /** The field names of a seven-column list, one by one. */
  lemma FieldsOfSeven(cols: seq<Column>)
    requires |cols| == 7
    ensures Fields(cols) == {cols[0].field, cols[1].field, cols[2].field, cols[3].field,
                             cols[4].field, cols[5].field, cols[6].field}
  {
    forall f | f in Fields(cols)
      ensures f in {cols[0].field, cols[1].field, cols[2].field, cols[3].field, cols[4].field, cols[5].field, cols[6].field}
    {
      var c :| c in cols && c.field == f;
      var k :| 0 <= k < 7 && cols[k] == c;
    }
    assert cols[0] in cols && cols[1] in cols && cols[2] in cols && cols[3] in cols;
    assert cols[4] in cols && cols[5] in cols && cols[6] in cols;
  }

  /** One half of the customer name: the user's property, or "N/A" when `order.user` is falsy. */
  function NamePart(toStr: Json -> string, user: Option<Json>, key: string): (r: string)
    ensures !Truthy(user) ==> r == "N/A"
    ensures user.Some? && user.value.Obj? ==> r == TemplateString(toStr, Get(user.value.fields, key))
  {
    if Truthy(user) then TemplateString(toStr, Prop(user.value, key)) else "N/A"
  }

  /** The customer name of the report: the user's first and last name, separated by a space. */
  function CustomerName(toStr: Json -> string, order: Record): (r: string)
    ensures !Truthy(Get(order, "user")) ==> r == "N/A N/A"
    ensures Truthy(Get(order, "user")) && !order["user"].Obj? ==> r == "undefined undefined"
    ensures Get(order, "user").Some? && Get(order, "user").value.Obj? ==>
      var user := order["user"].fields;
      r == TemplateString(toStr, Get(user, "firstName")) + " " + TemplateString(toStr, Get(user, "lastName"))
  {
    var user := Get(order, "user");
    NamePart(toStr, user, "firstName") + " " + NamePart(toStr, user, "lastName")
  }

  /** A customer with a string first and last name is shown as "first last". */
  lemma CustomerNameOfNamedUser(toStr: Json -> string, order: Record, first: string, last: string)
    requires "user" in order && order["user"].Obj?
    requires Get(order["user"].fields, "firstName") == Some(Str(first))
    requires Get(order["user"].fields, "lastName") == Some(Str(last))
    ensures CustomerName(toStr, order) == first + " " + last
  {
  }

  /** The label of a non-null line item: the text of its name, then the text of its quantity in parentheses. */
  function ItemLabel(toStr: Json -> string, item: Json): (r: string)
    requires item != Null
    ensures (&& Prop(item, "name").Some? && Prop(item, "name").value.Str?
             && Prop(item, "quantity").Some? && Prop(item, "quantity").value.Str?) ==>
      r == Prop(item, "name").value.s + " (" + Prop(item, "quantity").value.s + ")"
    ensures !item.Obj? ==> r == "undefined (undefined)"
  {
    TemplateString(toStr, Prop(item, "name")) + " (" + TemplateString(toStr, Prop(item, "quantity")) + ")"
  }

  /** `items.map(item => ...)`: reading `name` from a null item throws. */
  function LabelAll(toStr: Json -> string, items: seq<Json>): (r: Result<seq<string>>)
    ensures r.Ok? <==> forall i :: 0 <= i < |items| ==> items[i] != Null
    ensures r.Ok? ==> |r.value| == |items| && forall i :: 0 <= i < |items| ==> r.value[i] == ItemLabel(toStr, items[i])
    decreases |items|
  {
    if items == [] then Ok([])
    else if items[0] == Null then Err(TypeError)
    else match LabelAll(toStr, items[1..])
      case Err(e) => Err(e)
      case Ok(rest) => Ok([ItemLabel(toStr, items[0])] + rest)
  }

  /**
   * `order.items?.map(...)`: `undefined` when the items are null or missing; a TypeError
   * when they are some other non-array value (it has no `map` method).
   */
  function ItemLabels(toStr: Json -> string, order: Record): (r: Result<Option<seq<string>>>)
    ensures Get(order, "items") in {None, Some(Null)} ==> r == Ok(None)
    ensures OrderSearch.HasItemArray(order) ==>
      var items := order["items"].elems;
      && (r.Ok? <==> forall i :: 0 <= i < |items| ==> items[i] != Null)
      && (r.Ok? ==> (&& r.value.Some? && |r.value.value| == |items|
                     && forall i :: 0 <= i < |items| ==> r.value.value[i] == ItemLabel(toStr, items[i])))
    ensures "items" in order && order["items"] != Null && !order["items"].Arr? ==> r.Err?
  {
    match Get(order, "items")
    case None => Ok(None)
    case Some(Null) => Ok(None)
    case Some(Arr(items)) =>
      (match LabelAll(toStr, items)
       case Err(e) => Err(e)
       case Ok(labels) => Ok(Some(labels)))
    case Some(_) => Err(TypeError)
  }

  /** A cell of a report row. */
  datatype Cell =
    | Text(text: string)                   // a formatted date or a customer name
    | Labels(labels: Option<seq<string>>)  // the item labels, or undefined
    | Copied(value: Option<Json>)          // a field copied as it is, possibly undefined

  /** The value the report row of `order` holds for `field`. */
  function ReportCell(toStr: Json -> string, fmt: Option<Json> -> string, order: Record, field: string): (cell: Cell)
    requires ItemLabels(toStr, order).Ok?
    ensures cell.Text? <==> field in {"createdAt", "user"}
    ensures cell.Labels? <==> field == "items"
    ensures cell.Copied? ==> cell.value == Get(order, field)
  {
    if field == "createdAt" then Text(fmt(Get(order, field)))
    else if field == "user" then Text(CustomerName(toStr, order))
    else if field == "items" then Labels(ItemLabels(toStr, order).value)
    else Copied(Get(order, field))
  }

  /** `row` is the report row of `order` for the columns `cols`: one key per exported field. */
  ghost predicate IsReportRow(toStr: Json -> string, fmt: Option<Json> -> string, cols: seq<Column>, order: Record, row: map<string, Cell>) {
    && ItemLabels(toStr, order).Ok?
    && row.Keys == Fields(cols)
    && forall f :: f in row ==> row[f] == ReportCell(toStr, fmt, order, f)
  }

  /**
   * The body of `data.map(order => ...)` in `prepareDataForReport`: the customer name and
   * item labels are computed first, then `rowData` is filled one column at a time.
   */
  method PrepareRow(toStr: Json -> string, fmt: Option<Json> -> string, cols: seq<Column>, order: Record)
    returns (res: Result<map<string, Cell>>)
    ensures res.Err? <==> ItemLabels(toStr, order).Err?
    ensures res.Ok? ==> IsReportRow(toStr, fmt, cols, order, res.value)
  {
    var customerName := CustomerName(toStr, order);
    var items := ItemLabels(toStr, order);
    if items.Err? {
      return Err(items.error);
    }
    var rowData: map<string, Cell> := map[];
    var i := 0;
    while i < |cols|
      invariant 0 <= i <= |cols|
      invariant rowData.Keys == Fields(cols[..i])
      invariant forall f :: f in rowData ==> rowData[f] == ReportCell(toStr, fmt, order, f)
    {
      var field := cols[i].field;
      if field == "createdAt" {
        rowData := rowData[field := Text(fmt(Get(order, field)))];
      } else if field == "user" {
        rowData := rowData[field := Text(customerName)];
      } else if field == "items" {
        rowData := rowData[field := Labels(items.value)];
      } else {
        rowData := rowData[field := Copied(Get(order, field))];
      }
      assert cols[..i + 1] == cols[..i] + [cols[i]];
      i := i + 1;
    }
    assert cols[..i] == cols;
    return Ok(rowData);
  }

  /** `prepareDataForReport`: one report row per order, in order; the first exception aborts. */
  method PrepareDataForReport(toStr: Json -> string, fmt: Option<Json> -> string, cols: seq<Column>, data: seq<Record>)
    returns (res: Result<seq<map<string, Cell>>>)
    ensures res.Ok? <==> forall i :: 0 <= i < |data| ==> ItemLabels(toStr, data[i]).Ok?
    ensures res.Ok? ==> |res.value| == |data|
    ensures res.Ok? ==> forall i :: 0 <= i < |data| ==> IsReportRow(toStr, fmt, cols, data[i], res.value[i])
  {
    var rows: seq<map<string, Cell>> := [];
    var i := 0;
    while i < |data|
      invariant 0 <= i <= |data|
      invariant |rows| == i
      invariant forall j :: 0 <= j < i ==> ItemLabels(toStr, data[j]).Ok?
      invariant forall j :: 0 <= j < i ==> IsReportRow(toStr, fmt, cols, data[j], rows[j])
    {
      var row := PrepareRow(toStr, fmt, cols, data[i]);
      if row.Err? {
        return Err(row.error);
      }
      rows := rows + [row.value];
      i := i + 1;
    }
    return Ok(rows);
  }

  /** What `generatePDF` hands to the report generator. */
  datatype ExportRequest = ExportRequest(columns: seq<Column>, rows: seq<map<string, Cell>>, title: string)

  /**
   * `generatePDF` up to the call of `exportToPDF`: the exported columns, one row per
   * filtered order with exactly the exported fields as keys, and the report title.
   */
  method GeneratePdf(toStr: Json -> string, fmt: Option<Json> -> string, filtered: seq<Record>)
    returns (res: Result<ExportRequest>)
    ensures res.Ok? <==> forall i :: 0 <= i < |filtered| ==> ItemLabels(toStr, filtered[i]).Ok?
    ensures res.Ok? ==> res.value.columns == OrderColumns[..7]
    ensures res.Ok? ==> forall c :: c in res.value.columns ==> !NonTabular(c)
    ensures res.Ok? ==> Fields(res.value.columns) == ExportedOrderFields
    ensures res.Ok? ==> |res.value.rows| == |filtered|
    ensures res.Ok? ==> forall i :: 0 <= i < |filtered| ==>
      res.value.rows[i].Keys == ExportedOrderFields && IsReportRow(toStr, fmt, res.value.columns, filtered[i], res.value.rows[i])
    ensures res.Ok? ==> res.value.title == "Orders Report"
  {
    var columnsToExport := ColumnsToExport(OrderColumns);
    ExportedOrderColumns();
    ColumnsToExportSpec(OrderColumns);
    var reportData := PrepareDataForReport(toStr, fmt, columnsToExport, filtered);
    if reportData.Err? {
      return Err(reportData.error);
    }
    return Ok(ExportRequest(columnsToExport, reportData.value, "Orders Report"));
  }

  /** The cells of a report row, field by field, as `IsReportRow` fixes them. */
  lemma ReportRowCells(toStr: Json -> string, fmt: Option<Json> -> string, cols: seq<Column>, order: Record, row: map<string, Cell>)
    requires IsReportRow(toStr, fmt, cols, order, row)
    ensures "user" in row ==> row["user"] == Text(CustomerName(toStr, order))
    ensures "createdAt" in row ==> row["createdAt"] == Text(fmt(Get(order, "createdAt")))
    ensures "items" in row && OrderSearch.HasItemArray(order) ==>
      row["items"].Labels? && row["items"].labels.Some? &&
      |row["items"].labels.value| == |order["items"].elems| &&
      forall i :: 0 <= i < |order["items"].elems| ==>
        row["items"].labels.value[i] == ItemLabel(toStr, order["items"].elems[i])
    ensures forall f :: f in row && f !in {"user", "createdAt", "items"} ==> row[f] == Copied(Get(order, f))
    ensures (exists table :: cols == ColumnsToExport(table)) ==> "action" !in row && "imageUrls" !in row
  {
  }

  /**
   * A collection that passed the search always has item arrays, so its export fails only
   * when one of those arrays holds a null item.
   */
  lemma ExportOfFilteredRows(toStr: Json -> string, data: seq<Record>, query: string, i: nat)
    requires OrderSearch.FilterData(toStr, data, query).Ok?
    requires i < |OrderSearch.FilterData(toStr, data, query).value|
    ensures var order := OrderSearch.FilterData(toStr, data, query).value[i];
      && OrderSearch.HasItemArray(order)
      && (ItemLabels(toStr, order).Ok? <==> forall j :: 0 <= j < |order["items"].elems| ==> order["items"].elems[j] != Null)
  {
    var lq := Lower(query);
    var r := OrderSearch.FilterData(toStr, data, query).value;
    OrderSearch.FilterMembership(toStr, data, query, r[i]);
    OrderSearch.FilterRowsSpec(toStr, data, lq);
    var k :| 0 <= k < |data| && data[k] == r[i];
    assert OrderSearch.MatchRow(toStr, data[k], lq).Ok?;
    OrderSearch.MatchRowSpec(toStr, r[i], lq);
  }
}
