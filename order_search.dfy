/**
 * The search box of the orders page (`filterData`): an order is kept when the
 * lower-cased query occurs in the text of one of its non-null fields, or in the
 * name or quantity of one of its line items.
 */
module OrderSearch {
  import opened JsStrings
  import opened JsValues
  import opened Sequences

  /**
   * `Object.values(row).some(...)`: some non-null field value, turned into text
   * and lower-cased, contains the lower-cased query `lq`.
   */
  predicate AttributesMatch(toStr: Json -> string, row: Record, lq: string)
    ensures lq == "" ==> (AttributesMatch(toStr, row, lq) <==> exists v :: v in row.Values && v != Null)
  {
    exists v :: v in row.Values && v != Null && Contains(Lower(ToStringOf(toStr, v)), lq)
  }

  /** A line item whose name is a string and whose quantity is not null, one of which holds `lq`. */
  ghost predicate ItemHits(toStr: Json -> string, item: Json, lq: string) {
    && item.Obj?
    && Prop(item, "name").Some? && Prop(item, "name").value.Str?
    && Prop(item, "quantity") != Some(Null)
    && (|| Contains(Lower(Prop(item, "name").value.s), lq)
        || (Prop(item, "quantity").Some? && Contains(Lower(ToStringOf(toStr, Prop(item, "quantity").value)), lq)))
  }

  /**
   * When the item callback throws a TypeError: the item is not an object (`null.name`,
   * or a primitive whose `name` is `undefined`), or neither field is null but the name
   * is not a string, or the name misses and the quantity is `undefined`.
   */
  ghost predicate ItemThrows(item: Json, lq: string) {
    || !item.Obj?
    || (&& Prop(item, "name") != Some(Null)
        && Prop(item, "quantity") != Some(Null)
        && (|| !(Prop(item, "name").Some? && Prop(item, "name").value.Str?)
            || (!Contains(Lower(Prop(item, "name").value.s), lq) && Prop(item, "quantity").None?)))
  }

  /** The callback of `row.items.some(...)` for one line item. */
  function ItemMatch(toStr: Json -> string, item: Json, lq: string): (r: Result<bool>)
    ensures r == Ok(true) <==> ItemHits(toStr, item, lq)
    ensures r.Err? <==> ItemThrows(item, lq)
  {
    if !item.Obj? then Err(TypeError)
    else
      var name := Prop(item, "name");
      var quantity := Prop(item, "quantity");
      if name == Some(Null) || quantity == Some(Null) then Ok(false)
      else if !(name.Some? && name.value.Str?) then Err(TypeError)
      else if Contains(Lower(name.value.s), lq) then Ok(true)
      else if quantity.None? then Err(TypeError)
      else Ok(Contains(Lower(ToStringOf(toStr, quantity.value)), lq))
  }

  /** `items.some(...)`: stops at the first item that hits or throws. */
  function ItemsSome(toStr: Json -> string, items: seq<Json>, lq: string): (r: Result<bool>)
    ensures r.Err? ==> exists i :: 0 <= i < |items| && ItemMatch(toStr, items[i], lq).Err?
    decreases |items|
  {
    if items == [] then Ok(false)
    else match ItemMatch(toStr, items[0], lq)
      case Err(e) => Err(e)
      case Ok(hit) => if hit then Ok(true) else ItemsSome(toStr, items[1..], lq)
  }

  /** Every item before index `n` was looked at and neither hit nor threw. */
  ghost predicate SkippedBefore(toStr: Json -> string, items: seq<Json>, lq: string, n: int)
    requires n <= |items|
  {
    forall j :: 0 <= j < n ==> ItemMatch(toStr, items[j], lq) == Ok(false)
  }

  /**
   * `some` is false exactly when every item is skipped; otherwise its outcome is
   * that of the first item that is not skipped: true, or the exception it throws.
   */
  lemma {:induction false} ItemsSomeSpec(toStr: Json -> string, items: seq<Json>, lq: string)
    ensures ItemsSome(toStr, items, lq) == Ok(false) <==> SkippedBefore(toStr, items, lq, |items|)
    ensures ItemsSome(toStr, items, lq) == Ok(true) ==>
      exists i :: 0 <= i < |items| && ItemMatch(toStr, items[i], lq) == Ok(true)
    ensures forall i :: 0 <= i < |items| && SkippedBefore(toStr, items, lq, i) && ItemMatch(toStr, items[i], lq) != Ok(false) ==>
      ItemsSome(toStr, items, lq) == ItemMatch(toStr, items[i], lq)
    decreases |items|
  {
    if items != [] {
      var tail := items[1..];
      ItemsSomeSpec(toStr, tail, lq);
      if ItemMatch(toStr, items[0], lq) == Ok(false) {
        assert forall j :: 0 <= j < |tail| ==> tail[j] == items[j + 1];
        if SkippedBefore(toStr, tail, lq, |tail|) {
          assert SkippedBefore(toStr, items, lq, |items|);
        }
        if ItemsSome(toStr, items, lq) == Ok(true) {
          var i :| 0 <= i < |tail| && ItemMatch(toStr, tail[i], lq) == Ok(true);
          assert ItemMatch(toStr, items[i + 1], lq) == Ok(true);
        }
        forall i | 0 < i < |items| && SkippedBefore(toStr, items, lq, i) && ItemMatch(toStr, items[i], lq) != Ok(false)
          ensures ItemsSome(toStr, items, lq) == ItemMatch(toStr, items[i], lq)
        {
          assert SkippedBefore(toStr, tail, lq, i - 1);
          assert tail[i - 1] == items[i];
        }
      } else {
        assert !SkippedBefore(toStr, items, lq, |items|);
      }
    }
  }

  /**
   * `row.items.some(...)`: `row.items` must be an array, otherwise reading
   * `.some` from it throws a TypeError.
   */
  function RowItemsMatch(toStr: Json -> string, row: Record, lq: string): (r: Result<bool>)
    ensures r.Ok? ==> HasItemArray(row)
  {
    match Get(row, "items")
    case Some(Arr(items)) => ItemsSome(toStr, items, lq)
    case _ => Err(TypeError)
  }

  /**
   * The filter callback for one row: both matches are computed (so an exception
   * from the items wins over an attribute match), then or-ed.
   */
  function MatchRow(toStr: Json -> string, row: Record, lq: string): (r: Result<bool>)
    ensures r.Ok? ==> HasItemArray(row)
    ensures r == Ok(false) ==> !AttributesMatch(toStr, row, lq)
  {
    var attributes := AttributesMatch(toStr, row, lq);
    match RowItemsMatch(toStr, row, lq)
    case Err(e) => Err(e)
    case Ok(items) => Ok(attributes || items)
  }

  /** The row's `items` field is present and is an array. */
  predicate HasItemArray(row: Record) {
    "items" in row && row["items"].Arr?
  }

  /** What the search promises of a row: an attribute match or a line-item hit. */
  ghost predicate Matches(toStr: Json -> string, row: Record, lq: string) {
    || AttributesMatch(toStr, row, lq)
    || (HasItemArray(row) && exists i :: 0 <= i < |row["items"].elems| && ItemHits(toStr, row["items"].elems[i], lq))
  }

  /**
   * A row that does not throw has an items array, and it is kept exactly when it
   * matches on a field or on a line item.
   */
  lemma MatchRowSpec(toStr: Json -> string, row: Record, lq: string)
    ensures MatchRow(toStr, row, lq).Ok? ==> HasItemArray(row)
    ensures MatchRow(toStr, row, lq).Ok? ==> (MatchRow(toStr, row, lq).value <==> Matches(toStr, row, lq))
  {
    if MatchRow(toStr, row, lq).Ok? {
      var items := row["items"].elems;
      ItemsSomeSpec(toStr, items, lq);
      if ItemsSome(toStr, items, lq) == Ok(false) {
        forall i | 0 <= i < |items| ensures !ItemHits(toStr, items[i], lq) {
          assert ItemMatch(toStr, items[i], lq) == Ok(false);
        }
      }
    }
  }

  /** `data.filter(...)`: keeps the rows whose callback returns true; the first exception aborts. */
  function FilterRows(toStr: Json -> string, data: seq<Record>, lq: string): (r: Result<seq<Record>>)
    ensures r.Ok? ==> |r.value| <= |data| && forall x :: x in r.value ==> x in data
    ensures r.Ok? ==> forall i :: 0 <= i < |data| ==> HasItemArray(data[i])
    ensures r.Ok? ==> forall i :: 0 <= i < |r.value| ==> HasItemArray(r.value[i])
    decreases |data|
  {
    if data == [] then Ok([])
    else match MatchRow(toStr, data[0], lq)
      case Err(e) => Err(e)
      case Ok(keep) =>
        match FilterRows(toStr, data[1..], lq)
        case Err(e) => Err(e)
        case Ok(rest) => Ok(if keep then [data[0]] + rest else rest)
  }

  /** `filterData`: the query is lower-cased once and matched against every row. */
  function FilterData(toStr: Json -> string, data: seq<Record>, query: string): (r: Result<seq<Record>>)
    ensures r.Ok? ==> |r.value| <= |data| && forall x :: x in r.value ==> x in data
    ensures r.Ok? ==> forall i :: 0 <= i < |r.value| ==> HasItemArray(r.value[i])
  {
    FilterRows(toStr, data, Lower(query))
  }

  /** No row's callback throws. */
  ghost predicate NoRowThrows(toStr: Json -> string, data: seq<Record>, lq: string) {
    forall i :: 0 <= i < |data| ==> MatchRow(toStr, data[i], lq).Ok?
  }

  /**
   * The filter throws exactly when some row's callback throws. Otherwise the result is a
   * subsequence of the input that holds every matching row as often as the input does and
   * no other row.
   */
  lemma {:induction false} FilterRowsSpec(toStr: Json -> string, data: seq<Record>, lq: string)
    ensures FilterRows(toStr, data, lq).Ok? <==> NoRowThrows(toStr, data, lq)
    ensures FilterRows(toStr, data, lq).Ok? ==> IsSubsequence(FilterRows(toStr, data, lq).value, data)
    ensures FilterRows(toStr, data, lq).Ok? ==> forall x ::
      multiset(FilterRows(toStr, data, lq).value)[x] == if Matches(toStr, x, lq) then multiset(data)[x] else 0
    decreases |data|
  {
    if data != [] {
      var head, tail := data[0], data[1..];
      assert data == [head] + tail;
      FilterRowsSpec(toStr, tail, lq);
      MatchRowSpec(toStr, head, lq);
      if NoRowThrows(toStr, tail, lq) && MatchRow(toStr, head, lq).Ok? {
        assert NoRowThrows(toStr, data, lq) by {
          forall i | 0 <= i < |data| ensures MatchRow(toStr, data[i], lq).Ok? {
            if i > 0 { assert data[i] == tail[i - 1]; }
          }
        }
        var rest := FilterRows(toStr, tail, lq).value;
        var r := FilterRows(toStr, data, lq).value;
        if MatchRow(toStr, head, lq).value {
          assert r == [head] + rest;
          assert r[0] == data[0] && r[1..] == rest;
        }
        forall x ensures multiset(r)[x] == if Matches(toStr, x, lq) then multiset(data)[x] else 0 {
          if x in tail {
            var k :| 0 <= k < |tail| && tail[k] == x;
            MatchRowSpec(toStr, x, lq);
            assert MatchRow(toStr, tail[k], lq).Ok?;
          }
          assert multiset(data)[x] == multiset([head])[x] + multiset(tail)[x];
        }
      } else if !MatchRow(toStr, head, lq).Ok? {
        assert !NoRowThrows(toStr, data, lq) by { assert !MatchRow(toStr, data[0], lq).Ok?; }
      } else {
        var i :| 0 <= i < |tail| && !MatchRow(toStr, tail[i], lq).Ok?;
        assert data[i + 1] == tail[i];
      }
    }
  }

  /** The kept rows are exactly the input rows that match the lower-cased query. */
  lemma FilterMembership(toStr: Json -> string, data: seq<Record>, query: string, x: Record)
    requires FilterData(toStr, data, query).Ok?
    ensures x in FilterData(toStr, data, query).value <==> x in data && Matches(toStr, x, Lower(query))
  {
    FilterRowsSpec(toStr, data, Lower(query));
    var r := FilterData(toStr, data, query).value;
    assert x in r <==> multiset(r)[x] > 0;
    assert x in data <==> multiset(data)[x] > 0;
  }

  /** Two queries that differ only in letter case select the same rows (and throw alike). */
  lemma FilterCaseInsensitive(toStr: Json -> string, data: seq<Record>, q1: string, q2: string)
    requires EqualIgnoringCase(q1, q2)
    ensures FilterData(toStr, data, q1) == FilterData(toStr, data, q2)
  {
    EqualIgnoringCaseIff(q1, q2);
  }

  /** A row every one of whose callbacks returns true passes the filter unchanged. */
  lemma {:induction false} FilterKeepsMatchingRows(toStr: Json -> string, data: seq<Record>, lq: string)
    requires forall i :: 0 <= i < |data| ==> MatchRow(toStr, data[i], lq) == Ok(true)
    ensures FilterRows(toStr, data, lq) == Ok(data)
    decreases |data|
  {
    if data != [] {
      FilterKeepsMatchingRows(toStr, data[1..], lq);
      assert MatchRow(toStr, data[0], lq) == Ok(true);
      assert [data[0]] + data[1..] == data;
    }
  }

  /** With the empty query a row that does not throw is always kept: its items array is a non-null field. */
  lemma EmptyQueryKeepsRow(toStr: Json -> string, row: Record)
    ensures MatchRow(toStr, row, "") != Ok(false)
  {
    MatchRowSpec(toStr, row, "");
    if MatchRow(toStr, row, "").Ok? {
      var items := row["items"];
      assert items in row.Values;
      ContainsEmpty(Lower(ToStringOf(toStr, items)));
    }
  }

  /** Filtering by the empty query, when it does not throw, returns the whole collection. */
  lemma EmptyQueryKeepsAll(toStr: Json -> string, data: seq<Record>)
    ensures FilterData(toStr, data, "").Ok? ==> FilterData(toStr, data, "").value == data
  {
    assert Lower("") == "";
    FilterRowsSpec(toStr, data, "");
    if FilterData(toStr, data, "").Ok? {
      forall i | 0 <= i < |data| ensures MatchRow(toStr, data[i], "") == Ok(true) {
        EmptyQueryKeepsRow(toStr, data[i]);
      }
      FilterKeepsMatchingRows(toStr, data, "");
    }
  }

  /** Filtering the filtered rows again by the same query changes nothing. */
  lemma FilterIdempotent(toStr: Json -> string, data: seq<Record>, query: string)
    requires FilterData(toStr, data, query).Ok?
    ensures FilterData(toStr, FilterData(toStr, data, query).value, query) == FilterData(toStr, data, query)
  {
    var lq := Lower(query);
    var r := FilterData(toStr, data, query).value;
    FilterRowsSpec(toStr, data, lq);
    forall i | 0 <= i < |r| ensures MatchRow(toStr, r[i], lq) == Ok(true) {
      FilterMembership(toStr, data, query, r[i]);
      var k :| 0 <= k < |data| && data[k] == r[i];
      assert MatchRow(toStr, data[k], lq).Ok?;
      MatchRowSpec(toStr, r[i], lq);
    }
    FilterKeepsMatchingRows(toStr, r, lq);
  }

  /** A null field never contributes a match: removing it changes nothing. */
  lemma NullFieldIgnored(toStr: Json -> string, row: Record, key: string, lq: string)
    requires key in row && row[key] == Null
    ensures MatchRow(toStr, row, lq) == MatchRow(toStr, row - {key}, lq)
  {
    var smaller := row - {key};
    if AttributesMatch(toStr, row, lq) {
      var v :| v in row.Values && v != Null && Contains(Lower(ToStringOf(toStr, v)), lq);
      var k :| k in row && row[k] == v;
      assert k != key && k in smaller && smaller[k] == v;
      assert v in smaller.Values;
    }
    if AttributesMatch(toStr, smaller, lq) {
      var v :| v in smaller.Values && v != Null && Contains(Lower(ToStringOf(toStr, v)), lq);
      var k :| k in smaller && smaller[k] == v;
      assert row[k] == v;
      assert v in row.Values;
    }
    assert Get(row, "items") == Get(smaller, "items") || (key == "items" && Get(row, "items") == Some(Null));
  }

  /** An item with a null name or a null quantity is skipped: removing it changes nothing. */
  lemma {:induction false} NullItemFieldIgnored(toStr: Json -> string, items: seq<Json>, i: nat, lq: string)
    requires i < |items| && items[i].Obj?
    requires Prop(items[i], "name") == Some(Null) || Prop(items[i], "quantity") == Some(Null)
    ensures ItemsSome(toStr, items, lq) == ItemsSome(toStr, items[..i] + items[i + 1..], lq)
    decreases i
  {
    if i == 0 {
      assert items[..0] + items[1..] == items[1..];
    } else {
      NullItemFieldIgnored(toStr, items[1..], i - 1, lq);
      var shorter := items[..i] + items[i + 1..];
      assert shorter[0] == items[0];
      assert shorter[1..] == items[1..][..i - 1] + items[1..][i..];
    }
  }

  /** A line item on which the filter callback cannot throw. */
  predicate WellFormedItem(item: Json) {
    && item.Obj?
    && (|| Prop(item, "name") == Some(Null)
        || Prop(item, "quantity") == Some(Null)
        || (Prop(item, "name").Some? && Prop(item, "name").value.Str? && Prop(item, "quantity").Some?))
  }

  /** A row on which the filter callback cannot throw: an items array of well-formed items. */
  predicate WellFormedRow(row: Record) {
    HasItemArray(row) && forall i :: 0 <= i < |row["items"].elems| ==> WellFormedItem(row["items"].elems[i])
  }

  /** The filter never throws on a collection of well-formed rows. */
  lemma WellFormedRowsDoNotThrow(toStr: Json -> string, data: seq<Record>, query: string)
    requires forall i :: 0 <= i < |data| ==> WellFormedRow(data[i])
    ensures FilterData(toStr, data, query).Ok?
  {
    var lq := Lower(query);
    FilterRowsSpec(toStr, data, lq);
  }

  /** An order with one line item, a customer object and a status. */
  function SampleOrder(): Record {
    map[
      "orderId" := Str("A1"),
      "user" := Obj(map["firstName" := Str("Jo")]),
      "items" := Arr([Obj(map["name" := Str("Soup"), "quantity" := Num(2.0)])]),
      "status" := Str("Pending")]
  }

  /** "soup" finds the order through its line item's name, "PENDING" through its status field. */
  lemma SampleOrderFound(toStr: Json -> string)
    ensures FilterData(toStr, [SampleOrder()], "soup") == Ok([SampleOrder()])
    ensures FilterData(toStr, [SampleOrder()], "PENDING") == Ok([SampleOrder()])
  {
    var row := SampleOrder();
    var item := row["items"].elems[0];
    assert Lower("Soup") == "soup";
    assert Lower("soup") == "soup";
    assert ItemMatch(toStr, item, "soup") == Ok(true);
    assert MatchRow(toStr, row, "soup") == Ok(true);
    FilterKeepsMatchingRows(toStr, [row], "soup");
    assert Lower("PENDING") == "pending";
    assert Lower("Pending") == "pending";
    assert Str("Pending") in row.Values by { assert row["status"] == Str("Pending"); }
    assert AttributesMatch(toStr, row, "pending");
    assert ItemMatch(toStr, item, "pending").Ok?;
    assert MatchRow(toStr, row, "pending") == Ok(true);
    FilterKeepsMatchingRows(toStr, [row], "pending");
  }

  /** No field of the sample order contains "xyz", given that the text of its object and array fields does not. */
  lemma SampleAttributes(toStr: Json -> string)
    requires !Contains(Lower(toStr(SampleOrder()["user"])), "xyz")
    requires !Contains(Lower(toStr(SampleOrder()["items"])), "xyz")
    ensures !AttributesMatch(toStr, SampleOrder(), "xyz")
  {
    SampleStringsMissXyz();
  }

  /** The lower-cased string fields of the sample order do not contain "xyz": none of them holds an 'x'. */
  lemma SampleStringsMissXyz()
    ensures !Contains(Lower("A1"), "xyz") && !Contains(Lower("Pending"), "xyz") && !Contains(Lower("Soup"), "xyz")
  {
    assert Lower("A1") == "a1";
    assert Lower("Pending") == "pending";
    assert Lower("Soup") == "soup";
    if Contains("a1", "xyz") { ContainsFirstChar("a1", "xyz"); }
    if Contains("pending", "xyz") { ContainsFirstChar("pending", "xyz"); }
    if Contains("soup", "xyz") { ContainsFirstChar("soup", "xyz"); }
  }

  /** The sample order's only line item misses "xyz" without throwing. */
  lemma SampleItemsMiss(toStr: Json -> string)
    requires !Contains(Lower(toStr(Num(2.0))), "xyz")
    ensures ItemsSome(toStr, SampleOrder()["items"].elems, "xyz") == Ok(false)
  {
    var items := SampleOrder()["items"].elems;
    SampleStringsMissXyz();
    assert ItemMatch(toStr, items[0], "xyz") == Ok(false);
    assert items[1..] == [];
  }

  /** "xyz" finds nothing, provided the text of the non-string values does not contain it either. */
  lemma SampleOrderNotFound(toStr: Json -> string)
    requires !Contains(Lower(toStr(SampleOrder()["user"])), "xyz")
    requires !Contains(Lower(toStr(SampleOrder()["items"])), "xyz")
    requires !Contains(Lower(toStr(Num(2.0))), "xyz")
    ensures FilterData(toStr, [SampleOrder()], "xyz") == Ok([])
  {
    var row := SampleOrder();
    assert Lower("xyz") == "xyz";
    SampleAttributes(toStr);
    SampleItemsMiss(toStr);
    assert MatchRow(toStr, row, "xyz") == Ok(false);
    assert [row][1..] == [];
  }
}
