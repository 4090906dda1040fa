/**
 * The reports page (src/app/reports/page.tsx): the three chart data sets and the CSV
 * export of any of them. The page builds its data sets from module-level collections;
 * here those collections are parameters.
 */
module Reports {
  import opened Wrappers
  import opened Text
  import opened Types
  import opened Counting

  // ---------------------------------------------------------------------------------
  // CSV export
  // ---------------------------------------------------------------------------------

  /** A field value of an exported object: text, or a number printed as it is. */
  datatype Value = Str(s: string) | Num(n: int)

  /** An exported object: its fields in key-insertion order (the order of `Object.keys`). */
  type Row = seq<(string, Value)>

  /** `value.replace(/"/g, '""')`: every double quote doubled, nothing else changed. */
  function DoubleQuotes(s: string): (r: string)
    ensures |r| >= |s|
    ensures forall c :: c != '"' ==> (c in r <==> c in s)
  {
    if s == [] then []
    else
      var r := (if s[0] == '"' then "\"\"" else [s[0]]) + DoubleQuotes(s[1..]);
      assert forall c :: c in s <==> c == s[0] || c in s[1..];
      r
  }

  /** The quoting of a text field: wrapped in double quotes, inner quotes doubled. */
  function Quote(s: string): string
  {
    "\"" + DoubleQuotes(s) + "\""
  }

  /**
   * Inside a quoted field a double quote only occurs doubled: the escaping rule of
   * section 2, rule 7 of RFC 4180.
   */
  predicate QuotesPaired(t: string)
    decreases |t|
  {
    t == [] ||
    (t[0] == '"' && |t| >= 2 && t[1] == '"' && QuotesPaired(t[2..])) ||
    (t[0] != '"' && QuotesPaired(t[1..]))
  }

  function UndoubleQuotes(t: string): string
    decreases |t|
  {
    if t == [] then []
    else if |t| >= 2 && t[0] == '"' && t[1] == '"' then "\"" + UndoubleQuotes(t[2..])
    else [t[0]] + UndoubleQuotes(t[1..])
  }

  /** Reading a quoted field back. */
  function Unquote(q: string): Option<string>
  {
    if |q| >= 2 && q[0] == '"' && q[|q| - 1] == '"' then Some(UndoubleQuotes(q[1..|q| - 1])) else None
  }

  lemma {:induction false} DoubleQuotesPaired(s: string)
    ensures QuotesPaired(DoubleQuotes(s))
  {
    if s != [] {
      DoubleQuotesPaired(s[1..]);
      var t := DoubleQuotes(s);
      if s[0] == '"' {
        assert t[2..] == DoubleQuotes(s[1..]);
      } else {
        assert t[1..] == DoubleQuotes(s[1..]);
      }
    }
  }

  lemma {:induction false} UndoubleDoubled(s: string)
    ensures UndoubleQuotes(DoubleQuotes(s)) == s
  {
    if s != [] {
      UndoubleDoubled(s[1..]);
      var t := DoubleQuotes(s);
      if s[0] == '"' {
        assert t[2..] == DoubleQuotes(s[1..]);
      } else {
        assert t[1..] == DoubleQuotes(s[1..]);
      }
    }
  }

  /** Undoing the escaping gives back the original text. */
  lemma QuoteRoundTrip(s: string)
    ensures Unquote(Quote(s)) == Some(s)
  {
    var q := Quote(s);
    assert q[1..|q| - 1] == DoubleQuotes(s);
    UndoubleDoubled(s);
  }

  /** `data.map(({ fill, ...rest }) => rest)` on one object. */
  function WithoutFill(row: Row): (r: Row)
    ensures |r| <= |row|
  {
    if row == [] then []
    else (if row[0].0 == "fill" then [] else [row[0]]) + WithoutFill(row[1..])
  }

  /** Exactly the fields other than `fill` are kept. */
  lemma {:induction false} WithoutFillFields(row: Row)
    ensures forall f :: f in WithoutFill(row) <==> f in row && f.0 != "fill"
  {
    if row != [] {
      WithoutFillFields(row[1..]);
      assert forall f :: f in row <==> f == row[0] || f in row[1..];
    }
  }

  /** A field in front is kept in front, unless it is `fill`. */
  lemma WithoutFillCons(f: (string, Value), rest: Row)
    ensures WithoutFill([f] + rest) == (if f.0 == "fill" then [] else [f]) + WithoutFill(rest)
  {
    assert ([f] + rest)[1..] == rest;
  }

  /** Dropping `fill` keeps the other fields in their order: it distributes over concatenation. */
  lemma {:induction false} WithoutFillKeepsOrder(a: Row, b: Row)
    ensures WithoutFill(a + b) == WithoutFill(a) + WithoutFill(b)
  {
    if a == [] {
      assert a + b == b;
    } else {
      var f, tail := a[0], a[1..];
      var head := if f.0 == "fill" then [] else [f];
      assert a == [f] + tail && a + b == [f] + (tail + b);
      WithoutFillCons(f, tail);
      WithoutFillCons(f, tail + b);
      WithoutFillKeepsOrder(tail, b);
      assert head + (WithoutFill(tail) + WithoutFill(b)) == (head + WithoutFill(tail)) + WithoutFill(b);
    }
  }

  /** A row without a `fill` field is kept whole. */
  lemma {:induction false} WithoutFillNoFill(row: Row)
    requires forall j :: 0 <= j < |row| ==> row[j].0 != "fill"
    ensures WithoutFill(row) == row
  {
    if row != [] {
      WithoutFillNoFill(row[1..]);
      assert row == [row[0]] + row[1..];
    }
  }

  function Keys(row: Row): (keys: seq<string>)
    ensures |keys| == |row| && forall i :: 0 <= i < |row| ==> keys[i] == row[i].0
  {
    seq(|row|, i requires 0 <= i < |row| => row[i].0)
  }

  /** `item[key]`: the field with that key, or `undefined`. */
  function Lookup(row: Row, key: string): (v: Option<Value>)
    ensures v.Some? ==> (key, v.value) in row
    ensures v.None? <==> forall i :: 0 <= i < |row| ==> row[i].0 != key
  {
    if row == [] then None else if row[0].0 == key then Some(row[0].1) else Lookup(row[1..], key)
  }

  /** One cell as `row.join(",")` prints it: quoted text, a number, or nothing for `undefined`. */
  function Cell(row: Row, key: string): string
  {
    match Lookup(row, key)
    case None => ""
    case Some(Str(s)) => Quote(s)
    case Some(Num(n)) => IntString(n)
  }

  /** The values of `row` in header order, comma-joined. */
  function CsvRow(headers: seq<string>, row: Row): string
  {
    Join(seq(|headers|, j requires 0 <= j < |headers| => Cell(row, headers[j])), ',')
  }

  /** The header line, the keys of the first object without `fill`. */
  function CsvHeaders(data: seq<Row>): seq<string>
    requires data != []
  {
    Keys(WithoutFill(data[0]))
  }

  /** The lines of the export, `csvRows`: the header line, then one line per object. */
  function CsvLines(data: seq<Row>): seq<string>
    requires data != []
  {
    var headers := CsvHeaders(data);
    [Join(headers, ',')] + seq(|data|, i requires 0 <= i < |data| => CsvRow(headers, WithoutFill(data[i])))
  }

  /**
   * `handleExport` without the download: nothing for an empty list, otherwise the lines
   * joined by a line feed.
   */
  method ExportCsv(data: seq<Row>) returns (csv: Option<string>)
    ensures csv.None? <==> data == []
    ensures csv.Some? ==> csv.value == Join(CsvLines(data), '\n')
  {
    if |data| == 0 {
      return None;
    }
    var dataToExport := seq(|data|, i requires 0 <= i < |data| => WithoutFill(data[i]));
    var headers := Keys(dataToExport[0]);
    var csvRows := [Join(headers, ',')];
    for i := 0 to |dataToExport|
      invariant csvRows == [Join(headers, ',')] + seq(i, k requires 0 <= k < i => CsvRow(headers, dataToExport[k]))
    {
      var row := seq(|headers|, j requires 0 <= j < |headers| => Cell(dataToExport[i], headers[j]));
      assert Join(row, ',') == CsvRow(headers, dataToExport[i]);
      csvRows := csvRows + [Join(row, ',')];
      assert seq(i + 1, k requires 0 <= k < i + 1 => CsvRow(headers, dataToExport[k]))
        == seq(i, k requires 0 <= k < i => CsvRow(headers, dataToExport[k])) + [CsvRow(headers, dataToExport[i])];
    }
    assert csvRows == CsvLines(data);
    csv := Some(Join(csvRows, '\n'));
  }

  /** A value as it appears in a cell: quoted text or a number. */
  function ValueText(v: Value): string
  {
    match v
    case Str(s) => Quote(s)
    case Num(n) => IntString(n)
  }

  /** Every object has the two keys `k1`, `k2` and then `fill`, the shape of the chart data. */
  predicate PairRows(data: seq<Row>, k1: string, k2: string)
  {
    forall i :: 0 <= i < |data| ==>
      |data[i]| == 3 && data[i][0].0 == k1 && data[i][1].0 == k2 && data[i][2].0 == "fill"
  }

  /** Dropping `fill` from such an object leaves its first two fields. */
  lemma PairWithoutFill(row: Row)
    requires |row| == 3 && row[0].0 != "fill" && row[1].0 != "fill" && row[2].0 == "fill"
    ensures WithoutFill(row) == row[..2]
  {
    assert row == row[..2] + [row[2]];
    WithoutFillKeepsOrder(row[..2], [row[2]]);
    WithoutFillNoFill(row[..2]);
    WithoutFillCons(row[2], []);
    assert [row[2]] == [row[2]] + [];
  }

  /**
   * The export of chart data with two keys besides `fill`: the header is the two keys, and
   * each line holds an object's two values in that order; the `fill` values do not appear.
   */
  lemma PairExport(data: seq<Row>, k1: string, k2: string)
    requires data != [] && PairRows(data, k1, k2)
    requires k1 != k2 && k1 != "fill" && k2 != "fill"
    ensures CsvHeaders(data) == [k1, k2]
    ensures CsvLines(data) == [k1 + "," + k2]
      + seq(|data|, i requires 0 <= i < |data| => ValueText(data[i][0].1) + "," + ValueText(data[i][1].1))
  {
    PairWithoutFill(data[0]);
    assert Keys(data[0][..2]) == [k1, k2];
    var headers := [k1, k2];
    assert Join(headers, ',') == k1 + "," + k2;
    forall i | 0 <= i < |data|
      ensures CsvRow(headers, WithoutFill(data[i])) == ValueText(data[i][0].1) + "," + ValueText(data[i][1].1)
    {
      PairWithoutFill(data[i]);
      var row := data[i][..2];
      assert Lookup(row, k1) == Some(row[0].1);
      assert row[1..] == [row[1]];
      assert Lookup(row, k2) == Some(row[1].1);
      var cells := seq(|headers|, j requires 0 <= j < |headers| => Cell(row, headers[j]));
      assert cells == [ValueText(data[i][0].1), ValueText(data[i][1].1)];
      assert cells[1..] == [cells[1]];
      assert Join(cells, ',') == cells[0] + "," + cells[1];
    }
  }

  /** No key and no text value of any object holds a line feed. */
  predicate NoLineFeeds(data: seq<Row>)
  {
    forall i, j :: 0 <= i < |data| && 0 <= j < |data[i]| ==>
      '\n' !in data[i][j].0 && (data[i][j].1.Str? ==> '\n' !in data[i][j].1.s)
  }

  lemma KeysKeepOrder(a: Row, b: Row)
    ensures Keys(a + b) == Keys(a) + Keys(b)
  {
  }

  /**
   * The header names follow the first object's key order: split that object anywhere and
   * the headers are those of the front part, then those of the back part; an object with
   * no `fill` field gives its keys unchanged.
   */
  lemma CsvHeadersInKeyOrder(data: seq<Row>, front: Row, back: Row)
    requires data != [] && data[0] == front + back
    ensures CsvHeaders(data) == Keys(WithoutFill(front)) + Keys(WithoutFill(back))
    ensures (forall j :: 0 <= j < |data[0]| ==> data[0][j].0 != "fill") ==> CsvHeaders(data) == Keys(data[0])
  {
    WithoutFillKeepsOrder(front, back);
    KeysKeepOrder(WithoutFill(front), WithoutFill(back));
    if forall j :: 0 <= j < |data[0]| ==> data[0][j].0 != "fill" {
      WithoutFillNoFill(data[0]);
    }
  }

  /** The export has one header line naming every non-`fill` key of the first object, in order. */
  lemma CsvHeaderLine(data: seq<Row>)
    requires data != []
    ensures var lines := CsvLines(data);
      |lines| == |data| + 1 && lines[0] == Join(CsvHeaders(data), ',') &&
      "fill" !in CsvHeaders(data) &&
      forall k :: k in CsvHeaders(data) <==> exists v :: (k, v) in data[0] && k != "fill"
  {
    var row := WithoutFill(data[0]);
    WithoutFillFields(data[0]);
    forall k | k in CsvHeaders(data) ensures exists v :: (k, v) in data[0] && k != "fill" {
      var i :| 0 <= i < |row| && row[i].0 == k;
      assert row[i] in row;
    }
    forall k | exists v :: (k, v) in data[0] && k != "fill" ensures k in CsvHeaders(data) {
      var v :| (k, v) in data[0] && k != "fill";
      assert (k, v) in row;
      var i :| 0 <= i < |row| && row[i] == (k, v);
      assert CsvHeaders(data)[i] == k;
    }
  }

  lemma CellHasNoLineFeed(row: Row, key: string)
    requires forall j :: 0 <= j < |row| ==> row[j].1.Str? ==> '\n' !in row[j].1.s
    ensures '\n' !in Cell(row, key)
  {
    match Lookup(row, key)
    case None =>
    case Some(Str(s)) =>
      var j :| 0 <= j < |row| && row[j] == (key, Str(s));
    case Some(Num(n)) =>
  }

  /**
   * When no field holds a line feed, splitting the export at line feeds gives back its
   * lines: exactly one header line and one line per object.
   */
  lemma CsvSplitsIntoLines(data: seq<Row>)
    requires data != [] && NoLineFeeds(data)
    ensures Split(Join(CsvLines(data), '\n'), '\n') == CsvLines(data)
    ensures |Split(Join(CsvLines(data), '\n'), '\n')| == |data| + 1
  {
    var lines := CsvLines(data);
    var headers := CsvHeaders(data);
    var first := WithoutFill(data[0]);
    WithoutFillFields(data[0]);
    forall j | 0 <= j < |headers| ensures '\n' !in headers[j] {
      assert first[j] in first;
    }
    JoinAvoids(headers, ',', '\n');
    forall i | 0 <= i < |data| ensures '\n' !in CsvRow(headers, WithoutFill(data[i])) {
      var row := WithoutFill(data[i]);
      WithoutFillFields(data[i]);
      forall j | 0 <= j < |row| ensures row[j].1.Str? ==> '\n' !in row[j].1.s {
        assert row[j] in row;
        var k :| 0 <= k < |data[i]| && data[i][k] == row[j];
      }
      var cells := seq(|headers|, j requires 0 <= j < |headers| => Cell(row, headers[j]));
      forall j | 0 <= j < |headers| ensures '\n' !in cells[j] {
        CellHasNoLineFeed(row, headers[j]);
      }
      JoinAvoids(cells, ',', '\n');
    }
    SplitJoin(lines, '\n');
  }

  // ---------------------------------------------------------------------------------
  // Inventory consumption
  // ---------------------------------------------------------------------------------

  /** One bar of the consumption chart; its random colour is given separately to `ConsumptionRows`. */
  datatype Consumption = Consumption(name: string, consumed: int)

  /** The mock consumption figure: ten per tub below twenty; negative above twenty. */
  function ConsumptionOf(item: InventoryItem): Consumption
  {
    Consumption(item.name, (20 - item.inStock) * 10)
  }

  /** `inventory.filter(item => item.category === "Ice Cream").map(...)`. */
  function InventoryConsumptionData(items: seq<InventoryItem>): (r: seq<Consumption>)
    ensures |r| <= |items|
  {
    if items == [] then []
    else (if items[0].category == IceCream then [ConsumptionOf(items[0])] else []) + InventoryConsumptionData(items[1..])
  }

  /** The figures are exactly those of the `Ice Cream` items. */
  lemma {:induction false} ConsumptionMembers(items: seq<InventoryItem>)
    ensures forall e :: e in InventoryConsumptionData(items) ==>
      exists it :: it in items && it.category == IceCream && e == ConsumptionOf(it)
    ensures forall it :: it in items && it.category == IceCream ==> ConsumptionOf(it) in InventoryConsumptionData(items)
  {
    if items != [] {
      ConsumptionMembers(items[1..]);
      assert forall it :: it in items <==> it == items[0] || it in items[1..];
    }
  }

  /** The figures of a list with one item in front: that item's figure, if any, first. */
  lemma ConsumptionCons(x: InventoryItem, rest: seq<InventoryItem>)
    ensures InventoryConsumptionData([x] + rest) ==
      (if x.category == IceCream then [ConsumptionOf(x)] else []) + InventoryConsumptionData(rest)
  {
    assert ([x] + rest)[1..] == rest;
  }

  /** The filter keeps the items' order: it distributes over concatenation. */
  lemma {:induction false} ConsumptionKeepsOrder(a: seq<InventoryItem>, b: seq<InventoryItem>)
    ensures InventoryConsumptionData(a + b) == InventoryConsumptionData(a) + InventoryConsumptionData(b)
  {
    if a == [] {
      assert a + b == b;
    } else {
      var x, tail := a[0], a[1..];
      var head := if x.category == IceCream then [ConsumptionOf(x)] else [];
      assert a == [x] + tail && a + b == [x] + (tail + b);
      ConsumptionCons(x, tail);
      ConsumptionCons(x, tail + b);
      ConsumptionKeepsOrder(tail, b);
      assert head + (InventoryConsumptionData(tail) + InventoryConsumptionData(b))
        == (head + InventoryConsumptionData(tail)) + InventoryConsumptionData(b);
    }
  }

  /**
   * The objects handed to the export, `fill` included; `fills` stands for the colours that
   * `Math.random` picks, one per figure.
   */
  function ConsumptionRows(data: seq<Consumption>, fills: seq<string>): seq<Row>
    requires |fills| == |data|
  {
    seq(|data|, i requires 0 <= i < |data| =>
      [("name", Str(data[i].name)), ("consumed", Num(data[i].consumed)), ("fill", Str(fills[i]))])
  }

  /**
   * The consumption export has the header `name,consumed` and one line per figure with its
   * quoted name and its number, whatever colours were picked.
   */
  lemma ConsumptionExport(data: seq<Consumption>, fills: seq<string>)
    requires data != [] && |fills| == |data|
    ensures CsvLines(ConsumptionRows(data, fills)) == ["name,consumed"]
      + seq(|data|, i requires 0 <= i < |data| => Quote(data[i].name) + "," + IntString(data[i].consumed))
  {
    var rows := ConsumptionRows(data, fills);
    PairExport(rows, "name", "consumed");
    assert "name" + "," + "consumed" == "name,consumed";
    assert CsvLines(rows)[1..] == seq(|data|, i requires 0 <= i < |data| =>
      Quote(data[i].name) + "," + IntString(data[i].consumed));
  }

  // ---------------------------------------------------------------------------------
  // Task status counts
  // ---------------------------------------------------------------------------------

  /** One slice of the status pie chart. */
  datatype StatusSlice = StatusSlice(name: TaskStatus, value: nat, fill: string)

  /** Completed tasks are drawn in the first chart colour, every other status in the second. */
  function StatusFill(s: TaskStatus): string
  {
    if s == Completed then ChartFill(1) else ChartFill(2)
  }

  /** How many tasks have status `s`. */
  function CountStatus(tasks: seq<Task>, s: TaskStatus): (n: nat)
    ensures n <= |tasks|
  {
    if tasks == [] then 0
    else CountStatus(tasks[..|tasks| - 1], s) + (if tasks[|tasks| - 1].status == s then 1 else 0)
  }

  function StatusKeys(tasks: seq<Task>): seq<Option<TaskStatus>>
  {
    seq(|tasks|, i requires 0 <= i < |tasks| => Some(tasks[i].status))
  }

  lemma {:induction false} StatusKeysCount(tasks: seq<Task>)
    ensures Tallied(StatusKeys(tasks)) == |tasks|
    ensures forall s :: Occurrences(StatusKeys(tasks), s) == CountStatus(tasks, s)
  {
    var keys := StatusKeys(tasks);
    if tasks != [] {
      var init := tasks[..|tasks| - 1];
      StatusKeysCount(init);
      assert keys[..|keys| - 1] == StatusKeys(init);
    }
  }

  function SliceTotal(slices: seq<StatusSlice>): nat
  {
    if slices == [] then 0 else SliceTotal(slices[..|slices| - 1]) + slices[|slices| - 1].value
  }

  /** The slices drawn for a tally of statuses, in the tally's order. */
  function Slices(entries: seq<(TaskStatus, nat)>): (r: seq<StatusSlice>)
    ensures |r| == |entries|
    ensures forall i :: 0 <= i < |r| ==> r[i].name == entries[i].0 && r[i].value == entries[i].1
    ensures forall i :: 0 <= i < |r| ==> r[i].fill == StatusFill(r[i].name)
  {
    seq(|entries|, i requires 0 <= i < |entries| =>
      StatusSlice(entries[i].0, entries[i].1, StatusFill(entries[i].0)))
  }

  lemma {:induction false} SliceTotalOfEntries(entries: seq<(TaskStatus, nat)>)
    ensures SliceTotal(Slices(entries)) == Total(entries)
  {
    if entries != [] {
      var init := entries[..|entries| - 1];
      SliceTotalOfEntries(init);
      assert Slices(entries)[..|entries| - 1] == Slices(init);
    }
  }

  /**
   * `taskStatusData` and `taskStatusChartData`: one slice per status that occurs, holding
   * how many tasks have it; the slices add up to the number of tasks.
   */
  method TaskStatusChartData(tasks: seq<Task>) returns (r: seq<StatusSlice>)
    ensures forall i, j :: 0 <= i < j < |r| ==> r[i].name != r[j].name
    ensures forall i :: 0 <= i < |r| ==> 1 <= r[i].value == CountStatus(tasks, r[i].name)
    ensures forall k :: 0 <= k < |tasks| ==> SliceFor(r, tasks[k].status)
    ensures forall i :: 0 <= i < |r| ==> StatusOccurs(tasks, r[i].name)
    ensures forall i :: 0 <= i < |r| ==> r[i].fill == (if r[i].name == Completed then ChartFill(1) else ChartFill(2))
    ensures SliceTotal(r) == |tasks|
  {
    var entries := Tally(StatusKeys(tasks));
    SlicesOfTally(tasks, entries);
    r := Slices(entries);
  }

  /** The slices of a tally of the tasks' statuses have every property the chart promises. */
  lemma SlicesOfTally(tasks: seq<Task>, entries: seq<(TaskStatus, nat)>)
    requires forall i, j :: 0 <= i < j < |entries| ==> entries[i].0 != entries[j].0
    requires forall i :: 0 <= i < |entries| ==> 1 <= entries[i].1 == Occurrences(StatusKeys(tasks), entries[i].0)
    requires forall s :: Some(s) in StatusKeys(tasks) <==> exists i :: 0 <= i < |entries| && entries[i].0 == s
    requires Total(entries) == Tallied(StatusKeys(tasks))
    ensures forall i, j :: 0 <= i < j < |entries| ==> Slices(entries)[i].name != Slices(entries)[j].name
    ensures forall i :: 0 <= i < |entries| ==> 1 <= Slices(entries)[i].value == CountStatus(tasks, Slices(entries)[i].name)
    ensures forall k :: 0 <= k < |tasks| ==> SliceFor(Slices(entries), tasks[k].status)
    ensures forall i :: 0 <= i < |entries| ==> StatusOccurs(tasks, Slices(entries)[i].name)
    ensures SliceTotal(Slices(entries)) == |tasks|
  {
    SliceCounts(tasks, entries);
    SlicesCover(tasks, entries);
    StatusKeysCount(tasks);
    SliceTotalOfEntries(entries);
  }

  /** Each slice's value is the number of tasks with its status. */
  lemma SliceCounts(tasks: seq<Task>, entries: seq<(TaskStatus, nat)>)
    requires forall i :: 0 <= i < |entries| ==> 1 <= entries[i].1 == Occurrences(StatusKeys(tasks), entries[i].0)
    ensures forall i :: 0 <= i < |entries| ==> 1 <= Slices(entries)[i].value == CountStatus(tasks, Slices(entries)[i].name)
  {
    StatusKeysCount(tasks);
  }

  /** The slices cover exactly the statuses of the tasks. */
  lemma SlicesCover(tasks: seq<Task>, entries: seq<(TaskStatus, nat)>)
    requires forall s :: Some(s) in StatusKeys(tasks) <==> exists i :: 0 <= i < |entries| && entries[i].0 == s
    ensures forall k :: 0 <= k < |tasks| ==> SliceFor(Slices(entries), tasks[k].status)
    ensures forall i :: 0 <= i < |entries| ==> StatusOccurs(tasks, Slices(entries)[i].name)
  {
    var r := Slices(entries);
    StatusesCovered(tasks, entries);
    forall k | 0 <= k < |tasks| ensures SliceFor(r, tasks[k].status) {
      assert EntryFor(entries, tasks[k].status);
      var i :| 0 <= i < |entries| && entries[i].0 == tasks[k].status;
      assert r[i].name == tasks[k].status;
    }
    forall i | 0 <= i < |r| ensures StatusOccurs(tasks, r[i].name) {
      assert StatusOccurs(tasks, entries[i].0);
    }
  }

  /** Some entry of the tally is for status `s`. */
  predicate EntryFor(entries: seq<(TaskStatus, nat)>, s: TaskStatus)
  {
    exists i :: 0 <= i < |entries| && entries[i].0 == s
  }

  /** Some slice is for status `s`. */
  predicate SliceFor(r: seq<StatusSlice>, s: TaskStatus)
  {
    exists i :: 0 <= i < |r| && r[i].name == s
  }

  /** Some task has status `s`. */
  predicate StatusOccurs(tasks: seq<Task>, s: TaskStatus)
  {
    exists k :: 0 <= k < |tasks| && tasks[k].status == s
  }

  /** The statuses a tally of `StatusKeys(tasks)` covers are exactly those of the tasks. */
  lemma StatusesCovered(tasks: seq<Task>, entries: seq<(TaskStatus, nat)>)
    requires forall s :: Some(s) in StatusKeys(tasks) <==> EntryFor(entries, s)
    ensures forall k :: 0 <= k < |tasks| ==> EntryFor(entries, tasks[k].status)
    ensures forall i :: 0 <= i < |entries| ==> StatusOccurs(tasks, entries[i].0)
  {
    var keys := StatusKeys(tasks);
    forall k | 0 <= k < |tasks| ensures EntryFor(entries, tasks[k].status) {
      assert keys[k] == Some(tasks[k].status);
    }
    forall i | 0 <= i < |entries| ensures StatusOccurs(tasks, entries[i].0) {
      assert EntryFor(entries, entries[i].0);
      var k :| 0 <= k < |keys| && keys[k] == Some(entries[i].0);
      assert tasks[k].status == entries[i].0;
    }
  }

  /** The slices as the export receives them, their colour in `fill`. */
  function StatusRows(slices: seq<StatusSlice>): seq<Row>
  {
    seq(|slices|, i requires 0 <= i < |slices| =>
      [("name", Str(StatusName(slices[i].name))), ("value", Num(slices[i].value)), ("fill", Str(slices[i].fill))])
  }

  /**
   * The status export has the header `name,value` and one line per slice with its quoted
   * status name and its count: the chart colour is not written.
   */
  lemma StatusExport(slices: seq<StatusSlice>)
    requires slices != []
    ensures CsvLines(StatusRows(slices)) == ["name,value"]
      + seq(|slices|, i requires 0 <= i < |slices| => Quote(StatusName(slices[i].name)) + "," + IntString(slices[i].value))
  {
    var rows := StatusRows(slices);
    PairExport(rows, "name", "value");
    assert "name" + "," + "value" == "name,value";
    assert CsvLines(rows)[1..] == seq(|slices|, i requires 0 <= i < |slices| =>
      Quote(StatusName(slices[i].name)) + "," + IntString(slices[i].value));
  }

  // ---------------------------------------------------------------------------------
  // Employee task distribution
  // ---------------------------------------------------------------------------------

  /** One bar of the distribution chart (its random colour is not modelled). */
  datatype EmployeeLoad = EmployeeLoad(name: string, tasks: nat)

  /** `tasks.filter(t => t.assignedTo === id).length`. */
  function CountAssigned(tasks: seq<Task>, id: string): (n: nat)
    ensures n <= |tasks|
  {
    if tasks == [] then 0
    else CountAssigned(tasks[..|tasks| - 1], id) + (if tasks[|tasks| - 1].assignedTo == id then 1 else 0)
  }

  /** The positions of the tasks assigned to `id`. */
  function AssignedPositions(tasks: seq<Task>, id: string): set<nat>
  {
    set k: nat | k < |tasks| && tasks[k].assignedTo == id
  }

  /** One more task adds its own position, when it is assigned to `id`, and nothing else. */
  lemma AssignedPositionsSnoc(tasks: seq<Task>, id: string)
    requires tasks != []
    ensures var last := |tasks| - 1;
      AssignedPositions(tasks, id) ==
        AssignedPositions(tasks[..last], id) + (if tasks[last].assignedTo == id then {last} else {})
  {
    var last := |tasks| - 1;
    var init := tasks[..last];
    var rhs := AssignedPositions(init, id) + (if tasks[last].assignedTo == id then {last} else {});
    forall k | k in AssignedPositions(tasks, id) ensures k in rhs {
      if k < last { assert init[k] == tasks[k]; }
    }
    forall k | k in rhs ensures k in AssignedPositions(tasks, id) {
      if k < last { assert init[k] == tasks[k]; }
    }
  }

  /** The count is the number of positions holding a task assigned to `id`. */
  lemma {:induction false} CountAssignedPositions(tasks: seq<Task>, id: string)
    ensures CountAssigned(tasks, id) == |AssignedPositions(tasks, id)|
  {
    if tasks != [] {
      var last := |tasks| - 1;
      var init := tasks[..last];
      CountAssignedPositions(init, id);
      AssignedPositionsSnoc(tasks, id);
      assert last !in AssignedPositions(init, id);
    } else {
      assert AssignedPositions(tasks, id) == {};
    }
  }

  /** `employees.map(emp => ({ name: emp.name, tasks: ... }))`. */
  function EmployeeTaskData(employees: seq<Employee>, tasks: seq<Task>): (r: seq<EmployeeLoad>)
    ensures |r| == |employees|
    ensures forall i :: 0 <= i < |r| ==> r[i].name == employees[i].name && r[i].tasks <= |tasks|
    ensures forall i :: 0 <= i < |r| ==> r[i].tasks == |AssignedPositions(tasks, employees[i].id)|
  {
    forall i | 0 <= i < |employees| {
      CountAssignedPositions(tasks, employees[i].id);
    }
    seq(|employees|, i requires 0 <= i < |employees| =>
      EmployeeLoad(employees[i].name, CountAssigned(tasks, employees[i].id)))
  }

  function LoadTotal(loads: seq<EmployeeLoad>): nat
  {
    if loads == [] then 0 else LoadTotal(loads[..|loads| - 1]) + loads[|loads| - 1].tasks
  }

  /** How many employees have the id `id`. */
  function WithId(employees: seq<Employee>, id: string): nat
  {
    if employees == [] then 0
    else WithId(employees[..|employees| - 1], id) + (if employees[|employees| - 1].id == id then 1 else 0)
  }

  /** How many tasks are assigned to an id some employee has. */
  function CountKnownAssignee(employees: seq<Employee>, tasks: seq<Task>): (n: nat)
    ensures n <= |tasks|
  {
    if tasks == [] then 0
    else CountKnownAssignee(employees, tasks[..|tasks| - 1]) + (if WithId(employees, tasks[|tasks| - 1].assignedTo) > 0 then 1 else 0)
  }

  predicate DistinctEmployeeIds(employees: seq<Employee>)
  {
    forall i, j :: 0 <= i < j < |employees| ==> employees[i].id != employees[j].id
  }

  lemma {:induction false} WithIdAtMostOne(employees: seq<Employee>, id: string)
    requires DistinctEmployeeIds(employees)
    ensures WithId(employees, id) <= 1
  {
    if employees != [] {
      var init := employees[..|employees| - 1];
      WithIdAtMostOne(init, id);
      if employees[|employees| - 1].id == id {
        WithIdNone(init, id);
      }
    }
  }

  lemma {:induction false} WithIdNone(employees: seq<Employee>, id: string)
    requires forall i :: 0 <= i < |employees| ==> employees[i].id != id
    ensures WithId(employees, id) == 0
  {
    if employees != [] {
      WithIdNone(employees[..|employees| - 1], id);
    }
  }

  /** Adding one task adds to the total the number of employees it is assigned to. */
  lemma {:induction false} LoadTotalStep(employees: seq<Employee>, tasks: seq<Task>, t: Task)
    ensures LoadTotal(EmployeeTaskData(employees, tasks + [t])) ==
      LoadTotal(EmployeeTaskData(employees, tasks)) + WithId(employees, t.assignedTo)
  {
    if employees != [] {
      var init := employees[..|employees| - 1];
      LoadTotalStep(init, tasks, t);
      assert (tasks + [t])[..|tasks|] == tasks;
      assert EmployeeTaskData(employees, tasks + [t])[..|init|] == EmployeeTaskData(init, tasks + [t]);
      assert EmployeeTaskData(employees, tasks)[..|init|] == EmployeeTaskData(init, tasks);
    }
  }

  /**
   * With distinct employee ids no task is counted twice: the distribution adds up to the
   * number of tasks assigned to some employee, so at most to the number of tasks.
   */
  lemma {:induction false} EmployeeTaskTotal(employees: seq<Employee>, tasks: seq<Task>)
    requires DistinctEmployeeIds(employees)
    ensures LoadTotal(EmployeeTaskData(employees, tasks)) == CountKnownAssignee(employees, tasks)
    ensures LoadTotal(EmployeeTaskData(employees, tasks)) <= |tasks|
  {
    if tasks == [] {
      EmptyLoads(employees);
    } else {
      var init := tasks[..|tasks| - 1];
      var t := tasks[|tasks| - 1];
      assert tasks == init + [t];
      EmployeeTaskTotal(employees, init);
      LoadTotalStep(employees, init, t);
      WithIdAtMostOne(employees, t.assignedTo);
    }
  }

  lemma {:induction false} EmptyLoads(employees: seq<Employee>)
    ensures LoadTotal(EmployeeTaskData(employees, [])) == 0
  {
    if employees != [] {
      var init := employees[..|employees| - 1];
      EmptyLoads(init);
      assert EmployeeTaskData(employees, [])[..|init|] == EmployeeTaskData(init, []);
    }
  }

  /** The objects handed to the export; `fills` stands for the random colours, one per employee. */
  function LoadRows(loads: seq<EmployeeLoad>, fills: seq<string>): seq<Row>
    requires |fills| == |loads|
  {
    seq(|loads|, i requires 0 <= i < |loads| =>
      [("name", Str(loads[i].name)), ("tasks", Num(loads[i].tasks)), ("fill", Str(fills[i]))])
  }

  /**
   * The distribution export has the header `name,tasks` and one line per employee with the
   * quoted name and the count, whatever colours were picked.
   */
  lemma LoadExport(loads: seq<EmployeeLoad>, fills: seq<string>)
    requires loads != [] && |fills| == |loads|
    ensures CsvLines(LoadRows(loads, fills)) == ["name,tasks"]
      + seq(|loads|, i requires 0 <= i < |loads| => Quote(loads[i].name) + "," + IntString(loads[i].tasks))
  {
    var rows := LoadRows(loads, fills);
    PairExport(rows, "name", "tasks");
    assert "name" + "," + "tasks" == "name,tasks";
    assert CsvLines(rows)[1..] == seq(|loads|, i requires 0 <= i < |loads| =>
      Quote(loads[i].name) + "," + IntString(loads[i].tasks));
  }
}
