/**
 * The evaluation view of media/object.js: `ObjectInspector` reshapes the JSON data
 * of an evaluation result into the rows of a table or the labels and datasets of a
 * chart, numbers the pages of a long result, and sizes the expression input field.
 * JSON values are modelled by `Value`; a property read on `null` or `undefined`,
 * which throws a `TypeError` in JavaScript, is an explicit outcome.
 */
module ObjectView {
  import opened Wrappers
  import opened Text
  import Pagination

  /** A JSON value as the webview receives it; an object's entries keep their order. */
  datatype Value =
    | Null
    | Undef
    | Bool(b: bool)
    | Num(n: int)
    | Str(s: string)
    | Arr(elems: seq<Value>)
    | Obj(fields: seq<(string, Value)>)

  /** A property key: a name (`elem[key]` with a string) or a position (`elem[key]` with a number). */
  datatype Key = Name(name: string) | Position(pos: nat)

  /** `key.toString()`. */
  function KeyText(key: Key): string
  {
    match key
    case Name(name) => name
    case Position(pos) => NatToString(pos)
  }

  /** Property reads succeed on everything but `null` and `undefined`. */
  predicate Indexable(v: Value)
  {
    !v.Null? && !v.Undef?
  }

  /** The value of the first entry with the given name, `undefined` when there is none. */
  function Field(fields: seq<(string, Value)>, name: string): Value
  {
    if fields == [] then Undef
    else if fields[0].0 == name then fields[0].1
    else Field(fields[1..], name)
  }

  /**
   * `v[key]`: `None` where JavaScript throws a `TypeError`, `undefined` for a missing
   * property; an object's property `3` is its entry named "3".
   */
  function Index(v: Value, key: Key): (r: Option<Value>)
    ensures r.None? <==> !Indexable(v)
    ensures v.Obj? ==> r == Some(Field(v.fields, KeyText(key)))
    ensures v.Arr? && key.Position? && key.pos < |v.elems| ==> r == Some(v.elems[key.pos])
  {
    match v
    case Null => None
    case Undef => None
    case Obj(fields) => Some(Field(fields, KeyText(key)))
    case Arr(elems) => Some(if key.Position? && key.pos < |elems| then elems[key.pos] else Undef)
    case Str(s) => Some(if key.Position? && key.pos < |s| then Str([s[key.pos]]) else Undef)
    case _ => Some(Undef)
  }

  /** The names of an object's entries, in order (`Object.keys`). */
  function Names(fields: seq<(string, Value)>): (names: seq<string>)
    ensures |names| == |fields| && forall k :: 0 <= k < |fields| ==> names[k] == fields[k].0
  {
    seq(|fields|, k requires 0 <= k < |fields| => fields[k].0)
  }

  /** The values of an object's entries, in order. */
  function FieldValues(fields: seq<(string, Value)>): (values: seq<Value>)
    ensures |values| == |fields| && forall k :: 0 <= k < |fields| ==> values[k] == fields[k].1
  {
    seq(|fields|, k requires 0 <= k < |fields| => fields[k].1)
  }

  /** `Object.values(v)`: `None` where it throws. */
  function ObjectValues(v: Value): (values: Option<seq<Value>>)
    ensures values.None? <==> !Indexable(v)
    ensures v.Obj? ==> values == Some(FieldValues(v.fields))
    ensures v.Arr? ==> values == Some(v.elems)
  {
    match v
    case Null => None
    case Undef => None
    case Obj(fields) => Some(FieldValues(fields))
    case Arr(elems) => Some(elems)
    case Str(s) => Some(seq(|s|, k requires 0 <= k < |s| => Str([s[k]])))
    case _ => Some([])
  }

  /** `parts.join(',')`. */
  function JoinWithCommas(parts: seq<string>): string
  {
    if parts == [] then ""
    else if |parts| == 1 then parts[0]
    else JoinWithCommas(parts[..|parts| - 1]) + "," + parts[|parts| - 1]
  }

  /**
   * `v.toString()`: `None` where it throws; an array joins its elements with commas,
   * `null` and `undefined` elements printing as nothing.
   */
  function ToText(v: Value): (t: Option<string>)
    ensures t.None? <==> !Indexable(v)
    ensures v.Str? ==> t == Some(v.s)
    decreases v
  {
    match v
    case Null => None
    case Undef => None
    case Bool(b) => Some(if b then "true" else "false")
    case Num(n) => Some(IntToString(n))
    case Str(s) => Some(s)
    case Obj(_) => Some("[object Object]")
    case Arr(elems) =>
      Some(JoinWithCommas(seq(|elems|, i requires 0 <= i < |elems| =>
        if Indexable(elems[i]) then ToText(elems[i]).value else "")))
  }

  /**
   * `getText` (media/object.js:270-276): the first string element of the array, or
   * the empty string when it holds none.
   */
  method GetText(ary: seq<Value>) returns (text: string)
    ensures (forall i :: 0 <= i < |ary| ==> !ary[i].Str?) ==> text == ""
    ensures (exists i :: 0 <= i < |ary| && ary[i].Str?) ==>
      exists k :: && 0 <= k < |ary| && ary[k].Str? && text == ary[k].s
                  && forall i :: 0 <= i < k ==> !ary[i].Str?
  {
    for i := 0 to |ary|
      invariant forall k :: 0 <= k < i ==> !ary[k].Str?
    {
      if ary[i].Str? {
        return ary[i].s;
      }
    }
    return "";
  }

  // ----- Tables -----

  /** The rows and column headers of a table. */
  datatype TableData = TableData(data: seq<seq<Value>>, columns: seq<string>)

  /** `Object.values` of every row; `None` when one of them throws. */
  function RowValues(rows: seq<Value>): (r: Option<seq<seq<Value>>>)
    ensures r.None? <==> exists i :: 0 <= i < |rows| && !Indexable(rows[i])
    ensures r.Some? ==> |r.value| == |rows| && forall i :: 0 <= i < |rows| ==> Some(r.value[i]) == ObjectValues(rows[i])
  {
    if rows == [] then Some([])
    else
      var init, last := RowValues(rows[..|rows| - 1]), ObjectValues(rows[|rows| - 1]);
      if init.Some? && last.Some? then Some(init.value + [last.value]) else None
  }

  /** Row i of an array of non-objects: its index as text, then the element. */
  function IndexedRows(rows: seq<Value>): (data: seq<seq<Value>>)
    ensures |data| == |rows| && forall i :: 0 <= i < |rows| ==> data[i] == [Str(NatToString(i)), rows[i]]
  {
    seq(|rows|, i requires 0 <= i < |rows| => [Str(NatToString(i)), rows[i]])
  }

  /**
   * `_simplifyTableData` (media/object.js:382-406): when the first row is an object,
   * every row's values under the given column headers or else the first row's keys;
   * otherwise the rows numbered under `index` and `element`. `columns` is `None`
   * when the metadata has no (truthy) `columns`; `None` is returned where
   * `Object.values` throws.
   */
  function SimplifyTableData(rawdata: seq<Value>, columns: Option<seq<string>>): (t: Option<TableData>)
    ensures t.None? <==> rawdata != [] && rawdata[0].Obj? && exists i :: 0 <= i < |rawdata| && !Indexable(rawdata[i])
    ensures t.Some? ==> |t.value.data| == |rawdata|
    ensures t.Some? && rawdata != [] && rawdata[0].Obj? ==>
              && (forall i :: 0 <= i < |rawdata| ==> Some(t.value.data[i]) == ObjectValues(rawdata[i]))
              && t.value.columns == if columns.Some? then columns.value else Names(rawdata[0].fields)
    ensures !(rawdata != [] && rawdata[0].Obj?) ==>
              && t.Some? && t.value.columns == ["index", "element"]
              && forall i :: 0 <= i < |rawdata| ==> t.value.data[i] == [Str(NatToString(i)), rawdata[i]]
  {
    if rawdata != [] && rawdata[0].Obj? then
      match RowValues(rawdata)
      case None => None
      case Some(data) => Some(TableData(data, if columns.Some? then columns.value else Names(rawdata[0].fields)))
    else
      Some(TableData(IndexedRows(rawdata), ["index", "element"]))
  }

  /**
   * An array of non-objects becomes a two-column table whose first cell reads back as
   * the row's position and whose second cell is the element itself.
   */
  lemma IndexedTableRoundTrip(rawdata: seq<Value>, columns: Option<seq<string>>, i: nat)
    requires rawdata == [] || !rawdata[0].Obj?
    requires i < |rawdata|
    ensures var t := SimplifyTableData(rawdata, columns).value;
      && t.columns == ["index", "element"]
      && |t.data[i]| == 2 && t.data[i][0].Str? && t.data[i][1] == rawdata[i]
      && ParseNat(t.data[i][0].s) == Some(i)
  {
    ParsePrinted(i);
  }

  predicate DistinctNames(fields: seq<(string, Value)>)
  {
    forall j, k :: 0 <= j < k < |fields| ==> fields[j].0 != fields[k].0
  }

  /** With distinct names, the k-th entry is the one found under its name. */
  lemma {:induction false} FieldAt(fields: seq<(string, Value)>, k: nat)
    requires DistinctNames(fields) && k < |fields|
    ensures Field(fields, fields[k].0) == fields[k].1
  {
    if k > 0 {
      assert fields[0].0 != fields[k].0;
      assert fields[1..][k - 1] == fields[k];
      FieldAt(fields[1..], k - 1);
    }
  }

  /**
   * Objects sharing the first row's keys, with no header override, line up: the
   * cell in row i, column k is row i's property named by header k.
   */
  lemma ObjectTableLinesUp(rawdata: seq<Value>, i: nat, k: nat)
    requires rawdata != [] && rawdata[0].Obj? && i < |rawdata|
    requires forall r :: 0 <= r < |rawdata| ==>
      rawdata[r].Obj? && DistinctNames(rawdata[r].fields) && Names(rawdata[r].fields) == Names(rawdata[0].fields)
    requires k < |rawdata[0].fields|
    ensures var t := SimplifyTableData(rawdata, None).value;
      && t.columns == Names(rawdata[0].fields)
      && k < |t.data[i]| && Index(rawdata[i], Name(t.columns[k])) == Some(t.data[i][k])
  {
    var fields := rawdata[i].fields;
    assert Names(fields)[k] == Names(rawdata[0].fields)[k];
    FieldAt(fields, k);
  }

  // ----- Charts -----

  /** A chart dataset (`label` in Chart.js is `legend` here); the random colour of each dataset is not modelled. */
  datatype Dataset = Dataset(legend: Option<string>, data: seq<Value>)

  /**
   * The result of `_simplifyChartData`: no chart (`undefined`, for an empty array or
   * a first element that is no object, array or number), a `TypeError`, or the chart.
   */
  datatype ChartOutcome = NotDrawn | TypeError | Chart(labels: seq<string>, datasets: seq<Dataset>)

  /** `data` is `rows.map(elem => elem[key])`. */
  ghost predicate IsColumn(data: seq<Value>, rows: seq<Value>, key: Key)
  {
    |data| == |rows| && forall i :: 0 <= i < |rows| ==> Index(rows[i], key) == Some(data[i])
  }

  ghost predicate AllBlank(labels: seq<string>, n: nat)
  {
    |labels| == n && forall i :: 0 <= i < n ==> labels[i] == ""
  }

  /** `rows[i][key].toString()`, `None` where it throws. */
  function LabelOf(row: Value, key: Key): Option<string>
  {
    match Index(row, key)
    case None => None
    case Some(v) => ToText(v)
  }

  /** The loop `labels[i] = ''` over the rows (media/object.js:310-312, 334-336, 359-361). */
  method BlankLabels(n: nat) returns (labels: seq<string>)
    ensures AllBlank(labels, n)
  {
    labels := [];
    for i := 0 to n
      invariant AllBlank(labels, i)
    {
      labels := labels + [""];
    }
  }

  /** The inner loop `data.push(elem[key])` (media/object.js:316-319, 342-345); `None` where it throws. */
  method ColumnOf(rows: seq<Value>, key: Key) returns (data: Option<seq<Value>>)
    ensures data.Some? <==> forall i :: 0 <= i < |rows| ==> Indexable(rows[i])
    ensures data.Some? ==> IsColumn(data.value, rows, key)
  {
    var column: seq<Value> := [];
    for i := 0 to |rows|
      invariant forall k :: 0 <= k < i ==> Indexable(rows[k])
      invariant IsColumn(column, rows[..i], key)
    {
      var v := Index(rows[i], key);
      if v.None? {
        return None;
      }
      column := column + [v.value];
    }
    assert rows[..|rows|] == rows;
    return Some(column);
  }

  /**
   * The outer loop over the keys (media/object.js:315-327, 341-353): one dataset per
   * key, in order, labelled by the key's text and holding every row's value at it.
   */
  method DatasetsFor(rows: seq<Value>, keys: seq<Key>) returns (datasets: Option<seq<Dataset>>)
    ensures datasets.Some? <==> keys == [] || forall i :: 0 <= i < |rows| ==> Indexable(rows[i])
    ensures datasets.Some? ==> && |datasets.value| == |keys|
                               && forall j :: 0 <= j < |keys| ==>
                                    && datasets.value[j].legend == Some(KeyText(keys[j]))
                                    && IsColumn(datasets.value[j].data, rows, keys[j])
  {
    var sets: seq<Dataset> := [];
    for j := 0 to |keys|
      invariant j > 0 ==> forall i :: 0 <= i < |rows| ==> Indexable(rows[i])
      invariant |sets| == j
      invariant forall k :: 0 <= k < j ==> sets[k].legend == Some(KeyText(keys[k])) && IsColumn(sets[k].data, rows, keys[k])
    {
      var data := ColumnOf(rows, keys[j]);
      if data.None? {
        return None;
      }
      sets := sets + [Dataset(Some(KeyText(keys[j])), data.value)];
    }
    return Some(sets);
  }

  /** The label loop `labels.push(elem[key].toString())` (media/object.js:305-307); `None` where it throws. */
  method LabelsFor(rows: seq<Value>, key: Key) returns (labels: Option<seq<string>>)
    ensures labels.Some? <==> forall i :: 0 <= i < |rows| ==> LabelOf(rows[i], key).Some?
    ensures labels.Some? ==> |labels.value| == |rows| && forall i :: 0 <= i < |rows| ==> LabelOf(rows[i], key) == Some(labels.value[i])
  {
    var texts: seq<string> := [];
    for i := 0 to |rows|
      invariant forall k :: 0 <= k < i ==> LabelOf(rows[k], key).Some?
      invariant |texts| == i && forall k :: 0 <= k < i ==> LabelOf(rows[k], key) == Some(texts[k])
    {
      var text := LabelOf(rows[i], key);
      if text.None? {
        return None;
      }
      texts := texts + [text.value];
    }
    return Some(texts);
  }

  /** The column positions `0 .. n-1` (media/object.js:337-340). */
  function Positions(n: nat): (keys: seq<Key>)
    ensures |keys| == n && forall j :: 0 <= j < n ==> keys[j] == Position(j)
  {
    seq(n, j requires 0 <= j < n => Position(j))
  }

  /** `xAxisKeys[0]`; reading past the end gives `undefined`, which names the property "undefined". */
  function XAxisKey(xAxisKeys: seq<string>): Key
  {
    if xAxisKeys == [] then Name("undefined") else Name(xAxisKeys[0])
  }

  /** An array of numbers: blank labels and one unlabelled dataset holding the array as it is. */
  ghost predicate NumberChart(rawdata: seq<Value>, out: ChartOutcome)
  {
    out.Chart? && AllBlank(out.labels, |rawdata|) && out.datasets == [Dataset(None, rawdata)]
  }

  /**
   * An array of arrays: blank labels and one dataset per position of the first row,
   * labelled by the position and holding every row's element there; a `TypeError`
   * exactly when there is a position and some row is `null` or `undefined`.
   */
  ghost predicate ArrayChart(rawdata: seq<Value>, width: nat, out: ChartOutcome)
  {
    && (out.TypeError? <==> width > 0 && exists i :: 0 <= i < |rawdata| && !Indexable(rawdata[i]))
    && (!out.TypeError? ==>
          && out.Chart? && AllBlank(out.labels, |rawdata|) && |out.datasets| == width
          && forall j :: 0 <= j < width ==>
               out.datasets[j].legend == Some(NatToString(j)) && IsColumn(out.datasets[j].data, rawdata, Position(j)))
  }

  /**
   * An array of objects: labels from each row's first x-axis key when x-axis keys
   * are given, blank otherwise; one dataset per y-axis key, in order, labelled by the
   * key and holding every row's value at it; a `TypeError` exactly when a label or
   * a dataset value cannot be read.
   */
  ghost predicate ObjectChart(rawdata: seq<Value>, xAxisKeys: Option<seq<string>>, yAxisKeys: Option<seq<string>>, out: ChartOutcome)
  {
    var ys := if yAxisKeys.Some? then yAxisKeys.value else [];
    && (out.TypeError? <==>
          || (xAxisKeys.Some? && exists i :: 0 <= i < |rawdata| && LabelOf(rawdata[i], XAxisKey(xAxisKeys.value)).None?)
          || (ys != [] && exists i :: 0 <= i < |rawdata| && !Indexable(rawdata[i])))
    && (!out.TypeError? ==>
          && out.Chart? && |out.labels| == |rawdata| && |out.datasets| == |ys|
          && (xAxisKeys.None? ==> AllBlank(out.labels, |rawdata|))
          && (xAxisKeys.Some? ==> forall i :: 0 <= i < |rawdata| ==> LabelOf(rawdata[i], XAxisKey(xAxisKeys.value)) == Some(out.labels[i]))
          && forall j :: 0 <= j < |ys| ==> out.datasets[j].legend == Some(ys[j]) && IsColumn(out.datasets[j].data, rawdata, Name(ys[j])))
  }

  /**
   * The chart metadata of an evaluation result; `_simplifyChartData` writes the
   * labels it computes from x-axis keys back into it (media/object.js:308).
   */
  class ChartMetadata {
    const xAxisKeys: Option<seq<string>>
    const yAxisKeys: Option<seq<string>>
    var labels: Option<seq<string>>

    constructor (xAxisKeys: Option<seq<string>>, yAxisKeys: Option<seq<string>>)
      ensures this.xAxisKeys == xAxisKeys && this.yAxisKeys == yAxisKeys && labels == None
    {
      this.xAxisKeys := xAxisKeys;
      this.yAxisKeys := yAxisKeys;
      labels := None;
    }
  }

  /**
   * `_simplifyChartData` (media/object.js:296-373), dispatching on the first element.
   * Only the object case touches the metadata: once every label has been read, the
   * labels are stored in it, even if a dataset read throws afterwards.
   */
  method SimplifyChartData(rawdata: seq<Value>, metadata: ChartMetadata) returns (out: ChartOutcome)
    modifies metadata`labels
    ensures rawdata == [] || !(rawdata[0].Obj? || rawdata[0].Arr? || rawdata[0].Num?) ==> out == NotDrawn
    ensures rawdata != [] && rawdata[0].Num? ==> NumberChart(rawdata, out)
    ensures rawdata != [] && rawdata[0].Arr? ==> ArrayChart(rawdata, |rawdata[0].elems|, out)
    ensures rawdata != [] && rawdata[0].Obj? ==> ObjectChart(rawdata, metadata.xAxisKeys, metadata.yAxisKeys, out)
    ensures !(rawdata != [] && rawdata[0].Obj? && metadata.xAxisKeys.Some?) ==> metadata.labels == old(metadata.labels)
    ensures rawdata != [] && rawdata[0].Obj? && metadata.xAxisKeys.Some? ==>
      if forall i :: 0 <= i < |rawdata| ==> LabelOf(rawdata[i], XAxisKey(metadata.xAxisKeys.value)).Some?
      then && metadata.labels.Some? && |metadata.labels.value| == |rawdata|
           && (forall i :: 0 <= i < |rawdata| ==> LabelOf(rawdata[i], XAxisKey(metadata.xAxisKeys.value)) == Some(metadata.labels.value[i]))
           && (out.Chart? ==> out.labels == metadata.labels.value)
      else metadata.labels == old(metadata.labels)
  {
    if rawdata == [] {
      return NotDrawn;
    }
    var first := rawdata[0];
    match first {
      case Obj(_) =>
        out := ObjectChartData(rawdata, metadata);
      case Arr(elems) =>
        var labels := BlankLabels(|rawdata|);
        var datasets := DatasetsFor(rawdata, Positions(|elems|));
        if datasets.None? {
          return TypeError;
        }
        out := Chart(labels, datasets.value);
      case Num(_) =>
        var labels := BlankLabels(|rawdata|);
        out := Chart(labels, [Dataset(None, rawdata)]);
      case _ =>
        out := NotDrawn;
    }
  }

  /** The object case of `_simplifyChartData` (media/object.js:302-332). */
  method ObjectChartData(rawdata: seq<Value>, metadata: ChartMetadata) returns (out: ChartOutcome)
    requires rawdata != [] && rawdata[0].Obj?
    modifies metadata`labels
    ensures ObjectChart(rawdata, metadata.xAxisKeys, metadata.yAxisKeys, out)
    ensures metadata.xAxisKeys.None? ==> metadata.labels == old(metadata.labels)
    ensures metadata.xAxisKeys.Some? ==>
      if forall i :: 0 <= i < |rawdata| ==> LabelOf(rawdata[i], XAxisKey(metadata.xAxisKeys.value)).Some?
      then && metadata.labels.Some? && |metadata.labels.value| == |rawdata|
           && (forall i :: 0 <= i < |rawdata| ==> LabelOf(rawdata[i], XAxisKey(metadata.xAxisKeys.value)) == Some(metadata.labels.value[i]))
           && (out.Chart? ==> out.labels == metadata.labels.value)
      else metadata.labels == old(metadata.labels)
  {
    var labels: seq<string>;
    if metadata.xAxisKeys.Some? {
      var read := LabelsFor(rawdata, XAxisKey(metadata.xAxisKeys.value));
      if read.None? {
        return TypeError;
      }
      labels := read.value;
      metadata.labels := Some(labels);
    } else {
      labels := BlankLabels(|rawdata|);
    }
    var datasets: seq<Dataset> := [];
    if metadata.yAxisKeys.Some? {
      var keys := seq(|metadata.yAxisKeys.value|, j requires 0 <= j < |metadata.yAxisKeys.value| => Name(metadata.yAxisKeys.value[j]));
      var sets := DatasetsFor(rawdata, keys);
      if sets.None? {
        return TypeError;
      }
      datasets := sets.value;
    }
    out := Chart(labels, datasets);
  }

  /**
   * A rectangular array of arrays is transposed: dataset j holds the j-th element of
   * every row, in row order.
   */
  lemma ArrayChartTransposes(rawdata: seq<Value>, out: ChartOutcome, i: nat, j: nat)
    requires rawdata != [] && rawdata[0].Arr?
    requires forall r :: 0 <= r < |rawdata| ==> rawdata[r].Arr? && |rawdata[r].elems| == |rawdata[0].elems|
    requires ArrayChart(rawdata, |rawdata[0].elems|, out)
    requires i < |rawdata| && j < |rawdata[0].elems|
    ensures out.Chart? && j < |out.datasets| && i < |out.datasets[j].data|
    ensures out.datasets[j].data[i] == rawdata[i].elems[j]
  {
    assert Indexable(rawdata[i]);
    assert Index(rawdata[i], Position(j)) == Some(out.datasets[j].data[i]);
  }

  // ----- The inspector -----

  /** The keys the expression field reacts to. */
  datatype KeyCode = Backspace | Enter | OtherKey

  /** The `evaluate` message to the host. */
  datatype EvaluateMessage = Evaluate(expression: string, pageSize: nat)

  /** The `variable` message a numbered page button posts. */
  datatype VariableMessage = Variable(offset: nat, pageSize: nat)

  /**
   * `ObjectInspector` (media/object.js:5-16): the height in rows of the expression
   * field and the offsets of the numbered page buttons currently shown.
   */
  class ObjectInspector {
    /** `pageSize` (media/object.js:9). */
    const pageSize: nat := 50
    var rows: int
    var pageOffsets: seq<nat>

    /** The field is at least one row high and button i starts page i. */
    ghost predicate Valid()
      reads this
    {
      && rows >= 1
      && forall i :: 0 <= i < |pageOffsets| ==> pageOffsets[i] == i * pageSize
    }

    /** `_renderInputField` starts the field one row high (media/object.js:28). */
    constructor ()
      ensures Valid() && rows == 1 && pageOffsets == []
    {
      rows := 1;
      pageOffsets := [];
    }

    /**
     * The field's `keydown` listener (media/object.js:31-55), `value` being the text
     * before the key takes effect: Backspace shrinks the field by a row when it is
     * more than one row high and the text ends in a newline, Enter grows it by one,
     * and Meta+Enter posts the text for evaluation instead.
     */
    method KeyDown(code: KeyCode, metaKey: bool, value: string) returns (msg: Option<EvaluateMessage>)
      requires Valid()
      modifies this`rows
      ensures Valid()
      ensures code.Backspace? ==> msg.None? && rows == if old(rows) > 1 && EndsWith(value, "\n") then old(rows) - 1 else old(rows)
      ensures code.Enter? && metaKey ==> msg == Some(Evaluate(value, pageSize)) && rows == old(rows)
      ensures code.Enter? && !metaKey ==> msg.None? && rows == old(rows) + 1
      ensures code.OtherKey? ==> msg.None? && rows == old(rows)
    {
      msg := None;
      match code {
        case Backspace =>
          if rows > 1 && EndsWith(value, "\n") {
            rows := rows - 1;
          }
        case Enter =>
          if metaKey {
            msg := Some(Evaluate(value, pageSize));
          } else {
            rows := rows + 1;
          }
        case OtherKey =>
      }
    }

    /** `paginate(len)` (media/object.js:408-435): one numbered button per page of `len` items. */
    method ShowPagination(len: nat)
      requires Valid()
      modifies this`pageOffsets
      ensures Valid()
      ensures |pageOffsets| == Pagination.CeilDiv(len, pageSize)
    {
      pageOffsets := Pagination.Paginate(len, pageSize);
    }

    /** A click on numbered button i (media/object.js:418-428) asks for the page from `(i - 1) * pageSize`. */
    method ClickPageButton(i: nat) returns (msg: VariableMessage)
      requires Valid() && 1 <= i <= |pageOffsets|
      ensures msg == Variable((i - 1) * pageSize, pageSize)
    {
      msg := Variable(pageOffsets[i - 1], pageSize);
    }
  }
}
