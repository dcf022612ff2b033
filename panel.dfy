/**
 * What `JsonViewerPanel` of frontend/app.js returns for its current state: the "No data yet"
 * and "Invalid data" hints, or a toolbar, a tree or table body, and the bottom "Show more".
 */
module Panel {
  import opened Wrappers
  import opened JsonModel
  import opened Search
  import opened Labels
  import opened Classifier
  import opened Render

  datatype ViewMode = TreeMode | TableMode

  /** The toolbar: the search box's text, the view toggle's caption if shown, and whether "Export .csv" is shown. */
  datatype Toolbar = Toolbar(searchText: string, toggleCaption: Option<string>, exportCsv: bool)

  /** A table row: the running number in the `#` column and one cell per header (`None` is `undefined`). */
  datatype TableRow = TableRow(number: nat, cells: seq<Option<Node>>)

  datatype Table = Table(headers: seq<string>, body: seq<TableRow>)

  datatype Content = TreeBody(rows: seq<Row>) | TableBody(table: Table)

  datatype View =
    | NoData
    | InvalidData
    | Panel(toolbar: Toolbar, content: Content, showMore: bool)

  /** `rows.filter(keep)`: the rows `keep` accepts, in their order. */
  function Filter<T>(keep: T -> bool, rows: seq<T>): (r: seq<T>)
    ensures |r| <= |rows|
  {
    if rows == [] then []
    else if keep(rows[0]) then [rows[0]] + Filter(keep, rows[1..])
    else Filter(keep, rows[1..])
  }

  /** Filtering distributes over concatenation: each part keeps its own accepted rows, in place. */
  lemma {:induction false} FilterConcat<T>(keep: T -> bool, a: seq<T>, b: seq<T>)
    ensures Filter(keep, a + b) == Filter(keep, a) + Filter(keep, b)
    decreases |a|
  {
    if a == [] {
      assert a + b == b;
    } else {
      assert (a + b)[0] == a[0] && (a + b)[1..] == a[1..] + b;
      FilterConcat(keep, a[1..], b);
    }
  }

  /**
   * The kept rows are the accepted rows picked out at strictly increasing positions: order and
   * repeated rows are kept, and a position is picked exactly when its row is accepted.
   */
  lemma {:induction false} FilterPositions<T>(keep: T -> bool, rows: seq<T>) returns (idx: seq<nat>)
    ensures |idx| == |Filter(keep, rows)|
    ensures forall j :: 0 <= j < |idx| ==> idx[j] < |rows| && Filter(keep, rows)[j] == rows[idx[j]]
    ensures forall a, b :: 0 <= a < b < |idx| ==> idx[a] < idx[b]
    ensures forall k :: 0 <= k < |rows| ==> (k in idx <==> keep(rows[k]))
    decreases |rows|
  {
    if rows == [] {
      return [];
    }
    var rest := FilterPositions(keep, rows[1..]);
    var shifted := ShiftPositions(keep, rows, rest);
    if keep(rows[0]) {
      assert Filter(keep, rows) == [rows[0]] + Filter(keep, rows[1..]);
      idx := PrependPosition(keep, rows, Filter(keep, rows[1..]), shifted);
    } else {
      idx := shifted;
    }
  }

  /** Position 0 in front of the tail's positions picks out the first row and then the tail's rows. */
  lemma PrependPosition<T>(keep: T -> bool, rows: seq<T>, tail: seq<T>, shifted: seq<nat>) returns (idx: seq<nat>)
    requires rows != [] && keep(rows[0])
    requires |shifted| == |tail|
    requires forall j :: 0 <= j < |shifted| ==> 1 <= shifted[j] < |rows| && tail[j] == rows[shifted[j]]
    requires forall a, b :: 0 <= a < b < |shifted| ==> shifted[a] < shifted[b]
    requires forall k :: 1 <= k < |rows| ==> (k in shifted <==> keep(rows[k]))
    requires 0 !in shifted
    ensures |idx| == |[rows[0]] + tail|
    ensures forall j :: 0 <= j < |idx| ==> idx[j] < |rows| && ([rows[0]] + tail)[j] == rows[idx[j]]
    ensures forall a, b :: 0 <= a < b < |idx| ==> idx[a] < idx[b]
    ensures forall k :: 0 <= k < |rows| ==> (k in idx <==> keep(rows[k]))
  {
    idx := [0] + shifted;
    forall j | 1 <= j < |idx|
      ensures idx[j] == shifted[j - 1]
    {
    }
  }

  /** The positions of the tail's kept rows, moved one place up to count in the whole sequence. */
  lemma ShiftPositions<T>(keep: T -> bool, rows: seq<T>, rest: seq<nat>) returns (shifted: seq<nat>)
    requires rows != []
    requires |rest| == |Filter(keep, rows[1..])|
    requires forall j :: 0 <= j < |rest| ==> rest[j] < |rows[1..]| && Filter(keep, rows[1..])[j] == rows[1..][rest[j]]
    requires forall a, b :: 0 <= a < b < |rest| ==> rest[a] < rest[b]
    requires forall k :: 0 <= k < |rows[1..]| ==> (k in rest <==> keep(rows[1..][k]))
    ensures |shifted| == |rest|
    ensures forall j :: 0 <= j < |shifted| ==> 1 <= shifted[j] < |rows| && Filter(keep, rows[1..])[j] == rows[shifted[j]]
    ensures forall a, b :: 0 <= a < b < |shifted| ==> shifted[a] < shifted[b]
    ensures forall k :: 1 <= k < |rows| ==> (k in shifted <==> keep(rows[k]))
    ensures 0 !in shifted
  {
    shifted := seq(|rest|, j requires 0 <= j < |rest| => rest[j] + 1);
    forall k | 1 <= k < |rows|
      ensures k in shifted <==> keep(rows[k])
    {
      ShiftedMember(rest, shifted, k);
      assert rows[k] == rows[1..][k - 1];
    }
  }

  /** A position occurs among the shifted positions exactly when the one before it occurs unshifted. */
  lemma ShiftedMember(rest: seq<nat>, shifted: seq<nat>, k: nat)
    requires |shifted| == |rest| && forall j :: 0 <= j < |rest| ==> shifted[j] == rest[j] + 1
    requires 1 <= k
    ensures k in shifted <==> k - 1 in rest
  {
    if k - 1 in rest {
      var j :| 0 <= j < |rest| && rest[j] == k - 1;
      assert shifted[j] == k;
    }
  }

  /** A row is kept exactly when it is one of the rows and is accepted. */
  lemma {:induction false} FilterMembers<T>(keep: T -> bool, rows: seq<T>)
    ensures forall x :: x in Filter(keep, rows) <==> x in rows && keep(x)
    decreases |rows|
  {
    if rows != [] {
      FilterMembers(keep, rows[1..]);
      assert forall x :: x in rows <==> x == rows[0] || x in rows[1..];
    }
  }

  /** A test that accepts every row keeps them all. */
  lemma {:induction false} FilterKeepsAll<T>(keep: T -> bool, rows: seq<T>)
    requires forall j :: 0 <= j < |rows| ==> keep(rows[j])
    ensures Filter(keep, rows) == rows
    decreases |rows|
  {
    if rows != [] {
      FilterKeepsAll(keep, rows[1..]);
      assert rows == [rows[0]] + rows[1..];
    }
  }

  /** `r => matchesSearch('', r)`: a row is tested with the empty key. */
  function KeepFor(search: string, ser: Serializer): Node -> bool {
    x => MatchesSearch(search, ser, "", x)
  }

  /** `rows.filter(r => matchesSearch('', r))`. */
  function FilterRows(search: string, ser: Serializer, rows: seq<Node>): (r: seq<Node>)
    ensures |r| <= |rows|
    ensures search == "" ==> r == rows
  {
    if search == "" then FilterKeepsAll(KeepFor(search, ser), rows); Filter(KeepFor(search, ser), rows)
    else Filter(KeepFor(search, ser), rows)
  }

  /** The table filter distributes over concatenation. */
  lemma FilterRowsConcat(search: string, ser: Serializer, a: seq<Node>, b: seq<Node>)
    ensures FilterRows(search, ser, a + b) == FilterRows(search, ser, a) + FilterRows(search, ser, b)
  {
    FilterConcat(KeepFor(search, ser), a, b);
  }

  /** The table filter keeps, in order and with repeats, exactly the rows that match with the empty key. */
  lemma FilterRowsPositions(search: string, ser: Serializer, rows: seq<Node>) returns (idx: seq<nat>)
    ensures |idx| == |FilterRows(search, ser, rows)|
    ensures forall j :: 0 <= j < |idx| ==> idx[j] < |rows| && FilterRows(search, ser, rows)[j] == rows[idx[j]]
    ensures forall a, b :: 0 <= a < b < |idx| ==> idx[a] < idx[b]
    ensures forall k :: 0 <= k < |rows| ==> (k in idx <==> MatchesSearch(search, ser, "", rows[k]))
  {
    idx := FilterPositions(KeepFor(search, ser), rows);
    forall k | 0 <= k < |rows|
      ensures KeepFor(search, ser)(rows[k]) == MatchesSearch(search, ser, "", rows[k])
    {
    }
  }

  /** The cells of one row, `headers.map(h => row[h])`. */
  function Cells(row: Node, headers: seq<string>): (r: seq<Option<Node>>)
    ensures |r| == |headers|
    ensures forall j :: 0 <= j < |headers| ==> r[j] == if row.Obj? then Lookup(row.props, headers[j]) else None
  {
    seq(|headers|, j requires 0 <= j < |headers| => if row.Obj? then Lookup(row.props, headers[j]) else None)
  }

  /** `.map((row, idx) => ...)`: rows numbered from 1 in the order they are shown. */
  function NumberRows(rows: seq<Node>, headers: seq<string>): (r: seq<TableRow>)
    ensures |r| == |rows|
    ensures forall j :: 0 <= j < |rows| ==> r[j] == TableRow(j + 1, Cells(rows[j], headers))
  {
    seq(|rows|, j requires 0 <= j < |rows| => TableRow(j + 1, Cells(rows[j], headers)))
  }

  /** Column titles: the item schema's property title, else the raw key. The key mapping is not consulted. */
  function HeaderTitles(itemSchema: Option<Schema>, keys: seq<string>): (r: seq<string>)
    ensures |r| == |keys|
  {
    seq(|keys|, j requires 0 <= j < |keys| => GetPropertyTitle(itemSchema, keys[j]).GetOr(keys[j]))
  }

  /** The table of a flat uniform array: the first `visibleCount` items, filtered, numbered. */
  function TableOf(ctx: Ctx, items: seq<Node>, schema: Option<Schema>): Table
    requires |items| > 0 && items[0].Obj?
  {
    var keys := Keys(items[0].props);
    var window := items[..Shown(|items|, ctx.visibleCount)];
    Table(HeaderTitles(GetItemsSchema(schema), keys), NumberRows(FilterRows(ctx.search, ctx.ser, window), keys))
  }

  /** The panel for a payload (absent when the envelope has none) in the given view mode. */
  function ViewOf(ctx: Ctx, payload: Option<Node>, schema: Option<Schema>, mode: ViewMode): View {
    if payload.None? || !Truthy(payload.value) then NoData
    else if payload.value.Scalar? && payload.value.p.Str? then InvalidData
    else
      var v := payload.value;
      var flat := IsFlatUniformArray(v);
      var toolbar := Toolbar(ctx.search,
                             if flat then Some(if mode == TableMode then "Tree view" else "Table view") else None,
                             mode == TableMode && flat);
      var content := if mode == TableMode && flat then TableBody(TableOf(ctx, v.items, schema))
                     else TreeBody(RenderTree(ctx, v, 0, [], schema));
      Panel(toolbar, content, v.Arr? && |v.items| > ctx.visibleCount)
  }

  /**
   * Which panel is shown: nothing without a truthy payload, a hint for a string, otherwise a
   * toolbar whose toggle appears only for a flat uniform array, a table only in table mode
   * over such an array, and the bottom "Show more" exactly when an array payload has hidden items.
   */
  lemma ViewCases(ctx: Ctx, payload: Option<Node>, schema: Option<Schema>, mode: ViewMode)
    ensures ViewOf(ctx, payload, schema, mode).NoData? <==> payload.None? || !Truthy(payload.value)
    ensures ViewOf(ctx, payload, schema, mode).InvalidData? <==>
              payload.Some? && payload.value.Scalar? && payload.value.p.Str? && payload.value.p.s != ""
    ensures ViewOf(ctx, payload, schema, mode).Panel? ==>
              && payload.Some?
              && (ViewOf(ctx, payload, schema, mode).content.TableBody? <==> mode == TableMode && IsFlatUniformArray(payload.value))
              && (ViewOf(ctx, payload, schema, mode).toolbar.toggleCaption.Some? <==> IsFlatUniformArray(payload.value))
              && (ViewOf(ctx, payload, schema, mode).toolbar.exportCsv <==> ViewOf(ctx, payload, schema, mode).content.TableBody?)
              && (ViewOf(ctx, payload, schema, mode).showMore <==>
                    payload.value.Arr? && |payload.value.items| > ctx.visibleCount)
  {
  }

  /** In a table every row shows a value in every column: all rows carry the first row's keys. */
  lemma TableCellsDefined(ctx: Ctx, items: seq<Node>, schema: Option<Schema>)
    requires IsFlatUniformArray(Arr(items))
    ensures forall r, j :: r in TableOf(ctx, items, schema).body && 0 <= j < |r.cells| ==> r.cells[j].Some?
  {
    var keys := Keys(items[0].props);
    var shown := FilterRows(ctx.search, ctx.ser, items[..Shown(|items|, ctx.visibleCount)]);
    var rows := NumberRows(shown, keys);
    FilterMembers(KeepFor(ctx.search, ctx.ser), items[..Shown(|items|, ctx.visibleCount)]);
    forall r, j | r in rows && 0 <= j < |r.cells|
      ensures r.cells[j].Some?
    {
      var m :| 0 <= m < |shown| && rows[m] == r;
      assert shown[m] in items[..Shown(|items|, ctx.visibleCount)];
      FlatRowHasKey(items, shown[m], j);
    }
  }

  lemma FlatRowHasKey(items: seq<Node>, x: Node, j: nat)
    requires IsFlatUniformArray(Arr(items)) && x in items && j < |items[0].props|
    ensures Cells(x, Keys(items[0].props))[j].Some?
  {
    IsFlatUniformArrayIff(Arr(items));
    var k :| 0 <= k < |items| && items[k] == x;
    RowHasKey(items, k, j);
  }

  /** Item `k` of a flat uniform array has a member for the `j`-th key of item 0. */
  lemma RowHasKey(items: seq<Node>, k: nat, j: nat)
    requires |items| > 0 && k < |items| && (forall i :: 0 <= i < |items| ==> items[i].Obj?)
    requires multiset(Keys(items[k].props)) == multiset(Keys(items[0].props))
    requires j < |items[0].props|
    ensures Cells(items[k], Keys(items[0].props))[j].Some?
  {
    var h := Keys(items[0].props)[j];
    assert h in multiset(Keys(items[k].props));
    var i :| 0 <= i < |items[k].props| && Keys(items[k].props)[i] == h;
    assert items[k].props[i].0 == h;
  }

  /**
   * With no search text the table lists exactly the first `min(length, visibleCount)` items,
   * row `j` numbered `j + 1`.
   */
  lemma TableWithoutSearch(ctx: Ctx, items: seq<Node>, schema: Option<Schema>)
    requires |items| > 0 && items[0].Obj? && ctx.search == ""
    ensures |TableOf(ctx, items, schema).body| == Shown(|items|, ctx.visibleCount)
    ensures forall j :: 0 <= j < |TableOf(ctx, items, schema).body| ==>
              TableOf(ctx, items, schema).body[j] == TableRow(j + 1, Cells(items[j], Keys(items[0].props)))
  {
  }

  /**
   * A searched table shows, in their order and numbered from 1, exactly the items of the current
   * window whose serialisation contains the text: `idx` holds their positions.
   */
  lemma TableRowsMatch(ctx: Ctx, items: seq<Node>, schema: Option<Schema>) returns (idx: seq<nat>)
    requires IsFlatUniformArray(Arr(items)) && ctx.search != ""
    ensures |TableOf(ctx, items, schema).body| == |idx| <= Shown(|items|, ctx.visibleCount)
    ensures forall j :: 0 <= j < |idx| ==>
              && idx[j] < Shown(|items|, ctx.visibleCount)
              && TableOf(ctx, items, schema).body[j] == TableRow(j + 1, Cells(items[idx[j]], Keys(items[0].props)))
    ensures forall a, b :: 0 <= a < b < |idx| ==> idx[a] < idx[b]
    ensures forall k :: 0 <= k < Shown(|items|, ctx.visibleCount) ==> (k in idx <==> Hit(ctx.ser(items[k]), ctx.search))
  {
    IsFlatUniformArrayIff(Arr(items));
    var window := items[..Shown(|items|, ctx.visibleCount)];
    idx := FilterRowsPositions(ctx.search, ctx.ser, window);
    EmptyKeyMisses(ctx.search);
    forall k | 0 <= k < |window|
      ensures window[k] == items[k] && (MatchesSearch(ctx.search, ctx.ser, "", window[k]) <==> Hit(ctx.ser(items[k]), ctx.search))
    {
      assert window[k] == items[k];
    }
  }

  /** The empty key never contains a non-empty search text. */
  lemma EmptyKeyMisses(search: string)
    requires search != ""
    ensures !Hit("", search)
  {
    if Hit("", search) {
      HitNeedsFirstChar("", search);
    }
  }

  /** Column titles come from the item schema only: changing the key mapping leaves them alone. */
  lemma TableIgnoresKeyMapping(ctx: Ctx, items: seq<Node>, schema: Option<Schema>, km: map<string, string>)
    requires |items| > 0 && items[0].Obj?
    ensures TableOf(ctx.(keyMapping := km), items, schema) == TableOf(ctx, items, schema)
  {
  }
}
