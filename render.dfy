/**
 * `renderTree` and the panel body of frontend/app.js, as the list of rows they put on screen.
 * A row keeps what the reader sees (label, open/closed marker, indentation level) and the
 * address its click toggles; styling, number/date formatting and React keys are not kept.
 */
module Render {
  import opened Wrappers
  import opened JsonModel
  import opened PathKeys
  import opened Search
  import opened Labels
  import opened Classifier

  /** What a render pass reads from the panel's state. */
  datatype Ctx = Ctx(
    maxDepth: nat,
    expanded: set<string>,
    visibleCount: nat,
    search: string,
    ser: Serializer,
    keyMapping: map<string, string>,
    matches: (string, Node) -> bool)

  /** The member filter is the panel's `matchesSearch` for the current search text. */
  ghost predicate FiltersBySearch(ctx: Ctx) {
    forall k, x :: ctx.matches(k, x) == MatchesSearch(ctx.search, ctx.ser, k, x)
  }

  /** One rendered row; `level` is the indentation (`marginLeft / 14`) or the depth it stands for. */
  datatype Row =
    | DeeperHint(level: nat)
    | ArrayHeader(level: nat, title: string, isOpen: bool, address: string)
    | ItemHeader(level: nat, caption: string, isOpen: bool, address: string)
    | MemberHeader(level: nat, caption: string, isOpen: bool, address: string)
    | Leaf(level: nat, caption: string, value: Prim)
    | ShowMore(level: nat)

  /** `(singular || 'Item') + ' ' + indexOne + ':'`. */
  function ItemLabel(singular: Option<string>, indexOne: nat): string {
    singular.GetOr("Item") + " " + NatToString(indexOne) + ":"
  }

  /** `path[path.length - 1] ?? '[]'`, as text. */
  function LastKeyText(path: Path): string {
    if path == [] then "[]" else TokenText(path[|path| - 1])
  }

  /** The header text of an array: at the top, the schema's own title comes first. */
  function ArrayTitle(ctx: Ctx, depth: nat, path: Path, sch: Option<Schema>): string {
    var keyLabel := GetLabelForKey(ctx.keyMapping, LastKeyText(path), sch);
    if depth == 0 then GetSchemaTitle(sch).GetOr(keyLabel) else keyLabel
  }

  /** `Math.min(length, visibleCount)`: how many items an open array lists. */
  function Shown(length: nat, visibleCount: nat): nat {
    if length < visibleCount then length else visibleCount
  }

  /** `renderTree(value, depth, path, currentSchema)`. */
  function RenderTree(ctx: Ctx, v: Node, depth: nat, path: Path, sch: Option<Schema>): seq<Row>
    decreases v, 2
  {
    if depth >= ctx.maxDepth then [DeeperHint(depth)]
    else
      match v
      case Arr(items) =>
        var key := PathKey(path);
        var isOpen := key in ctx.expanded;
        var header := ArrayHeader(depth, ArrayTitle(ctx, depth, path, sch), isOpen, key);
        var children :=
          if isOpen then RenderItems(ctx, v, 0, Shown(|items|, ctx.visibleCount), depth, path, GetItemsSchema(sch))
          else [];
        var more := if isOpen && |items| > ctx.visibleCount then [ShowMore(depth)] else [];
        [header] + children + more
      case Obj(props) => RenderMembers(ctx, v, MatchingMembers(ctx.matches, props, 0), 0, depth, path, sch)
      case Scalar(p) => [Leaf(depth + 1, "(value)", p)]
  }

  /** The rows of items `i` up to `n` of an open array. */
  function RenderItems(ctx: Ctx, v: Node, i: nat, n: nat, depth: nat, path: Path, itemSchema: Option<Schema>): seq<Row>
    requires v.Arr? && i <= n <= |v.items|
    decreases v, 1, n - i
  {
    if i == n then [] else ItemRows(ctx, v, i, depth, path, itemSchema) + RenderItems(ctx, v, i + 1, n, depth, path, itemSchema)
  }

  /** One item of an open array: its header and, when the item is open, its own rows. */
  function ItemRows(ctx: Ctx, v: Node, i: nat, depth: nat, path: Path, itemSchema: Option<Schema>): seq<Row>
    requires v.Arr? && i < |v.items|
    decreases v, 0
  {
    var childPath := path + [Index(i + 1)];
    var childKey := PathKey(childPath);
    var itemOpen := childKey in ctx.expanded;
    var itemLabel := ItemLabel(GetSchemaTitle(itemSchema), i + 1);
    [ItemHeader(depth + 1, itemLabel, itemOpen, childKey)] +
    (if itemOpen then RenderTree(ctx, v.items[i], depth + 1, childPath, itemSchema) else [])
  }

  /**
   * The positions, in order, of the members from `i` on that pass the filter:
   * `Object.entries(value).filter(([k, v]) => matchesSearch(k, v))`.
   */
  function MatchingMembers(matches: (string, Node) -> bool, props: seq<(string, Node)>, i: nat): (r: seq<nat>)
    requires i <= |props|
    ensures forall j :: 0 <= j < |r| ==> i <= r[j] < |props|
    decreases |props| - i
  {
    if i == |props| then []
    else (if matches(props[i].0, props[i].1) then [i] else []) + MatchingMembers(matches, props, i + 1)
  }

  /** The rows of the kept members `ks[j..]` of an object. */
  function RenderMembers(ctx: Ctx, v: Node, ks: seq<nat>, j: nat, depth: nat, path: Path, sch: Option<Schema>): seq<Row>
    requires v.Obj? && j <= |ks| && forall t :: 0 <= t < |ks| ==> ks[t] < |v.props|
    decreases v, 1, |ks| - j
  {
    if j == |ks| then [] else MemberRows(ctx, v, ks[j], depth, path, sch) + RenderMembers(ctx, v, ks, j + 1, depth, path, sch)
  }

  /** One kept member: a leaf for a scalar, else a header and its rows. */
  function MemberRows(ctx: Ctx, v: Node, i: nat, depth: nat, path: Path, sch: Option<Schema>): seq<Row>
    requires v.Obj? && i < |v.props|
    decreases v, 0
  {
    var k := v.props[i].0;
    var x := v.props[i].1;
    if x.Scalar? then [Leaf(depth + 1, GetLabelForKey(ctx.keyMapping, k, sch), x.p)]
    else ContainerRows(ctx, k, x, depth, path, sch)
  }

  /** A member holding an array or object: its header and, when it is open, the container's rows. */
  function ContainerRows(ctx: Ctx, k: string, x: Node, depth: nat, path: Path, sch: Option<Schema>): seq<Row>
    decreases x, 3
  {
    var childPath := path + [Key(k)];
    var key := PathKey(childPath);
    var isOpen := key in ctx.expanded;
    [MemberHeader(depth, GetLabelForKey(ctx.keyMapping, k, sch), isOpen, key)] +
    (if isOpen then RenderTree(ctx, x, depth + 1, childPath, PropertySchema(sch, k)) else [])
  }

  // ---------------------------------------------------------------------------------------
  // Depth of a value

  /** Nesting depth: 0 for a scalar, one more than the deepest child for a container. */
  function Height(n: Node): nat
    decreases n, 1
  {
    if n.Scalar? then 0 else 1 + MaxHeight(n, |Children(n)|)
  }

  function MaxHeight(n: Node, j: nat): nat
    requires j <= |Children(n)|
    decreases n, 0, j
  {
    if j == 0 then 0
    else
      var h := Height(Children(n)[j - 1].1);
      var m := MaxHeight(n, j - 1);
      if h < m then m else h
  }

  lemma {:induction false} MaxHeightBound(n: Node, j: nat, i: nat)
    requires i < j <= |Children(n)|
    ensures Height(Children(n)[i].1) <= MaxHeight(n, j)
    decreases j
  {
    if i < j - 1 {
      MaxHeightBound(n, j - 1, i);
    }
  }

  /** Every child is strictly shallower than its container. */
  lemma ChildHeight(n: Node, i: nat)
    requires i < |Children(n)|
    ensures Height(Children(n)[i].1) < Height(n)
  {
    MaxHeightBound(n, |Children(n)|, i);
  }

  lemma ItemHeight(v: Node, i: nat)
    requires v.Arr? && i < |v.items|
    ensures Height(v.items[i]) < Height(v)
  {
    assert Children(v)[i].1 == v.items[i];
    ChildHeight(v, i);
  }

  lemma MemberHeight(v: Node, i: nat)
    requires v.Obj? && i < |v.props|
    ensures Height(v.props[i].1) < Height(v)
  {
    assert Children(v)[i].1 == v.props[i].1;
    ChildHeight(v, i);
  }

  // ---------------------------------------------------------------------------------------
  // Where rows can appear

  /**
   * A row produced by a render call at depth `d`: indented at least `d` and at most `maxDepth`;
   * item headers and leaves strictly below `d`; a depth hint only at `maxDepth`, and only if a
   * call as deep as `top` was made.
   */
  predicate RowOk(r: Row, d: nat, top: nat, maxDepth: nat) {
    && d <= r.level <= maxDepth
    && ((r.ItemHeader? || r.Leaf?) ==> r.level > d)
    && (r.DeeperHint? ==> r.level == maxDepth && r.level <= top)
  }

  predicate RowsOk(rows: seq<Row>, d: nat, top: nat, maxDepth: nat) {
    forall j :: 0 <= j < |rows| ==> RowOk(rows[j], d, top, maxDepth)
  }

  lemma RowsOkWeaken(rows: seq<Row>, d: nat, top: nat, d': nat, top': nat, maxDepth: nat)
    requires RowsOk(rows, d, top, maxDepth) && d' <= d && top <= top'
    ensures RowsOk(rows, d', top', maxDepth)
  {
  }

  lemma RowsOkConcat(a: seq<Row>, b: seq<Row>, d: nat, top: nat, maxDepth: nat)
    requires RowsOk(a, d, top, maxDepth) && RowsOk(b, d, top, maxDepth)
    ensures RowsOk(a + b, d, top, maxDepth)
  {
  }

  /**
   * Rows stay between the call's depth and `maxDepth`, and a depth hint only marks a value that
   * runs to `maxDepth`.
   */
  lemma {:induction false} RenderTreeOk(ctx: Ctx, v: Node, depth: nat, path: Path, sch: Option<Schema>)
    requires depth <= ctx.maxDepth
    ensures RowsOk(RenderTree(ctx, v, depth, path, sch), depth, depth + Height(v), ctx.maxDepth)
    decreases v, 2
  {
    if depth < ctx.maxDepth {
      match v
      case Arr(items) =>
        var isOpen := PathKey(path) in ctx.expanded;
        var header := ArrayHeader(depth, ArrayTitle(ctx, depth, path, sch), isOpen, PathKey(path));
        var children :=
          if isOpen then RenderItems(ctx, v, 0, Shown(|items|, ctx.visibleCount), depth, path, GetItemsSchema(sch))
          else [];
        var more := if isOpen && |items| > ctx.visibleCount then [ShowMore(depth)] else [];
        if isOpen {
          RenderItemsOk(ctx, v, 0, Shown(|items|, ctx.visibleCount), depth, path, GetItemsSchema(sch));
        }
        RowsOkConcat([header], children, depth, depth + Height(v), ctx.maxDepth);
        RowsOkConcat([header] + children, more, depth, depth + Height(v), ctx.maxDepth);
      case Obj(_) =>
        RenderMembersOk(ctx, v, MatchingMembers(ctx.matches, v.props, 0), 0, depth, path, sch);
      case Scalar(_) =>
    }
  }

  lemma {:induction false} RenderItemsOk(ctx: Ctx, v: Node, i: nat, n: nat, depth: nat, path: Path, itemSchema: Option<Schema>)
    requires v.Arr? && i <= n <= |v.items| && depth < ctx.maxDepth
    ensures RowsOk(RenderItems(ctx, v, i, n, depth, path, itemSchema), depth, depth + Height(v), ctx.maxDepth)
    decreases v, 1, n - i
  {
    if i < n {
      ItemRowsOk(ctx, v, i, depth, path, itemSchema);
      RenderItemsOk(ctx, v, i + 1, n, depth, path, itemSchema);
      RowsOkConcat(ItemRows(ctx, v, i, depth, path, itemSchema), RenderItems(ctx, v, i + 1, n, depth, path, itemSchema),
                   depth, depth + Height(v), ctx.maxDepth);
    }
  }

  lemma {:induction false} ItemRowsOk(ctx: Ctx, v: Node, i: nat, depth: nat, path: Path, itemSchema: Option<Schema>)
    requires v.Arr? && i < |v.items| && depth < ctx.maxDepth
    ensures RowsOk(ItemRows(ctx, v, i, depth, path, itemSchema), depth, depth + Height(v), ctx.maxDepth)
    decreases v, 0
  {
    var childPath := path + [Index(i + 1)];
    var itemOpen := PathKey(childPath) in ctx.expanded;
    var head := ItemHeader(depth + 1, ItemLabel(GetSchemaTitle(itemSchema), i + 1), itemOpen, PathKey(childPath));
    var sub := if itemOpen then RenderTree(ctx, v.items[i], depth + 1, childPath, itemSchema) else [];
    ItemHeight(v, i);
    if itemOpen {
      RenderTreeOk(ctx, v.items[i], depth + 1, childPath, itemSchema);
    }
    HeaderOverOk(head, sub, depth, depth + 1 + Height(v.items[i]), depth + Height(v), ctx.maxDepth);
    assert ItemRows(ctx, v, i, depth, path, itemSchema) == [head] + sub;
  }

  /** A header row above rows one level deeper. */
  lemma HeaderOverOk(head: Row, sub: seq<Row>, depth: nat, innerTop: nat, top: nat, maxDepth: nat)
    requires RowOk(head, depth, top, maxDepth)
    requires RowsOk(sub, depth + 1, innerTop, maxDepth) && innerTop <= top
    ensures RowsOk([head] + sub, depth, top, maxDepth)
  {
    forall j | 0 <= j < |[head] + sub| ensures RowOk(([head] + sub)[j], depth, top, maxDepth) {
      if j > 0 {
        assert ([head] + sub)[j] == sub[j - 1];
      }
    }
  }

  lemma {:induction false} RenderMembersOk(ctx: Ctx, v: Node, ks: seq<nat>, j: nat, depth: nat, path: Path, sch: Option<Schema>)
    requires v.Obj? && j <= |ks| && (forall t :: 0 <= t < |ks| ==> ks[t] < |v.props|) && depth < ctx.maxDepth
    ensures RowsOk(RenderMembers(ctx, v, ks, j, depth, path, sch), depth, depth + Height(v), ctx.maxDepth)
    decreases v, 1, |ks| - j
  {
    if j < |ks| {
      MemberRowsOk(ctx, v, ks[j], depth, path, sch);
      RenderMembersOk(ctx, v, ks, j + 1, depth, path, sch);
      RowsOkConcat(MemberRows(ctx, v, ks[j], depth, path, sch), RenderMembers(ctx, v, ks, j + 1, depth, path, sch),
                   depth, depth + Height(v), ctx.maxDepth);
    }
  }

  lemma {:induction false} MemberRowsOk(ctx: Ctx, v: Node, i: nat, depth: nat, path: Path, sch: Option<Schema>)
    requires v.Obj? && i < |v.props| && depth < ctx.maxDepth
    ensures RowsOk(MemberRows(ctx, v, i, depth, path, sch), depth, depth + Height(v), ctx.maxDepth)
    decreases v, 0
  {
    var k := v.props[i].0;
    var x := v.props[i].1;
    if !x.Scalar? {
      assert MemberRows(ctx, v, i, depth, path, sch) == ContainerRows(ctx, k, x, depth, path, sch);
      ContainerRowsOk(ctx, k, x, depth, path, sch);
      MemberHeight(v, i);
      RowsOkWeaken(ContainerRows(ctx, k, x, depth, path, sch), depth, depth + 1 + Height(x), depth, depth + Height(v), ctx.maxDepth);
    }
  }

  lemma {:induction false} ContainerRowsOk(ctx: Ctx, k: string, x: Node, depth: nat, path: Path, sch: Option<Schema>)
    requires depth < ctx.maxDepth
    ensures RowsOk(ContainerRows(ctx, k, x, depth, path, sch), depth, depth + 1 + Height(x), ctx.maxDepth)
    decreases x, 3
  {
    var childPath := path + [Key(k)];
    var isOpen := PathKey(childPath) in ctx.expanded;
    var head := MemberHeader(depth, GetLabelForKey(ctx.keyMapping, k, sch), isOpen, PathKey(childPath));
    var sub := if isOpen then RenderTree(ctx, x, depth + 1, childPath, PropertySchema(sch, k)) else [];
    if isOpen {
      RenderTreeOk(ctx, x, depth + 1, childPath, PropertySchema(sch, k));
    }
    HeaderOverOk(head, sub, depth, depth + 1 + Height(x), depth + 1 + Height(x), ctx.maxDepth);
    assert ContainerRows(ctx, k, x, depth, path, sch) == [head] + sub;
  }

  /** No row of the tree is indented past `maxDepth`, and "Expand deeper" appears only there. */
  lemma TreeWithinMaxDepth(ctx: Ctx, payload: Node, sch: Option<Schema>)
    ensures forall r :: r in RenderTree(ctx, payload, 0, [], sch) ==>
              r.level <= ctx.maxDepth && (r.DeeperHint? ==> r.level == ctx.maxDepth)
  {
    RenderTreeOk(ctx, payload, 0, [], sch);
  }

  /** A payload shallower than `maxDepth` is rendered without any "Expand deeper" button. */
  lemma ShallowTreeHasNoHint(ctx: Ctx, payload: Node, sch: Option<Schema>)
    requires Height(payload) < ctx.maxDepth
    ensures forall r :: r in RenderTree(ctx, payload, 0, [], sch) ==> !r.DeeperHint?
  {
    RenderTreeOk(ctx, payload, 0, [], sch);
  }

  // ---------------------------------------------------------------------------------------
  // What an open array and an object list

  /** Kinds of rows counted below. A member row is a member's header (at the object's depth) or its leaf (one deeper). */
  datatype RowKind = ItemHeaderAt(lv: nat) | ShowMoreAt(lv: nat) | MemberRowAt(lv: nat)

  predicate IsKind(r: Row, k: RowKind) {
    match k
    case ItemHeaderAt(l) => r.ItemHeader? && r.level == l
    case ShowMoreAt(l) => r.ShowMore? && r.level == l
    case MemberRowAt(l) => (r.MemberHeader? && r.level == l) || (r.Leaf? && r.level == l + 1)
  }

  function Count(rows: seq<Row>, k: RowKind): nat {
    if rows == [] then 0 else (if IsKind(rows[0], k) then 1 else 0) + Count(rows[1..], k)
  }

  lemma {:induction false} CountConcat(a: seq<Row>, b: seq<Row>, k: RowKind)
    ensures Count(a + b, k) == Count(a, k) + Count(b, k)
  {
    if a == [] {
      assert a + b == b;
    } else {
      assert (a + b)[0] == a[0];
      assert (a + b)[1..] == a[1..] + b;
      CountConcat(a[1..], b, k);
    }
  }

  lemma {:induction false} CountNone(rows: seq<Row>, k: RowKind)
    requires forall j :: 0 <= j < |rows| ==> !IsKind(rows[j], k)
    ensures Count(rows, k) == 0
  {
    if rows != [] {
      CountNone(rows[1..], k);
    }
  }

  /** The rows of one item: a single header one level in, and nothing at the array's own level. */
  lemma ItemRowsCount(ctx: Ctx, v: Node, i: nat, depth: nat, path: Path, itemSchema: Option<Schema>)
    requires v.Arr? && i < |v.items| && depth < ctx.maxDepth
    ensures Count(ItemRows(ctx, v, i, depth, path, itemSchema), ItemHeaderAt(depth + 1)) == 1
    ensures Count(ItemRows(ctx, v, i, depth, path, itemSchema), ShowMoreAt(depth)) == 0
  {
    var childPath := path + [Index(i + 1)];
    var itemOpen := PathKey(childPath) in ctx.expanded;
    var head := [ItemHeader(depth + 1, ItemLabel(GetSchemaTitle(itemSchema), i + 1), itemOpen, PathKey(childPath))];
    var sub := if itemOpen then RenderTree(ctx, v.items[i], depth + 1, childPath, itemSchema) else [];
    assert ItemRows(ctx, v, i, depth, path, itemSchema) == head + sub;
    if itemOpen {
      RenderTreeOk(ctx, v.items[i], depth + 1, childPath, itemSchema);
    }
    CountNone(sub, ItemHeaderAt(depth + 1));
    CountNone(sub, ShowMoreAt(depth));
    CountConcat(head, sub, ItemHeaderAt(depth + 1));
    CountConcat(head, sub, ShowMoreAt(depth));
  }

  lemma {:induction false} RenderItemsCount(ctx: Ctx, v: Node, i: nat, n: nat, depth: nat, path: Path, itemSchema: Option<Schema>)
    requires v.Arr? && i <= n <= |v.items| && depth < ctx.maxDepth
    ensures Count(RenderItems(ctx, v, i, n, depth, path, itemSchema), ItemHeaderAt(depth + 1)) == n - i
    ensures Count(RenderItems(ctx, v, i, n, depth, path, itemSchema), ShowMoreAt(depth)) == 0
    decreases n - i
  {
    if i < n {
      var here := ItemRows(ctx, v, i, depth, path, itemSchema);
      var rest := RenderItems(ctx, v, i + 1, n, depth, path, itemSchema);
      ItemRowsCount(ctx, v, i, depth, path, itemSchema);
      RenderItemsCount(ctx, v, i + 1, n, depth, path, itemSchema);
      CountConcat(here, rest, ItemHeaderAt(depth + 1));
      CountConcat(here, rest, ShowMoreAt(depth));
    }
  }

  /**
   * An open array lists exactly `min(length, visibleCount)` items, and carries its own
   * "Show more" button exactly when some items are hidden.
   */
  lemma OpenArrayWindow(ctx: Ctx, v: Node, depth: nat, path: Path, sch: Option<Schema>)
    requires v.Arr? && depth < ctx.maxDepth && PathKey(path) in ctx.expanded
    ensures RenderTree(ctx, v, depth, path, sch)[0] == ArrayHeader(depth, ArrayTitle(ctx, depth, path, sch), true, PathKey(path))
    ensures Count(RenderTree(ctx, v, depth, path, sch), ItemHeaderAt(depth + 1)) == Shown(|v.items|, ctx.visibleCount)
    ensures Count(RenderTree(ctx, v, depth, path, sch), ShowMoreAt(depth)) == (if |v.items| > ctx.visibleCount then 1 else 0)
  {
    var n := Shown(|v.items|, ctx.visibleCount);
    var header := [ArrayHeader(depth, ArrayTitle(ctx, depth, path, sch), true, PathKey(path))];
    var children := RenderItems(ctx, v, 0, n, depth, path, GetItemsSchema(sch));
    var more := if |v.items| > ctx.visibleCount then [ShowMore(depth)] else [];
    assert RenderTree(ctx, v, depth, path, sch) == header + children + more;
    RenderItemsCount(ctx, v, 0, n, depth, path, GetItemsSchema(sch));
    CountConcat(header, children, ItemHeaderAt(depth + 1));
    CountConcat(header + children, more, ItemHeaderAt(depth + 1));
    CountConcat(header, children, ShowMoreAt(depth));
    CountConcat(header + children, more, ShowMoreAt(depth));
  }

  /** A closed array is its header alone: no items and no "Show more". */
  lemma ClosedArrayIsHeader(ctx: Ctx, v: Node, depth: nat, path: Path, sch: Option<Schema>)
    requires v.Arr? && depth < ctx.maxDepth && PathKey(path) !in ctx.expanded
    ensures RenderTree(ctx, v, depth, path, sch) == [ArrayHeader(depth, ArrayTitle(ctx, depth, path, sch), false, PathKey(path))]
  {
  }

  /** A member is kept exactly when it passes the filter, and the kept positions are in order. */
  lemma {:induction false} MatchingMembersIff(matches: (string, Node) -> bool, props: seq<(string, Node)>, i: nat)
    requires i <= |props|
    ensures forall k :: k in MatchingMembers(matches, props, i) <==> i <= k < |props| && matches(props[k].0, props[k].1)
    ensures forall a, b :: 0 <= a < b < |MatchingMembers(matches, props, i)| ==>
              MatchingMembers(matches, props, i)[a] < MatchingMembers(matches, props, i)[b]
    decreases |props| - i
  {
    if i < |props| {
      MatchingMembersIff(matches, props, i + 1);
    }
  }

  /** When the empty search is the filter, every member is kept. */
  lemma {:induction false} MatchingMembersEmptySearch(ctx: Ctx, props: seq<(string, Node)>, i: nat)
    requires FiltersBySearch(ctx) && ctx.search == "" && i <= |props|
    ensures |MatchingMembers(ctx.matches, props, i)| == |props| - i
    decreases |props| - i
  {
    if i < |props| {
      assert ctx.matches(props[i].0, props[i].1);
      MatchingMembersEmptySearch(ctx, props, i + 1);
    }
  }

  /** Every kept member contributes exactly one row at the object's level: its leaf or its header. */
  lemma MemberRowsCount(ctx: Ctx, v: Node, i: nat, depth: nat, path: Path, sch: Option<Schema>)
    requires v.Obj? && i < |v.props| && depth < ctx.maxDepth
    ensures Count(MemberRows(ctx, v, i, depth, path, sch), MemberRowAt(depth)) == 1
  {
    var k := v.props[i].0;
    var x := v.props[i].1;
    if !x.Scalar? {
      assert MemberRows(ctx, v, i, depth, path, sch) == ContainerRows(ctx, k, x, depth, path, sch);
      ContainerRowsCount(ctx, k, x, depth, path, sch);
    }
  }

  /** A container member contributes exactly one row at the object's own level: its header. */
  lemma ContainerRowsCount(ctx: Ctx, k: string, x: Node, depth: nat, path: Path, sch: Option<Schema>)
    requires depth < ctx.maxDepth
    ensures Count(ContainerRows(ctx, k, x, depth, path, sch), MemberRowAt(depth)) == 1
  {
    var childPath := path + [Key(k)];
    var isOpen := PathKey(childPath) in ctx.expanded;
    var head := [MemberHeader(depth, GetLabelForKey(ctx.keyMapping, k, sch), isOpen, PathKey(childPath))];
    var sub := if isOpen then RenderTree(ctx, x, depth + 1, childPath, PropertySchema(sch, k)) else [];
    assert ContainerRows(ctx, k, x, depth, path, sch) == head + sub;
    if isOpen {
      RenderTreeOk(ctx, x, depth + 1, childPath, PropertySchema(sch, k));
    }
    CountNone(sub, MemberRowAt(depth));
    CountConcat(head, sub, MemberRowAt(depth));
  }

  lemma {:induction false} RenderMembersCount(ctx: Ctx, v: Node, ks: seq<nat>, j: nat, depth: nat, path: Path, sch: Option<Schema>)
    requires v.Obj? && j <= |ks| && (forall t :: 0 <= t < |ks| ==> ks[t] < |v.props|) && depth < ctx.maxDepth
    ensures Count(RenderMembers(ctx, v, ks, j, depth, path, sch), MemberRowAt(depth)) == |ks| - j
    decreases |ks| - j
  {
    if j < |ks| {
      MemberRowsCount(ctx, v, ks[j], depth, path, sch);
      RenderMembersCount(ctx, v, ks, j + 1, depth, path, sch);
      CountConcat(MemberRows(ctx, v, ks[j], depth, path, sch), RenderMembers(ctx, v, ks, j + 1, depth, path, sch), MemberRowAt(depth));
    }
  }

  /**
   * An object shows one row per member that passes the search (a header for a container,
   * a leaf for a scalar), and so all of its members when the search is empty.
   */
  lemma ObjectShowsMatchingMembers(ctx: Ctx, v: Node, depth: nat, path: Path, sch: Option<Schema>)
    requires v.Obj? && depth < ctx.maxDepth
    ensures Count(RenderTree(ctx, v, depth, path, sch), MemberRowAt(depth)) == |MatchingMembers(ctx.matches, v.props, 0)|
    ensures FiltersBySearch(ctx) && ctx.search == "" ==> Count(RenderTree(ctx, v, depth, path, sch), MemberRowAt(depth)) == |v.props|
  {
    RenderMembersCount(ctx, v, MatchingMembers(ctx.matches, v.props, 0), 0, depth, path, sch);
    if FiltersBySearch(ctx) && ctx.search == "" {
      MatchingMembersEmptySearch(ctx, v.props, 0);
    }
  }
}
