/**
 * The state cells of `JsonViewerPanel` in frontend/app.js and the handlers and effects that
 * update them. A new data envelope runs the three effects in the order React runs them.
 */
module Explorer {
  import opened Wrappers
  import opened JsonModel
  import opened Search
  import opened Classifier
  import opened Expansion
  import opened SearchWalk
  import opened Window
  import opened Render
  import opened Panel
  import CsvExport

  const InitialMaxDepth: nat := 10
  const DepthStep: nat := 5

  class JsonViewerPanel {
    /** Stands for `JSON.stringify` in the search. */
    const ser: Serializer
    /** The `keyMapping` prop. */
    const keyMapping: map<string, string>

    var payload: Option<Node>
    var schema: Option<Schema>
    var search: string
    var viewMode: ViewMode
    var visibleCount: nat
    var itemsPerChunk: nat
    var expanded: set<string>
    var maxDepth: nat

    /** The state every handler keeps. */
    predicate Valid()
      reads this
    {
      && itemsPerChunk >= MinChunk
      && maxDepth >= InitialMaxDepth && maxDepth % DepthStep == 0
      && (viewMode == TableMode ==> payload.Some? && IsFlatUniformArray(payload.value))
    }

    /** What a render pass reads, with `matchesSearch` closing over the current search text. */
    function RenderCtx(): (c: Ctx)
      reads this
      ensures FiltersBySearch(c)
      ensures c.search == search && c.expanded == expanded && c.visibleCount == visibleCount && c.maxDepth == maxDepth
    {
      var text := search;
      var serialize := ser;
      Ctx(maxDepth, expanded, visibleCount, text, serialize, keyMapping, (k, x) => MatchesSearch(text, serialize, k, x))
    }

    /** What the panel shows now. */
    function View(): View
      reads this
    {
      ViewOf(RenderCtx(), payload, schema, viewMode)
    }

    /** Mounting without data: the initial cells, then the effects (only the chunk size changes them). */
    constructor(ser: Serializer, keyMapping: map<string, string>, innerHeight: nat)
      ensures Valid()
      ensures this.ser == ser && this.keyMapping == keyMapping
      ensures payload.None? && schema.None? && search == "" && viewMode == TreeMode
      ensures visibleCount == InitialCount && itemsPerChunk == ChunkSize(innerHeight)
      ensures expanded == {"root"} && maxDepth == InitialMaxDepth
      ensures View() == NoData
    {
      this.ser := ser;
      this.keyMapping := keyMapping;
      payload := Option.None;
      schema := Option.None;
      search := "";
      viewMode := TreeMode;
      visibleCount := InitialCount;
      itemsPerChunk := 100;
      maxDepth := InitialMaxDepth;
      new;
      expanded := BuildInitialExpansion(payload);
      itemsPerChunk := ChunkSize(innerHeight);
    }

    /** The chunk-size effect (also the `resize` listener). */
    method Recalc(innerHeight: nat)
      requires Valid()
      modifies this
      ensures Valid()
      ensures itemsPerChunk == ChunkSize(innerHeight)
      ensures visibleCount == (if payload.Some? && payload.value.Arr?
                               then RecalcVisible(|payload.value.items|, ChunkSize(innerHeight))
                               else old(visibleCount))
      ensures payload == old(payload) && schema == old(schema) && search == old(search)
      ensures viewMode == old(viewMode) && expanded == old(expanded) && maxDepth == old(maxDepth)
    {
      var chunk := ChunkSize(innerHeight);
      itemsPerChunk := chunk;
      if payload.Some? && payload.value.Arr? {
        visibleCount := RecalcVisible(|payload.value.items|, chunk);
      }
    }

    /**
     * A new envelope. Effect 1 resets the cells and sets the initial expansion; effect 2 still
     * sees the search text of the previous render, so if that was non-empty it replaces the
     * expansion by the search expansion for the OLD text; effect 3 sizes the window.
     */
    method LoadEnvelope(newPayload: Option<Node>, newSchema: Option<Schema>, innerHeight: nat)
      requires Valid()
      modifies this
      ensures Valid()
      ensures payload == newPayload && schema == newSchema
      ensures search == "" && viewMode == TreeMode && maxDepth == InitialMaxDepth
      ensures expanded == (if newPayload.Some? && Truthy(newPayload.value) && old(search) != ""
                           then SearchExpansion(newPayload.value, old(search), ser)
                           else InitialExpansion(newPayload))
      ensures itemsPerChunk == ChunkSize(innerHeight)
      ensures visibleCount == (if newPayload.Some? && newPayload.value.Arr?
                               then RecalcVisible(|newPayload.value.items|, ChunkSize(innerHeight))
                               else InitialCount)
    {
      var staleSearch := search;
      payload := newPayload;
      schema := newSchema;
      // effect 1
      viewMode := TreeMode;
      visibleCount := InitialCount;
      search := "";
      maxDepth := InitialMaxDepth;
      expanded := BuildInitialExpansion(payload);
      // effect 2, with the search text it closed over
      if payload.Some? && Truthy(payload.value) && staleSearch != "" {
        expanded := RecomputeForSearch(payload.value, staleSearch, ser);
      }
      // effect 3
      Recalc(innerHeight);
    }

    /** Typing in the search box: a non-empty text over a payload rebuilds the expansion; clearing it keeps the expansion. */
    method SetSearch(text: string)
      requires Valid()
      modifies this
      ensures Valid()
      ensures search == text
      ensures expanded == (if payload.Some? && Truthy(payload.value) && text != ""
                           then SearchExpansion(payload.value, text, ser)
                           else old(expanded))
      ensures payload == old(payload) && schema == old(schema) && viewMode == old(viewMode)
      ensures visibleCount == old(visibleCount) && itemsPerChunk == old(itemsPerChunk) && maxDepth == old(maxDepth)
    {
      search := text;
      if payload.Some? && Truthy(payload.value) && search != "" {
        expanded := RecomputeForSearch(payload.value, search, ser);
      }
    }

    /** A click on an array, item or object header. */
    method Toggle(path: Path)
      requires Valid()
      modifies this
      ensures Valid()
      ensures expanded == TogglePath(old(expanded), path)
      ensures payload == old(payload) && schema == old(schema) && search == old(search) && viewMode == old(viewMode)
      ensures visibleCount == old(visibleCount) && itemsPerChunk == old(itemsPerChunk) && maxDepth == old(maxDepth)
    {
      expanded := TogglePath(expanded, path);
    }

    /** "Show more" under an open array of `length` items, in the tree. */
    method ShowMoreTree(length: nat)
      requires Valid()
      modifies this
      ensures Valid()
      ensures visibleCount == GrowTree(old(visibleCount), itemsPerChunk, length)
      ensures payload == old(payload) && schema == old(schema) && search == old(search) && viewMode == old(viewMode)
      ensures expanded == old(expanded) && itemsPerChunk == old(itemsPerChunk) && maxDepth == old(maxDepth)
    {
      visibleCount := GrowTree(visibleCount, itemsPerChunk, length);
    }

    /** The "Show more" at the bottom of the panel. */
    method ShowMoreBottom()
      requires Valid()
      modifies this
      ensures Valid()
      ensures visibleCount == GrowTable(old(visibleCount))
      ensures payload == old(payload) && schema == old(schema) && search == old(search) && viewMode == old(viewMode)
      ensures expanded == old(expanded) && itemsPerChunk == old(itemsPerChunk) && maxDepth == old(maxDepth)
    {
      visibleCount := GrowTable(visibleCount);
    }

    /** "Expand deeper (+5)". */
    method ExpandDeeper()
      requires Valid()
      modifies this
      ensures Valid()
      ensures maxDepth == old(maxDepth) + DepthStep
      ensures payload == old(payload) && schema == old(schema) && search == old(search) && viewMode == old(viewMode)
      ensures expanded == old(expanded) && itemsPerChunk == old(itemsPerChunk) && visibleCount == old(visibleCount)
    {
      maxDepth := maxDepth + DepthStep;
    }

    /** The view toggle; the button exists only for a flat uniform array. */
    method ToggleViewMode()
      requires Valid() && payload.Some? && IsFlatUniformArray(payload.value)
      modifies this
      ensures Valid()
      ensures viewMode == (if old(viewMode) == TableMode then TreeMode else TableMode)
      ensures payload == old(payload) && schema == old(schema) && search == old(search) && expanded == old(expanded)
      ensures visibleCount == old(visibleCount) && itemsPerChunk == old(itemsPerChunk) && maxDepth == old(maxDepth)
    {
      viewMode := if viewMode == TableMode then TreeMode else TableMode;
    }

    /**
     * "Export .csv": the file's text as the program writes it (title line unquoted), or nothing
     * when the payload is not tabular. It reads back as the titles and cells whenever no title
     * holds a comma or a line break or starts with a quote.
     */
    method ExportCsv() returns (csv: Option<string>)
      ensures csv.Some? <==> payload.Some? && IsFlatUniformArray(payload.value)
      ensures csv.Some? ==> csv == CsvExport.CsvTextAsWritten(payload.value, schema)
      ensures csv.Some? && |CsvExport.Headers(payload.value.items)| > 0
              && (forall j :: 0 <= j < |CsvExport.Headers(payload.value.items)| ==>
                    CsvExport.PlainText(CsvExport.Titles(schema, CsvExport.Headers(payload.value.items))[j]))
              ==> CsvExport.Records(csv.value) == CsvExport.Intended(payload.value.items, schema)
    {
      if payload.Some? && IsFlatUniformArray(payload.value) {
        csv := CsvExport.CsvTextAsWritten(payload.value, schema);
        if |CsvExport.Headers(payload.value.items)| > 0
           && (forall j :: 0 <= j < |CsvExport.Headers(payload.value.items)| ==>
                 CsvExport.PlainText(CsvExport.Titles(schema, CsvExport.Headers(payload.value.items))[j])) {
          CsvExport.AsWrittenRoundTrip(payload.value, schema);
        }
      } else {
        csv := Option.None;
      }
    }
  }

  /**
   * Why the stale search matters: loading the people payload while "Bob" was still typed opens
   * `root.items` and its second item, where a fresh load opens the root alone.
   */
  lemma StaleSearchDiffers(ser: Serializer)
    ensures SearchExpansion(People(), "Bob", ser) == {"root", "root.items", "root.items.2"}
    ensures InitialExpansion(Some(People())) == {"root"}
  {
    SearchForBob(ser);
  }
}
