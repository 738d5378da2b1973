/** The renderer object: the wrapper table, the footer and info formats it
    translates as it renders, the template file and the grid it renders.
    Each method builds its markup the way the renderer does, element by
    element, and is proved to produce what the functions of `Regions` say. */
module Renderer {
  import opened Options
  import opened Markup
  import opened Config
  import opened Grid
  import opened SortOrder
  import opened Regions

  /** The part `render()` is asked for; no mode means the whole template. */
  datatype Mode = BeginMode | EndMode | ErrorsMode | BodyMode | PaginatorMode | OperationsMode | InfoMode

  /** What a render call returns: nothing (the empty string, or no value),
      a rendered element, the form's start or end tag, or the page the
      template file produces. */
  datatype Output =
    | NoOutput
    | Fragment(node: Node)
    | StartTag(form: Node)
    | EndTag(form: Node)
    | TemplatePage(file: string)

  /** The name of the template file, next to the renderer's own file. */
  const TemplateName := "/grid.phtml"

  function OutputOf(o: Option<Node>): Output {
    if o.Some? then Fragment(o.value) else NoOutput
  }

  class DataGridRenderer {
    var wrappers: Wrappers
    var footerFormat: string
    var infoFormat: string
    var file: string
    var dataGrid: Option<GridState>

    /** A renderer with the built-in wrappers and formats, whose template
        is `grid.phtml` in the directory `dir` of its own source file. */
    constructor (dir: string)
      ensures wrappers == Defaults
      ensures footerFormat == DefaultFooterFormat && infoFormat == DefaultInfoFormat
      ensures file == dir + TemplateName
      ensures dataGrid == None
    {
      wrappers := Defaults;
      footerFormat := DefaultFooterFormat;
      infoFormat := DefaultInfoFormat;
      file := dir + TemplateName;
      dataGrid := None;
    }

    /** The header row: the checker cell when there are operations, then one
        cell per column; the order expression is decoded for every
        orderable column. */
    method GenerateHeaderRow() returns (row: Node)
      requires dataGrid.Some?
      ensures row == HeaderRow(wrappers, dataGrid.value)
    {
      var w, g := wrappers, dataGrid.value;
      var proto := Wrapper2(w, "row.header", "container");
      row := proto;
      var checker: seq<Child> := [];
      if g.hasOperations {
        var cell := HeaderChecker(w, g);
        row := Add(row, Elem(cell));
        checker := [Elem(cell)];
      }
      ghost var sort := SortState(g.order);
      assert row == AddAll(proto, checker + HeaderCells(w, g, sort, 0));
      for i := 0 to |g.columns|
        invariant row == AddAll(proto, checker + HeaderCells(w, g, sort, i))
      {
        var c := g.columns[i];
        var list: map<string, Sort> := map[];
        if c.orderable {
          list := DecodeOrder(g.order);
        } else {
          HeaderCellUnordered(w, g, c, sort);
        }
        var cell := HeaderCell(w, g, c, list);
        AddAllStep(proto, checker, HeaderCells(w, g, sort, i), HeaderCells(w, g, sort, i + 1), Elem(cell));
        row := Add(row, Elem(cell));
      }
    }

    /** The filter row: one cell per column. */
    method GenerateFilterRow() returns (row: Node)
      requires dataGrid.Some?
      ensures row == FilterRow(wrappers, dataGrid.value)
    {
      var w, g := wrappers, dataGrid.value;
      var proto := Wrapper2(w, "row.filter", "container");
      row := proto;
      assert row == AddAll(proto, [] + FilterCells(w, g, 0));
      for i := 0 to |g.columns|
        invariant row == AddAll(proto, [] + FilterCells(w, g, i))
      {
        var cell := FilterCell(w, g, g.columns[i]);
        AddAllStep(proto, [], FilterCells(w, g, i), FilterCells(w, g, i + 1), Elem(cell));
        row := Add(row, Elem(cell));
      }
      assert [] + FilterCells(w, g, |g.columns|) == FilterCells(w, g, |g.columns|);
    }

    /** One content row, or the missing-key error when the grid has
        operations or actions and the record lacks the key column. */
    method GenerateContentRow(data: Record) returns (r: Result<Node, RenderError>)
      requires dataGrid.Some?
      ensures r == ContentRow(wrappers, dataGrid.value, data)
    {
      var w, g := wrappers, dataGrid.value;
      var proto := Wrapper2(w, "row.content", "container");
      var row := proto;
      if g.hasOperations || g.HasActions() {
        if g.keyName !in data {
          return Failure(MissingKey(g.keyName));
        }
      }
      var key := KeyOf(g, data);
      var checker: seq<Child> := [];
      if g.hasOperations {
        var cell := ContentChecker(w, key);
        row := Add(row, Elem(cell));
        checker := [Elem(cell)];
      }
      assert row == AddAll(proto, checker + ContentCells(w, g, data, 0));
      for i := 0 to |g.columns|
        invariant row == AddAll(proto, checker + ContentCells(w, g, data, i))
      {
        var c := g.columns[i];
        var cell: Node;
        if c.kind == Action {
          var value: seq<Child> := [];
          for j := 0 to |g.actions|
            invariant value == ActionsHtml(g, g.actions[..j], key)
          {
            var a := g.actions[j];
            ActionsHtmlPrefix(g, g.actions, j, key);
            value := value + [ActionLink(a.name, Translate(g, a.title), key), Html(" ")];
          }
          assert g.actions[..|g.actions|] == g.actions;
          cell := Wrapper3(w, "row.content", "cell", "container").(attrs := c.cellAttrs);
          cell := AppendClass(SetHtml(cell, value), "actions");
          ActionCellIs(w, g, c, data, value);
        } else {
          cell := ContentCell(w, g, c, data);
        }
        ContentCellsStep(w, g, data, i, cell);
        AddAllStep(proto, checker, ContentCells(w, g, data, i), ContentCells(w, g, data, i + 1), Elem(cell));
        row := Add(row, Elem(cell));
      }
      return Success(row);
    }

    /** `renderOperations()`. */
    method RenderOperations() returns (r: Option<Node>)
      requires dataGrid.Some?
      ensures r == OperationsMarkup(wrappers, dataGrid.value)
    {
      var g := dataGrid.value;
      if !g.hasOperations {
        return None;
      }
      var proto := Wrapper2(wrappers, "operations", "container");
      var container := Add(proto, Widget(OperationsLabel, []));
      container := Add(container, Widget(OperationsSelect, []));
      container := Add(container, Widget(OperationSubmit, []));
      assert container.children == proto.children + [Widget(OperationsLabel, []), Widget(OperationsSelect, []), Widget(OperationSubmit, [])];
      return Some(container);
    }

    /** `renderPaginator()`: nothing for a single page; otherwise the
        to-first and previous buttons, the page input, the page submit
        button and the next and to-last buttons, added to the container in
        that order. */
    method RenderPaginator() returns (r: Option<Node>)
      requires dataGrid.Some?
      ensures r == PaginatorMarkup(wrappers, dataGrid.value)
    {
      var w, g := wrappers, dataGrid.value;
      if g.paginator.pageCount <= 1 {
        return None;
      }
      var start := Wrapper2(w, "paginator", "container");
      var button := Wrapper3(w, "paginator", "button", "container");
      var first := Button(g, button, "paginator-first", "« " + Translate(g, "First"), g.paginator.isFirst, 1);
      var prev := Button(g, button, "paginator-prev", "« " + Translate(g, "Previous"), g.paginator.isFirst, g.paginator.page - 1);
      var html := PageInputHtml(g);
      var input := Node("", NoAttrs, html);
      var next := Button(g, button, "paginator-next", Translate(g, "Next") + " »", g.paginator.isLast, g.paginator.page + 1);
      var last := Button(g, button, "paginator-last", Translate(g, "Last") + " »", g.paginator.isLast, g.paginator.pageCount);
      var container := AddAll(start, [Elem(first), Elem(prev), Elem(input), Widget(PageSubmit, []), Elem(next), Elem(last)]);
      PaginatorMarkupIs(w, g, start, button, html, first, prev, next, last, container);
      return Some(container);
    }

    /** `renderInfo()`: the info format is replaced by its translation, then
        the item numbers are put in place of its placeholders. */
    method RenderInfo() returns (info: Node)
      requires dataGrid.Some?
      modifies this
      ensures wrappers == old(wrappers) && footerFormat == old(footerFormat)
      ensures file == old(file) && dataGrid == old(dataGrid)
      ensures infoFormat == Translate(dataGrid.value, old(infoFormat))
      ensures info == InfoMarkup(wrappers, dataGrid.value, infoFormat)
    {
      var g := dataGrid.value;
      var container := Wrapper2(wrappers, "info", "container");
      infoFormat := Translate(g, infoFormat);
      info := SetHtml(container, InfoHtml(infoFormat, g.paginator));
    }

    /** `renderErrors()`: no value without errors, otherwise the error
        container with one item per error. */
    method RenderErrors() returns (r: Option<Node>)
      requires dataGrid.Some?
      ensures r == ErrorList(wrappers, dataGrid.value)
    {
      var w, g := wrappers, dataGrid.value;
      var errors := g.errors;
      if |errors| == 0 {
        return None;
      }
      var proto := Wrapper2(w, "error", "container");
      var li := Wrapper2(w, "error", "item");
      var ul := proto;
      assert ul == AddAll(proto, [] + ErrorItems(li, errors, 0));
      for i := 0 to |errors|
        invariant ul == AddAll(proto, [] + ErrorItems(li, errors, i))
      {
        var item := li;
        if errors[i].Rendered? {
          item := Add(item, Elem(errors[i].node));
        } else {
          item := SetText(item, errors[i].text);
        }
        AddAllStep(proto, [], ErrorItems(li, errors, i), ErrorItems(li, errors, i + 1), Elem(item));
        ul := Add(ul, Elem(item));
      }
      assert [] + ErrorItems(li, errors, |errors|) == ErrorItems(li, errors, |errors|);
      return Some(ul);
    }

    /** The footer row: the footer format is replaced by its translation,
        the operations, the paginator and the info line (which translates
        the info format) are rendered in that order and put in place of
        their placeholders, and the separators are trimmed from the ends. */
    method GenerateFooterRow() returns (row: Node)
      requires dataGrid.Some?
      modifies this
      ensures wrappers == old(wrappers) && file == old(file) && dataGrid == old(dataGrid)
      ensures footerFormat == Translate(dataGrid.value, old(footerFormat))
      ensures infoFormat == Translate(dataGrid.value, old(infoFormat))
      ensures row == FooterRow(wrappers, dataGrid.value, footerFormat, infoFormat)
    {
      var g := dataGrid.value;
      row := Wrapper2(wrappers, "row.footer", "container");
      var count := |g.columns|;
      if g.hasOperations {
        count := count + 1;
      }
      var cell := SetAttr(Wrapper3(wrappers, "row.footer", "cell", "container"), "colspan", Num(count));
      footerFormat := Translate(g, footerFormat);
      var operations := RenderOperations();
      var paginator := RenderPaginator();
      var info := RenderInfo();
      var html := SpliceAll(SpliceAll(Splice(footerFormat, "%operations%", Region(operations)),
        "%paginator%", Region(paginator)), "%info%", [Elem(info)]);
      html := Trim(html);
      cell := SetHtml(cell, html);
      row := Add(row, Elem(cell));
    }

    /** `renderBody()`: the table with the header row, the filter row when
        the grid has filters, one content row per record and the footer row.
        A record that cannot make a row ends the rendering before the footer,
        so neither format is translated then. */
    method RenderBody() returns (r: Result<Node, RenderError>)
      requires dataGrid.Some?
      modifies this
      ensures wrappers == old(wrappers) && file == old(file) && dataGrid == old(dataGrid)
      ensures r == Body(wrappers, dataGrid.value,
        Translate(dataGrid.value, old(footerFormat)), Translate(dataGrid.value, old(infoFormat)))
      ensures r.Success? ==> footerFormat == Translate(dataGrid.value, old(footerFormat))
      ensures r.Success? ==> infoFormat == Translate(dataGrid.value, old(infoFormat))
      ensures r.Failure? ==> footerFormat == old(footerFormat) && infoFormat == old(infoFormat)
    {
      var w, g := wrappers, dataGrid.value;
      var proto := Wrapper2(w, "grid", "container");
      var header := GenerateHeaderRow();
      var table := Add(proto, Elem(header));
      var filter: Option<Node> := None;
      if g.hasFilters {
        var f := GenerateFilterRow();
        filter := Some(f);
        table := Add(table, Elem(f));
      }
      HeadIs(proto, header, filter, table);
      var rows := AddContentRows(table);
      if rows.Failure? {
        BodyFails(w, g, Translate(g, footerFormat), Translate(g, infoFormat));
        return Failure(rows.error);
      }
      ghost var cells := ContentRows(w, g).value;
      var footer := GenerateFooterRow();
      AddAllAssoc(proto, [Elem(header)] + Region(filter), cells);
      AddAllSnoc(proto, [Elem(header)] + Region(filter) + cells, Elem(footer));
      table := Add(rows.value, Elem(footer));
      BodyIs(w, g, footerFormat, infoFormat, proto, header, filter, cells, footer, table);
      return Success(table);
    }

    /** The rows block of `renderBody()`: one content row per record, each
        with the class for its position, added to the table in record order;
        the missing-key error of the first record without the key stops it. */
    method AddContentRows(table: Node) returns (r: Result<Node, RenderError>)
      requires dataGrid.Some?
      ensures r.Failure? <==> ContentRows(wrappers, dataGrid.value).Failure?
      ensures r.Failure? ==> r.error == ContentRows(wrappers, dataGrid.value).error
      ensures r.Success? ==> r.value == AddAll(table, ContentRows(wrappers, dataGrid.value).value)
    {
      var w, g := wrappers, dataGrid.value;
      var t := table;
      assert t == AddAll(table, RowsMarkup(w, g, 0));
      for i := 0 to |g.rows|
        invariant t == AddAll(table, RowsMarkup(w, g, i))
        invariant KeysUpTo(g, i)
      {
        var row := GenerateContentRow(g.rows[i]);
        if row.Failure? {
          RowFails(w, g, i, row);
          return Failure(row.error);
        }
        var cls := RowClass(w, i);
        RowsMarkupStep(w, g, i, row, cls);
        AddAllSnoc(table, RowsMarkup(w, g, i), Elem(AppendClass(row.value, cls)));
        t := Add(t, Elem(AppendClass(row.value, cls)));
      }
      RowsDone(w, g);
      return Success(t);
    }

    /** `renderBegin()`: every control of the form is marked as not yet
        rendered, and the form's start tag is returned. */
    method RenderBegin() returns (o: Output)
      requires dataGrid.Some?
      modifies set c | c in dataGrid.value.controls
      ensures forall c :: c in dataGrid.value.controls ==> !c.rendered
      ensures o == StartTag(dataGrid.value.form)
    {
      var controls := dataGrid.value.controls;
      for i := 0 to |controls|
        invariant forall k :: 0 <= k < i ==> !controls[k].rendered
      {
        controls[i].rendered := false;
      }
      return StartTag(dataGrid.value.form);
    }

    /** `renderEnd()`: the form's end tag. */
    method RenderEnd() returns (o: Output)
      requires dataGrid.Some?
      ensures o == EndTag(dataGrid.value.form)
    {
      return EndTag(dataGrid.value.form);
    }

    /** `render($dataGrid, $mode)`: the renderer takes the grid, fails when
        the grid has no data source of the supported kind, renders the part
        a mode names, and without a mode renders the template file. */
    method Render(grid: GridState, mode: Option<Mode>) returns (r: Result<Output, RenderError>)
      modifies this, set c | c in grid.controls
      ensures dataGrid == Some(grid) && wrappers == old(wrappers) && file == old(file)
      ensures !grid.hasDataSource ==> r == Failure(DataSourceNotSet)
      ensures grid.hasDataSource && mode == None ==> r == Success(TemplatePage(file))
      ensures grid.hasDataSource && mode == Some(BeginMode) ==>
        r == Success(StartTag(grid.form)) && forall c :: c in grid.controls ==> !c.rendered
      ensures grid.hasDataSource && mode == Some(EndMode) ==> r == Success(EndTag(grid.form))
      ensures grid.hasDataSource && mode == Some(ErrorsMode) ==> r == Success(OutputOf(ErrorList(wrappers, grid)))
      ensures grid.hasDataSource && mode == Some(PaginatorMode) ==> r == Success(OutputOf(PaginatorMarkup(wrappers, grid)))
      ensures grid.hasDataSource && mode == Some(OperationsMode) ==> r == Success(OutputOf(OperationsMarkup(wrappers, grid)))
      ensures grid.hasDataSource && mode == Some(InfoMode) ==>
        footerFormat == old(footerFormat) && infoFormat == Translate(grid, old(infoFormat))
        && r == Success(Fragment(InfoMarkup(wrappers, grid, infoFormat)))
      ensures grid.hasDataSource && mode == Some(BodyMode) ==>
        var body := Body(wrappers, grid, Translate(grid, old(footerFormat)), Translate(grid, old(infoFormat)));
        r == (if body.Success? then Success(Fragment(body.value)) else Failure(body.error))
        && (body.Success? ==>
          footerFormat == Translate(grid, old(footerFormat)) && infoFormat == Translate(grid, old(infoFormat)))
        && (body.Failure? ==> footerFormat == old(footerFormat) && infoFormat == old(infoFormat))
      ensures (!grid.hasDataSource || mode == None || mode == Some(BeginMode) || mode == Some(EndMode)
          || mode == Some(ErrorsMode) || mode == Some(PaginatorMode) || mode == Some(OperationsMode)) ==>
        footerFormat == old(footerFormat) && infoFormat == old(infoFormat)
      ensures !grid.hasDataSource || mode != Some(BeginMode) ==>
        forall k :: 0 <= k < |grid.controls| ==> grid.controls[k].rendered == old(grid.controls[k].rendered)
    {
      dataGrid := Some(grid);
      if !grid.hasDataSource {
        return Failure(DataSourceNotSet);
      }
      if mode.None? {
        return Success(TemplatePage(file));
      }
      match mode.value
      case BeginMode =>
        var o := RenderBegin();
        r := Success(o);
      case EndMode =>
        var o := RenderEnd();
        r := Success(o);
      case ErrorsMode =>
        var o := RenderErrors();
        r := Success(OutputOf(o));
      case BodyMode =>
        var o := RenderBody();
        r := if o.Success? then Success(Fragment(o.value)) else Failure(o.error);
      case PaginatorMode =>
        var o := RenderPaginator();
        r := Success(OutputOf(o));
      case OperationsMode =>
        var o := RenderOperations();
        r := Success(OutputOf(o));
      case InfoMode =>
        var o := RenderInfo();
        r := Success(Fragment(o));
    }
  }
}
