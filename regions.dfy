/** What each part of the grid renders to, as a function of the wrapper
    table and the grid snapshot: the header, filter, content and footer
    rows, the paginator, the operations bar, the info line, the error list
    and the whole table. The renderer's methods compute these step by step. */
module Regions {
  import opened Options
  import opened Text
  import opened Markup
  import opened Config
  import opened Grid
  import opened SortOrder

  /** The renderer's exceptions. */
  datatype RenderError = DataSourceNotSet | MissingKey(key: string)

  /** The footer layout the renderer starts with. */
  const DefaultFooterFormat := "%operations% | %paginator% | %info%"

  /** The info line the renderer starts with. */
  const DefaultInfoFormat := "Displaying items %from% - %to% of %count%"

  /** The layout of the paginator's page input. */
  const PageInputFormat := "%label% %input% of %count%"

  // ---------------------------------------------------------------------
  // Header row

  /** The class naming the ordering direction of a decoded field. */
  function DirectionClass(sort: map<string, Sort>, field: string): seq<string> {
    if field in sort then [if sort[field].dir == "a" then "asc" else "desc"] else []
  }

  /** The rank badge, shown when more than one field is ordered by. */
  function RankBadge(sort: map<string, Sort>, field: string): seq<Child> {
    if |sort| > 1 && field in sort then [Html("&nbsp;<span>"), Number(sort[field].rank), Html("</span>")] else []
  }

  /** The ordering link of an orderable column. */
  function OrderLinkElement(g: GridState, c: Column, sort: map<string, Sort>): Node {
    Node("a", Attrs([g.ajaxClass] + DirectionClass(sort, c.name), map["href" := Link(OrderLink(c.name))]),
      [Html(c.caption)] + RankBadge(sort, c.name))
  }

  /** The header cell of one column. */
  function HeaderCell(w: Wrappers, g: GridState, c: Column, sort: map<string, Sort>): Node {
    var value := if c.orderable then [Elem(OrderLinkElement(g, c, sort))] else [Html(c.caption)];
    var cell := SetHtml(Wrapper3(w, "row.header", "cell", "container"), value).(attrs := c.headerAttrs);
    if c.kind == Action then AppendClass(cell, "actions") else cell
  }

  /** The cell of a column that cannot be ordered by does not depend on
      the sort state. */
  lemma HeaderCellUnordered(w: Wrappers, g: GridState, c: Column, sort: map<string, Sort>)
    requires !c.orderable
    ensures HeaderCell(w, g, c, sort) == HeaderCell(w, g, c, map[])
  {
  }

  /** The header cell above the row checkboxes. */
  function HeaderChecker(w: Wrappers, g: GridState): Node {
    var cell := SetClass(Wrapper3(w, "row.header", "cell", "container"), "checker");
    if g.hasFilters then SetAttr(cell, "rowspan", Num(2)) else cell
  }

  /** The header cells of the first `n` columns. */
  function HeaderCells(w: Wrappers, g: GridState, sort: map<string, Sort>, n: nat): (cs: seq<Child>)
    requires n <= |g.columns|
    ensures |cs| == n
  {
    if n == 0 then [] else HeaderCells(w, g, sort, n - 1) + [Elem(HeaderCell(w, g, g.columns[n - 1], sort))]
  }

  lemma {:induction false} HeaderCellsAt(w: Wrappers, g: GridState, sort: map<string, Sort>, n: nat, i: nat)
    requires i < n <= |g.columns|
    ensures HeaderCells(w, g, sort, n)[i] == Elem(HeaderCell(w, g, g.columns[i], sort))
  {
    if i < n - 1 {
      HeaderCellsAt(w, g, sort, n - 1, i);
      assert HeaderCells(w, g, sort, n)[i] == HeaderCells(w, g, sort, n - 1)[i];
    } else {
      assert HeaderCells(w, g, sort, n)[n - 1] == Elem(HeaderCell(w, g, g.columns[n - 1], sort));
    }
  }

  lemma HeaderCellsAll(w: Wrappers, g: GridState, sort: map<string, Sort>, n: nat)
    requires n <= |g.columns|
    ensures forall i :: 0 <= i < n ==> HeaderCells(w, g, sort, n)[i] == Elem(HeaderCell(w, g, g.columns[i], sort))
  {
    forall i | 0 <= i < n
      ensures HeaderCells(w, g, sort, n)[i] == Elem(HeaderCell(w, g, g.columns[i], sort))
    {
      HeaderCellsAt(w, g, sort, n, i);
    }
  }

  function HeaderRow(w: Wrappers, g: GridState): Node {
    AddAll(Wrapper2(w, "row.header", "container"),
      (if g.hasOperations then [Elem(HeaderChecker(w, g))] else []) + HeaderCells(w, g, SortState(g.order), |g.columns|))
  }

  /** The header row is the row prototype followed by the checker cell when
      the grid has operations and then one cell per column, in column order. */
  lemma HeaderRowLayout(w: Wrappers, g: GridState)
    ensures var proto := Wrapper2(w, "row.header", "container");
      var row := HeaderRow(w, g);
      var k := if g.hasOperations then 1 else 0;
      && row.name == proto.name && row.attrs == proto.attrs
      && |row.children| == |proto.children| + k + |g.columns|
      && row.children[..|proto.children|] == proto.children
      && (g.hasOperations ==> row.children[|proto.children|] == Elem(HeaderChecker(w, g)))
      && var cells := row.children[|proto.children| + k..];
      && (forall i :: 0 <= i < |g.columns| ==> cells[i] == Elem(HeaderCell(w, g, g.columns[i], SortState(g.order))))
  {
    var proto := Wrapper2(w, "row.header", "container");
    var checker := if g.hasOperations then [Elem(HeaderChecker(w, g))] else [];
    AddAllTwo(proto, checker, HeaderCells(w, g, SortState(g.order), |g.columns|));
    HeaderCellsAll(w, g, SortState(g.order), |g.columns|);
    assert HeaderRow(w, g) == AddAll(proto, checker + HeaderCells(w, g, SortState(g.order), |g.columns|));
    if g.hasOperations {
      assert HeaderRow(w, g).children[|proto.children|] ==
        HeaderRow(w, g).children[|proto.children|..|proto.children| + 1][0];
    }
  }

  /** The checker cell carries only the class `checker` and spans the
      filter row too when there is one. */
  lemma HeaderCheckerSpans(w: Wrappers, g: GridState)
    ensures HeaderChecker(w, g).attrs.classes == ["checker"]
    ensures g.hasFilters ==>
      ("rowspan" in HeaderChecker(w, g).attrs.named && HeaderChecker(w, g).attrs.named["rowspan"] == Num(2))
    ensures !g.hasFilters ==> HeaderChecker(w, g).attrs.named == Wrapper3(w, "row.header", "cell", "container").attrs.named
  {
  }

  /** A header cell takes the attributes of the column's header prototype,
      plus the class `actions` for an action column; it holds the caption,
      as an ordering link when the column is orderable. */
  lemma HeaderCellAttrs(w: Wrappers, g: GridState, c: Column)
    ensures var cell := HeaderCell(w, g, c, SortState(g.order));
      && cell.attrs.named == c.headerAttrs.named
      && cell.attrs.classes == c.headerAttrs.classes + (if c.kind == Action then ["actions"] else [])
      && cell.children == (if c.orderable then [Elem(OrderLinkElement(g, c, SortState(g.order)))] else [Html(c.caption)])
  {
  }

  /** The ordering link of a column: it carries the AJAX class, plus `asc`
      when the direction given last for the column is exactly "a" and
      `desc` for any other direction; when two or more distinct fields are
      ordered by, the caption is followed by the column's rank, which is 1
      plus the number of distinct fields named before it. A column the
      expression does not name has neither. */
  lemma SortIndicator(g: GridState, c: Column)
    ensures var link := OrderLinkElement(g, c, SortState(g.order));
      link.name == "a" && link.attrs.named == map["href" := Link(OrderLink(c.name))]
    ensures c.name !in Keys(g.order) ==>
      var link := OrderLinkElement(g, c, SortState(g.order));
      link.attrs.classes == [g.ajaxClass] && link.children == [Html(c.caption)]
    ensures c.name in Keys(g.order) ==> c.name in FirstFields(g.order)
    ensures c.name in Keys(g.order) ==>
      var link := OrderLinkElement(g, c, SortState(g.order));
      && link.attrs.classes == [g.ajaxClass, if LastDir(g.order, c.name) == "a" then "asc" else "desc"]
      && link.children == [Html(c.caption)] +
           (if |FirstFields(g.order)| >= 2
            then [Html("&nbsp;<span>"), Number(1 + IndexOf(FirstFields(g.order), c.name)), Html("</span>")]
            else [])
  {
    SortStateSpec(g.order, c.name);
    SortStateCount(g.order);
  }

  // ---------------------------------------------------------------------
  // Filter row

  /** What a plain column's filter cell holds. */
  function FilterValue(w: Wrappers, c: Column): Child {
    match c.filter
    case Some(Selectbox) => Widget(FilterInput(c.name), [Scalar(Entry3(w, "row.filter", "control", ".select"))])
    case Some(TextInput) => Widget(FilterInput(c.name), [Scalar(Entry3(w, "row.filter", "control", ".input"))])
    case None => Html("&nbsp;")
  }

  function FilterCell(w: Wrappers, g: GridState, c: Column): Node {
    var cell := Wrapper3(w, "row.filter", "cell", "container").(attrs := c.cellAttrs);
    match c.kind
    case Action =>
      AppendClass(SetHtml(cell, [Widget(FilterSubmit, [Scalar(Entry3(w, "row.filter", "control", ".submit"))])]), "actions")
    case Plain => SetHtml(cell, [FilterValue(w, c)])
  }

  /** The filter cells of the first `n` columns. */
  function FilterCells(w: Wrappers, g: GridState, n: nat): (cs: seq<Child>)
    requires n <= |g.columns|
    ensures |cs| == n
  {
    if n == 0 then [] else FilterCells(w, g, n - 1) + [Elem(FilterCell(w, g, g.columns[n - 1]))]
  }

  lemma {:induction false} FilterCellsAt(w: Wrappers, g: GridState, n: nat, i: nat)
    requires i < n <= |g.columns|
    ensures FilterCells(w, g, n)[i] == Elem(FilterCell(w, g, g.columns[i]))
  {
    if i < n - 1 {
      FilterCellsAt(w, g, n - 1, i);
      assert FilterCells(w, g, n)[i] == FilterCells(w, g, n - 1)[i];
    } else {
      assert FilterCells(w, g, n)[n - 1] == Elem(FilterCell(w, g, g.columns[n - 1]));
    }
  }

  lemma FilterCellsAll(w: Wrappers, g: GridState, n: nat)
    requires n <= |g.columns|
    ensures forall i :: 0 <= i < n ==> FilterCells(w, g, n)[i] == Elem(FilterCell(w, g, g.columns[i]))
  {
    forall i | 0 <= i < n
      ensures FilterCells(w, g, n)[i] == Elem(FilterCell(w, g, g.columns[i]))
    {
      FilterCellsAt(w, g, n, i);
    }
  }

  function FilterRow(w: Wrappers, g: GridState): Node {
    AddAll(Wrapper2(w, "row.filter", "container"), FilterCells(w, g, |g.columns|))
  }

  /** The filter row has one cell per column, in column order. */
  lemma FilterRowLayout(w: Wrappers, g: GridState)
    ensures var proto := Wrapper2(w, "row.filter", "container");
      var row := FilterRow(w, g);
      && row.name == proto.name && row.attrs == proto.attrs
      && |row.children| == |proto.children| + |g.columns|
      && row.children[..|proto.children|] == proto.children
      && var cells := row.children[|proto.children|..];
      && (forall i :: 0 <= i < |g.columns| ==> cells[i] == Elem(FilterCell(w, g, g.columns[i])))
  {
    var proto := Wrapper2(w, "row.filter", "container");
    AddAllTwo(proto, [], FilterCells(w, g, |g.columns|));
    FilterCellsAll(w, g, |g.columns|);
    assert [] + FilterCells(w, g, |g.columns|) == FilterCells(w, g, |g.columns|);
  }

  /** The built-in class of the filter submit button. */
  lemma FilterSubmitDefault()
    ensures Scalar(GetValue(Defaults, "row.filter control .submit")) == "button"
  {
    DefaultsFilter();
    NameRowFilterControlSubmit(Defaults);
  }

  /** The built-in class of a select-box filter. */
  lemma FilterSelectDefault()
    ensures Scalar(GetValue(Defaults, "row.filter control .select")) == "select"
  {
    DefaultsFilter();
    NameRowFilterControlSelect(Defaults);
  }

  /** The built-in class of a text filter. */
  lemma FilterInputDefault()
    ensures Scalar(GetValue(Defaults, "row.filter control .input")) == "text"
  {
    DefaultsFilter();
    NameRowFilterControlInput(Defaults);
  }

  /** A filter cell has the column's cell attributes; an action column's
      cell holds the filter submit button with the configured submit class
      and has class `actions`, a select-box or text filter gets the control
      with the configured select or input class, and a column without a
      filter shows a non-breaking space. */
  lemma FilterCellSpec(w: Wrappers, g: GridState, c: Column)
    ensures FilterCell(w, g, c).attrs.named == c.cellAttrs.named
    ensures FilterCell(w, g, c).attrs.classes == c.cellAttrs.classes + (if c.kind == Action then ["actions"] else [])
    ensures c.kind == Action ==>
      FilterCell(w, g, c).children == [Widget(FilterSubmit, [Scalar(Entry3(w, "row.filter", "control", ".submit"))])]
    ensures c.kind == Plain && c.filter == Some(Selectbox) ==>
      FilterCell(w, g, c).children == [Widget(FilterInput(c.name), [Scalar(Entry3(w, "row.filter", "control", ".select"))])]
    ensures c.kind == Plain && c.filter == Some(TextInput) ==>
      FilterCell(w, g, c).children == [Widget(FilterInput(c.name), [Scalar(Entry3(w, "row.filter", "control", ".input"))])]
    ensures c.kind == Plain && c.filter == None ==> FilterCell(w, g, c).children == [Html("&nbsp;")]
  {
  }

  // ---------------------------------------------------------------------
  // Content rows

  /** The row's primary key value, when the row has one. */
  function KeyOf(g: GridState, data: Record): string {
    if g.keyName in data then data[g.keyName] else ""
  }

  /** The markup of the row actions: each action's link followed by one space. */
  function ActionsHtml(g: GridState, actions: seq<RowAction>, key: string): seq<Child>
    decreases |actions|
  {
    if actions == [] then []
    else [ActionLink(actions[0].name, Translate(g, actions[0].title), key), Html(" ")] + ActionsHtml(g, actions[1..], key)
  }

  /** The action markup holds, for the i-th action, its link (with its
      translated title and the row's key) at 2i and a space at 2i + 1. */
  lemma {:induction false} ActionsHtmlSpec(g: GridState, actions: seq<RowAction>, key: string)
    ensures |ActionsHtml(g, actions, key)| == 2 * |actions|
    ensures forall i :: 0 <= i < |actions| ==>
      (ActionsHtml(g, actions, key)[2 * i] == ActionLink(actions[i].name, Translate(g, actions[i].title), key) &&
       ActionsHtml(g, actions, key)[2 * i + 1] == Html(" "))
    decreases |actions|
  {
    if actions != [] {
      ActionsHtmlSpec(g, actions[1..], key);
      var head := [ActionLink(actions[0].name, Translate(g, actions[0].title), key), Html(" ")];
      var rest := ActionsHtml(g, actions[1..], key);
      assert ActionsHtml(g, actions, key) == head + rest;
      forall i | 1 <= i < |actions|
        ensures ActionsHtml(g, actions, key)[2 * i] == ActionLink(actions[i].name, Translate(g, actions[i].title), key)
        ensures ActionsHtml(g, actions, key)[2 * i + 1] == Html(" ")
      {
        assert actions[1..][i - 1] == actions[i];
        assert (head + rest)[2 * i] == rest[2 * (i - 1)];
        assert (head + rest)[2 * i + 1] == rest[2 * (i - 1) + 1];
      }
    }
  }

  /** One more action appends its link and a space to the action markup. */
  lemma {:induction false} ActionsHtmlSnoc(g: GridState, actions: seq<RowAction>, a: RowAction, key: string)
    ensures ActionsHtml(g, actions + [a], key) ==
      ActionsHtml(g, actions, key) + [ActionLink(a.name, Translate(g, a.title), key), Html(" ")]
    decreases |actions|
  {
    if actions != [] {
      assert (actions + [a])[1..] == actions[1..] + [a];
      ActionsHtmlSnoc(g, actions[1..], a, key);
    } else {
      assert [a][1..] == [];
    }
  }

  /** The links of the first `j + 1` actions extend those of the first `j`. */
  lemma ActionsHtmlPrefix(g: GridState, actions: seq<RowAction>, j: nat, key: string)
    requires j < |actions|
    ensures ActionsHtml(g, actions[..j + 1], key) ==
      ActionsHtml(g, actions[..j], key) + [ActionLink(actions[j].name, Translate(g, actions[j].title), key), Html(" ")]
  {
    assert actions[..j] + [actions[j]] == actions[..j + 1];
    ActionsHtmlSnoc(g, actions[..j], actions[j], key);
  }

  /** The checker cell of a content row. */
  function ContentChecker(w: Wrappers, key: string): Node {
    SetClass(SetHtml(Wrapper3(w, "row.content", "cell", "container"), [Widget(Checker(key), [])]), "checker")
  }

  function ContentCell(w: Wrappers, g: GridState, c: Column, data: Record): Node {
    var cell := Wrapper3(w, "row.content", "cell", "container").(attrs := c.cellAttrs);
    match c.kind
    case Action => AppendClass(SetHtml(cell, ActionsHtml(g, g.actions, KeyOf(g, data))), "actions")
    case Plain => SetHtml(cell, [Formatted(c.name, if c.name in data then Some(data[c.name]) else None)])
  }

  /** The content cells of the first `n` columns. */
  function ContentCells(w: Wrappers, g: GridState, data: Record, n: nat): (cs: seq<Child>)
    requires n <= |g.columns|
    ensures |cs| == n
  {
    if n == 0 then [] else ContentCells(w, g, data, n - 1) + [Elem(ContentCell(w, g, g.columns[n - 1], data))]
  }

  lemma {:induction false} ContentCellsAt(w: Wrappers, g: GridState, data: Record, n: nat, i: nat)
    requires i < n <= |g.columns|
    ensures ContentCells(w, g, data, n)[i] == Elem(ContentCell(w, g, g.columns[i], data))
  {
    if i < n - 1 {
      ContentCellsAt(w, g, data, n - 1, i);
      assert ContentCells(w, g, data, n)[i] == ContentCells(w, g, data, n - 1)[i];
    } else {
      assert ContentCells(w, g, data, n)[n - 1] == Elem(ContentCell(w, g, g.columns[n - 1], data));
    }
  }

  lemma ContentCellsAll(w: Wrappers, g: GridState, data: Record, n: nat)
    requires n <= |g.columns|
    ensures forall i :: 0 <= i < n ==> ContentCells(w, g, data, n)[i] == Elem(ContentCell(w, g, g.columns[i], data))
  {
    forall i | 0 <= i < n
      ensures ContentCells(w, g, data, n)[i] == Elem(ContentCell(w, g, g.columns[i], data))
    {
      ContentCellsAt(w, g, data, n, i);
    }
  }

  lemma ContentCellsStep(w: Wrappers, g: GridState, data: Record, i: nat, cell: Node)
    requires i < |g.columns| && cell == ContentCell(w, g, g.columns[i], data)
    ensures ContentCells(w, g, data, i + 1) == ContentCells(w, g, data, i) + [Elem(cell)]
  {
  }

  /** The cell of an action column holds the actions' links. */
  lemma ActionCellIs(w: Wrappers, g: GridState, c: Column, data: Record, value: seq<Child>)
    requires c.kind == Action && value == ActionsHtml(g, g.actions, KeyOf(g, data))
    ensures ContentCell(w, g, c, data) ==
      AppendClass(SetHtml(Wrapper3(w, "row.content", "cell", "container").(attrs := c.cellAttrs), value), "actions")
  {
  }

  /** The markup of one content row. */
  function ContentRowNode(w: Wrappers, g: GridState, data: Record): Node {
    AddAll(Wrapper2(w, "row.content", "container"),
      (if g.hasOperations then [Elem(ContentChecker(w, KeyOf(g, data)))] else []) + ContentCells(w, g, data, |g.columns|))
  }

  /** A row needs its primary key when the grid has operations or actions. */
  predicate NeedsKey(g: GridState) {
    g.hasOperations || g.HasActions()
  }

  /** One content row, or the missing-key error when the row needs its
      primary key and lacks it. */
  function ContentRow(w: Wrappers, g: GridState, data: Record): Result<Node, RenderError> {
    if NeedsKey(g) && g.keyName !in data then Failure(MissingKey(g.keyName))
    else Success(ContentRowNode(w, g, data))
  }

  /** A content row fails exactly when the grid has operations or actions
      and the row does not contain the key column, and then names the key. */
  lemma ContentRowKey(w: Wrappers, g: GridState, data: Record)
    ensures ContentRow(w, g, data).Failure? <==> (g.hasOperations || |g.actions| > 0) && g.keyName !in data
    ensures ContentRow(w, g, data).Failure? ==> ContentRow(w, g, data).error == MissingKey(g.keyName)
  {
  }

  /** A content row is the row prototype followed by the checker cell
      (holding the checkbox of the row's key) when the grid has operations,
      and then one cell per column in column order. */
  lemma ContentRowLayout(w: Wrappers, g: GridState, data: Record)
    requires ContentRow(w, g, data).Success?
    ensures var proto := Wrapper2(w, "row.content", "container");
      var row := ContentRow(w, g, data).value;
      var k := if g.hasOperations then 1 else 0;
      && row.name == proto.name && row.attrs == proto.attrs
      && |row.children| == |proto.children| + k + |g.columns|
      && row.children[..|proto.children|] == proto.children
      && (g.hasOperations ==>
            (g.keyName in data && row.children[|proto.children|] == Elem(ContentChecker(w, data[g.keyName]))))
      && var cells := row.children[|proto.children| + k..];
      && (forall i :: 0 <= i < |g.columns| ==> cells[i] == Elem(ContentCell(w, g, g.columns[i], data)))
  {
    var proto := Wrapper2(w, "row.content", "container");
    var checker := if g.hasOperations then [Elem(ContentChecker(w, KeyOf(g, data)))] else [];
    AddAllTwo(proto, checker, ContentCells(w, g, data, |g.columns|));
    ContentCellsAll(w, g, data, |g.columns|);
    var row := ContentRow(w, g, data).value;
    assert row == AddAll(proto, checker + ContentCells(w, g, data, |g.columns|));
    if g.hasOperations {
      assert row.children[|proto.children|] == row.children[|proto.children|..|proto.children| + 1][0];
    }
  }

  /** A content cell takes the column's cell attributes; a plain column's
      cell holds the formatted field value (absent when the row lacks the
      field), an action column's cell the action links and class `actions`. */
  lemma ContentCellSpec(w: Wrappers, g: GridState, c: Column, data: Record)
    ensures var cell := ContentCell(w, g, c, data);
      && cell.attrs.named == c.cellAttrs.named
      && cell.attrs.classes == c.cellAttrs.classes + (if c.kind == Action then ["actions"] else [])
      && (c.kind == Plain ==> cell.children == [Formatted(c.name, if c.name in data then Some(data[c.name]) else None)])
      && (c.kind == Action ==> cell.children == ActionsHtml(g, g.actions, KeyOf(g, data)))
  {
  }

  /** The class appended to the i-th content row (counting from 0): the
      configured even-row class on the 2nd, 4th, ... row, the empty class
      otherwise. */
  function RowClass(w: Wrappers, i: nat): string {
    if (i + 1) % 2 == 0 then Scalar(Entry2(w, "row.content", ".even")) else ""
  }

  /** With the built-in wrappers every second row, starting with the
      second, has class `even` and the others an empty class. */
  lemma RowClassDefaults(i: nat)
    ensures RowClass(Defaults, i) == if i % 2 == 1 then "even" else ""
  {
    DefaultsContent();
    assert ((i + 1) % 2 == 0) == (i % 2 == 1);
  }

  /** Every record has the primary key when the rows need it. */
  predicate RowsOk(g: GridState) {
    NeedsKey(g) ==> forall i :: 0 <= i < |g.rows| ==> g.keyName in g.rows[i]
  }

  /** The content rows, the i-th (counting from 0) with the class for
      position i. */
  function RowsMarkup(w: Wrappers, g: GridState, n: nat): (cs: seq<Child>)
    requires n <= |g.rows|
    ensures |cs| == n
  {
    if n == 0 then [] else RowsMarkup(w, g, n - 1) + [Elem(AppendClass(ContentRowNode(w, g, g.rows[n - 1]), RowClass(w, n - 1)))]
  }

  lemma {:induction false} RowsMarkupAt(w: Wrappers, g: GridState, n: nat, i: nat)
    requires i < n <= |g.rows|
    ensures RowsMarkup(w, g, n)[i] == Elem(AppendClass(ContentRowNode(w, g, g.rows[i]), RowClass(w, i)))
  {
    if i < n - 1 {
      RowsMarkupAt(w, g, n - 1, i);
      assert RowsMarkup(w, g, n)[i] == RowsMarkup(w, g, n - 1)[i];
    } else {
      assert RowsMarkup(w, g, n)[n - 1] == Elem(AppendClass(ContentRowNode(w, g, g.rows[n - 1]), RowClass(w, n - 1)));
    }
  }

  lemma RowsMarkupAll(w: Wrappers, g: GridState, n: nat)
    requires n <= |g.rows|
    ensures forall i :: 0 <= i < n ==> RowsMarkup(w, g, n)[i] == Elem(AppendClass(ContentRowNode(w, g, g.rows[i]), RowClass(w, i)))
  {
    forall i | 0 <= i < n
      ensures RowsMarkup(w, g, n)[i] == Elem(AppendClass(ContentRowNode(w, g, g.rows[i]), RowClass(w, i)))
    {
      RowsMarkupAt(w, g, n, i);
    }
  }

  // ---------------------------------------------------------------------
  // Paginator

  /** A page link: the AJAX class, the target page, the title as text and
      as the `title` attribute. */
  function PageLinkElement(g: GridState, page: int, title: string): Node {
    Node("a", Attrs([g.ajaxClass], map["href" := Link(PageLink(page)), "title" := Str(title)]), [Text(title)])
  }

  /** The button shows its title as plain text and links nowhere. */
  predicate Inert(c: Child, title: string) {
    c.Elem? && c.node.children == [Text(title)]
  }

  /** The button ends with a link to `page` showing `title`. */
  predicate LinksTo(c: Child, page: int, title: string) {
    && c.Elem? && |c.node.children| >= 1
    && var last := c.node.children[|c.node.children| - 1];
    && last.Elem? && last.node.name == "a"
    && "href" in last.node.attrs.named && last.node.attrs.named["href"] == Link(PageLink(page))
    && last.node.children == [Text(title)]
  }

  /** The button carries the button prototype's classes and then `cls`. */
  predicate HasButtonClass(c: Child, proto: Node, cls: string) {
    c.Elem? && c.node.attrs.classes == proto.attrs.classes + [cls]
  }

  /** A paginator button: a copy of the button prototype with its own class,
      holding only the title as plain text at the boundary and otherwise
      ending with a link to `page`. */
  function Button(g: GridState, proto: Node, cls: string, title: string, atBoundary: bool, page: int): Node {
    var b := AppendClass(proto, cls);
    if atBoundary then SetText(b, title) else Add(b, Elem(PageLinkElement(g, page, title)))
  }

  lemma ButtonShape(g: GridState, proto: Node, cls: string, title: string, atBoundary: bool, page: int)
    ensures var b := Button(g, proto, cls, title, atBoundary, page);
      && HasButtonClass(Elem(b), proto, cls)
      && (atBoundary ==> Inert(Elem(b), title))
      && (!atBoundary ==> LinksTo(Elem(b), page, title))
  {
    var b := AppendClass(proto, cls);
    if !atBoundary {
      assert Button(g, proto, cls, title, atBoundary, page).children == b.children + [Elem(PageLinkElement(g, page, title))];
    }
  }

  /** The page input: the translated format with the page control's label,
      its input and the page count put in place of the placeholders. */
  function PageInputHtml(g: GridState): seq<Child> {
    SpliceAll(SpliceAll(Splice(Translate(g, PageInputFormat), "%label%", [Widget(PageLabel, [])]),
      "%input%", [Widget(PageInput, [])]), "%count%", [Number(g.paginator.pageCount)])
  }

  /** Every `%label%`, `%input%` and `%count%` of the translated format is
      replaced by the label, the input and the page count. */
  lemma PageInputReplaces(g: GridState)
    ensures RawAbsent(PageInputHtml(g), "%label%")
    ensures RawAbsent(PageInputHtml(g), "%input%")
    ensures RawAbsent(PageInputHtml(g), "%count%")
  {
    SpliceThreeReplaces(Translate(g, PageInputFormat), "%label%", [Widget(PageLabel, [])],
      "%input%", [Widget(PageInput, [])], "%count%", [Number(g.paginator.pageCount)]);
  }

  /** The six parts of the paginator around the page input. */
  function PaginatorParts(g: GridState, proto: Node, input: seq<Child>): seq<Child> {
    var p := g.paginator;
    [Elem(Button(g, proto, "paginator-first", "« " + Translate(g, "First"), p.isFirst, 1)),
     Elem(Button(g, proto, "paginator-prev", "« " + Translate(g, "Previous"), p.isFirst, p.page - 1)),
     Elem(Node("", NoAttrs, input)),
     Widget(PageSubmit, []),
     Elem(Button(g, proto, "paginator-next", Translate(g, "Next") + " »", p.isLast, p.page + 1)),
     Elem(Button(g, proto, "paginator-last", Translate(g, "Last") + " »", p.isLast, p.pageCount))]
  }

  /** `renderPaginator()`: nothing for a single page, otherwise the
      container holding the six parts. */
  function PaginatorMarkup(w: Wrappers, g: GridState): Option<Node> {
    if g.paginator.pageCount <= 1 then None
    else Some(AddAll(Wrapper2(w, "paginator", "container"), PaginatorParts(g, Wrapper3(w, "paginator", "button", "container"), PageInputHtml(g))))
  }

  /** The paginator of a grid with several pages, in terms of its container
      and of the four buttons built separately. */
  lemma PaginatorMarkupIs(w: Wrappers, g: GridState, start: Node, proto: Node, input: seq<Child>,
                          first: Node, prev: Node, next: Node, last: Node, bar: Node)
    requires g.paginator.pageCount > 1
    requires start == Wrapper2(w, "paginator", "container") && proto == Wrapper3(w, "paginator", "button", "container")
    requires input == PageInputHtml(g)
    requires first == Button(g, proto, "paginator-first", "« " + Translate(g, "First"), g.paginator.isFirst, 1)
    requires prev == Button(g, proto, "paginator-prev", "« " + Translate(g, "Previous"), g.paginator.isFirst, g.paginator.page - 1)
    requires next == Button(g, proto, "paginator-next", Translate(g, "Next") + " »", g.paginator.isLast, g.paginator.page + 1)
    requires last == Button(g, proto, "paginator-last", Translate(g, "Last") + " »", g.paginator.isLast, g.paginator.pageCount)
    requires bar == AddAll(start, [Elem(first), Elem(prev), Elem(Node("", NoAttrs, input)), Widget(PageSubmit, []), Elem(next), Elem(last)])
    ensures PaginatorMarkup(w, g) == Some(bar)
  {
    PaginatorPartsAre(g, proto, input, first, prev, next, last);
  }

  /** The parts in terms of the four buttons built separately. */
  lemma PaginatorPartsAre(g: GridState, proto: Node, input: seq<Child>, first: Node, prev: Node, next: Node, last: Node)
    requires first == Button(g, proto, "paginator-first", "« " + Translate(g, "First"), g.paginator.isFirst, 1)
    requires prev == Button(g, proto, "paginator-prev", "« " + Translate(g, "Previous"), g.paginator.isFirst, g.paginator.page - 1)
    requires next == Button(g, proto, "paginator-next", Translate(g, "Next") + " »", g.paginator.isLast, g.paginator.page + 1)
    requires last == Button(g, proto, "paginator-last", Translate(g, "Last") + " »", g.paginator.isLast, g.paginator.pageCount)
    ensures PaginatorParts(g, proto, input) ==
      [Elem(first), Elem(prev), Elem(Node("", NoAttrs, input)), Widget(PageSubmit, []), Elem(next), Elem(last)]
  {
  }

  /** There is no paginator for a single page; otherwise it is the
      container followed by its six parts. */
  lemma PaginatorSpec(w: Wrappers, g: GridState)
    ensures PaginatorMarkup(w, g).None? <==> g.paginator.pageCount <= 1
    ensures PaginatorMarkup(w, g).Some? ==>
      var container := Wrapper2(w, "paginator", "container");
      var bar := PaginatorMarkup(w, g).value;
      && bar.name == container.name && bar.attrs == container.attrs
      && bar.children[..|container.children|] == container.children
      && bar.children[|container.children|..] == PaginatorParts(g, Wrapper3(w, "paginator", "button", "container"), PageInputHtml(g))
  {
    if g.paginator.pageCount > 1 {
      var parts := PaginatorParts(g, Wrapper3(w, "paginator", "button", "container"), PageInputHtml(g));
      AddAllTwo(Wrapper2(w, "paginator", "container"), [], parts);
      assert [] + parts == parts;
    }
  }

  /** The paginator's parts come in order: the to-first and previous
      buttons, the page input, the page submit button, the next and to-last
      buttons, each button with its own class. */
  lemma PaginatorOrder(g: GridState, proto: Node, input: seq<Child>)
    ensures var cs := PaginatorParts(g, proto, input);
      && |cs| == 6
      && HasButtonClass(cs[0], proto, "paginator-first")
      && HasButtonClass(cs[1], proto, "paginator-prev")
      && cs[2] == Elem(Node("", NoAttrs, input))
      && cs[3] == Widget(PageSubmit, [])
      && HasButtonClass(cs[4], proto, "paginator-next")
      && HasButtonClass(cs[5], proto, "paginator-last")
  {
  }

  /** The to-first and previous buttons are plain text on the first page
      and otherwise link to page 1 and to the previous page. */
  lemma PaginatorBackward(g: GridState, proto: Node, input: seq<Child>)
    ensures var cs := PaginatorParts(g, proto, input);
      var first := "« " + Translate(g, "First");
      var prev := "« " + Translate(g, "Previous");
      && (g.paginator.isFirst ==> Inert(cs[0], first) && Inert(cs[1], prev))
      && (!g.paginator.isFirst ==> LinksTo(cs[0], 1, first) && LinksTo(cs[1], g.paginator.page - 1, prev))
  {
  }

  /** The next and to-last buttons are plain text on the last page and
      otherwise link to the next page and to the last page. */
  lemma PaginatorForward(g: GridState, proto: Node, input: seq<Child>)
    ensures var cs := PaginatorParts(g, proto, input);
      var next := Translate(g, "Next") + " »";
      var last := Translate(g, "Last") + " »";
      && (g.paginator.isLast ==> Inert(cs[4], next) && Inert(cs[5], last))
      && (!g.paginator.isLast ==> LinksTo(cs[4], g.paginator.page + 1, next) && LinksTo(cs[5], g.paginator.pageCount, last))
  {
  }

  // ---------------------------------------------------------------------
  // Operations, info, errors

  /** `renderOperations()`: nothing without operations, otherwise the
      container holding the operations label, the operations select box and
      the operation submit button. */
  function OperationsMarkup(w: Wrappers, g: GridState): Option<Node> {
    if !g.hasOperations then None
    else Some(AddAll(Wrapper2(w, "operations", "container"),
      [Widget(OperationsLabel, []), Widget(OperationsSelect, []), Widget(OperationSubmit, [])]))
  }

  lemma OperationsSpec(w: Wrappers, g: GridState)
    ensures OperationsMarkup(w, g).None? <==> !g.hasOperations
    ensures OperationsMarkup(w, g).Some? ==>
      var proto := Wrapper2(w, "operations", "container");
      var bar := OperationsMarkup(w, g).value;
      bar.name == proto.name && bar.attrs == proto.attrs &&
      bar.children == proto.children + [Widget(OperationsLabel, []), Widget(OperationsSelect, []), Widget(OperationSubmit, [])]
  {
  }

  /** The first item shown, the last item shown and the item count. */
  function InfoNumbers(p: Paginator): (r: (int, int, int))
    ensures r.1 == p.offset + p.length && r.2 == p.itemCount
    ensures p.itemCount != 0 ==> r.0 == p.offset + 1 && r.1 - r.0 + 1 == p.length
    ensures p.itemCount == 0 ==> r.0 == p.offset && r.1 - r.0 == p.length
  {
    (if p.itemCount != 0 then p.offset + 1 else p.offset, p.offset + p.length, p.itemCount)
  }

  /** The info line for a format already translated. */
  function InfoHtml(fmt: string, p: Paginator): seq<Child> {
    var (from, to, count) := InfoNumbers(p);
    SpliceAll(SpliceAll(Splice(fmt, "%from%", [Number(from)]), "%to%", [Number(to)]), "%count%", [Number(count)])
  }

  /** Every `%from%`, `%to%` and `%count%` of the format is replaced by its
      number. */
  lemma InfoReplaces(fmt: string, p: Paginator)
    ensures RawAbsent(InfoHtml(fmt, p), "%from%")
    ensures RawAbsent(InfoHtml(fmt, p), "%to%")
    ensures RawAbsent(InfoHtml(fmt, p), "%count%")
  {
    var (from, to, count) := InfoNumbers(p);
    SpliceThreeReplaces(fmt, "%from%", [Number(from)], "%to%", [Number(to)], "%count%", [Number(count)]);
  }

  /** `renderInfo()` once the format has been translated. */
  function InfoMarkup(w: Wrappers, g: GridState, fmt: string): Node {
    SetHtml(Wrapper2(w, "info", "container"), InfoHtml(fmt, g.paginator))
  }

  /** An error item: the stored markup added to the item, or the message set
      as escaped text. */
  function ErrorItem(item: Node, e: FormError): Node {
    match e
    case Rendered(n) => Add(item, Elem(n))
    case Message(t) => SetText(item, t)
  }

  /** The items of the first `n` errors. */
  function ErrorItems(item: Node, errors: seq<FormError>, n: nat): (cs: seq<Child>)
    requires n <= |errors|
    ensures |cs| == n
  {
    if n == 0 then [] else ErrorItems(item, errors, n - 1) + [Elem(ErrorItem(item, errors[n - 1]))]
  }

  lemma {:induction false} ErrorItemsAt(item: Node, errors: seq<FormError>, n: nat)
    requires n <= |errors|
    ensures forall i :: 0 <= i < n ==> ErrorItems(item, errors, n)[i] == Elem(ErrorItem(item, errors[i]))
  {
    if n > 0 {
      ErrorItemsAt(item, errors, n - 1);
    }
  }

  /** `renderErrors()`: nothing without errors, otherwise the error
      container holding one item per error. */
  function ErrorList(w: Wrappers, g: GridState): Option<Node> {
    if |g.errors| == 0 then None
    else Some(AddAll(Wrapper2(w, "error", "container"), ErrorItems(Wrapper2(w, "error", "item"), g.errors, |g.errors|)))
  }

  /** There is no list without errors; otherwise the list holds one item per
      error in order, a message as the item's only (escaped) text, ready
      markup appended to the item prototype's children. */
  lemma ErrorListSpec(w: Wrappers, g: GridState)
    ensures ErrorList(w, g).None? <==> |g.errors| == 0
    ensures ErrorList(w, g).Some? ==>
      var proto := Wrapper2(w, "error", "container");
      var item := Wrapper2(w, "error", "item");
      var ul := ErrorList(w, g).value;
      && ul.name == proto.name && ul.attrs == proto.attrs
      && |ul.children| == |proto.children| + |g.errors|
      && ul.children[..|proto.children|] == proto.children
      && var items := ul.children[|proto.children|..];
      && forall i :: 0 <= i < |g.errors| ==>
           && items[i].Elem? && items[i].node.name == item.name && items[i].node.attrs == item.attrs
           && (g.errors[i].Message? ==> items[i].node.children == [Text(g.errors[i].text)])
           && (g.errors[i].Rendered? ==> items[i].node.children == item.children + [Elem(g.errors[i].node)])
  {
    if |g.errors| > 0 {
      var items := ErrorItems(Wrapper2(w, "error", "item"), g.errors, |g.errors|);
      AddAllTwo(Wrapper2(w, "error", "container"), [], items);
      ErrorItemsAt(Wrapper2(w, "error", "item"), g.errors, |g.errors|);
      assert [] + items == items;
    }
  }

  // ---------------------------------------------------------------------
  // Footer row and the whole table

  /** The number of columns the footer cell spans. */
  function FooterColspan(g: GridState): int {
    |g.columns| + (if g.hasOperations then 1 else 0)
  }

  function Region(o: Option<Node>): seq<Child> {
    if o.Some? then [Elem(o.value)] else []
  }

  /** The footer markup before trimming, for formats already translated:
      the operations, the paginator and the info line put in place of their
      placeholders, in that order. */
  function FooterSpliced(w: Wrappers, g: GridState, footerFormat: string, infoFormat: string): seq<Child> {
    SpliceAll(SpliceAll(Splice(footerFormat, "%operations%", Region(OperationsMarkup(w, g))),
      "%paginator%", Region(PaginatorMarkup(w, g))), "%info%", [Elem(InfoMarkup(w, g, infoFormat))])
  }

  /** The footer markup: the spliced footer with separators trimmed. */
  function FooterHtml(w: Wrappers, g: GridState, footerFormat: string, infoFormat: string): seq<Child> {
    Trim(FooterSpliced(w, g, footerFormat, infoFormat))
  }

  function FooterRow(w: Wrappers, g: GridState, footerFormat: string, infoFormat: string): Node {
    var cell := SetHtml(SetAttr(Wrapper3(w, "row.footer", "cell", "container"), "colspan", Num(FooterColspan(g))),
      FooterHtml(w, g, footerFormat, infoFormat));
    Add(Wrapper2(w, "row.footer", "container"), Elem(cell))
  }

  /** The footer row holds one cell spanning every column, plus the checker
      column when there are operations; the cell's markup, as rendered, is
      the rendered spliced footer with the separators `' '` and `'|'`
      removed from both ends. */
  lemma FooterRowSpec(w: Wrappers, g: GridState, footerFormat: string, infoFormat: string)
    ensures var proto := Wrapper2(w, "row.footer", "container");
      var row := FooterRow(w, g, footerFormat, infoFormat);
      && |row.children| == |proto.children| + 1
      && row.children[..|proto.children|] == proto.children
      && var cell := row.children[|proto.children|];
      && cell.Elem?
      && "colspan" in cell.node.attrs.named
      && cell.node.attrs.named["colspan"] == Num(|g.columns| + (if g.hasOperations then 1 else 0))
      && Stream(cell.node.children) == DropTrailing(DropLeading(Stream(FooterSpliced(w, g, footerFormat, infoFormat))))
  {
    TrimRendersAsTrim(FooterSpliced(w, g, footerFormat, infoFormat));
  }

  lemma RegionNoRaw(o: Option<Node>)
    ensures NoRaw(Region(o))
  {
  }

  /** Every `%operations%`, `%paginator%` and `%info%` of the footer format
      is replaced by its region, and trimming keeps it so. */
  lemma FooterReplaces(w: Wrappers, g: GridState, footerFormat: string, infoFormat: string)
    ensures RawAbsent(FooterHtml(w, g, footerFormat, infoFormat), "%operations%")
    ensures RawAbsent(FooterHtml(w, g, footerFormat, infoFormat), "%paginator%")
    ensures RawAbsent(FooterHtml(w, g, footerFormat, infoFormat), "%info%")
  {
    var r1, r2 := Region(OperationsMarkup(w, g)), Region(PaginatorMarkup(w, g));
    var r3 := [Elem(InfoMarkup(w, g, infoFormat))];
    RegionNoRaw(OperationsMarkup(w, g));
    RegionNoRaw(PaginatorMarkup(w, g));
    SpliceThreeTrimmed(footerFormat, "%operations%", r1, "%paginator%", r2, "%info%", r3);
  }

  /** The table assembled from its rows: the prototype's own children,
      the header row, the filter row when there is one, the content rows and
      the footer row. */
  function Assemble(proto: Node, header: Node, filter: Option<Node>, rows: seq<Child>, footer: Node): Node {
    AddAll(proto, [Elem(header)] + Region(filter) + rows + [Elem(footer)])
  }

  /** `table` is laid out as the prototype's own children, then the header
      row, the filter row when there is one, the content rows and the
      footer row, with the prototype's name and attributes. */
  predicate Laid(table: Node, proto: Node, header: Node, filter: Option<Node>, rows: seq<Child>, footer: Node) {
    var f := if filter.Some? then 1 else 0;
    var n := |proto.children|;
    && table.name == proto.name && table.attrs == proto.attrs
    && |table.children| == n + 1 + f + |rows| + 1
    && table.children[..n] == proto.children
    && table.children[n] == Elem(header)
    && (filter.Some? ==> table.children[n + 1] == Elem(filter.value))
    && table.children[n + 1 + f..n + 1 + f + |rows|] == rows
    && table.children[n + 1 + f + |rows|] == Elem(footer)
  }

  lemma AssembleLayout(proto: Node, header: Node, filter: Option<Node>, rows: seq<Child>, footer: Node)
    ensures Laid(Assemble(proto, header, filter, rows, footer), proto, header, filter, rows, footer)
  {
    var table := Assemble(proto, header, filter, rows, footer);
    assert table.children == proto.children + ([Elem(header)] + Region(filter)) + rows + [Elem(footer)];
  }

  /** The content rows in record order, each with the class for its position. */
  lemma RowsInOrder(w: Wrappers, g: GridState, rows: seq<Child>)
    requires RowsOk(g) && rows == RowsMarkup(w, g, |g.rows|)
    ensures |rows| == |g.rows|
    ensures forall i :: 0 <= i < |g.rows| ==>
      (ContentRow(w, g, g.rows[i]).Success? &&
       rows[i] == Elem(AppendClass(ContentRow(w, g, g.rows[i]).value, RowClass(w, i))))
  {
    RowsMarkupAll(w, g, |g.rows|);
  }

  /** The table for given header, filter and footer rows: the header row,
      the filter row if any, one content row per record and the footer row;
      or the missing-key error when a record cannot make a row. */
  function TableOf(w: Wrappers, g: GridState, header: Node, filter: Option<Node>, footer: Node): Result<Node, RenderError> {
    if !RowsOk(g) then Failure(MissingKey(g.keyName))
    else Success(Assemble(Wrapper2(w, "grid", "container"), header, filter, RowsMarkup(w, g, |g.rows|), footer))
  }

  /** The filter row when the grid has filters. */
  function FilterRowIf(w: Wrappers, g: GridState): Option<Node> {
    if g.hasFilters then Some(FilterRow(w, g)) else None
  }

  /** `renderBody()` once the footer and info formats have been translated:
      the table with the header row, the filter row when the grid has
      filters and the footer row. */
  function Body(w: Wrappers, g: GridState, footerFormat: string, infoFormat: string): Result<Node, RenderError> {
    TableOf(w, g, HeaderRow(w, g), FilterRowIf(w, g), FooterRow(w, g, footerFormat, infoFormat))
  }

  /** The content rows of a table, or the missing-key error when some record
      cannot make a row. */
  function ContentRows(w: Wrappers, g: GridState): Result<seq<Child>, RenderError> {
    if RowsOk(g) then Success(RowsMarkup(w, g, |g.rows|)) else Failure(MissingKey(g.keyName))
  }

  /** One record that cannot make a content row makes the content rows fail
      with the missing-key error. */
  lemma RowFails(w: Wrappers, g: GridState, i: nat, row: Result<Node, RenderError>)
    requires i < |g.rows| && row == ContentRow(w, g, g.rows[i]) && row.Failure?
    ensures row.error == MissingKey(g.keyName)
    ensures ContentRows(w, g) == Failure(row.error)
  {
  }

  /** The first `n` records all have the key, when rows need it. */
  predicate KeysUpTo(g: GridState, n: nat)
    requires n <= |g.rows|
  {
    n == 0 || (KeysUpTo(g, n - 1) && (NeedsKey(g) ==> g.keyName in g.rows[n - 1]))
  }

  lemma {:induction false} KeysUpToAll(g: GridState, n: nat)
    requires n <= |g.rows| && KeysUpTo(g, n)
    ensures NeedsKey(g) ==> forall k :: 0 <= k < n ==> g.keyName in g.rows[k]
  {
    if n > 0 {
      KeysUpToAll(g, n - 1);
    }
  }

  /** A record that makes a row has the key whenever rows need it, and
      extends the content rows by that row with the class for its position. */
  lemma RowsMarkupStep(w: Wrappers, g: GridState, i: nat, row: Result<Node, RenderError>, cls: string)
    requires i < |g.rows| && row == ContentRow(w, g, g.rows[i]) && row.Success?
    requires cls == RowClass(w, i)
    ensures KeysUpTo(g, i) ==> KeysUpTo(g, i + 1)
    ensures RowsMarkup(w, g, i + 1) == RowsMarkup(w, g, i) + [Elem(AppendClass(row.value, cls))]
  {
  }

  /** When every record has made its row, the content rows are those rows. */
  lemma RowsDone(w: Wrappers, g: GridState)
    requires KeysUpTo(g, |g.rows|)
    ensures ContentRows(w, g) == Success(RowsMarkup(w, g, |g.rows|))
  {
    KeysUpToAll(g, |g.rows|);
  }

  /** The table head: the header row, then the filter row when there is one. */
  lemma HeadIs(proto: Node, header: Node, filter: Option<Node>, table: Node)
    requires table == if filter.Some? then Add(Add(proto, Elem(header)), Elem(filter.value)) else Add(proto, Elem(header))
    ensures table == AddAll(proto, [Elem(header)] + Region(filter))
  {
    if filter.Some? {
      assert proto.children + [Elem(header)] + [Elem(filter.value)] == proto.children + ([Elem(header)] + Region(filter));
    }
  }

  /** The body fails when the content rows do. */
  lemma BodyFails(w: Wrappers, g: GridState, footerFormat: string, infoFormat: string)
    requires ContentRows(w, g).Failure?
    ensures Body(w, g, footerFormat, infoFormat) == Failure(ContentRows(w, g).error)
  {
  }

  /** Otherwise the body is the table assembled from the header row, the
      filter row when there are filters, the content rows and the footer
      row. */
  lemma BodyIs(w: Wrappers, g: GridState, footerFormat: string, infoFormat: string,
               proto: Node, header: Node, filter: Option<Node>, rows: seq<Child>, footer: Node, table: Node)
    requires ContentRows(w, g) == Success(rows)
    requires proto == Wrapper2(w, "grid", "container") && header == HeaderRow(w, g)
    requires filter == FilterRowIf(w, g)
    requires footer == FooterRow(w, g, footerFormat, infoFormat)
    requires table == Assemble(proto, header, filter, rows, footer)
    ensures Body(w, g, footerFormat, infoFormat) == Success(table)
  {
  }

  /** The table fails exactly when the grid has operations or actions and
      some record lacks the key column, that is when some record cannot make
      a content row; the error names the key. */
  lemma TableFails(w: Wrappers, g: GridState, header: Node, filter: Option<Node>, footer: Node)
    ensures TableOf(w, g, header, filter, footer).Failure? <==>
      (g.hasOperations || |g.actions| > 0) && exists i :: 0 <= i < |g.rows| && g.keyName !in g.rows[i]
    ensures TableOf(w, g, header, filter, footer).Failure? <==> exists i :: 0 <= i < |g.rows| && ContentRow(w, g, g.rows[i]).Failure?
    ensures TableOf(w, g, header, filter, footer).Failure? ==> TableOf(w, g, header, filter, footer).error == MissingKey(g.keyName)
  {
  }

  /** Otherwise the table is the header row, the filter row if any, the
      content rows (whose order and classes `RowsInOrder` gives) and the
      footer row. */
  lemma TableLayout(w: Wrappers, g: GridState, header: Node, filter: Option<Node>, footer: Node, table: Node)
    requires TableOf(w, g, header, filter, footer) == Success(table)
    ensures RowsOk(g)
    ensures Laid(table, Wrapper2(w, "grid", "container"), header, filter, RowsMarkup(w, g, |g.rows|), footer)
  {
    AssembleLayout(Wrapper2(w, "grid", "container"), header, filter, RowsMarkup(w, g, |g.rows|), footer);
  }
}
