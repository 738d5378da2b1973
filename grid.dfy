/** The grid snapshot the renderer reads. The grid itself, its form, its
    data source and its paginator are collaborators outside this model; this
    module records only what the renderer asks of them. */
module Grid {
  import opened Options
  import opened Markup

  /** A plain data column, or an action column whose cells hold row actions. */
  datatype ColumnKind = Plain | Action

  /** A select-box filter, or any other kind of filter. */
  datatype FilterKind = Selectbox | TextInput

  /** A column: its name (the record field it shows), its caption, its kind,
      whether it can be ordered by, its filter if it has one, and the
      attributes its header prototype and cell prototype carry. */
  datatype Column = Column(
    name: string,
    caption: string,
    kind: ColumnKind,
    orderable: bool,
    filter: Option<FilterKind>,
    headerAttrs: Attrs,
    cellAttrs: Attrs)

  /** A row action: its name and the title its link element carries. */
  datatype RowAction = RowAction(name: string, title: string)

  /** The state of the grid's paginator, as the paginator computes it. */
  datatype Paginator = Paginator(
    page: int,
    pageCount: int,
    itemCount: int,
    offset: int,
    length: int,
    isFirst: bool,
    isLast: bool)

  /** A validation error of the grid's form: a message, or ready markup. */
  datatype FormError = Message(text: string) | Rendered(node: Node)

  /** One data row: field name to value. */
  type Record = map<string, string>

  /** A control of the grid's form, with the `rendered` option the form
      library sets once the control has been output. */
  class FormControl {
    var rendered: bool

    constructor (rendered: bool)
      ensures this.rendered == rendered
    {
      this.rendered := rendered;
    }
  }

  /** Everything the renderer reads from the grid. `order` is the order
      expression already split into (field, direction) pairs, in the order
      they were written; `form` is the form's element prototype;
      `hasDataSource` says whether a data source of the supported kind is
      attached. */
  datatype GridState = GridState(
    columns: seq<Column>,
    actions: seq<RowAction>,
    hasOperations: bool,
    hasFilters: bool,
    keyName: string,
    order: seq<(string, string)>,
    paginator: Paginator,
    rows: seq<Record>,
    errors: seq<FormError>,
    form: Node,
    controls: seq<FormControl>,
    translator: Option<string -> string>,
    ajaxClass: string,
    hasDataSource: bool)
  {
    /** The grid has row actions. */
    predicate HasActions() {
      |actions| > 0
    }
  }

  /** `translate($s)`: the grid's translator, or the text unchanged when
      the grid has none. */
  function Translate(g: GridState, s: string): string {
    match g.translator
    case None => s
    case Some(t) => t(s)
  }

  /** `translate` depends on the grid only through its translator: with
      none it leaves every text as it is, and with one it is that
      translator's result; two grids with the same translator translate
      alike. */
  lemma TranslateSpec(g: GridState, h: GridState, s: string)
    ensures g.translator.None? ==> Translate(g, s) == s
    ensures g.translator.Some? ==> Translate(g, s) == g.translator.value(s)
    ensures g.translator == h.translator ==> Translate(g, s) == Translate(h, s)
  {
  }
}
