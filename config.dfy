/** The renderer's wrapper table: a nested configuration that gives, per grid
    region, the markup spec of its container and of its parts, addressed by a
    space-separated name such as `row.header cell container`. */
module Config {
  import opened Options
  import opened Text
  import opened Markup

  /** A table entry: a markup spec or class name, a boolean, a ready-made
      element (an application may store an `Html` object), or a sub-table. */
  datatype Wrapper =
    | Spec(spec: string)
    | Bool(b: bool)
    | Element(node: Node)
    | Table(entries: map<string, Wrapper>)

  type Wrappers = map<string, Wrapper>

  /** The built-in table. */
  const Defaults: Wrappers := map[
    "form" := Table(map["container" := Spec("class=gridform"), "errors" := Bool(true)]),
    "error" := Table(map["container" := Spec("ul class=error"), "item" := Spec("li")]),
    "grid" := Table(map["container" := Spec("table class=grid")]),
    "row.header" := Table(map[
      "container" := Spec("tr class=header"),
      "cell" := Table(map["container" := Spec("th")])]),
    "row.filter" := Table(map[
      "container" := Spec("tr class=filters"),
      "cell" := Table(map["container" := Spec("td")]),
      "control" := Table(map[".input" := Spec("text"), ".select" := Spec("select"), ".submit" := Spec("button")])]),
    "row.content" := Table(map[
      "container" := Spec("tr"),
      ".even" := Spec("even"),
      "cell" := Table(map["container" := Spec("td")])]),
    "row.footer" := Table(map[
      "container" := Spec("tr class=footer"),
      "cell" := Table(map["container" := Spec("td")])]),
    "paginator" := Table(map[
      "container" := Spec("span class=paginator"),
      "button" := Table(map["container" := Spec("span")])]),
    "operations" := Table(map["container" := Spec("span class=operations")]),
    "info" := Table(map["container" := Spec("span class=grid-info")])
  ]

  /** Follows a path of keys through nested tables; a missing key, or a key
      applied to an entry that is not a table, finds nothing. */
  function Lookup(w: Wrappers, path: seq<string>): Option<Wrapper>
    requires |path| >= 1
    decreases |path|
  {
    if path[0] !in w then None
    else if |path| == 1 then Some(w[path[0]])
    else match w[path[0]]
      case Table(m) => Lookup(m, path[1..])
      case _ => None
  }

  /** The segment at position `i` of a split name; PHP reads a missing
      offset as NULL, which indexes an array as the empty key. */
  function Segment(ts: seq<string>, i: nat): string {
    if i < |ts| then ts[i] else ""
  }

  /** `getValue($name)`: a name of exactly three segments reads
      `wrappers[t0][t1][t2]`, any other name `wrappers[t0][t1]`. */
  function GetValue(w: Wrappers, name: string): Option<Wrapper> {
    var ts := Explode(name);
    if |ts| == 3 then Lookup(w, ts) else Lookup(w, [ts[0], Segment(ts, 1)])
  }

  /** The entry two levels down, spelled out. */
  function Entry2(w: Wrappers, a: string, b: string): Option<Wrapper> {
    if a in w && w[a].Table? && b in w[a].entries then Some(w[a].entries[b]) else None
  }

  /** The entry three levels down, spelled out. */
  function Entry3(w: Wrappers, a: string, b: string, c: string): Option<Wrapper> {
    match Entry2(w, a, b)
    case Some(Table(m)) => if c in m then Some(m[c]) else None
    case _ => None
  }

  lemma GetValueThree(w: Wrappers, a: string, b: string, c: string)
    requires NoSpace(a) && NoSpace(b) && NoSpace(c)
    ensures GetValue(w, a + " " + b + " " + c) == Entry3(w, a, b, c)
  {
    var ts := [a, b, c];
    assert ts[1..] == [b, c] && [b, c][1..] == [c];
    assert Join([b, c]) == b + " " + c;
    assert Join(ts) == a + " " + Join([b, c]);
    assert a + " " + (b + " " + c) == a + " " + b + " " + c;
    ExplodeJoin(ts);
    if a in w && w[a].Table? {
      LookupTwo(w[a].entries, b, c);
    }
  }

  lemma GetValueTwo(w: Wrappers, a: string, b: string)
    requires NoSpace(a) && NoSpace(b)
    ensures GetValue(w, a + " " + b) == Entry2(w, a, b)
  {
    var ts := [a, b];
    assert ts[1..] == [b];
    assert Join(ts) == a + " " + b;
    ExplodeJoin(ts);
    LookupTwo(w, a, b);
  }

  /** Segments past the second are ignored unless there are exactly three. */
  lemma GetValueOther(w: Wrappers, ts: seq<string>)
    requires |ts| >= 1 && |ts| != 3
    requires forall i :: 0 <= i < |ts| ==> NoSpace(ts[i])
    ensures GetValue(w, Join(ts)) == Entry2(w, ts[0], Segment(ts, 1))
  {
    ExplodeJoin(ts);
    LookupTwo(w, ts[0], Segment(ts, 1));
  }

  lemma LookupTwo(w: Wrappers, a: string, b: string)
    ensures Lookup(w, [a, b]) == Entry2(w, a, b)
  {
    assert [a, b][1..] == [b];
  }

  /** Markup-spec text of a scalar entry as PHP would cast it to a string
      (`TRUE` is "1"; anything else non-string is treated as empty). */
  function Scalar(v: Option<Wrapper>): string {
    match v
    case Some(Spec(s)) => s
    case Some(Bool(b)) => if b then "1" else ""
    case _ => ""
  }

  /** `getWrapper($name)`: a stored element is copied, anything else is
      instantiated as `Html::el(...)`. Nodes are values, so every caller
      gets its own copy and changing one never changes another. */
  function GetWrapper(w: Wrappers, name: string): Node {
    WrapperOf(GetValue(w, name))
  }

  function WrapperOf(v: Option<Wrapper>): Node {
    match v
    case Some(Element(n)) => n
    case _ => El(Scalar(v))
  }

  /** The wrapper at a two- or three-segment name, addressed by its
      segments; the lemmas below show it is `getWrapper` of the name. */
  function Wrapper2(w: Wrappers, a: string, b: string): Node {
    WrapperOf(Entry2(w, a, b))
  }

  function Wrapper3(w: Wrappers, a: string, b: string, c: string): Node {
    WrapperOf(Entry3(w, a, b, c))
  }

  lemma GetWrapperTwo(w: Wrappers, a: string, b: string)
    requires NoSpace(a) && NoSpace(b)
    ensures GetWrapper(w, a + " " + b) == Wrapper2(w, a, b)
  {
    GetValueTwo(w, a, b);
  }

  lemma GetWrapperThree(w: Wrappers, a: string, b: string, c: string)
    requires NoSpace(a) && NoSpace(b) && NoSpace(c)
    ensures GetWrapper(w, a + " " + b + " " + c) == Wrapper3(w, a, b, c)
  {
    GetValueThree(w, a, b, c);
  }

  // Each name the renderer reads addresses the segments the model uses.

  lemma NameGridContainer(w: Wrappers)
    ensures GetWrapper(w, "grid container") == Wrapper2(w, "grid", "container")
  {
    assert "grid container" == "grid" + " " + "container";
    GetWrapperTwo(w, "grid", "container");
  }

  lemma NameErrorContainer(w: Wrappers)
    ensures GetWrapper(w, "error container") == Wrapper2(w, "error", "container")
  {
    assert "error container" == "error" + " " + "container";
    GetWrapperTwo(w, "error", "container");
  }

  lemma NameErrorItem(w: Wrappers)
    ensures GetWrapper(w, "error item") == Wrapper2(w, "error", "item")
  {
    assert "error item" == "error" + " " + "item";
    GetWrapperTwo(w, "error", "item");
  }

  lemma NameOperationsContainer(w: Wrappers)
    ensures GetWrapper(w, "operations container") == Wrapper2(w, "operations", "container")
  {
    assert "operations container" == "operations" + " " + "container";
    GetWrapperTwo(w, "operations", "container");
  }

  lemma NameInfoContainer(w: Wrappers)
    ensures GetWrapper(w, "info container") == Wrapper2(w, "info", "container")
  {
    assert "info container" == "info" + " " + "container";
    GetWrapperTwo(w, "info", "container");
  }

  lemma NamePaginatorContainer(w: Wrappers)
    ensures GetWrapper(w, "paginator container") == Wrapper2(w, "paginator", "container")
  {
    assert "paginator container" == "paginator" + " " + "container";
    GetWrapperTwo(w, "paginator", "container");
  }

  lemma NamePaginatorButtonContainer(w: Wrappers)
    ensures GetWrapper(w, "paginator button container") == Wrapper3(w, "paginator", "button", "container")
  {
    assert "paginator button container" == "paginator" + " " + "button" + " " + "container";
    GetWrapperThree(w, "paginator", "button", "container");
  }

  lemma NameRowHeaderContainer(w: Wrappers)
    ensures GetWrapper(w, "row.header container") == Wrapper2(w, "row.header", "container")
  {
    assert "row.header container" == "row.header" + " " + "container";
    GetWrapperTwo(w, "row.header", "container");
  }

  lemma NameRowHeaderCellContainer(w: Wrappers)
    ensures GetWrapper(w, "row.header cell container") == Wrapper3(w, "row.header", "cell", "container")
  {
    assert "row.header cell container" == "row.header" + " " + "cell" + " " + "container";
    GetWrapperThree(w, "row.header", "cell", "container");
  }

  lemma NameRowFilterContainer(w: Wrappers)
    ensures GetWrapper(w, "row.filter container") == Wrapper2(w, "row.filter", "container")
  {
    assert "row.filter container" == "row.filter" + " " + "container";
    GetWrapperTwo(w, "row.filter", "container");
  }

  lemma NameRowFilterCellContainer(w: Wrappers)
    ensures GetWrapper(w, "row.filter cell container") == Wrapper3(w, "row.filter", "cell", "container")
  {
    assert "row.filter cell container" == "row.filter" + " " + "cell" + " " + "container";
    GetWrapperThree(w, "row.filter", "cell", "container");
  }

  lemma NameRowFilterControlInput(w: Wrappers)
    ensures GetValue(w, "row.filter control .input") == Entry3(w, "row.filter", "control", ".input")
  {
    assert "row.filter control .input" == "row.filter" + " " + "control" + " " + ".input";
    GetValueThree(w, "row.filter", "control", ".input");
  }

  lemma NameRowFilterControlSelect(w: Wrappers)
    ensures GetValue(w, "row.filter control .select") == Entry3(w, "row.filter", "control", ".select")
  {
    assert "row.filter control .select" == "row.filter" + " " + "control" + " " + ".select";
    GetValueThree(w, "row.filter", "control", ".select");
  }

  lemma NameRowFilterControlSubmit(w: Wrappers)
    ensures GetValue(w, "row.filter control .submit") == Entry3(w, "row.filter", "control", ".submit")
  {
    assert "row.filter control .submit" == "row.filter" + " " + "control" + " " + ".submit";
    GetValueThree(w, "row.filter", "control", ".submit");
  }

  lemma NameRowContentContainer(w: Wrappers)
    ensures GetWrapper(w, "row.content container") == Wrapper2(w, "row.content", "container")
  {
    assert "row.content container" == "row.content" + " " + "container";
    GetWrapperTwo(w, "row.content", "container");
  }

  lemma NameRowContentCellContainer(w: Wrappers)
    ensures GetWrapper(w, "row.content cell container") == Wrapper3(w, "row.content", "cell", "container")
  {
    assert "row.content cell container" == "row.content" + " " + "cell" + " " + "container";
    GetWrapperThree(w, "row.content", "cell", "container");
  }

  lemma NameRowContentEven(w: Wrappers)
    ensures GetValue(w, "row.content .even") == Entry2(w, "row.content", ".even")
  {
    assert "row.content .even" == "row.content" + " " + ".even";
    GetValueTwo(w, "row.content", ".even");
  }

  lemma NameRowFooterContainer(w: Wrappers)
    ensures GetWrapper(w, "row.footer container") == Wrapper2(w, "row.footer", "container")
  {
    assert "row.footer container" == "row.footer" + " " + "container";
    GetWrapperTwo(w, "row.footer", "container");
  }

  lemma NameRowFooterCellContainer(w: Wrappers)
    ensures GetWrapper(w, "row.footer cell container") == Wrapper3(w, "row.footer", "cell", "container")
  {
    assert "row.footer cell container" == "row.footer" + " " + "cell" + " " + "container";
    GetWrapperThree(w, "row.footer", "cell", "container");
  }

  // Every wrapper the renderer reads is present in the built-in table as a
  // non-empty markup spec or class name.

  lemma DefaultsGrid()
    ensures Entry2(Defaults, "grid", "container") == Some(Spec("table class=grid"))
    ensures Entry2(Defaults, "error", "container") == Some(Spec("ul class=error"))
    ensures Entry2(Defaults, "error", "item") == Some(Spec("li"))
  {
  }

  lemma DefaultsHeader()
    ensures Entry2(Defaults, "row.header", "container") == Some(Spec("tr class=header"))
    ensures Entry3(Defaults, "row.header", "cell", "container") == Some(Spec("th"))
  {
  }

  lemma DefaultsFilter()
    ensures Entry2(Defaults, "row.filter", "container") == Some(Spec("tr class=filters"))
    ensures Entry3(Defaults, "row.filter", "cell", "container") == Some(Spec("td"))
    ensures Entry3(Defaults, "row.filter", "control", ".input") == Some(Spec("text"))
    ensures Entry3(Defaults, "row.filter", "control", ".select") == Some(Spec("select"))
    ensures Entry3(Defaults, "row.filter", "control", ".submit") == Some(Spec("button"))
  {
  }

  lemma DefaultsContent()
    ensures Entry2(Defaults, "row.content", "container") == Some(Spec("tr"))
    ensures Entry2(Defaults, "row.content", ".even") == Some(Spec("even"))
    ensures Entry3(Defaults, "row.content", "cell", "container") == Some(Spec("td"))
  {
  }

  lemma DefaultsFooter()
    ensures Entry2(Defaults, "row.footer", "container") == Some(Spec("tr class=footer"))
    ensures Entry3(Defaults, "row.footer", "cell", "container") == Some(Spec("td"))
    ensures Entry2(Defaults, "paginator", "container") == Some(Spec("span class=paginator"))
    ensures Entry3(Defaults, "paginator", "button", "container") == Some(Spec("span"))
    ensures Entry2(Defaults, "operations", "container") == Some(Spec("span class=operations"))
    ensures Entry2(Defaults, "info", "container") == Some(Spec("span class=grid-info"))
  {
  }
}
