/** The element tree the renderer builds, standing for Nette's `Html`
    objects, and the two string operations the renderer applies to markup:
    `str_replace` of a placeholder and `trim` of separator characters.

    Markup produced by collaborators outside this model (form controls,
    action links, formatted cell values, link targets) is kept symbolic, so
    that the tree records which collaborator output lands where. */
module Markup {
  import opened Options
  import Text

  /** The target of a generated link: `$dataGrid->link('page', n)` or a
      column's own ordering link `$column->getLink()`. */
  datatype Target = PageLink(page: int) | OrderLink(column: string)

  /** An attribute value other than `class`. */
  datatype Value = Str(s: string) | Num(n: int) | Flag(b: bool) | Link(target: Target)

  /** The `class` attribute (a list of names) and the other attributes. */
  datatype Attrs = Attrs(classes: seq<string>, named: map<string, Value>)

  /** The form controls the renderer places, as the grid's form supplies
      them (`$form['page']->label`, `$form['checker'][$key]`, a column
      filter's control, ...). */
  datatype Control =
    | PageLabel
    | PageInput
    | PageSubmit
    | FilterSubmit
    | OperationsLabel
    | OperationsSelect
    | OperationSubmit
    | Checker(key: string)
    | FilterInput(column: string)

  /** An element: its tag name (empty for a bare fragment such as
      `Html::el()`), its attributes and its children. */
  datatype Node = Node(name: string, attrs: Attrs, children: seq<Child>)

  /** A child of an element. `Html` is raw markup (`setHtml`), `Text` is
      escaped text (`setText`), `Elem` is a nested element or an element whose
      rendering was spliced into markup, `Number` is the decimal rendering of
      an integer. The last three stand for markup made outside this model. */
  datatype Child =
    | Html(html: string)
    | Text(text: string)
    | Elem(node: Node)
    | Number(n: int)
    | Widget(control: Control, classes: seq<string>)
    | ActionLink(action: string, title: string, key: string)
    | Formatted(column: string, raw: Option<string>)

  const NoAttrs := Attrs([], map[])

  /** `Html::el(spec)`: the tag name is the text before the first space, and
      every following `key=value` token sets an attribute (`class` sets the
      class list), a bare `key` token sets a true flag. */
  function El(spec: string): Node {
    var tokens := Text.Explode(spec);
    Node(tokens[0], ParseAttrs(tokens[1..]), [])
  }

  function ParseAttrs(tokens: seq<string>): Attrs
    decreases |tokens|
  {
    if tokens == [] then NoAttrs
    else SetFromToken(ParseAttrs(tokens[..|tokens| - 1]), tokens[|tokens| - 1])
  }

  function SetFromToken(a: Attrs, token: string): Attrs {
    if token == "" then a
    else if '=' in token then
      var (key, value) := SplitAtEquals(token);
      if key == "class" then a.(classes := [value]) else a.(named := a.named[key := Str(value)])
    else a.(named := a.named[token := Flag(true)])
  }

  /** The text before and after the first `=`. */
  function SplitAtEquals(s: string): (string, string)
    decreases |s|
  {
    if s == [] then ("", "")
    else if s[0] == '=' then ("", s[1..])
    else var (k, v) := SplitAtEquals(s[1..]); ([s[0]] + k, v)
  }

  /** `$el->setHtml($html)`: the children become the given markup. */
  function SetHtml(n: Node, html: seq<Child>): Node {
    n.(children := html)
  }

  /** `$el->add($c)` for each of the given children in turn. */
  function AddAll(n: Node, cs: seq<Child>): Node {
    n.(children := n.children + cs)
  }

  /** Children added in two batches land after the prototype's own, in order. */
  lemma AddAllTwo(n: Node, a: seq<Child>, b: seq<Child>)
    ensures var m := AddAll(n, a + b);
      && m.name == n.name && m.attrs == n.attrs
      && |m.children| == |n.children| + |a| + |b|
      && m.children[..|n.children|] == n.children
      && m.children[|n.children|..|n.children| + |a|] == a
      && m.children[|n.children| + |a|..] == b
  {
    assert AddAll(n, a + b).children == n.children + a + b;
  }

  /** Adding one child after a batch extends the batch by that child. */
  lemma AddAllSnoc(n: Node, cs: seq<Child>, c: Child)
    ensures Add(AddAll(n, cs), c) == AddAll(n, cs + [c])
  {
    assert n.children + cs + [c] == n.children + (cs + [c]);
  }

  /** Adding two batches one after the other adds their concatenation. */
  lemma AddAllAssoc(n: Node, a: seq<Child>, b: seq<Child>)
    ensures AddAll(AddAll(n, a), b) == AddAll(n, a + b)
  {
    assert n.children + a + b == n.children + (a + b);
  }

  lemma AddAllStep(proto: Node, pre: seq<Child>, cells: seq<Child>, next: seq<Child>, c: Child)
    requires next == cells + [c]
    ensures Add(AddAll(proto, pre + cells), c) == AddAll(proto, pre + next)
  {
    assert proto.children + (pre + cells) + [c] == proto.children + (pre + next);
  }

  /** `$el->setText($text)`. */
  function SetText(n: Node, text: string): Node {
    n.(children := [Text(text)])
  }

  /** `$el->add($child)`. */
  function Add(n: Node, c: Child): Node {
    n.(children := n.children + [c])
  }

  /** `$el->class('name')`: the class attribute is replaced. */
  function SetClass(n: Node, name: string): Node {
    n.(attrs := n.attrs.(classes := [name]))
  }

  /** `$el->class[] = 'name'`: a class is appended. */
  function AppendClass(n: Node, name: string): Node {
    n.(attrs := n.attrs.(classes := n.attrs.classes + [name]))
  }

  /** `$el->key(value)` for an attribute other than `class`. */
  function SetAttr(n: Node, key: string, v: Value): Node {
    n.(attrs := n.attrs.(named := n.attrs.named[key := v]))
  }

  // ---------------------------------------------------------------------
  // str_replace of one placeholder

  predicate Occurs(s: string, pat: string, i: nat) {
    i + |pat| <= |s| && s[i..i + |pat|] == pat
  }

  /** Adds a character in front of markup that starts with a raw piece. */
  function Prepend(c: char, ps: seq<Child>): seq<Child>
    requires |ps| >= 1 && ps[0].Html?
  {
    [Html([c] + ps[0].html)] + ps[1..]
  }

  /** `str_replace(pat, rep, s)` with a replacement made of markup pieces:
      the occurrences of `pat` are found left to right without overlap, and
      each is replaced by `rep`. The result alternates raw pieces of `s` with
      copies of `rep`, starting and ending with a raw piece. */
  function Splice(s: string, pat: string, rep: seq<Child>): (r: seq<Child>)
    ensures |r| >= 1 && r[0].Html? && r[|r| - 1].Html?
    decreases |s|
  {
    if pat == [] || |s| < |pat| then [Html(s)]
    else if s[..|pat|] == pat then [Html("")] + rep + Splice(s[|pat|..], pat, rep)
    else Prepend(s[0], Splice(s[1..], pat, rep))
  }

  /** The same replacement applied to every raw piece of markup; pieces that
      are not raw markup are kept as they are. */
  function SpliceAll(ps: seq<Child>, pat: string, rep: seq<Child>): seq<Child>
    decreases |ps|
  {
    if ps == [] then []
    else (if ps[0].Html? then Splice(ps[0].html, pat, rep) else [ps[0]]) + SpliceAll(ps[1..], pat, rep)
  }

  /** The raw text of markup, with each non-raw piece replaced by `hole`. */
  function Flatten(ps: seq<Child>, hole: string): string
    decreases |ps|
  {
    if ps == [] then "" else (if ps[0].Html? then ps[0].html else hole) + Flatten(ps[1..], hole)
  }

  /** Replacing a placeholder loses nothing else: putting the placeholder
      back where the replacement went restores the subject. */
  lemma {:induction false} SpliceRestores(s: string, pat: string, rep: Child)
    requires !rep.Html?
    ensures Flatten(Splice(s, pat, [rep]), pat) == s
    decreases |s|
  {
    if pat == [] || |s| < |pat| {
    } else if s[..|pat|] == pat {
      var rest := s[|pat|..];
      SpliceRestores(rest, pat, rep);
      var tail := Splice(rest, pat, [rep]);
      assert Splice(s, pat, [rep]) == [Html("")] + [rep] + tail;
      FlattenHole(rep, tail, pat);
      assert s == pat + rest;
    } else {
      SpliceRestores(s[1..], pat, rep);
      var tail := Splice(s[1..], pat, [rep]);
      FlattenPrepend(s[0], tail, pat);
      assert s == [s[0]] + s[1..];
    }
  }

  lemma FlattenHole(rep: Child, ps: seq<Child>, hole: string)
    requires !rep.Html?
    ensures Flatten([Html("")] + [rep] + ps, hole) == hole + Flatten(ps, hole)
  {
    assert ([Html("")] + [rep] + ps)[1..] == [rep] + ps;
    assert ([rep] + ps)[1..] == ps;
  }

  lemma FlattenPrepend(c: char, ps: seq<Child>, hole: string)
    requires |ps| >= 1 && ps[0].Html?
    ensures Flatten(Prepend(c, ps), hole) == [c] + Flatten(ps, hole)
  {
    assert Prepend(c, ps)[1..] == ps[1..];
  }

  /** `pat` occurs nowhere in `s`. */
  predicate Absent(s: string, pat: string) {
    forall i :: 0 <= i < |s| ==> !Occurs(s, pat, i)
  }

  /** No raw piece of the markup contains `pat`. */
  predicate RawAbsent(ps: seq<Child>, pat: string) {
    forall k :: 0 <= k < |ps| && ps[k].Html? ==> Absent(ps[k].html, pat)
  }

  /** A replacement made only of rendered pieces: elements, numbers,
      controls, never raw markup. */
  predicate NoRaw(rep: seq<Child>) {
    forall k :: 0 <= k < |rep| ==> !rep[k].Html?
  }

  /** A subject without the placeholder is left as one raw piece. */
  lemma {:induction false} SpliceAbsent(s: string, pat: string, rep: seq<Child>)
    requires pat != []
    requires Absent(s, pat)
    ensures Splice(s, pat, rep) == [Html(s)]
    decreases |s|
  {
    if |s| >= |pat| {
      assert !Occurs(s, pat, 0);
      forall i | 0 <= i < |s[1..]| ensures !Occurs(s[1..], pat, i) {
        assert !Occurs(s, pat, i + 1);
        if i + |pat| <= |s[1..]| {
          assert s[1..][i..i + |pat|] == s[i + 1..i + 1 + |pat|];
        }
      }
      SpliceAbsent(s[1..], pat, rep);
      assert [s[0]] + s[1..] == s;
    }
  }

  /** The first raw piece of a replacement is a prefix of the subject. */
  lemma {:induction false} SpliceHead(s: string, pat: string, rep: seq<Child>)
    ensures var h := Splice(s, pat, rep)[0].html; |h| <= |s| && h == s[..|h|]
    decreases |s|
  {
    if pat == [] || |s| < |pat| {
    } else if s[..|pat|] == pat {
    } else {
      SpliceHead(s[1..], pat, rep);
      var t := Splice(s[1..], pat, rep)[0].html;
      assert Splice(s, pat, rep)[0].html == [s[0]] + t;
      assert s[..|t| + 1] == [s[0]] + s[1..][..|t|];
    }
  }

  /** A piece of a string without `pat` has no `pat` either. */
  lemma AbsentSlice(s: string, pat: string, i: nat, j: nat)
    requires i <= j <= |s| && Absent(s, pat)
    ensures Absent(s[i..j], pat)
  {
    forall m | 0 <= m < |s[i..j]| ensures !Occurs(s[i..j], pat, m) {
      var u := s[i..j];
      if Occurs(u, pat, m) {
        assert m + |pat| <= |u| == j - i;
        forall x | 0 <= x < |pat| ensures s[i + m..i + m + |pat|][x] == pat[x] {
          assert u[m..m + |pat|][x] == u[m + x] == s[i + m + x];
        }
        assert s[i + m..i + m + |pat|] == pat;
        assert Occurs(s, pat, i + m);
      }
    }
  }

  lemma RawAbsentConcat(a: seq<Child>, b: seq<Child>, pat: string)
    requires RawAbsent(a, pat) && RawAbsent(b, pat)
    ensures RawAbsent(a + b, pat)
  {
    forall k | 0 <= k < |a + b| && (a + b)[k].Html? ensures Absent((a + b)[k].html, pat) {
      if k >= |a| {
        assert (a + b)[k] == b[k - |a|];
      }
    }
  }

  /** Markup made of the empty raw piece, a rendered replacement and markup
      without `pat` has no `pat` in its raw pieces. */
  lemma RawAbsentHole(rep: seq<Child>, tail: seq<Child>, pat: string)
    requires NoRaw(rep) && RawAbsent(tail, pat)
    ensures RawAbsent([Html("")] + rep + tail, pat)
  {
    RawAbsentConcat([Html("")], rep, pat);
    RawAbsentConcat([Html("")] + rep, tail, pat);
  }

  lemma RawAbsentPrepend(c: char, ps: seq<Child>, pat: string)
    requires |ps| >= 1 && ps[0].Html? && RawAbsent(ps, pat) && Absent([c] + ps[0].html, pat)
    ensures RawAbsent(Prepend(c, ps), pat)
  {
    forall k | 0 <= k < |Prepend(c, ps)| && Prepend(c, ps)[k].Html? ensures Absent(Prepend(c, ps)[k].html, pat) {
      if k > 0 {
        assert Prepend(c, ps)[k] == ps[k];
      }
    }
  }

  /** A character in front of a string without `pat` makes no `pat` when
      the two together are a prefix of a subject that does not start with
      `pat`. */
  lemma AbsentCons(s: string, t: string, pat: string)
    requires |pat| <= |s| && s[..|pat|] != pat
    requires |t| + 1 <= |s| && [s[0]] + t == s[..|t| + 1] && Absent(t, pat)
    ensures Absent([s[0]] + t, pat)
  {
    var u := [s[0]] + t;
    forall i | 0 <= i < |u| ensures !Occurs(u, pat, i) {
      if i > 0 && Occurs(u, pat, i) {
        assert u[i..i + |pat|] == t[i - 1..i - 1 + |pat|];
        assert Occurs(t, pat, i - 1);
      }
    }
  }

  /** `str_replace` replaces every occurrence: when the replacement is
      rendered markup, no raw piece of the result contains the placeholder. */
  lemma {:induction false} SpliceReplaces(s: string, pat: string, rep: seq<Child>)
    requires pat != [] && NoRaw(rep)
    ensures RawAbsent(Splice(s, pat, rep), pat)
    decreases |s|
  {
    if |s| < |pat| {
    } else if s[..|pat|] == pat {
      SpliceReplaces(s[|pat|..], pat, rep);
      RawAbsentHole(rep, Splice(s[|pat|..], pat, rep), pat);
    } else {
      var tail := Splice(s[1..], pat, rep);
      SpliceReplaces(s[1..], pat, rep);
      SpliceHead(s[1..], pat, rep);
      var t := tail[0].html;
      assert s[..|t| + 1] == [s[0]] + s[1..][..|t|];
      AbsentCons(s, t, pat);
      RawAbsentPrepend(s[0], tail, pat);
    }
  }

  /** Replacing one placeholder makes no other string appear in raw markup:
      every raw piece of the result is a piece of the subject. */
  lemma {:induction false} SpliceKeeps(s: string, pat: string, q: string, rep: seq<Child>)
    requires NoRaw(rep) && Absent(s, q)
    ensures RawAbsent(Splice(s, pat, rep), q)
    decreases |s|
  {
    if pat == [] || |s| < |pat| {
    } else if s[..|pat|] == pat {
      AbsentSlice(s, q, |pat|, |s|);
      assert s[|pat|..|s|] == s[|pat|..];
      SpliceKeeps(s[|pat|..], pat, q, rep);
      RawAbsentHole(rep, Splice(s[|pat|..], pat, rep), q);
    } else {
      var tail := Splice(s[1..], pat, rep);
      AbsentSlice(s, q, 1, |s|);
      assert s[1..|s|] == s[1..];
      SpliceKeeps(s[1..], pat, q, rep);
      SpliceHead(s[1..], pat, rep);
      var t := tail[0].html;
      assert s[..|t| + 1] == [s[0]] + s[1..][..|t|];
      AbsentSlice(s, q, 0, |t| + 1);
      RawAbsentPrepend(s[0], tail, q);
    }
  }

  /** Every raw piece spliced: no raw piece of the result contains the
      placeholder. */
  lemma {:induction false} SpliceAllReplaces(ps: seq<Child>, pat: string, rep: seq<Child>)
    requires pat != [] && NoRaw(rep)
    ensures RawAbsent(SpliceAll(ps, pat, rep), pat)
    decreases |ps|
  {
    if ps != [] {
      SpliceAllReplaces(ps[1..], pat, rep);
      if ps[0].Html? {
        SpliceReplaces(ps[0].html, pat, rep);
      }
      RawAbsentConcat(if ps[0].Html? then Splice(ps[0].html, pat, rep) else [ps[0]], SpliceAll(ps[1..], pat, rep), pat);
    }
  }

  /** Splicing every raw piece makes no other string appear in raw markup. */
  lemma {:induction false} SpliceAllKeeps(ps: seq<Child>, pat: string, q: string, rep: seq<Child>)
    requires NoRaw(rep) && RawAbsent(ps, q)
    ensures RawAbsent(SpliceAll(ps, pat, rep), q)
    decreases |ps|
  {
    if ps != [] {
      assert RawAbsent(ps[1..], q) by {
        forall k | 0 <= k < |ps[1..]| && ps[1..][k].Html? ensures Absent(ps[1..][k].html, q) {
          assert ps[1..][k] == ps[k + 1];
        }
      }
      SpliceAllKeeps(ps[1..], pat, q, rep);
      if ps[0].Html? {
        SpliceKeeps(ps[0].html, pat, q, rep);
      }
      RawAbsentConcat(if ps[0].Html? then Splice(ps[0].html, pat, rep) else [ps[0]], SpliceAll(ps[1..], pat, rep), q);
    }
  }

  /** `str_replace` of three placeholders in turn, each by rendered markup:
      none of the three is left in raw markup. */
  lemma SpliceThreeReplaces(s: string, p1: string, r1: seq<Child>, p2: string, r2: seq<Child>, p3: string, r3: seq<Child>)
    requires p1 != [] && p2 != [] && p3 != []
    requires NoRaw(r1) && NoRaw(r2) && NoRaw(r3)
    ensures var r := SpliceAll(SpliceAll(Splice(s, p1, r1), p2, r2), p3, r3);
      RawAbsent(r, p1) && RawAbsent(r, p2) && RawAbsent(r, p3)
  {
    var a := Splice(s, p1, r1);
    SpliceReplaces(s, p1, r1);
    var b := SpliceAll(a, p2, r2);
    SpliceAllReplaces(a, p2, r2);
    SpliceAllKeeps(a, p2, p1, r2);
    SpliceAllReplaces(b, p3, r3);
    SpliceAllKeeps(b, p3, p1, r3);
    SpliceAllKeeps(b, p3, p2, r3);
  }

  // ---------------------------------------------------------------------
  // trim($html, ' | ')

  predicate IsSeparator(c: char) {
    c == ' ' || c == '|'
  }

  function TrimLeftChars(s: string): string
    decreases |s|
  {
    if s != [] && IsSeparator(s[0]) then TrimLeftChars(s[1..]) else s
  }

  function TrimRightChars(s: string): string
    decreases |s|
  {
    if s != [] && IsSeparator(s[|s| - 1]) then TrimRightChars(s[..|s| - 1]) else s
  }

  /** Strips separator characters from the front of markup; a piece that is
      not raw markup renders as an element or a number, which never starts
      with a separator, so stripping stops there. */
  function TrimStart(ps: seq<Child>): seq<Child>
    decreases |ps|
  {
    if ps == [] then []
    else if ps[0].Html? then
      var t := TrimLeftChars(ps[0].html);
      if t == [] then TrimStart(ps[1..]) else [Html(t)] + ps[1..]
    else ps
  }

  function TrimEnd(ps: seq<Child>): seq<Child>
    decreases |ps|
  {
    if ps == [] then []
    else if ps[|ps| - 1].Html? then
      var t := TrimRightChars(ps[|ps| - 1].html);
      if t == [] then TrimEnd(ps[..|ps| - 1]) else ps[..|ps| - 1] + [Html(t)]
    else ps
  }

  /** `trim($html, ' | ')`: both ends are stripped of `' '` and `'|'`; the
      interior is kept. */
  function Trim(ps: seq<Child>): seq<Child> {
    TrimEnd(TrimStart(ps))
  }

  lemma {:induction false} TrimLeftSuffix(s: string)
    ensures var t := TrimLeftChars(s); |t| <= |s| && t == s[|s| - |t|..]
    decreases |s|
  {
    if s != [] && IsSeparator(s[0]) {
      TrimLeftSuffix(s[1..]);
      var t := TrimLeftChars(s[1..]);
      assert s[1..][|s[1..]| - |t|..] == s[|s| - |t|..];
    }
  }

  lemma {:induction false} TrimRightPrefix(s: string)
    ensures var t := TrimRightChars(s); |t| <= |s| && t == s[..|t|]
    decreases |s|
  {
    if s != [] && IsSeparator(s[|s| - 1]) {
      TrimRightPrefix(s[..|s| - 1]);
      var t := TrimRightChars(s[..|s| - 1]);
      assert s[..|s| - 1][..|t|] == s[..|t|];
    }
  }

  lemma {:induction false} TrimStartKeeps(ps: seq<Child>, q: string)
    requires RawAbsent(ps, q)
    ensures RawAbsent(TrimStart(ps), q)
    decreases |ps|
  {
    if ps != [] && ps[0].Html? {
      var t := TrimLeftChars(ps[0].html);
      assert RawAbsent(ps[1..], q) by {
        forall k | 0 <= k < |ps[1..]| && ps[1..][k].Html? ensures Absent(ps[1..][k].html, q) {
          assert ps[1..][k] == ps[k + 1];
        }
      }
      if t == [] {
        TrimStartKeeps(ps[1..], q);
      } else {
        TrimLeftSuffix(ps[0].html);
        AbsentSlice(ps[0].html, q, |ps[0].html| - |t|, |ps[0].html|);
        assert ps[0].html[|ps[0].html| - |t|..|ps[0].html|] == t;
        RawAbsentConcat([Html(t)], ps[1..], q);
      }
    }
  }

  lemma {:induction false} TrimEndKeeps(ps: seq<Child>, q: string)
    requires RawAbsent(ps, q)
    ensures RawAbsent(TrimEnd(ps), q)
    decreases |ps|
  {
    if ps != [] && ps[|ps| - 1].Html? {
      var init := ps[..|ps| - 1];
      var h := ps[|ps| - 1].html;
      var t := TrimRightChars(h);
      assert RawAbsent(init, q) by {
        forall k | 0 <= k < |init| && init[k].Html? ensures Absent(init[k].html, q) {
          assert init[k] == ps[k];
        }
      }
      if t == [] {
        TrimEndKeeps(init, q);
      } else {
        TrimRightPrefix(h);
        AbsentSlice(h, q, 0, |t|);
        RawAbsentConcat(init, [Html(t)], q);
      }
    }
  }

  /** Trimming separators makes no string appear in raw markup. */
  lemma TrimKeeps(ps: seq<Child>, q: string)
    requires RawAbsent(ps, q)
    ensures RawAbsent(Trim(ps), q)
  {
    TrimStartKeeps(ps, q);
    TrimEndKeeps(TrimStart(ps), q);
  }

  /** Replacing three placeholders in turn and trimming the result leaves
      none of the three in raw markup. */
  lemma SpliceThreeTrimmed(s: string, p1: string, r1: seq<Child>, p2: string, r2: seq<Child>, p3: string, r3: seq<Child>)
    requires p1 != [] && p2 != [] && p3 != []
    requires NoRaw(r1) && NoRaw(r2) && NoRaw(r3)
    ensures var r := Trim(SpliceAll(SpliceAll(Splice(s, p1, r1), p2, r2), p3, r3));
      RawAbsent(r, p1) && RawAbsent(r, p2) && RawAbsent(r, p3)
  {
    var spliced := SpliceAll(SpliceAll(Splice(s, p1, r1), p2, r2), p3, r3);
    SpliceThreeReplaces(s, p1, r1, p2, r2, p3, r3);
    TrimKeeps(spliced, p1);
    TrimKeeps(spliced, p2);
    TrimKeeps(spliced, p3);
  }

  // The rendered view used to state what Trim does: raw markup as its
  // characters, every other piece as one token that is not a separator.

  datatype Token = Char(c: char) | Piece(p: Child)

  predicate IsSeparatorToken(t: Token) {
    t.Char? && IsSeparator(t.c)
  }

  function Chars(s: string): (ts: seq<Token>)
    ensures |ts| == |s|
    decreases |s|
  {
    if s == [] then [] else [Char(s[0])] + Chars(s[1..])
  }

  /** The tokens one piece contributes: the characters of raw markup, or
      the piece itself. */
  function Tokens(c: Child): seq<Token>
  {
    if c.Html? then Chars(c.html) else [Piece(c)]
  }

  function Stream(ps: seq<Child>): seq<Token>
    decreases |ps|
  {
    if ps == [] then [] else Tokens(ps[0]) + Stream(ps[1..])
  }

  /** PHP `trim` over the rendered token stream: the longest prefix and the
      longest suffix of separators are removed. */
  function DropLeading(ts: seq<Token>): seq<Token>
    decreases |ts|
  {
    if ts != [] && IsSeparatorToken(ts[0]) then DropLeading(ts[1..]) else ts
  }

  function DropTrailing(ts: seq<Token>): seq<Token>
    decreases |ts|
  {
    if ts != [] && IsSeparatorToken(ts[|ts| - 1]) then DropTrailing(ts[..|ts| - 1]) else ts
  }

  /** Dropping the leading separators leaves a suffix that is empty or
      starts with a non-separator, and everything dropped is a separator. */
  lemma {:induction false} DropLeadingSpec(ts: seq<Token>)
    ensures var r := DropLeading(ts);
      && |r| <= |ts| && r == ts[|ts| - |r|..]
      && (r != [] ==> !IsSeparatorToken(r[0]))
      && forall j :: 0 <= j < |ts| - |r| ==> IsSeparatorToken(ts[j])
    decreases |ts|
  {
    if ts != [] && IsSeparatorToken(ts[0]) {
      DropLeadingSpec(ts[1..]);
      var r := DropLeading(ts);
      assert r == DropLeading(ts[1..]);
      assert ts[1..][|ts| - 1 - |r|..] == ts[|ts| - |r|..];
      forall j | 1 <= j < |ts| - |r| ensures IsSeparatorToken(ts[j]) {
        assert ts[1..][j - 1] == ts[j];
      }
    }
  }

  /** Dropping the trailing separators leaves a prefix that is empty or
      ends with a non-separator, and everything dropped is a separator. */
  lemma {:induction false} DropTrailingSpec(ts: seq<Token>)
    ensures var r := DropTrailing(ts);
      && |r| <= |ts| && r == ts[..|r|]
      && (r != [] ==> !IsSeparatorToken(r[|r| - 1]))
      && forall j :: |r| <= j < |ts| ==> IsSeparatorToken(ts[j])
    decreases |ts|
  {
    if ts != [] && IsSeparatorToken(ts[|ts| - 1]) {
      var init := ts[..|ts| - 1];
      DropTrailingSpec(init);
      var r := DropTrailing(ts);
      assert r == DropTrailing(init);
      assert init[..|r|] == ts[..|r|];
      forall j | |r| <= j < |ts| - 1 ensures IsSeparatorToken(ts[j]) {
        assert init[j] == ts[j];
      }
    }
  }

  /** What trimming leaves is a contiguous stretch of the rendered markup:
      only separators are cut off around it, at the two ends, and it
      neither starts nor ends with a separator. */
  lemma TrimStretch(ps: seq<Child>)
    ensures var full := Stream(ps);
      var shown := Stream(Trim(ps));
      && (shown != [] ==> !IsSeparatorToken(shown[0]) && !IsSeparatorToken(shown[|shown| - 1]))
      && exists a, b :: 0 <= a <= b <= |full| && shown == full[a..b]
           && (forall j :: 0 <= j < a ==> IsSeparatorToken(full[j]))
           && (forall j :: b <= j < |full| ==> IsSeparatorToken(full[j]))
  {
    TrimRendersAsTrim(ps);
    DropBothStretch(Stream(ps));
  }

  /** Dropping separators at both ends of a token stream leaves a stretch
      of it that neither starts nor ends with a separator. */
  lemma DropBothStretch(full: seq<Token>)
    ensures var shown := DropTrailing(DropLeading(full));
      && (shown != [] ==> !IsSeparatorToken(shown[0]) && !IsSeparatorToken(shown[|shown| - 1]))
      && exists a, b :: 0 <= a <= b <= |full| && shown == full[a..b]
           && (forall j :: 0 <= j < a ==> IsSeparatorToken(full[j]))
           && (forall j :: b <= j < |full| ==> IsSeparatorToken(full[j]))
  {
    var left := DropLeading(full);
    DropLeadingSpec(full);
    DropTrailingSpec(left);
    var shown := DropTrailing(left);
    var a := |full| - |left|;
    var b := a + |shown|;
    assert full[a..b] == left[..|shown|];
    if shown != [] {
      assert shown[0] == left[0];
    }
    forall j | b <= j < |full| ensures IsSeparatorToken(full[j]) {
      assert full[j] == left[j - a];
    }
  }

  /** Trim on markup renders as trim on the rendered text. */
  lemma TrimRendersAsTrim(ps: seq<Child>)
    ensures Stream(Trim(ps)) == DropTrailing(DropLeading(Stream(ps)))
  {
    TrimStartStream(ps);
    TrimEndStream(TrimStart(ps));
  }

  lemma {:induction false} TrimStartStream(ps: seq<Child>)
    ensures Stream(TrimStart(ps)) == DropLeading(Stream(ps))
    decreases |ps|
  {
    if ps != [] {
      if ps[0].Html? {
        var h := ps[0].html;
        DropLeadingChars(h, Stream(ps[1..]));
        var t := TrimLeftChars(h);
        if t == [] {
          TrimStartStream(ps[1..]);
        } else {
          assert ([Html(t)] + ps[1..])[1..] == ps[1..];
        }
      }
    }
  }

  lemma {:induction false} DropLeadingChars(h: string, rest: seq<Token>)
    ensures DropLeading(Chars(h) + rest) ==
      if TrimLeftChars(h) == [] then DropLeading(rest) else Chars(TrimLeftChars(h)) + rest
    decreases |h|
  {
    if h == [] {
      assert Chars(h) + rest == rest;
    } else {
      assert Chars(h) + rest == [Char(h[0])] + (Chars(h[1..]) + rest);
      if IsSeparator(h[0]) {
        assert (Chars(h) + rest)[1..] == Chars(h[1..]) + rest;
        DropLeadingChars(h[1..], rest);
      }
    }
  }

  lemma {:induction false} TrimEndStream(ps: seq<Child>)
    ensures Stream(TrimEnd(ps)) == DropTrailing(Stream(ps))
    decreases |ps|
  {
    if ps != [] {
      var init := ps[..|ps| - 1];
      var last := ps[|ps| - 1];
      StreamSnoc(init, last);
      assert init + [last] == ps;
      if last.Html? {
        var t := TrimRightChars(last.html);
        DropTrailingChars(Stream(init), last.html);
        if t == [] {
          TrimEndStream(init);
        } else {
          StreamSnoc(init, Html(t));
        }
      }
    }
  }

  lemma {:induction false} StreamSnoc(ps: seq<Child>, c: Child)
    ensures Stream(ps + [c]) == Stream(ps) + Tokens(c)
    decreases |ps|
  {
    if ps == [] {
      assert ps + [c] == [c];
      assert Stream([c]) == Tokens(c) + Stream([]);
    } else {
      var t := ps[1..];
      assert (ps + [c])[0] == ps[0];
      assert (ps + [c])[1..] == t + [c];
      StreamSnoc(t, c);
      assert Stream(ps + [c]) == Tokens(ps[0]) + Stream(t + [c]);
    }
  }

  lemma {:induction false} DropTrailingChars(init: seq<Token>, h: string)
    ensures DropTrailing(init + Chars(h)) ==
      if TrimRightChars(h) == [] then DropTrailing(init) else init + Chars(TrimRightChars(h))
    decreases |h|
  {
    if h == [] {
      assert init + Chars(h) == init;
    } else {
      var h' := h[..|h| - 1];
      CharsSnoc(h', h[|h| - 1]);
      assert h' + [h[|h| - 1]] == h;
      assert init + Chars(h) == (init + Chars(h')) + [Char(h[|h| - 1])];
      if IsSeparator(h[|h| - 1]) {
        DropTrailingChars(init, h');
      }
    }
  }

  lemma {:induction false} CharsSnoc(s: string, c: char)
    ensures Chars(s + [c]) == Chars(s) + [Char(c)]
    decreases |s|
  {
    if s == [] {
      assert s + [c] == [c];
    } else {
      assert (s + [c])[1..] == s[1..] + [c];
      CharsSnoc(s[1..], c);
    }
  }
}
