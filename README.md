# nette-datagrid renderer, modelled in Dafny

This project models `DataGridRenderer`, the part of nette-datagrid that turns a
data grid into markup. It covers:

- the header, filter, content and footer rows and the table that holds them;
- the paginator, the operations bar, the info line and the list of form errors.

The markup is an abstract element tree (`Markup.Node`): a tag name, a class
list, named attributes and children. Markup made outside the renderer stays
symbolic, so a tree records which outside output lands where. That covers
form controls, action links, formatted cell values and link targets.

Modules, in dependency order:

- `Options` — `Option` and `Result`.
- `Text` — PHP `explode(' ', …)` and `implode`, proved mutually inverse for
  space-free segments.
- `Markup` — the element tree, `Html::el(spec)`, and the two string operations
  the renderer applies to markup: `str_replace` of a placeholder (`Splice`) and
  `trim($html, ' | ')` (`Trim`).
- `Config` — the wrapper table (`$wrappers`) with its built-in contents, and
  `getValue` and `getWrapper`.
- `Grid` — the grid snapshot the renderer reads (columns, actions, flags, order
  pairs, paginator state, records, form errors and controls, translator), and
  `translate`.
- `SortOrder` — decoding of the order expression into (direction, rank) per
  field: the `parse_str` assignment semantics on PHP's ordered arrays and the
  ranking loop.
- `Regions` — what each region renders to, as functions of the wrapper table
  and the grid, and lemmas stating their structure.
- `Renderer` — class `DataGridRenderer`. Its fields are `wrappers`,
  `footerFormat`, `infoFormat`, `file` and `dataGrid`. Each method builds its
  markup child by child, as PHP does, and is proved to return what the
  matching `Regions` function says. The methods that translate a format
  state the new field value.

Where the code and a plain-language reading of it could differ, the model
follows the code:

- A direction counts as ascending only when it is exactly `"a"` (`=== 'a'`).
  Any other direction, including `"asc"`, gives `desc`.
- A wrapper name whose path is missing reads as `NULL`. No error is raised, and
  `getWrapper` then builds an element from the empty spec.
- The footer is trimmed of `' '` and `'|'` at its two ends only. Separators
  between regions, such as an empty paginator between two ` | `, are kept.
- The `i`-th record (counting from 0) is "even" when `i + 1` is even. The
  iterator's counter starts at 1, so the 2nd, 4th, … rows get the even class.
- A content row that needs its key and lacks it throws. `renderBody` then
  stops before the footer row, so neither format is translated.

## Model

| member | source | states |
|---|---|---|
| Text.ExplodeJoin | app/components/DataGrid/DataGridRenderer.php:552 | splitting a name joined from space-free segments gives back exactly those segments |
| Text.JoinExplode | app/components/DataGrid/DataGridRenderer.php:552 | joining the pieces `explode(' ', s)` returns gives back `s`, for every string |
| Config.GetValueThree | app/components/DataGrid/DataGridRenderer.php:552-554 | a name of exactly three space-free segments reads `wrappers[t0][t1][t2]`, and finds nothing when any level is missing |
| Config.GetValueTwo | app/components/DataGrid/DataGridRenderer.php:552-556 | a name of two segments reads `wrappers[t0][t1]` |
| Config.GetValueOther | app/components/DataGrid/DataGridRenderer.php:552-556 | any name of other than three segments reads `wrappers[t0][t1]`: a one-segment name reads the empty key, and segments after the second are ignored |
| Config.GetWrapperTwo | app/components/DataGrid/DataGridRenderer.php:539-543 | `getWrapper` of a two-segment name is the stored element, or the element `Html::el` builds from the stored spec |
| Config.GetWrapperThree | app/components/DataGrid/DataGridRenderer.php:539-543 | the same for a three-segment name |
| Config.NameGridContainer | app/components/DataGrid/DataGridRenderer.php:196 | `getWrapper('grid container')` is the entry `grid`/`container` |
| Config.NameErrorContainer | app/components/DataGrid/DataGridRenderer.php:173 | `getWrapper('error container')` is the entry `error`/`container` |
| Config.NameErrorItem | app/components/DataGrid/DataGridRenderer.php:174 | `getWrapper('error item')` is the entry `error`/`item` |
| Config.NameOperationsContainer | app/components/DataGrid/DataGridRenderer.php:311 | `getWrapper('operations container')` is the entry `operations`/`container` |
| Config.NameInfoContainer | app/components/DataGrid/DataGridRenderer.php:327 | `getWrapper('info container')` is the entry `info`/`container` |
| Config.NamePaginatorContainer | app/components/DataGrid/DataGridRenderer.php:230 | `getWrapper('paginator container')` is the entry `paginator`/`container` |
| Config.NamePaginatorButtonContainer | app/components/DataGrid/DataGridRenderer.php:231 | `getWrapper('paginator button container')` is the entry `paginator`/`button`/`container` |
| Config.NameRowHeaderContainer | app/components/DataGrid/DataGridRenderer.php:356 | `getWrapper('row.header container')` is the entry `row.header`/`container` |
| Config.NameRowHeaderCellContainer | app/components/DataGrid/DataGridRenderer.php:391 | `getWrapper('row.header cell container')` is the entry `row.header`/`cell`/`container` |
| Config.NameRowFilterContainer | app/components/DataGrid/DataGridRenderer.php:408 | `getWrapper('row.filter container')` is the entry `row.filter`/`container` |
| Config.NameRowFilterCellContainer | app/components/DataGrid/DataGridRenderer.php:412 | `getWrapper('row.filter cell container')` is the entry `row.filter`/`cell`/`container` |
| Config.NameRowFilterControlInput | app/components/DataGrid/DataGridRenderer.php:429 | `getValue('row.filter control .input')` is the entry `row.filter`/`control`/`.input` |
| Config.NameRowFilterControlSelect | app/components/DataGrid/DataGridRenderer.php:427 | `getValue('row.filter control .select')` is the entry `row.filter`/`control`/`.select` |
| Config.NameRowFilterControlSubmit | app/components/DataGrid/DataGridRenderer.php:419 | `getValue('row.filter control .submit')` is the entry `row.filter`/`control`/`.submit` |
| Config.NameRowContentContainer | app/components/DataGrid/DataGridRenderer.php:454 | `getWrapper('row.content container')` is the entry `row.content`/`container` |
| Config.NameRowContentCellContainer | app/components/DataGrid/DataGridRenderer.php:472 | `getWrapper('row.content cell container')` is the entry `row.content`/`cell`/`container` |
| Config.NameRowContentEven | app/components/DataGrid/DataGridRenderer.php:210 | `getValue('row.content .even')` is the entry `row.content`/`.even` |
| Config.NameRowFooterContainer | app/components/DataGrid/DataGridRenderer.php:505 | `getWrapper('row.footer container')` is the entry `row.footer`/`container` |
| Config.NameRowFooterCellContainer | app/components/DataGrid/DataGridRenderer.php:510 | `getWrapper('row.footer cell container')` is the entry `row.footer`/`cell`/`container` |
| Config.DefaultsGrid | app/components/DataGrid/DataGridRenderer.php:27-34 | the built-in table gives the grid container `table class=grid`, the error list `ul class=error` and its items `li` |
| Config.DefaultsHeader | app/components/DataGrid/DataGridRenderer.php:36-41 | the built-in header row is `tr class=header` and its cells `th` |
| Config.DefaultsFilter | app/components/DataGrid/DataGridRenderer.php:43-53 | the built-in filter row is `tr class=filters` and its cells `td`, with control classes `text`, `select` and `button` |
| Config.DefaultsContent | app/components/DataGrid/DataGridRenderer.php:55-61 | the built-in content row is `tr` and its cells `td`, with even-row class `even` |
| Config.DefaultsFooter | app/components/DataGrid/DataGridRenderer.php:63-85 | the built-in footer row, footer cell, paginator, paginator button, operations and info containers |
| SortOrder.DecodeOrder | app/components/DataGrid/DataGridRenderer.php:373-377 | the decoding loop, with counter `$i` from 1, computes exactly the sort state that `SortState` defines from the order pairs |
| SortOrder.SortStateSpec | app/components/DataGrid/DataGridRenderer.php:374-377 | a field is decoded if and only if the expression names it; its direction is the one given last for it, and its rank is 1 plus the number of distinct fields named before its first occurrence |
| SortOrder.SortStateCount | app/components/DataGrid/DataGridRenderer.php:374-384 | the decoded map has one entry per distinct field named, which is what `count($list) > 1` tests |
| SortOrder.DistinctOrderRanks | app/components/DataGrid/DataGridRenderer.php:373-377 | when no field repeats, the i-th pair's field is decoded with that pair's direction and rank i + 1 |
| SortOrder.ParseKeys | app/components/DataGrid/DataGridRenderer.php:374 | the array `parse_str` builds has the fields as keys, in order of first occurrence |
| SortOrder.ParseValue | app/components/DataGrid/DataGridRenderer.php:374 | each key of that array holds the direction given last for the field |
| SortOrder.PutKeys | app/components/DataGrid/DataGridRenderer.php:374 | assigning a key of PHP's ordered array keeps the existing keys in place and appends a key only when it is new |
| SortOrder.PutValue | app/components/DataGrid/DataGridRenderer.php:374 | after the assignment the key holds the new value, and every other key keeps its value |
| SortOrder.RanksAt | app/components/DataGrid/DataGridRenderer.php:375-377 | over an array with distinct keys, the loop gives each key its value and its 1-based position |
| Regions.SortIndicator | app/components/DataGrid/DataGridRenderer.php:379-388 | an ordering link carries the AJAX class; a column the expression names also gets `asc` when its last direction is exactly "a" and `desc` otherwise; the rank badge appears if and only if two or more distinct fields are named, and holds the column's rank |
| Regions.HeaderRowLayout | app/components/DataGrid/DataGridRenderer.php:356-398 | the header row is the prototype's children, then the checker cell when the grid has operations, then exactly one cell per column in column order |
| Regions.HeaderCheckerSpans | app/components/DataGrid/DataGridRenderer.php:359-366 | the checker cell has only the class `checker`; it spans two rows when the grid has filters, and otherwise keeps the prototype's other attributes |
| Regions.HeaderCellAttrs | app/components/DataGrid/DataGridRenderer.php:370-393 | a header cell takes the column's header-prototype attributes, adds `actions` for an action column, and holds the ordering link when the column is orderable and the caption otherwise |
| Regions.HeaderCellUnordered | app/components/DataGrid/DataGridRenderer.php:370-372 | the cell of a column that cannot be ordered by does not depend on the sort state |
| Regions.FilterRowLayout | app/components/DataGrid/DataGridRenderer.php:408-442 | the filter row is the prototype's children followed by exactly one cell per column, in column order |
| Regions.FilterCellSpec | app/components/DataGrid/DataGridRenderer.php:411-440 | a filter cell takes the column's cell attributes; an action column gets the filter submit button with the configured submit class and cell class `actions`; a select-box filter gets the configured select class and any other filter the input class; a column without a filter shows `&nbsp;` |
| Regions.FilterSubmitDefault | app/components/DataGrid/DataGridRenderer.php:48-52 | with the built-in table the submit class is `button` |
| Regions.FilterSelectDefault | app/components/DataGrid/DataGridRenderer.php:48-52 | with the built-in table the select-box class is `select` |
| Regions.FilterInputDefault | app/components/DataGrid/DataGridRenderer.php:48-52 | with the built-in table the input class is `text` |
| Regions.ContentRowKey | app/components/DataGrid/DataGridRenderer.php:456-461 | a content row fails if and only if the grid has operations or actions and the record lacks the key column; the error names the key |
| Regions.ContentRowLayout | app/components/DataGrid/DataGridRenderer.php:454-493 | a content row is the prototype's children, then the checker of the record's key when the grid has operations, then exactly one cell per column in column order |
| Regions.ContentCellSpec | app/components/DataGrid/DataGridRenderer.php:471-490 | a content cell takes the column's cell attributes; a plain cell holds the formatted field value; an action cell holds the action links and has class `actions` |
| Regions.ActionsHtmlSpec | app/components/DataGrid/DataGridRenderer.php:476-482 | the action markup has two pieces per action: at 2i the i-th action's link with its translated title and the row key, at 2i + 1 one space |
| Regions.ActionsHtmlPrefix | app/components/DataGrid/DataGridRenderer.php:477-481 | each pass of the actions loop appends the next action's link and a space |
| Regions.RowClassDefaults | app/components/DataGrid/DataGridRenderer.php:210 | with the built-in table the 2nd, 4th, … rows get class `even` and the others the empty class |
| Regions.RowsInOrder | app/components/DataGrid/DataGridRenderer.php:207-212 | when every record can make a row, there is one content row per record, in record order, each with the class for its position |
| Regions.RowFails | app/components/DataGrid/DataGridRenderer.php:208-209 | one record that cannot make a row makes the rows block fail with the missing-key error |
| Regions.RowsMarkupStep | app/components/DataGrid/DataGridRenderer.php:208-211 | proof step for `AddContentRows`: a record that makes its row has the key if rows need it, and extends the rows by that row with the class for its position |
| Regions.RowsDone | app/components/DataGrid/DataGridRenderer.php:207-212 | proof step for `AddContentRows`: when all records have the key, the rows block yields the rows |
| Regions.ButtonShape | app/components/DataGrid/DataGridRenderer.php:236-245 | a paginator button carries the button prototype's classes plus its own; at the boundary it holds only its title as text, otherwise it ends with a link to its target page |
| Regions.PageInputReplaces | app/components/DataGrid/DataGridRenderer.php:263-268 | no raw markup of the page input still holds `%label%`, `%input%` or `%count%`: each was replaced by the label, the input or the page count |
| Regions.PaginatorSpec | app/components/DataGrid/DataGridRenderer.php:228-299 | there is no paginator if and only if there is at most one page; otherwise it is the container's children followed by the six parts |
| Regions.PaginatorOrder | app/components/DataGrid/DataGridRenderer.php:235-296 | the parts come in this order, each button with its own class: first, previous, the page input, the page submit, next, last |
| Regions.PaginatorBackward | app/components/DataGrid/DataGridRenderer.php:236-258 | on the first page, first and previous hold only their titles; otherwise they link to page 1 and to page − 1 |
| Regions.PaginatorForward | app/components/DataGrid/DataGridRenderer.php:272-295 | on the last page, next and last hold only their titles; otherwise they link to page + 1 and to the page count |
| Regions.PaginatorMarkupIs | app/components/DataGrid/DataGridRenderer.php:230-296 | proof step for `RenderPaginator`: the container with the four buttons built one by one and the page input between them is the paginator |
| Regions.OperationsSpec | app/components/DataGrid/DataGridRenderer.php:307-318 | there is no operations bar if and only if the grid has no operations; otherwise it is the container followed by the label, the select box and the submit button |
| Regions.InfoNumbers | app/components/DataGrid/DataGridRenderer.php:338-340 | `to` is offset + length and `count` is the item count; with items, the range from `from` to `to` holds exactly `length` items starting after the offset; with none, `from` is the offset |
| Regions.InfoReplaces | app/components/DataGrid/DataGridRenderer.php:331-343 | no raw markup of the info line still holds `%from%`, `%to%` or `%count%`: each was replaced by its number |
| Regions.ErrorListSpec | app/components/DataGrid/DataGridRenderer.php:167-187 | there is no list if and only if there are no errors; otherwise there is one item per error, in order; a message becomes the item's only (escaped) text, and ready markup is added after the item prototype's children |
| Regions.FooterRowSpec | app/components/DataGrid/DataGridRenderer.php:501-532 | the footer row holds one cell whose colspan is the column count plus 1 with operations; as rendered, its markup is the footer format with the three regions substituted, trimmed of `' '` and `'|'` at both ends |
| Regions.FooterReplaces | app/components/DataGrid/DataGridRenderer.php:514-527 | no raw markup of the footer, before or after the trim, still holds `%operations%`, `%paginator%` or `%info%`: every placeholder was replaced by its region |
| Regions.AssembleLayout | app/components/DataGrid/DataGridRenderer.php:196-215 | the assembled table is laid out as the prototype's children, the header row, the filter row when present, the content rows and the footer row |
| Regions.TableLayout | app/components/DataGrid/DataGridRenderer.php:196-217 | a table that renders has records that can all make rows, and is laid out as header, filter row when present, the content rows and footer |
| Regions.TableFails | app/components/DataGrid/DataGridRenderer.php:206-212 | the table fails if and only if the grid has operations or actions and some record lacks the key, equivalently when some record cannot make a content row; the error names the key |
| Regions.HeadIs | app/components/DataGrid/DataGridRenderer.php:196-204 | proof step for `RenderBody`: adding the header row and then the filter row, when there is one, gives the head of the table |
| Regions.BodyFails | app/components/DataGrid/DataGridRenderer.php:206-212 | proof step for `RenderBody`: the body fails with the rows' error when the rows block fails |
| Regions.BodyIs | app/components/DataGrid/DataGridRenderer.php:194-218 | proof step for `RenderBody`: otherwise the body is the table assembled from the header row, the filter row when the grid has filters, the content rows and the footer row |
| Markup.SpliceRestores | app/components/DataGrid/DataGridRenderer.php:514-526 | replacing a placeholder loses nothing else: putting the placeholder back where each replacement went gives back the format |
| Markup.SpliceReplaces | app/components/DataGrid/DataGridRenderer.php:514-526 | `str_replace` replaces every occurrence: when the replacement is rendered markup, no raw piece of the result contains the placeholder |
| Markup.SpliceKeeps | app/components/DataGrid/DataGridRenderer.php:514-526 | replacing a placeholder makes no other string appear in raw markup, because every raw piece of the result is a piece of the subject |
| Markup.SpliceAllReplaces | app/components/DataGrid/DataGridRenderer.php:514-526 | the same replacement applied to every raw piece leaves no occurrence of the placeholder |
| Markup.SpliceAllKeeps | app/components/DataGrid/DataGridRenderer.php:514-526 | and makes no other string appear |
| Markup.SpliceThreeReplaces | app/components/DataGrid/DataGridRenderer.php:514-526 | replacing three placeholders in turn, each by rendered markup, leaves none of the three in raw markup |
| Markup.SpliceThreeTrimmed | app/components/DataGrid/DataGridRenderer.php:514-527 | replacing three placeholders in turn and then trimming leaves none of the three in raw markup |
| Markup.TrimKeeps | app/components/DataGrid/DataGridRenderer.php:527 | trimming separators makes no string appear in raw markup |
| Markup.SpliceAbsent | app/components/DataGrid/DataGridRenderer.php:514-526 | a format without the placeholder is left as it is |
| Markup.TrimRendersAsTrim | app/components/DataGrid/DataGridRenderer.php:527 | trimming markup renders as removing the longest separator prefix and the longest separator suffix from its rendering |
| Markup.TrimStretch | app/components/DataGrid/DataGridRenderer.php:527 | what trim leaves is one contiguous stretch of the rendering, with only separators cut before and after it, and it neither starts nor ends with a separator |
| Markup.DropLeadingSpec | app/components/DataGrid/DataGridRenderer.php:527 | removing leading separators leaves a suffix that is empty or starts with a non-separator, and everything removed is a separator |
| Markup.DropTrailingSpec | app/components/DataGrid/DataGridRenderer.php:527 | removing trailing separators leaves a prefix that is empty or ends with a non-separator, and everything removed is a separator |
| Grid.TranslateSpec | app/components/DataGrid/DataGridRenderer.php:590-594 | without a translator a text is left unchanged; with one it is the translator's result; the grid matters only through its translator |
| Renderer.DataGridRenderer.constructor | app/components/DataGrid/DataGridRenderer.php:105-108 | a new renderer has the built-in wrappers and formats, no grid, and the template `grid.phtml` next to its source |
| Renderer.DataGridRenderer.GenerateHeaderRow | app/components/DataGrid/DataGridRenderer.php:354-399 | the header row built cell by cell, with the order decoded for every orderable column, is `HeaderRow` |
| Renderer.DataGridRenderer.GenerateFilterRow | app/components/DataGrid/DataGridRenderer.php:406-443 | the filter row built cell by cell is `FilterRow` |
| Renderer.DataGridRenderer.GenerateContentRow | app/components/DataGrid/DataGridRenderer.php:451-494 | the row built cell by cell, with action markup accumulated action by action, is `ContentRow`: the missing-key error, or the row |
| Renderer.DataGridRenderer.RenderOperations | app/components/DataGrid/DataGridRenderer.php:307-318 | the bar built control by control is `OperationsMarkup` |
| Renderer.DataGridRenderer.RenderPaginator | app/components/DataGrid/DataGridRenderer.php:225-300 | the paginator built button by button is `PaginatorMarkup` |
| Renderer.DataGridRenderer.RenderInfo | app/components/DataGrid/DataGridRenderer.php:325-347 | the info format field becomes its translation; the result is the info markup for that format; nothing else changes |
| Renderer.DataGridRenderer.RenderErrors | app/components/DataGrid/DataGridRenderer.php:167-187 | the list built item by item is `ErrorList` |
| Renderer.DataGridRenderer.GenerateFooterRow | app/components/DataGrid/DataGridRenderer.php:501-532 | both format fields become their translations; the row is `FooterRow` for them; nothing else changes |
| Renderer.DataGridRenderer.AddContentRows | app/components/DataGrid/DataGridRenderer.php:206-212 | the rows loop fails exactly when the rows block does, with its error; otherwise it adds exactly the content rows to the table |
| Renderer.DataGridRenderer.RenderBody | app/components/DataGrid/DataGridRenderer.php:194-218 | the table is `Body` for the translated formats; the format fields are translated on success and unchanged after a failure; nothing else changes |
| Renderer.DataGridRenderer.RenderBegin | app/components/DataGrid/DataGridRenderer.php:142-149 | every control of the form is marked not rendered, and the form's start tag is returned |
| Renderer.DataGridRenderer.RenderEnd | app/components/DataGrid/DataGridRenderer.php:156-160 | the form's end tag is returned |
| Renderer.DataGridRenderer.Render | app/components/DataGrid/DataGridRenderer.php:117-135 | the renderer takes the grid; without a supported data source it fails; without a mode it renders the template file; each mode returns its region's markup; the info mode translates only the info format; the body mode translates both formats when the body renders and neither when it fails; every other mode keeps both formats; only the begin mode changes the controls' `rendered` flags |

## Left out

- Serialisation of elements to text (`render()`, `startTag()`, `endTag()`,
  `__toString()`) is left out. Results are element trees, and the start and
  end tags are values naming the form.
- The `"\n"` that `renderErrors` puts before the list and `renderEnd` after the
  end tag is part of serialisation and is not modelled.
- Rendering the template file (`getTemplate`, `setFile`, the curly-brackets
  filter) is left out. `Render` without a mode returns a value naming the file.
- A mode that names no rendering method is not modelled. The renderer
  extends Nette's `Object`, whose `__call` throws `MemberAccessException` for
  a method that does not exist. Modes are an enumeration of the seven that
  exist.
- `render` passes `NULL` as the argument list. The model reads it as no
  arguments, which is what the code relies on. PHP versions that reject a
  `NULL` argument list fail every mode instead.
- `parse_str`'s URL decoding and bracket syntax are left out. The order
  expression is given as (field, direction) pairs; their assignment into PHP's
  ordered array is modelled.
- `parse_str` also turns `.` and spaces in a top-level key into `_`. The model
  keeps the field as written, so a column named `t.name` is marked as sorted
  in the model and not in PHP.
- `getValue` takes a reference, which inserts an empty entry into
  `$wrappers` when the path is missing. The model reads without changing the
  table and returns `None`.
- `$wrappers` is public, so a caller can store a spec string where the code
  expects a sub-table. A reference into a string entry, as in
  `wrappers[a][b][c]` with `wrappers[a][b]` a string, is a fatal error in
  PHP. `Config.Lookup` and the segment lookups return `None` there instead,
  so the model renders with the empty spec or class.
- `Html::el(spec)` is modelled for unquoted `key=value` tokens. Quoted values
  with spaces are left out. An entry that is a sub-table where a spec is
  expected reads as the empty spec.
- PHP's `str_replace` with arrays rescans the text produced by earlier
  replacements. The model substitutes into raw markup only, and the rendered
  regions it places are opaque pieces. The results differ in two cases:
  - a region whose markup contains a later placeholder;
  - an empty region between the two halves of a later placeholder, as in
    `%in%operations%fo%` with no operations. PHP joins the halves into
    `%in` `fo%` = `%info%` and then puts the info line there. The model keeps
    the halves as two raw pieces and puts nothing there.
- Trim stops at the first piece that is not raw markup. This matches PHP for
  the footer while the operations, paginator and info containers name a tag,
  as the built-in ones do: their markup then starts with `<` and ends with `>`.
  A container whose spec is missing or names no tag renders only its
  children. Its markup can then start or end with a separator, for example a
  translated info text ending in ` |`. PHP trims that separator and the model
  does not.
- An action's `getHtml()`, `generateLink()`, form controls, link generation,
  a column's `formatContent` and the iterator are collaborators outside this
  model. They appear as symbolic pieces and flags. `hasActions` is taken to
  mean that the action list is non-empty.
- If `getHtml()` returns the same object on every row, PHP translates an
  action's title again on each later row. The model translates it once per row.
- PHP `clone` is modelled by value semantics: every `getWrapper` result is an
  independent value, so changing one cell cannot change a sibling. No lemma
  states this, since it holds by construction.
- The translator is an optional function. It is the identity when the grid has none.
- Every method except `Render` requires a grid. Every call to them goes
  through `render()`, which sets `$dataGrid` first. Called earlier, most of
  them would be a fatal error in PHP. `renderPaginator` would not: reading
  `pageCount` of `NULL` only raises notices, `NULL <= 1` holds, and it
  returns `''`.
- Renderer.DataGridRenderer.RenderPaginator: the six `add` calls are modelled
  as one `AddAll` of the six parts, which is the same result.
- Renderer.DataGridRenderer.AddContentRows: the rows loop of `renderBody` is
  its own method, which returns the table with the rows added.
- Regions.FilterCellSpec: states the configured control classes. The
  built-in `button`, `select` and `text` are proved by FilterSubmitDefault,
  FilterSelectDefault and FilterInputDefault.
- The renderer addresses wrappers by their segments (`Wrapper2`, `Wrapper3`,
  `Entry2`, `Entry3`). The `Config.Name…` lemmas prove that each name the PHP
  code passes to `getWrapper` or `getValue` reads the same entry.
